# automated-mggg-qa audit engine, modelled in Dafny

This project models the part of automated-mggg-qa that compares a
districting dataset's population figures with US Census counts. The model
has three parts:

- **The audit checks of `checks.py`.** Each check is set up from a state's
  dataset description and its extracted table. It keeps an error counter,
  and the counter grows as the check's assertions fail:
  - `TotalPopulationCheck` compares the dataset total with the Census
    state total. The two may differ by one.
  - `CountyTotalPopulationCheck` first groups the table's rows by their
    index label, merging repeated rows field by field. It then asks the
    Census for those counties. Each county can cost one error for a zero
    population and one for a mismatch with the Census figure.
  - `DataExistenceCheck` requires every value of the county-code column
    to be filled.
  
  Each check is a class with `errors`, `log` and `requests` fields.
  `requests` holds the URLs it read. Its `Audit` method is proved to leave
  exactly the state that a specification function (`TotalAudit`,
  `CountyAudit`, `DataExistenceAudit`) gives, and lemmas state what those
  functions guarantee.
- **The Census API wrapper of `census.py`.** This covers:
  - the URL template;
  - the decoding of the answer's cells (text beginning with "0" stays text,
    anything else becomes an integer);
  - the table checks made when the answer becomes a data frame;
  - the population query, which answers a state total for `["*"]` and a
    county-to-population map for anything else.
  
  The network read is the parameter `net`: a function from request URL to
  the rows of the decoded JSON answer.
- **The older driver `audit.py`.** This covers:
  - the repository-name filter, and the state read off each name;
  - the set of repositories to audit, filled by a loop;
  - the archive and file paths, and the unzip directory;
  - the driver's own state-level Census wrapper, whose `fetch` pairs a
    header with one data row through `dict(zip(*rows))`;
  - `run_audit`, which runs the total-population comparison for each
    description in turn and aborts on the first mismatch.

Shared pieces live in their own modules:
- `Rules`: the decade and the ±1 tolerance.
- `Values`: Python's tagged scalars, their truthiness and arithmetic, and
  `int()` and `sum()`.
- `Strings`: the string built-ins used (`str`, `int`, `split`, `join`,
  `replace`, `zfill`, `format`).
- `Description`: the description records.
- `Exceptions` and `Wrappers`: a raised exception is an `Err` value.

An error already added to a counter stays added when a later statement
raises.

## Model

| member | source | states |
|---|---|---|
| Rules.Decade | checks.py:19 | the census year is a multiple of ten, at most the effective year and within ten years of it (`audit.py:145` uses the same rule) |
| Rules.Distance | checks.py:35 | `abs(a - b)`: the non-negative distance that carries one count onto the other |
| Values.Add | checks.py:57 | `+` succeeds exactly for two numbers or two strings; for numbers it is the exact sum, and an int exactly when both operands are ints |
| Values.Sub | checks.py:84-85 | `-` succeeds exactly for two numbers, with the exact difference, and is an int exactly for two ints |
| Values.Abs | checks.py:83 | `abs` of a number is non-negative, equals the number or its negation, and keeps the int/float tag |
| Values.Truncate | checks.py:27 | `int()` of a float rounds toward zero: the result lies within one of the value, on the side of zero |
| Values.SumOfNumbers | checks.py:28 | `sum()` succeeds exactly on an all-numeric column, with the exact sum; the sum is an int exactly when every value is an int, otherwise TypeError |
| Strings.NatToString | census.py:10 | `str(n)` is a non-empty string of decimal digits that starts with "0" only for zero |
| Strings.ParseIntToString | census.py:27 | `int(str(i)) == i` for every integer |
| Strings.ParseIntDigits | census.py:27 | `int()` of a string of ASCII digits is the number those digits denote |
| Strings.ParseIntNegativeDigits | census.py:27 | `int()` of "-" followed by digits is the negated value of the digits |
| Strings.DigitsValueOfNatToString | census.py:27 | the digits of `str(n)` denote `n` |
| Strings.DigitsValueLeadingZeros | checks.py:64 | leading zeros do not change the number that digits denote |
| Strings.ZFill | checks.py:80 | `zfill(width)` yields the longer of the text's length and the width |
| Strings.ZFillOfIntToString | checks.py:80 | padding the text of an integer puts the zeros between the sign and the digits |
| Strings.ParseIntZFill | checks.py:64 | `int(str(i).zfill(w)) == i`: padding keeps the code's number |
| Strings.JoinSplit | audit.py:66 | joining the parts of `split(sep)` with `sep` gives the string back |
| Strings.SplitPartsFree | audit.py:66 | no part of a split contains the separator |
| Strings.FirstPartIsPrefix | audit.py:78 | `split(sep)[0]` is the longest separator-free prefix: it is followed by the separator or ends the string |
| Strings.LastPartIsSuffix | audit.py:66 | `split(sep)[-1]` is the longest separator-free suffix: it is preceded by the separator or starts the string |
| Strings.FirstPartBefore | audit.py:78 | for `t + sep + q` with `t` separator-free, the first part is `t` |
| Strings.LastPartAfter | audit.py:66 | after a prefix ending in the separator, a separator-free tail is the last part |
| Strings.ReplaceAbsent | audit.py:114 | `replace` leaves a string without the pattern unchanged |
| Strings.ReplaceAround | audit.py:114 | around a character that occurs nowhere in the pattern, `replace` works on each side separately |
| Strings.FormatLiteral | census.py:20-22 | brace-free text in front of a template is copied through `format` unchanged |
| Strings.FormatField | census.py:20-22 | a leading `{name}` field whose name is an argument is replaced by the argument |
| Strings.FormatOneField | census.py:20-22 | one field between brace-free texts is replaced by its argument and nothing else changes |
| Strings.FormatBraceFree | census.py:20-22 | `format` of brace-free text is the text itself |
| Census.ResourceIsQueryUrl | census.py:20-22 | the wrapper built for a year and a state requests the written-out URL, with the fields and the counties each joined by commas (template at `census.py:10`) |
| Census.ConvertCellOfIntToString | census.py:27 | the text of an integer decodes back to that integer, except "0", which stays text |
| Census.NatToStringLength | checks.py:80 | the text of a natural number has at least three characters exactly when the number is at least 100, so `zfill(3)` pads only codes below 100 |
| Census.ConvertPaddedCode | census.py:27 | a county code padded to three characters comes back as text below 100 and as an integer from 100 on |
| Census.ConvertRow | census.py:27 | a row converts exactly when every cell does, cell by cell in place; otherwise ValueError is raised |
| Census.ConvertRows | census.py:26-29 | the rows convert exactly when every row does; each converted row is the conversion of the answer row in the same position; otherwise ValueError |
| Census.Decode | census.py:25-31 | a decoded answer's header is its first row and names `county`; it has one data row per remaining answer row, each as long as the header and the cell-by-cell conversion of that answer row |
| Census.DecodeOutcome | census.py:25-31 | a non-empty answer makes a table exactly when its header names `county` and every data row converts and is as wide as the header; a bad cell or a row of another width gives ValueError, a header without `county` KeyError |
| Census.Fetch | census.py:19-31 | a successful fetch requested the formatted resource; its header is the answer's first row and names `county`; it has one data row per remaining answer row, each as long as the header and decoded cell by cell |
| Census.FetchOutcome | census.py:19-31 | `fetch` succeeds exactly when the resource formats, the answer is non-empty, its header names `county`, and every data row converts and is as wide as the header. Otherwise: the formatting error, IndexError for an empty answer, ValueError for a bad cell or a row of another width, KeyError for a header without `county` |
| Census.ColumnTotal | census.py:15 | the column sum exists exactly when every cell in the column is an integer, and is then the sum of those integers |
| Census.CountyMapKeys | census.py:17 | the county map has a key for exactly the counties that occur in the answer |
| Census.CountyMapLastWins | census.py:17 | the county of a row that no later row repeats maps to that row's population; when every county occurs once this is pandas' `dict` of the column |
| Census.GetPopulation | census.py:12-17 | the answer is a state total exactly when the counties are `["*"]`, and a county map otherwise |
| Census.GetPopulationCounties | census.py:12-17 | for a selection of counties, the answer exists exactly when the fetched header names `P009001`, and is then the county map of the fetched rows; a failed fetch raises its own error, a missing field KeyError |
| Census.GetPopulationTotal | census.py:14-15 | for `["*"]`, the answer exists exactly when the population column is all-integer, and is then the sum over all data rows |
| Census.CountyKeysText | census.py:27 | every text key of a county map begins with "0" |
| Checks.PaddedCodeOfInt | checks.py:80 | the padded code of an integer label has at least three characters and reads back as the same integer |
| Checks.PaddedCodesReadBack | checks.py:64 | every code sent has at least three characters; an integer label's code reads back as that integer, and a text label of three or more characters is sent unchanged |
| Checks.ColumnValuesSpec | checks.py:28 | the column's values are its field in every row, in row order; the only error is KeyError |
| Checks.ListValuesSpec | checks.py:105 | the listed values are the column's field in every row; an unset column or a row without it raises KeyError |
| Checks.MakeSetup | checks.py:9-20 | the setup keeps the description and the table; its census year is the decade of the effective end year, and its wrapper is built for that year and the state's FIPS code |
| Checks.RequestOfConstructedWrapper | checks.py:26 | the set-up wrapper reads the written-out population URL for the requested counties |
| Checks.MgggTotalIsTruncatedSum | checks.py:27-29 | the dataset total exists exactly when the column is present in every row and all-numeric, and is then the exact sum truncated toward zero |
| Checks.TotalAuditCounts | checks.py:24-42 | reads the state query once. With both totals, returns the new counter, which grew by one exactly when the totals differ by more than one. Logs one comparison line, followed in that case only by an error line with the difference. A raise leaves counter and log unchanged |
| Checks.TotalPopulationCheck.constructor | checks.py:9-20 | a new check has the setup of its description and table, a zero counter, an empty log and no requests |
| Checks.TotalPopulationCheck.Audit | checks.py:24-42 | the new counter, log, requests and result are those of `TotalAudit` on the old state |
| Checks.FindSpec | checks.py:55 | the lookup answers the first entry with the label, and nothing exactly when no entry has it |
| Checks.MergeSpec | checks.py:56-59 | a merge succeeds exactly when the new row has every accumulated field and each field merges; the result has the accumulated row's fields, merged one by one |
| Checks.AggregateCounties | checks.py:52-61 | the dict built in place by the loop is the aggregation of the whole table, and a failed merge ends it with that error |
| Checks.AggregateErrorSticks | checks.py:56-59 | a merge that raises ends the aggregation: later rows change nothing |
| Checks.AggregateDistinctLabels | checks.py:53 | with distinct index labels the aggregate is the table itself, in order |
| Checks.AddRowLookup | checks.py:55-61 | adding a row changes only its own label's entry: a new label gets the row, a repeated one the merge of its entry with the row |
| Checks.AddRowDistinct | checks.py:55-61 | adding a row keeps one entry per label |
| Checks.AggregateLookupStep | checks.py:53-61 | how a label's entry evolves when the next row is added |
| Checks.AggregateDistinct | checks.py:52-61 | the aggregate has one entry per label |
| Checks.AggregateEntry | checks.py:52-61 | a label has an entry exactly when some row carries it, and the entry is the left-to-right merge of all those rows, starting with the first row as it is |
| Checks.MergeAllWidth | checks.py:58 | merging never adds fields: a label's entry has the fields of its first row |
| Checks.MergeFloatField | checks.py:57 | a float field adds the new row's value, which must be a number |
| Checks.MergeOtherField | checks.py:57 | a non-float field keeps a truthy value and otherwise takes the new row's value |
| Checks.MergeAllSumsFloats | checks.py:57 | a field that is a float in the first row is summed: every row holds a number there, and the merged value is the float sum |
| Checks.MergeAllKeepsFirstTruthy | checks.py:57 | a field that is never a float (such as an integer population) is not summed: it keeps the first truthy value, or the last value when none is truthy |
| Checks.FloatFieldIsSummed | checks.py:52-61 | in the aggregate, a label's float field is the sum over all rows carrying that label |
| Checks.NonFloatFieldKeepsFirstTruthy | checks.py:52-61 | in the aggregate, a label's non-float field is the first truthy value over its rows, or the last value |
| Checks.CountyRunRaisedSticks | checks.py:66-93 | an exception raised for one county ends the loop: later counties change nothing |
| Checks.CountyRunCounts | checks.py:66-93 | each county adds at most two errors and the counter never decreases; a county that completes its pass adds exactly its failed assertions (zero population, and independently a Census mismatch above one) |
| Checks.ZeroPopulationCounted | checks.py:72-78 | a county with zero aggregated population always costs an error, whatever the Census says, once the loop reaches it |
| Checks.CountyRunMonotone | checks.py:66-93 | the counter never decreases along the county loop |
| Checks.FirstCountyZeroRaises | checks.py:77-80 | on the first county the message reads the not-yet-assigned `county_fips`: the error is counted, nothing is logged, and UnboundLocalError ends the check |
| Checks.LaterCountyZeroReportsPrevious | checks.py:77-80 | on a later county the zero-population message carries the previous county's padded code |
| Checks.CodeWithoutLeadingZeroNotFound | checks.py:85 | an integer label of 100 or more is never found in the Census county map, whose matching key was decoded to an integer: the lookup raises KeyError |
| Checks.CountyAuditUnset | checks.py:46-95 | without a configured county column the check reads nothing, logs nothing and returns the counter unchanged |
| Checks.CountyAuditQueriesAndBounds | checks.py:63-93 | with a county column the Census is queried once, for every aggregated label padded to three characters in dict order; the counter grows by 0 to 2 per county and is the value returned |
| Checks.CountyTotalPopulationCheck.constructor | checks.py:9-20 | a new check has the setup of its description and table, a zero counter, an empty log and no requests |
| Checks.CountyTotalPopulationCheck.Audit | checks.py:45-95 | the new counter, log, requests and result are those of `CountyAudit` on the old state |
| Checks.CountyTotalPopulationCheck.CheckCounties | checks.py:66-93 | the per-county loop leaves the counter and the log as the run of the county step over the aggregate, and returns the exception that ended it |
| Checks.CountyTotalPopulationCheck.CheckCountiesWith | checks.py:66-93 | the same loop, proved for any step function that agrees with the county step |
| Checks.CountyTotalPopulationCheck.CheckCounty | checks.py:67-93 | one county's pass changes the counter, the log and `county_fips` as the county step says, and returns what it raised |
| Checks.ExistenceRunRaisedSticks | checks.py:103-105 | a column that raises ends the existence loop |
| Checks.DataExistenceCounts | checks.py:98-111 | adds one error exactly when the county column is set, present in every row, and falsy somewhere. A column missing from a row raises KeyError. An unset column checks nothing. The counter never decreases and nothing is read from the network |
| Checks.DataExistenceCheck.constructor | checks.py:9-20 | a new check has the setup of its description and table, a zero counter, an empty log and no requests |
| Checks.DataExistenceCheck.Audit | checks.py:98-111 | the new counter, log and result are those of `DataExistenceAudit` on the old state; the result is `None`, i.e. `Ok(())` |
| Audit.RepoMapKeys | audit.py:63-75 | a name is a key of a repository map exactly when it is listed and accepted; for openelections, acceptance is the `^openelections-data-\S\S$` match |
| Audit.RepoMapLastWins | audit.py:64-86 | a name's entry is built from the last listed pair with that name, with the account's state rule |
| Audit.OpenElectionsState | audit.py:66 | an accepted openelections name whose state characters hold no "-" stands for exactly those characters |
| Audit.MgggState | audit.py:78 | an mggg-states name `state-rest` stands for `state` |
| Audit.RepoNamesCount | audit.py:88-93 | duplicates collapse: at most one repository name per description, and exactly one each when the names are distinct |
| Audit.Auditor.constructor | audit.py:52-93 | the maps are the filtered listings, and `audit_repos` (filled by the loop) is the set of the descriptions' repository names |
| Audit.ExpandPlain | audit.py:114 | a path without ".zip" is its own output directory |
| Audit.ExpandArchive | audit.py:114 | an archive named by a stem and its only ".zip" extracts into `stem/` |
| Audit.FilePathLayout | audit.py:137-138 | for names without ".zip" and an archive `stem.zip`, the file is read from `dir/repo/stem/file` |
| Audit.ResourceIsStateQueryUrl | audit.py:30-41 | the driver's wrapper requests the state query for its year and state, with the fields joined by commas |
| Audit.MinLengthSpec | audit.py:38-44 | the number of tuples `zip` yields is the shortest row's length, a lower bound of every row's length and one of them |
| Audit.PairsLookup | audit.py:38-44 | in `dict(zip(keys, values))` a key maps to the value at its last occurrence |
| Audit.PairsKeys | audit.py:38-44 | the keys of `dict(zip(keys, values))` are exactly the given keys |
| Audit.HeaderRowPairing | audit.py:37-44 | a header and one data row of the same length pair up: the keys are the header's names, each mapped to the cell under its last occurrence |
| Audit.OtherShapesRaise | audit.py:38-44 | any other non-empty shape of answer makes `dict` raise ValueError |
| Audit.AuditDescriptionOutcome | audit.py:124-163 | one description reads the state query for its census decade once and logs its start. Once both totals exist it also logs the comparison, and it passes exactly when they differ by at most one; otherwise AssertionError carries the distance. A missing total raises its error after the start line |
| Audit.ChainRaisedSticks | audit.py:161-163 | a raise ends the loop over descriptions: later ones are not audited |
| Audit.ChainCompletes | audit.py:124-163 | the loop gets through its items exactly when none raises, and then it has made all their reads, in order |
| Audit.AuditRunCompletes | audit.py:120-163 | the whole audit completes exactly when every description passes, and then it has made one state query per description |
| Audit.Auditor.RunAudit | audit.py:120-163 | the log and requests grow by what the run of all descriptions logs and reads, and the result is the exception that ended it, if any |
| Audit.Auditor.RunChain | audit.py:124-163 | the loop of `run_audit` gives the same result for any step function that agrees with a description's pass |
| Audit.Auditor.AuditNext | audit.py:124-163 | the loop, past descriptions that passed, audits one more exactly as the chained run does |
| Audit.Auditor.AuditOne | audit.py:125-163 | one description's pass appends the log lines and the read that `AuditDescription` gives and returns what it raises |

## Left out

- Network reads (`requests.get`) and JSON decoding: the answer's rows are the parameter `net`, keyed by the requested URL. The URLs read are recorded in `requests`.
- GitHub listing and cloning (`dm.list_gh_repos`, `dm.clone_gh_repos`), the temporary directories, and reading the description files (`glob`, `load_descriptor`): these are constructor parameters, namely the listings, the directory names and the descriptions.
- Zip extraction and shapefile reading (`zipfile`, `gdutils.extract`): only the paths are modelled. The table read from a path is the parameter `files`, and `expand_zipfile` is its returned directory name.
- The tables (`gdutils` extraction, `list_values`, `iterrows`, pandas data frames): a table is column names plus labelled rows of tagged values. A Census data frame is a header plus decoded rows, and a pandas column's type coercion is not modelled.
- Floating-point arithmetic: float cells carry exact reals, so no rounding happens in sums, in `abs` or in comparisons.
- Census.CountyMap, Census.CountyMapLastWins: a county that occurs in several rows of the Census answer keeps its last row's population. pandas' `dict()` of a column with a repeated index label maps that county to a sub-Series of all its rows, and the later comparison at `checks.py:82-88` then raises. The model does not capture that sub-Series, which arises only when the query names one county twice (for instance labels `1` and `"001"`, both sent as `001`).
- Census.Fetch, Census.FetchOutcome: a data row whose width differs from the header's raises ValueError. `DataFrame.from_records` instead pads short rows with missing values when the widest row matches the header. The model has no missing-value cell, so it does not capture padded rows and their effect on the sum or the county map.
- Census.ColumnTotal: a population column holding a text cell raises TypeError. pandas would instead concatenate an all-text column.
- `int()` on text: an optional sign, ASCII digits and surrounding whitespace. Underscores and non-ASCII digits are left out.
- `str.format`: plain `{name}` fields and doubled braces only. Format specifications and conversions do not occur in the templates.
- The logger (`utils/logger.py`, `utils/color.py`): a log call is a (severity, event) record appended to `log`, and the message text is not formatted. The `print` calls (`audit.py:34`, `audit.py:165`) are left out, being output only.
- `description.py`'s `Metadata` has no `stateAbbreviation`, but the county messages read it (`checks.py:77`). The model's metadata carries the field.
- `run_audit` reads the file name as `metadata["file"]` (`audit.py:132`), and the model reads it from the description's `fileName`. `int(metadata["stateFIPSCode"])` is the typed `stateFIPSCode` field.
- The election-result records of `description.py` (`ElectionYearResult`, `PartyDescriptor`, `StateDatafile`): nothing in the core reads them.
- The unused `census_api_key` argument and the `__main__` block of `audit.py` are left out.
- `re.match`'s `\S` is the complement of Python's `str.isspace` characters, as listed in `Strings.IsSpace`.
