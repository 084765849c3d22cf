/** The audit rules of checks.py. Every check is built from a dataset
    descriptor and the extracted table (BaseCheck), keeps a running error
    counter and adds to it as its assertions fail. The three checks compare
    the dataset's total population with the Census total, compare each
    county's aggregated population with the Census county figure, and
    require the county-code column to be filled.

    Each check is a class whose `Audit` method updates the counter, the
    log and the list of URLs read from the network step by step; its
    postcondition equates the new state with a function of the old state
    (TotalAudit, CountyAudit, DataExistenceAudit), and the lemmas below
    state what these functions guarantee. */
module Checks {
  import opened Wrappers
  import opened Exceptions
  import opened Strings
  import opened Values
  import opened Rules
  import opened Description
  import opened Census

  // ---------------------------------------------------------------------
  // The extracted table

  /** An index label of the extracted table. */
  datatype Label = IntLabel(n: int) | TextLabel(text: string)

  /** `str(label)`. */
  function LabelText(l: Label): string {
    match l
    case IntLabel(n) => IntToString(n)
    case TextLabel(t) => t
  }

  /** `str(label).zfill(3)`: a county code as it is sent to the Census API
      and looked up in its answer. */
  function PaddedCode(l: Label): string {
    ZFill(LabelText(l), 3)
  }

  /** The padded code of an integer label is at least three characters
      long and still reads as the same integer. */
  lemma PaddedCodeOfInt(n: int)
    ensures |PaddedCode(IntLabel(n))| >= 3
    ensures ParseInt(PaddedCode(IntLabel(n))) == Some(n)
  {
    ParseIntZFill(n, 3);
  }

  function PaddedCodes(labels: seq<Label>): (codes: seq<string>)
    ensures |codes| == |labels| && forall i :: 0 <= i < |labels| ==> codes[i] == PaddedCode(labels[i])
  {
    seq(|labels|, i requires 0 <= i < |labels| => PaddedCode(labels[i]))
  }

  /** Every code sent for the aggregated labels has at least three
      characters; an integer label's code reads back as that integer, and a
      text label already three characters long is sent as it is. */
  lemma PaddedCodesReadBack(labels: seq<Label>)
    ensures forall i :: 0 <= i < |labels| ==>
      |PaddedCodes(labels)[i]| >= 3
      && (labels[i].IntLabel? ==> ParseInt(PaddedCodes(labels)[i]) == Some(labels[i].n))
      && (labels[i].TextLabel? && |labels[i].text| >= 3 ==> PaddedCodes(labels)[i] == labels[i].text)
  {
    forall i | 0 <= i < |labels| && labels[i].IntLabel? {
      PaddedCodeOfInt(labels[i].n);
    }
  }

  /** One row's values, aligned with the frame's columns. */
  type Row = seq<Value>

  /** The extracted table: its column names, and its rows in `iterrows()`
      order, each with its index label. */
  datatype Frame = Frame(columns: seq<string>, rows: seq<(Label, Row)>)

  /** `row[column]`: the value under the first column of that name;
      KeyError when there is none. */
  function Field(columns: seq<string>, row: Row, column: string): (r: Result<Value, Exc>)
    ensures r.Ok? <==> column in columns && IndexOf(columns, column) < |row|
    ensures r.Ok? ==> r.value == row[IndexOf(columns, column)]
  {
    if column in columns && IndexOf(columns, column) < |row| then Ok(row[IndexOf(columns, column)]) else Err(KeyError)
  }

  function ColumnValues(columns: seq<string>, rows: seq<(Label, Row)>, column: string): Result<seq<Value>, Exc> {
    if rows == [] then Ok([])
    else
      var first :- Field(columns, rows[0].1, column);
      var rest :- ColumnValues(columns, rows[1..], column);
      Ok([first] + rest)
  }

  /** `shapefile.list_values(column)`: the column's value in every row; an
      unset or missing column raises KeyError. */
  function ListValues(f: Frame, column: Option<string>): Result<seq<Value>, Exc> {
    if column.None? then Err(KeyError) else ColumnValues(f.columns, f.rows, column.value)
  }

  lemma {:induction false} ColumnValuesSpec(columns: seq<string>, rows: seq<(Label, Row)>, column: string)
    ensures var r := ColumnValues(columns, rows, column);
      (r.Ok? <==> forall i :: 0 <= i < |rows| ==> Field(columns, rows[i].1, column).Ok?)
      && (r.Ok? ==> |r.value| == |rows| && forall i :: 0 <= i < |rows| ==> r.value[i] == Field(columns, rows[i].1, column).value)
      && (r.Err? ==> r.error == KeyError)
    decreases |rows|
  {
    if rows != [] {
      ColumnValuesSpec(columns, rows[1..], column);
      assert forall i :: 1 <= i < |rows| ==> rows[i] == rows[1..][i - 1];
    }
  }

  /** The listed values are the column's field in every row, in row order;
      the only error is KeyError, for an unset column or a row without it. */
  lemma ListValuesSpec(f: Frame, column: Option<string>)
    ensures var r := ListValues(f, column);
      (r.Ok? <==> column.Some? && forall i :: 0 <= i < |f.rows| ==> Field(f.columns, f.rows[i].1, column.value).Ok?)
      && (r.Ok? ==> |r.value| == |f.rows| && forall i :: 0 <= i < |f.rows| ==> r.value[i] == Field(f.columns, f.rows[i].1, column.value).value)
      && (r.Err? ==> r.error == KeyError)
  {
    if column.Some? {
      ColumnValuesSpec(f.columns, f.rows, column.value);
    }
  }

  // ---------------------------------------------------------------------
  // What every check is built from

  datatype Setup = Setup(metadata: Metadata, descriptors: Descriptor, frame: Frame, decentennial: int, census: CensusWrapper)

  /** `BaseCheck.__init__`: the census year is the decade of the last
      effective year, and the Census wrapper is built for it. */
  function MakeSetup(schema: StateSchema, frame: Frame): (s: Setup)
    ensures s.metadata == schema.metadata && s.descriptors == schema.descriptors && s.frame == frame
    ensures s.decentennial % 10 == 0 && s.decentennial <= schema.metadata.yearEffectiveEnd < s.decentennial + 10
    ensures s.census == NewCensusWrapper(s.decentennial, schema.metadata.stateFIPSCode)
  {
    var decade := Decade(schema.metadata.yearEffectiveEnd);
    Setup(schema.metadata, schema.descriptors, frame, decade, NewCensusWrapper(decade, schema.metadata.stateFIPSCode))
  }

  datatype Severity = Info | Warning | Error

  /** What a log line reports, with the values it is formatted from. */
  datatype Event =
    | TotalComparison(decade: int, census: int, mggg: int, repo: string, year: int)
    | TotalMismatch(offBy: nat)
    | CountyCheckStart(repo: string, year: int)
    | CountyZeroPopulation(county: Value, state: string, fips: string)
    | CountyMismatch(county: Value, state: string, fips: string, countyMggg: Value, countyCensus: Cell)
    | ColumnNotFilled(column: string, repo: string, year: int)

  datatype LogRecord = LogRecord(severity: Severity, event: Event)

  /** The effect of one `audit()` call: the new error counter, the new log,
      the URLs it read, and what it returns or raises. */
  datatype Outcome<T> = Outcome(errors: nat, log: seq<LogRecord>, requests: seq<string>, result: Result<T, Exc>)

  /** The URL a population query for these counties reads, if it can be formed. */
  function Request(w: CensusWrapper, counties: seq<string>): seq<string> {
    var resource := Resource(w, [PopulationField], counties);
    if resource.Ok? then [resource.value] else []
  }

  lemma RequestOfConstructedWrapper(year: int, state: int, counties: seq<string>)
    ensures Request(NewCensusWrapper(year, state), counties) == [QueryUrl(year, state, [PopulationField], counties)]
  {
    ResourceIsQueryUrl(year, state, [PopulationField], counties);
  }

  // ---------------------------------------------------------------------
  // TotalPopulationCheck

  /** `int(self.census.get_population())`. */
  function CensusTotal(s: Setup, net: Network): Result<int, Exc> {
    var p :- GetPopulation(s.census, AllCounties, net);
    if p.Total? then Ok(p.count) else Err(TypeError)
  }

  /** `int(sum(shapefile.list_values(column)))`: the dataset total of a
      population column. */
  function MgggTotal(f: Frame, column: Option<string>): Result<int, Exc> {
    var values :- ListValues(f, column);
    var total :- Sum(values);
    IntOf(total)
  }

  /** The dataset total is the sum of the population column, truncated
      toward zero; it exists exactly when the column is present in every
      row and holds only numbers. */
  lemma MgggTotalIsTruncatedSum(f: Frame, column: Option<string>)
    ensures MgggTotal(f, column).Ok? <==> ListValues(f, column).Ok? && AllNumeric(ListValues(f, column).value)
    ensures MgggTotal(f, column).Ok? ==> MgggTotal(f, column).value == Truncate(RealSum(ListValues(f, column).value))
  {
    var values := ListValues(f, column);
    if values.Ok? {
      SumOfNumbers(values.value);
      if AllNumeric(values.value) {
        var total := Sum(values.value).value;
        if total.Int? {
          assert total.i as real == RealSum(values.value);
          assert Truncate(total.i as real) == total.i;
        }
      }
    }
  }

  function TotalAudit(s: Setup, net: Network, errors: nat, log: seq<LogRecord>): Outcome<int> {
    var requests := Request(s.census, AllCounties);
    match CensusTotal(s, net)
    case Err(e) => Outcome(errors, log, requests, Err(e))
    case Ok(census) =>
      match MgggTotal(s.frame, s.descriptors.totalPopulation)
      case Err(e) => Outcome(errors, log, requests, Err(e))
      case Ok(mggg) =>
        var compared := log + [LogRecord(Info, TotalComparison(s.decentennial, census, mggg, s.metadata.repoName, s.metadata.yearEffectiveEnd))];
        if WithinTolerance(mggg, census) then Outcome(errors, compared, requests, Ok(errors))
        else Outcome(errors + 1, compared + [LogRecord(Error, TotalMismatch(Distance(census, mggg)))], requests, Ok(errors + 1))
  }

  /** The total check reads the whole-state query once; when both totals
      exist it returns the updated counter, which grew by one exactly when
      they differ by more than one, and it logs one comparison line followed,
      in that case only, by an error line with the difference. */
  lemma TotalAuditCounts(schema: StateSchema, frame: Frame, net: Network, errors: nat, log: seq<LogRecord>)
    ensures var s := MakeSetup(schema, frame);
      var o := TotalAudit(s, net, errors, log);
      o.requests == [QueryUrl(s.decentennial, schema.metadata.stateFIPSCode, [PopulationField], AllCounties)]
      && (o.result.Ok? <==> CensusTotal(s, net).Ok? && MgggTotal(s.frame, s.descriptors.totalPopulation).Ok?)
      && (o.result.Err? ==> o.errors == errors && o.log == log)
      && (o.result.Ok? ==>
        var census, mggg := CensusTotal(s, net).value, MgggTotal(s.frame, s.descriptors.totalPopulation).value;
        o.result.value == o.errors
        && (o.errors == errors + 1 <==> Distance(mggg, census) > 1)
        && (o.errors == errors <==> Distance(mggg, census) <= 1)
        && |o.log| == |log| + (o.errors - errors) + 1
        && o.log[..|log|] == log && o.log[|log|].severity == Info
        && (o.errors > errors ==> o.log[|log| + 1] == LogRecord(Error, TotalMismatch(Distance(census, mggg)))))
  {
    var s := MakeSetup(schema, frame);
    RequestOfConstructedWrapper(s.decentennial, schema.metadata.stateFIPSCode, AllCounties);
  }

  class TotalPopulationCheck {
    const setup: Setup
    var errors: nat
    var log: seq<LogRecord>
    var requests: seq<string>

    constructor (schema: StateSchema, frame: Frame)
      ensures setup == MakeSetup(schema, frame) && errors == 0 && log == [] && requests == []
    {
      setup := MakeSetup(schema, frame);
      errors := 0;
      log := [];
      requests := [];
    }

    method Audit(net: Network) returns (r: Result<int, Exc>)
      modifies this
      ensures var o := TotalAudit(setup, net, old(errors), old(log));
        errors == o.errors && log == o.log && requests == old(requests) + o.requests && r == o.result
    {
      requests := requests + Request(setup.census, AllCounties);
      var census := CensusTotal(setup, net);
      if census.Err? {
        return Err(census.error);
      }
      var mggg := MgggTotal(setup.frame, setup.descriptors.totalPopulation);
      if mggg.Err? {
        return Err(mggg.error);
      }
      log := log + [LogRecord(Info, TotalComparison(setup.decentennial, census.value, mggg.value,
                                                     setup.metadata.repoName, setup.metadata.yearEffectiveEnd))];
      if !WithinTolerance(mggg.value, census.value) {
        errors := errors + 1;
        log := log + [LogRecord(Error, TotalMismatch(Distance(census.value, mggg.value)))];
      }
      return Ok(errors);
    }
  }

  // ---------------------------------------------------------------------
  // Aggregation by index label (CountyTotalPopulationCheck, first loop)

  /** The `county_aggregate` dict: its entries in insertion order. */
  type Aggregate = seq<(Label, Row)>

  /** The position of a label's entry, if it has one. */
  function Find(a: Aggregate, key: Label): Option<nat> {
    if a == [] then None
    else if a[0].0 == key then Some(0)
    else
      match Find(a[1..], key)
      case None => None
      case Some(i) => Some(i + 1)
  }

  /** `Find` answers with the first entry of the label, and with nothing
      exactly when no entry has it. */
  lemma {:induction false} FindSpec(a: Aggregate, key: Label)
    ensures Find(a, key).None? ==> forall i :: 0 <= i < |a| ==> a[i].0 != key
    ensures Find(a, key).Some? ==>
      Find(a, key).value < |a| && a[Find(a, key).value].0 == key && forall i :: 0 <= i < Find(a, key).value ==> a[i].0 != key
  {
    if a != [] && a[0].0 != key {
      FindSpec(a[1..], key);
    }
  }

  /** `county_aggregate.get(key)`. */
  function Lookup(a: Aggregate, key: Label): Option<Row> {
    FindSpec(a, key);
    match Find(a, key)
    case None => None
    case Some(i) => Some(a[i].1)
  }

  function Labels(a: Aggregate): (ls: seq<Label>)
    ensures |ls| == |a| && forall i :: 0 <= i < |a| ==> ls[i] == a[i].0
  {
    seq(|a|, i requires 0 <= i < |a| => a[i].0)
  }

  /** No label has two entries. */
  predicate Distinct(a: Aggregate) {
    forall i, j :: 0 <= i < j < |a| ==> a[i].0 != a[j].0
  }

  /** The merge rule for one field: a float adds the new value, a truthy
      non-float is kept, and anything else is replaced by the new value. */
  function MergeField(v: Value, x: Value): Result<Value, Exc> {
    if v.Float? then Add(v, x) else if Truthy(v) then Ok(v) else Ok(x)
  }

  /** The dict comprehension of a repeated label: the fields of the
      accumulated row are visited in column order, each merged with the new
      row's value in the same column; the first failure is raised. */
  function Merge(acc: Row, row: Row): Result<Row, Exc> {
    if acc == [] then Ok([])
    else if row == [] then Err(KeyError)
    else
      var first :- MergeField(acc[0], row[0]);
      var rest :- Merge(acc[1..], row[1..]);
      Ok([first] + rest)
  }

  /** The merge succeeds exactly when the new row has every field of the
      accumulated one and each field merges, and then merges field by field. */
  lemma {:induction false} MergeSpec(acc: Row, row: Row)
    ensures Merge(acc, row).Ok? <==> |acc| <= |row| && forall j :: 0 <= j < |acc| ==> MergeField(acc[j], row[j]).Ok?
    ensures Merge(acc, row).Ok? ==>
      |Merge(acc, row).value| == |acc| && forall j :: 0 <= j < |acc| ==> Merge(acc, row).value[j] == MergeField(acc[j], row[j]).value
  {
    if acc != [] && row != [] {
      MergeSpec(acc[1..], row[1..]);
      if MergeField(acc[0], row[0]).Ok? && Merge(acc[1..], row[1..]).Ok? {
        var merged := Merge(acc, row).value;
        assert merged == [MergeField(acc[0], row[0]).value] + Merge(acc[1..], row[1..]).value;
        assert forall j :: 1 <= j < |acc| ==> merged[j] == Merge(acc[1..], row[1..]).value[j - 1];
      }
    }
  }

  /** One pass of the aggregation loop: append a new label's row as it
      is, merge a repeated label's row into its entry. */
  function AddRow(a: Aggregate, key: Label, row: Row): Result<Aggregate, Exc> {
    FindSpec(a, key);
    match Find(a, key)
    case None => Ok(a + [(key, row)])
    case Some(i) =>
      var merged :- Merge(a[i].1, row);
      Ok(a[i := (key, merged)])
  }

  /** The aggregate of the first `n` rows. */
  function AggregatePrefix(f: Frame, n: nat): Result<Aggregate, Exc>
    requires n <= |f.rows|
  {
    if n == 0 then Ok([])
    else
      var prev :- AggregatePrefix(f, n - 1);
      AddRow(prev, f.rows[n - 1].0, f.rows[n - 1].1)
  }

  /** The `county_aggregate` dict: rows grouped by their index label. */
  function AggregateByIndex(f: Frame): Result<Aggregate, Exc> {
    AggregatePrefix(f, |f.rows|)
  }

  /** The aggregation loop of `CountyTotalPopulationCheck.audit`, building
      the dict in place. */
  method AggregateCounties(frame: Frame) returns (r: Result<Aggregate, Exc>)
    ensures r == AggregateByIndex(frame)
  {
    var rows := frame.rows;
    var countyAggregate: Aggregate := [];
    var i := 0;
    while i < |rows|
      invariant 0 <= i <= |rows|
      invariant AggregatePrefix(frame, i) == Ok(countyAggregate)
    {
      var (key, row) := rows[i];
      var found := Find(countyAggregate, key);
      FindSpec(countyAggregate, key);
      if found.Some? {
        var merged := Merge(countyAggregate[found.value].1, row);
        if merged.Err? {
          AggregateErrorSticks(frame, i + 1, |rows|);
          return Err(merged.error);
        }
        countyAggregate := countyAggregate[found.value := (key, merged.value)];
      } else {
        countyAggregate := countyAggregate + [(key, row)];
      }
      i := i + 1;
    }
    return Ok(countyAggregate);
  }

  /** A failed merge ends the aggregation: later rows change nothing. */
  lemma {:induction false} AggregateErrorSticks(f: Frame, i: nat, n: nat)
    requires i <= n <= |f.rows| && AggregatePrefix(f, i).Err?
    ensures AggregatePrefix(f, n) == AggregatePrefix(f, i)
    decreases n
  {
    if n > i {
      AggregateErrorSticks(f, i, n - 1);
    }
  }

  /** With distinct labels (a default range index), aggregation changes
      nothing: the dict holds every row as it is, in table order. */
  lemma {:induction false} AggregateDistinctLabels(f: Frame, n: nat)
    requires n <= |f.rows|
    requires forall i, j :: 0 <= i < j < |f.rows| ==> f.rows[i].0 != f.rows[j].0
    ensures AggregatePrefix(f, n) == Ok(f.rows[..n])
  {
    if n > 0 {
      AggregateDistinctLabels(f, n - 1);
      var prev := f.rows[..n - 1];
      assert forall i :: 0 <= i < |prev| ==> prev[i].0 != f.rows[n - 1].0;
      FindSpec(prev, f.rows[n - 1].0);
      assert prev + [f.rows[n - 1]] == f.rows[..n];
    }
  }

  /** The rows carrying label `l` among the first `n`, in table order. */
  function LabelRows(f: Frame, n: nat, l: Label): (rs: seq<Row>)
    requires n <= |f.rows|
    ensures |rs| <= n
  {
    if n == 0 then []
    else LabelRows(f, n - 1, l) + (if f.rows[n - 1].0 == l then [f.rows[n - 1].1] else [])
  }

  /** Every row has a value in column `j`. */
  predicate HasField(rows: seq<Row>, j: nat) {
    forall i :: 0 <= i < |rows| ==> j < |rows[i]|
  }

  /** The values in column `j` of rows that all have one. */
  function FieldValues(rows: seq<Row>, j: nat): (vs: seq<Value>)
    requires HasField(rows, j)
    ensures |vs| == |rows| && forall i :: 0 <= i < |rows| ==> vs[i] == rows[i][j]
  {
    seq(|rows|, i requires 0 <= i < |rows| => rows[i][j])
  }

  lemma FieldValuesSnoc(rows: seq<Row>, row: Row, j: nat)
    requires HasField(rows, j) && j < |row|
    ensures HasField(rows + [row], j) && FieldValues(rows + [row], j) == FieldValues(rows, j) + [row[j]]
  {
    assert forall i :: 0 <= i < |rows| ==> (rows + [row])[i] == rows[i];
  }

  lemma FindFirst(a: Aggregate, key: Label, i: nat)
    requires i < |a| && a[i].0 == key && forall i' :: 0 <= i' < i ==> a[i'].0 != key
    ensures Find(a, key) == Some(i)
  {
    FindSpec(a, key);
  }

  /** Adding a row changes only its own label's entry: a new label gets the
      row itself, a repeated label the merge of its entry with the row. */
  lemma AddRowLookup(a: Aggregate, key: Label, row: Row, l: Label)
    requires AddRow(a, key, row).Ok?
    ensures l != key ==> Lookup(AddRow(a, key, row).value, l) == Lookup(a, l)
    ensures l == key ==>
      Lookup(AddRow(a, key, row).value, l) == Some(if Lookup(a, key).Some? then Merge(Lookup(a, key).value, row).value else row)
  {
    var b := AddRow(a, key, row).value;
    var found := Find(a, key);
    FindSpec(a, key);
    FindSpec(a, l);
    FindSpec(b, l);
    assert |b| == |a| + (if found.None? then 1 else 0);
    assert forall i :: 0 <= i < |a| && (found.None? || i != found.value) ==> b[i] == a[i];
    if found.None? {
      FindFirst(b, key, |a|);
    } else {
      FindFirst(b, key, found.value);
    }
    if l != key {
      match Find(a, l)
      case Some(i) =>
        FindFirst(b, l, i);
      case None =>
    }
  }

  /** Adding a row keeps the labels distinct. */
  lemma AddRowDistinct(a: Aggregate, key: Label, row: Row)
    requires Distinct(a) && AddRow(a, key, row).Ok?
    ensures Distinct(AddRow(a, key, row).value)
  {
    var b := AddRow(a, key, row).value;
    FindSpec(a, key);
    assert forall i :: 0 <= i < |a| ==> b[i].0 == a[i].0;
  }

  /** A successful aggregation of `n` rows was preceded by one of `n - 1`. */
  lemma AggregateStep(f: Frame, n: nat)
    requires 0 < n <= |f.rows| && AggregatePrefix(f, n).Ok?
    ensures AggregatePrefix(f, n - 1).Ok?
    ensures AggregatePrefix(f, n) == AddRow(AggregatePrefix(f, n - 1).value, f.rows[n - 1].0, f.rows[n - 1].1)
  {
  }

  /** How the entry of label `l` evolves with the `n`-th row. */
  lemma AggregateLookupStep(f: Frame, n: nat, l: Label)
    requires 0 < n <= |f.rows| && AggregatePrefix(f, n).Ok?
    ensures AggregatePrefix(f, n - 1).Ok?
    ensures var prev := Lookup(AggregatePrefix(f, n - 1).value, l);
      var row := f.rows[n - 1].1;
      Lookup(AggregatePrefix(f, n).value, l)
      == if f.rows[n - 1].0 != l then prev
         else Some(if prev.Some? then Merge(prev.value, row).value else row)
  {
    AggregateStep(f, n);
    AddRowLookup(AggregatePrefix(f, n - 1).value, f.rows[n - 1].0, f.rows[n - 1].1, l);
  }

  /** The aggregate has one entry per label. */
  lemma {:induction false} AggregateDistinct(f: Frame, n: nat)
    requires n <= |f.rows| && AggregatePrefix(f, n).Ok?
    ensures Distinct(AggregatePrefix(f, n).value)
  {
    if n > 0 {
      AggregateStep(f, n);
      AggregateDistinct(f, n - 1);
      AddRowDistinct(AggregatePrefix(f, n - 1).value, f.rows[n - 1].0, f.rows[n - 1].1);
    }
  }

  /** The rows of one label merged from the left, as the loop merges them. */
  function MergeAll(rs: seq<Row>): Result<Row, Exc>
    requires |rs| > 0
  {
    if |rs| == 1 then Ok(rs[0])
    else
      var acc :- MergeAll(rs[..|rs| - 1]);
      Merge(acc, rs[|rs| - 1])
  }

  /** A label has an entry exactly when some row carries it, and the entry
      is the merge of all rows carrying it, in table order. */
  lemma {:induction false} AggregateEntry(f: Frame, n: nat, l: Label)
    requires n <= |f.rows| && AggregatePrefix(f, n).Ok?
    ensures Lookup(AggregatePrefix(f, n).value, l).Some? <==> |LabelRows(f, n, l)| > 0
    ensures |LabelRows(f, n, l)| > 0 ==>
      MergeAll(LabelRows(f, n, l)).Ok? && Lookup(AggregatePrefix(f, n).value, l).value == MergeAll(LabelRows(f, n, l)).value
  {
    if n > 0 {
      AggregateLookupStep(f, n, l);
      AggregateEntry(f, n - 1, l);
      var rs := LabelRows(f, n - 1, l);
      if f.rows[n - 1].0 == l {
        var all := rs + [f.rows[n - 1].1];
        assert LabelRows(f, n, l) == all;
        if |rs| > 0 {
          assert all[..|all| - 1] == rs;
        }
      } else {
        assert LabelRows(f, n, l) == rs;
      }
    }
  }

  /** Merging never adds fields: the merge of a label's rows has as many
      as the first row. */
  lemma {:induction false} MergeAllWidth(rs: seq<Row>)
    requires |rs| > 0 && MergeAll(rs).Ok?
    ensures |MergeAll(rs).value| == |rs[0]|
  {
    if |rs| > 1 {
      var init := rs[..|rs| - 1];
      MergeAllWidth(init);
      MergeSpec(MergeAll(init).value, rs[|rs| - 1]);
    }
  }

  /** Merging into a float field adds the new value. */
  lemma MergeFloatField(acc: Row, row: Row, j: nat, sum: real)
    requires Merge(acc, row).Ok? && j < |acc| && acc[j] == Float(sum)
    ensures j < |row| && IsNumeric(row[j]) && |Merge(acc, row).value| == |acc|
    ensures Merge(acc, row).value[j] == Float(sum + AsReal(row[j]))
  {
    MergeSpec(acc, row);
    assert MergeField(acc[j], row[j]).Ok?;
  }

  /** Merging into any other field keeps a truthy value and otherwise
      takes the new one. */
  lemma MergeOtherField(acc: Row, row: Row, j: nat)
    requires Merge(acc, row).Ok? && j < |acc| && !acc[j].Float?
    ensures j < |row| && |Merge(acc, row).value| == |acc|
    ensures Merge(acc, row).value[j] == if Truthy(acc[j]) then acc[j] else row[j]
  {
    MergeSpec(acc, row);
  }

  /** A field that is a float in the first row is summed: every row has it
      and holds a number there (or the merge would have raised), and the
      merged value is the float sum of the column. */
  lemma {:induction false} MergeAllSumsFloats(rs: seq<Row>, j: nat)
    requires |rs| > 0 && MergeAll(rs).Ok? && j < |rs[0]| && rs[0][j].Float?
    ensures HasField(rs, j) && AllNumeric(FieldValues(rs, j))
    ensures j < |MergeAll(rs).value| && MergeAll(rs).value[j] == Float(RealSum(FieldValues(rs, j)))
  {
    if |rs| == 1 {
      assert FieldValues(rs, j) == [rs[0][j]];
      assert RealSum([rs[0][j]]) == AsReal(rs[0][j]);
    } else {
      var init := rs[..|rs| - 1];
      var last := rs[|rs| - 1];
      assert init + [last] == rs;
      assert init[0] == rs[0];
      MergeAllSumsFloats(init, j);
      MergeFloatField(MergeAll(init).value, last, j, RealSum(FieldValues(init, j)));
      FieldValuesSnoc(init, last, j);
      RealSumSnoc(FieldValues(init, j), last[j]);
    }
  }

  /** The first truthy value of a non-empty sequence, or its last value
      when none is truthy. */
  function FirstTruthyOrLast(vs: seq<Value>): (v: Value)
    requires |vs| > 0
    ensures v in vs
  {
    if |vs| == 1 || Truthy(vs[0]) then vs[0] else FirstTruthyOrLast(vs[1..])
  }

  lemma {:induction false} FirstTruthyOrLastSnoc(vs: seq<Value>, x: Value)
    requires |vs| > 0
    ensures FirstTruthyOrLast(vs + [x]) == if Truthy(FirstTruthyOrLast(vs)) then FirstTruthyOrLast(vs) else x
  {
    if |vs| > 1 && !Truthy(vs[0]) {
      FirstTruthyOrLastSnoc(vs[1..], x);
      assert (vs + [x])[1..] == vs[1..] + [x];
    }
  }

  lemma FirstTruthyNotFloat(rs: seq<Row>, j: nat)
    requires |rs| > 0 && HasField(rs, j) && forall i :: 0 <= i < |rs| ==> !rs[i][j].Float?
    ensures !FirstTruthyOrLast(FieldValues(rs, j)).Float?
  {
    var vs := FieldValues(rs, j);
    assert FirstTruthyOrLast(vs) in vs;
  }

  /** A field that is never a float, such as an integer population, is not
      summed: the merged value is the first truthy value of the column, or
      its last value when none is truthy. */
  lemma {:induction false} MergeAllKeepsFirstTruthy(rs: seq<Row>, j: nat)
    requires |rs| > 0 && MergeAll(rs).Ok? && HasField(rs, j)
    requires forall i :: 0 <= i < |rs| ==> !rs[i][j].Float?
    ensures j < |MergeAll(rs).value| && MergeAll(rs).value[j] == FirstTruthyOrLast(FieldValues(rs, j))
  {
    if |rs| == 1 {
      assert FieldValues(rs, j) == [rs[0][j]];
    } else {
      var init := rs[..|rs| - 1];
      var last := rs[|rs| - 1];
      assert init + [last] == rs;
      assert HasField(init, j);
      MergeAllKeepsFirstTruthy(init, j);
      FirstTruthyNotFloat(init, j);
      MergeOtherField(MergeAll(init).value, last, j);
      FieldValuesSnoc(init, last, j);
      FirstTruthyOrLastSnoc(FieldValues(init, j), last[j]);
    }
  }

  /** A field that is a float in the first row of a label is summed over
      all rows carrying the label. */
  lemma FloatFieldIsSummed(f: Frame, l: Label, j: nat)
    requires AggregateByIndex(f).Ok?
    requires |LabelRows(f, |f.rows|, l)| > 0 && j < |LabelRows(f, |f.rows|, l)[0]| && LabelRows(f, |f.rows|, l)[0][j].Float?
    ensures HasField(LabelRows(f, |f.rows|, l), j) && AllNumeric(FieldValues(LabelRows(f, |f.rows|, l), j))
    ensures Lookup(AggregateByIndex(f).value, l).Some?
    ensures j < |Lookup(AggregateByIndex(f).value, l).value|
    ensures Lookup(AggregateByIndex(f).value, l).value[j] == Float(RealSum(FieldValues(LabelRows(f, |f.rows|, l), j)))
  {
    AggregateEntry(f, |f.rows|, l);
    MergeAllSumsFloats(LabelRows(f, |f.rows|, l), j);
  }

  /** A field that is never a float among the rows of a label keeps the
      first truthy value of those rows, or the last value when none is. */
  lemma NonFloatFieldKeepsFirstTruthy(f: Frame, l: Label, j: nat)
    requires AggregateByIndex(f).Ok?
    requires |LabelRows(f, |f.rows|, l)| > 0 && HasField(LabelRows(f, |f.rows|, l), j)
    requires forall i :: 0 <= i < |LabelRows(f, |f.rows|, l)| ==> !LabelRows(f, |f.rows|, l)[i][j].Float?
    ensures Lookup(AggregateByIndex(f).value, l).Some?
    ensures j < |Lookup(AggregateByIndex(f).value, l).value|
    ensures Lookup(AggregateByIndex(f).value, l).value[j] == FirstTruthyOrLast(FieldValues(LabelRows(f, |f.rows|, l), j))
  {
    AggregateEntry(f, |f.rows|, l);
    MergeAllKeepsFirstTruthy(LabelRows(f, |f.rows|, l), j);
  }

  // ---------------------------------------------------------------------
  // The per-county loop (CountyTotalPopulationCheck, second loop)

  /** The state the per-county loop carries: the counter, the log, the
      local `county_fips` (unbound before the first county assigns it) and
      the exception that ended the loop, if any. */
  datatype Progress = Progress(errors: nat, log: seq<LogRecord>, countyFips: Option<string>, raised: Option<Exc>)

  /** `census_county_populations[county_fips]`: the answer's keys are
      decoded cells, so the text code is found only as a text key. */
  function CensusLookup(p: Population, fips: string): Result<Cell, Exc> {
    match p
    case Total(_) => Err(TypeError)
    case ByCounty(m) => if TextCell(fips) in m then Ok(m[TextCell(fips)]) else Err(KeyError)
  }

  function CellValue(c: Cell): Value {
    match c
    case IntCell(n) => Int(n)
    case TextCell(t) => Str(t)
  }

  /** The county name for messages: the configured name column, or "Unspecified". */
  function CountyName(s: Setup, row: Row): Value {
    var name := s.descriptors.countyLegalName;
    if name.Some? && Field(s.frame.columns, row, name.value).Ok? then Field(s.frame.columns, row, name.value).value
    else Str("Unspecified")
  }

  /** `each_county[totalPopulation]`: KeyError when the column is unset or absent. */
  function CountyPopulation(s: Setup, row: Row): Result<Value, Exc> {
    var column := s.descriptors.totalPopulation;
    if column.None? then Err(KeyError) else Field(s.frame.columns, row, column.value)
  }

  /** The zero check; its message reads `county_fips` before this pass
      assigns it, so on the first county it raises UnboundLocalError after
      counting the error. */
  function ZeroCheck(name: Value, state: string, pop: Value, p: Progress): Progress {
    if !EqualsZero(pop) then p
    else if p.countyFips.None? then p.(errors := p.errors + 1, raised := Some(UnboundLocalError))
    else p.(errors := p.errors + 1, log := p.log + [LogRecord(Error, CountyZeroPopulation(name, state, p.countyFips.value))])
  }

  /** The comparison with the Census figure for the padded code, which is
      assigned to `county_fips` first. */
  function CensusCheck(census: Population, key: Label, name: Value, state: string, pop: Value, p: Progress): Progress {
    var fips := PaddedCode(key);
    var withCode := p.(countyFips := Some(fips));
    match CensusLookup(census, fips)
    case Err(e) => withCode.(raised := Some(e))
    case Ok(cell) =>
      match Sub(pop, CellValue(cell))
      case Err(e) => withCode.(raised := Some(e))
      case Ok(diff) =>
        if AsReal(Abs(diff)) <= 1.0 then withCode
        else withCode.(errors := withCode.errors + 1,
                       log := withCode.log + [LogRecord(Error, CountyMismatch(name, state, fips, pop, cell))])
  }

  /** One pass of the per-county loop. */
  function CountyStep(s: Setup, census: Population, key: Label, row: Row, p: Progress): Progress {
    if p.raised.Some? then p
    else
      match CountyPopulation(s, row)
      case Err(e) => p.(raised := Some(e))
      case Ok(pop) =>
        var name := CountyName(s, row);
        var checked := ZeroCheck(name, s.metadata.stateAbbreviation, pop, p);
        if checked.raised.Some? then checked
        else CensusCheck(census, key, name, s.metadata.stateAbbreviation, pop, checked)
  }

  /** A pass that gets past the zero check ends with the Census comparison. */
  lemma CountyStepCompletes(s: Setup, census: Population, key: Label, row: Row, p: Progress, pop: Value, checked: Progress)
    requires p.raised.None? && CountyPopulation(s, row) == Ok(pop)
    requires ZeroCheck(CountyName(s, row), s.metadata.stateAbbreviation, pop, p) == checked && checked.raised.None?
    ensures CountyStep(s, census, key, row, p) == CensusCheck(census, key, CountyName(s, row), s.metadata.stateAbbreviation, pop, checked)
  {
  }

  /** The loop state after the first `n` counties. */
  function CountyRun(s: Setup, a: Aggregate, census: Population, n: nat, start: Progress): Progress
    requires n <= |a|
  {
    if n == 0 then start
    else CountyStep(s, census, a[n - 1].0, a[n - 1].1, CountyRun(s, a, census, n - 1, start))
  }

  /** The per-county loop with the pass of each county made by `step`: the
      same run as `CountyRun`, restated over a step function only so that
      the loop's proof does not unfold `CountyStep` at every iteration
      (`CountyFoldIsRun` equates the two). */
  function CountyFold(step: (Label, Row, Progress) -> Progress, a: Aggregate, n: nat, start: Progress): Progress
    requires n <= |a|
  {
    if n == 0 then start
    else step(a[n - 1].0, a[n - 1].1, CountyFold(step, a, n - 1, start))
  }

  /** `step` makes every county's pass as `CountyStep` does. */
  ghost predicate IsCountyPass(step: (Label, Row, Progress) -> Progress, s: Setup, census: Population) {
    forall key, row, p {:trigger CountyStep(s, census, key, row, p)} :: step(key, row, p) == CountyStep(s, census, key, row, p)
  }

  function CountyPass(s: Setup, census: Population): (Label, Row, Progress) -> Progress {
    (key, row, p) => CountyStep(s, census, key, row, p)
  }

  /** Folding any pass that agrees with `CountyStep` is the county run. */
  lemma {:induction false} CountyFoldIsRun(step: (Label, Row, Progress) -> Progress, s: Setup, a: Aggregate, census: Population, n: nat, start: Progress)
    requires n <= |a| && IsCountyPass(step, s, census)
    ensures CountyFold(step, a, n, start) == CountyRun(s, a, census, n, start)
    decreases n
  {
    if n > 0 {
      CountyFoldIsRun(step, s, a, census, n - 1, start);
      var prev := CountyRun(s, a, census, n - 1, start);
      assert step(a[n - 1].0, a[n - 1].1, prev) == CountyStep(s, census, a[n - 1].0, a[n - 1].1, prev);
    }
  }

  /** A raised exception ends the folded loop as well. */
  lemma {:induction false} CountyFoldRaisedSticks(step: (Label, Row, Progress) -> Progress, s: Setup, a: Aggregate, census: Population,
                                                  i: nat, n: nat, start: Progress)
    requires i <= n <= |a| && IsCountyPass(step, s, census) && CountyFold(step, a, i, start).raised.Some?
    ensures CountyFold(step, a, n, start) == CountyFold(step, a, i, start)
    decreases n
  {
    if n > i {
      CountyFoldRaisedSticks(step, s, a, census, i, n - 1, start);
      var prev := CountyFold(step, a, n - 1, start);
      assert step(a[n - 1].0, a[n - 1].1, prev) == CountyStep(s, census, a[n - 1].0, a[n - 1].1, prev);
    }
  }

  /** How many of a county's two assertions fail, computed from its row and
      the Census answer alone; `None` when the pass raises. */
  function CountyFailures(s: Setup, census: Population, key: Label, row: Row): Option<nat> {
    match CountyPopulation(s, row)
    case Err(_) => None
    case Ok(pop) =>
      var lookup := CensusLookup(census, PaddedCode(key));
      if lookup.Err? || Sub(pop, CellValue(lookup.value)).Err? then None
      else
        Some((if EqualsZero(pop) then 1 else 0)
             + (if AsReal(Abs(Sub(pop, CellValue(lookup.value)).value)) <= 1.0 then 0 else 1))
  }

  /** A raised exception ends the loop: later counties change nothing. */
  lemma {:induction false} CountyRunRaisedSticks(s: Setup, a: Aggregate, census: Population, i: nat, n: nat, start: Progress)
    requires i <= n <= |a| && CountyRun(s, a, census, i, start).raised.Some?
    ensures CountyRun(s, a, census, n, start) == CountyRun(s, a, census, i, start)
    decreases n
  {
    if n > i {
      CountyRunRaisedSticks(s, a, census, i, n - 1, start);
    }
  }

  /** Each county adds at most two errors, the counter never decreases, and
      a county that completes its pass adds exactly its failed assertions. */
  lemma {:induction false} CountyRunCounts(s: Setup, a: Aggregate, census: Population, n: nat, start: Progress)
    requires n <= |a| && start.raised.None?
    ensures start.errors <= CountyRun(s, a, census, n, start).errors <= start.errors + 2 * n
    ensures n > 0 && CountyRun(s, a, census, n, start).raised.None? ==>
      var key := a[n - 1].0;
      CountyFailures(s, census, key, a[n - 1].1).Some?
      && CountyRun(s, a, census, n, start).errors
         == CountyRun(s, a, census, n - 1, start).errors + CountyFailures(s, census, key, a[n - 1].1).value
  {
    if n > 0 {
      CountyRunCounts(s, a, census, n - 1, start);
    }
  }

  /** A county whose aggregated population is zero always costs an error,
      whatever the Census says, once the loop reaches it. */
  lemma ZeroPopulationCounted(s: Setup, a: Aggregate, census: Population, j: nat, start: Progress)
    requires j < |a| && start.raised.None?
    requires CountyRun(s, a, census, j, start).raised.None?
    requires var row := a[j].1;
      CountyPopulation(s, row).Ok? && EqualsZero(CountyPopulation(s, row).value)
    ensures CountyRun(s, a, census, |a|, start).errors >= CountyRun(s, a, census, j, start).errors + 1
  {
    var after := CountyRun(s, a, census, j + 1, start);
    assert after.errors >= CountyRun(s, a, census, j, start).errors + 1;
    CountyRunMonotone(s, a, census, j + 1, |a|, start);
  }

  lemma {:induction false} CountyRunMonotone(s: Setup, a: Aggregate, census: Population, i: nat, n: nat, start: Progress)
    requires i <= n <= |a|
    ensures CountyRun(s, a, census, i, start).errors <= CountyRun(s, a, census, n, start).errors
    decreases n
  {
    if n > i {
      CountyRunMonotone(s, a, census, i, n - 1, start);
    }
  }

  /** On the first county `county_fips` is still unbound: a zero population
      there counts its error and then raises UnboundLocalError. */
  lemma FirstCountyZeroRaises(s: Setup, a: Aggregate, census: Population, start: Progress)
    requires |a| > 0 && start == Progress(start.errors, start.log, None, None)
    requires var row := a[0].1;
      CountyPopulation(s, row).Ok? && EqualsZero(CountyPopulation(s, row).value)
    ensures CountyRun(s, a, census, |a|, start)
      == Progress(start.errors + 1, start.log, None, Some(UnboundLocalError))
  {
    CountyRunRaisedSticks(s, a, census, 1, |a|, start);
  }

  /** On a later county the zero-population message carries the code of
      the county before it. */
  lemma LaterCountyZeroReportsPrevious(s: Setup, a: Aggregate, census: Population, j: nat, start: Progress)
    requires 0 < j < |a| && start.raised.None?
    requires CountyRun(s, a, census, j, start).raised.None?
    requires var row := a[j].1;
      CountyPopulation(s, row).Ok? && EqualsZero(CountyPopulation(s, row).value)
    ensures var before := CountyRun(s, a, census, j, start);
      var after := CountyRun(s, a, census, j + 1, start);
      |after.log| > |before.log|
      && after.log[|before.log|]
         == LogRecord(Error, CountyZeroPopulation(CountyName(s, a[j].1),
                                                  s.metadata.stateAbbreviation, PaddedCode(a[j - 1].0)))
  {
    var prior := CountyRun(s, a, census, j - 1, start);
    assert prior.raised.None?;
    assert CountyRun(s, a, census, j, start).countyFips == Some(PaddedCode(a[j - 1].0));
  }

  /** A county whose code has no leading zero (an integer label of 100 or
      more) is never found in the Census county map, since the answer
      decodes that code to an integer key: the lookup raises KeyError. */
  lemma CodeWithoutLeadingZeroNotFound(w: CensusWrapper, counties: seq<string>, net: Network, n: nat)
    requires n >= 100
    requires GetPopulation(w, counties, net).Ok? && GetPopulation(w, counties, net).value.ByCounty?
    ensures CensusLookup(GetPopulation(w, counties, net).value, PaddedCode(IntLabel(n))) == Err(KeyError)
  {
    CountyKeysText(w, counties, net);
    PaddedCodeNoLeadingZero(n);
    MissingTextKey(GetPopulation(w, counties, net).value, PaddedCode(IntLabel(n)));
  }

  lemma PaddedCodeNoLeadingZero(n: nat)
    requires n >= 100
    ensures !StartsWith(PaddedCode(IntLabel(n)), "0")
  {
    NatToStringLength(n);
    assert PaddedCode(IntLabel(n)) == NatToString(n);
  }

  lemma MissingTextKey(p: Population, code: string)
    requires p.ByCounty? && forall k :: k in p.counts && k.TextCell? ==> StartsWith(k.text, "0")
    requires !StartsWith(code, "0")
    ensures CensusLookup(p, code) == Err(KeyError)
  {
  }

  function CountyAudit(s: Setup, net: Network, errors: nat, log: seq<LogRecord>): Outcome<int> {
    if !IsSet(s.descriptors.countyFIPS) then Outcome(errors, log, [], Ok(errors))
    else
      var started := log + [LogRecord(Info, CountyCheckStart(s.metadata.repoName, s.metadata.yearEffectiveEnd))];
      match AggregateByIndex(s.frame)
      case Err(e) => Outcome(errors, started, [], Err(e))
      case Ok(a) =>
        var codes := PaddedCodes(Labels(a));
        var requests := Request(s.census, codes);
        match GetPopulation(s.census, codes, net)
        case Err(e) => Outcome(errors, started, requests, Err(e))
        case Ok(census) =>
          var run := CountyRun(s, a, census, |a|, Progress(errors, started, None, None));
          Outcome(run.errors, run.log, requests, if run.raised.Some? then Err(run.raised.value) else Ok(run.errors))
  }

  /** Without a configured county column the check reads nothing, logs
      nothing and returns the counter unchanged. */
  lemma CountyAuditUnset(s: Setup, net: Network, errors: nat, log: seq<LogRecord>)
    requires !IsSet(s.descriptors.countyFIPS)
    ensures CountyAudit(s, net, errors, log) == Outcome(errors, log, [], Ok(errors))
  {
  }

  /** With a county column, the check queries the Census once, for every
      aggregated label padded to three characters in dict order, and adds
      between 0 and 2 errors per aggregated county. */
  lemma CountyAuditQueriesAndBounds(schema: StateSchema, frame: Frame, net: Network, errors: nat, log: seq<LogRecord>)
    requires IsSet(schema.descriptors.countyFIPS)
    requires AggregateByIndex(frame).Ok?
    ensures var s := MakeSetup(schema, frame);
      var a := AggregateByIndex(frame).value;
      var o := CountyAudit(s, net, errors, log);
      o.requests == [QueryUrl(s.decentennial, schema.metadata.stateFIPSCode, [PopulationField], PaddedCodes(Labels(a)))]
      && errors <= o.errors <= errors + 2 * |a|
      && (o.result.Ok? ==> o.result.value == o.errors)
  {
    var s := MakeSetup(schema, frame);
    var a := AggregateByIndex(frame).value;
    RequestOfConstructedWrapper(s.decentennial, schema.metadata.stateFIPSCode, PaddedCodes(Labels(a)));
    var started := log + [LogRecord(Info, CountyCheckStart(s.metadata.repoName, s.metadata.yearEffectiveEnd))];
    var census := GetPopulation(s.census, PaddedCodes(Labels(a)), net);
    if census.Ok? {
      CountyRunCounts(s, a, census.value, |a|, Progress(errors, started, None, None));
    }
  }

  class CountyTotalPopulationCheck {
    const setup: Setup
    var errors: nat
    var log: seq<LogRecord>
    var requests: seq<string>

    constructor (schema: StateSchema, frame: Frame)
      ensures setup == MakeSetup(schema, frame) && errors == 0 && log == [] && requests == []
    {
      setup := MakeSetup(schema, frame);
      errors := 0;
      log := [];
      requests := [];
    }

    method Audit(net: Network) returns (r: Result<int, Exc>)
      modifies this
      ensures var o := CountyAudit(setup, net, old(errors), old(log));
        errors == o.errors && log == o.log && requests == old(requests) + o.requests && r == o.result
    {
      if !IsSet(setup.descriptors.countyFIPS) {
        return Ok(errors);
      }
      log := log + [LogRecord(Info, CountyCheckStart(setup.metadata.repoName, setup.metadata.yearEffectiveEnd))];
      ghost var started := log;

      var aggregated := AggregateCounties(setup.frame);
      if aggregated.Err? {
        return Err(aggregated.error);
      }
      var countyAggregate := aggregated.value;

      var codes := PaddedCodes(Labels(countyAggregate));
      requests := requests + Request(setup.census, codes);
      var census := GetPopulation(setup.census, codes, net);
      if census.Err? {
        return Err(census.error);
      }

      var raised := CheckCounties(countyAggregate, census.value);
      if raised.Some? {
        return Err(raised.value);
      }
      return Ok(errors);
    }

    /** The per-county loop of `audit`: the counter and the log end as the
        run of `CountyStep` over the aggregate says, and the exception that
        ended it, if any, is returned. */
    method CheckCounties(countyAggregate: Aggregate, census: Population) returns (raised: Option<Exc>)
      modifies this
      ensures var run := CountyRun(setup, countyAggregate, census, |countyAggregate|, Progress(old(errors), old(log), None, None));
        errors == run.errors && log == run.log && raised == run.raised && requests == old(requests)
    {
      ghost var step := CountyPass(setup, census);
      raised := CheckCountiesWith(countyAggregate, census, step);
      CountyFoldIsRun(step, setup, countyAggregate, census, |countyAggregate|, Progress(old(errors), old(log), None, None));
    }

    /** The same loop, for a `step` that makes each county's pass as
        `CountyStep` does. */
    method CheckCountiesWith(countyAggregate: Aggregate, census: Population, ghost step: (Label, Row, Progress) -> Progress)
      returns (raised: Option<Exc>)
      requires IsCountyPass(step, setup, census)
      modifies this
      ensures var run := CountyFold(step, countyAggregate, |countyAggregate|, Progress(old(errors), old(log), None, None));
        errors == run.errors && log == run.log && raised == run.raised && requests == old(requests)
    {
      ghost var start := Progress(errors, log, None, None);
      var countyFips: Option<string> := None;
      var j := 0;
      while j < |countyAggregate|
        invariant 0 <= j <= |countyAggregate|
        invariant CountyFold(step, countyAggregate, j, start) == Progress(errors, log, countyFips, None)
        invariant requests == old(requests)
      {
        var (key, row) := countyAggregate[j];
        var assignedFips, failure := CheckCounty(census, key, row, countyFips);
        if failure.Some? {
          CountyFoldRaisedSticks(step, setup, countyAggregate, census, j + 1, |countyAggregate|, start);
          return failure;
        }
        countyFips := assignedFips;
        j := j + 1;
      }
      return None;
    }

    /** One pass of the per-county loop; `countyFips` is the local
        `county_fips` before the pass and `assignedFips` after it. */
    method CheckCounty(census: Population, key: Label, row: Row, countyFips: Option<string>)
      returns (assignedFips: Option<string>, raised: Option<Exc>)
      modifies this
      ensures var p := CountyStep(setup, census, key, row, Progress(old(errors), old(log), countyFips, None));
        errors == p.errors && log == p.log && assignedFips == p.countyFips && raised == p.raised && requests == old(requests)
    {
      ghost var before := Progress(errors, log, countyFips, None);
      var abbreviation := setup.metadata.stateAbbreviation;
      var name := CountyName(setup, row);
      var population := CountyPopulation(setup, row);
      if population.Err? {
        return countyFips, Some(population.error);
      }
      var pop := population.value;
      if EqualsZero(pop) {
        errors := errors + 1;
        if countyFips.None? {
          return countyFips, Some(UnboundLocalError);
        }
        log := log + [LogRecord(Error, CountyZeroPopulation(name, abbreviation, countyFips.value))];
      }
      ghost var checked := Progress(errors, log, countyFips, None);
      assert ZeroCheck(name, abbreviation, pop, before) == checked;
      CountyStepCompletes(setup, census, key, row, before, pop, checked);
      var fips := PaddedCode(key);
      assignedFips := Some(fips);
      var cell := CensusLookup(census, fips);
      if cell.Err? {
        return assignedFips, Some(cell.error);
      }
      var diff := Sub(pop, CellValue(cell.value));
      if diff.Err? {
        return assignedFips, Some(diff.error);
      }
      if !(AsReal(Abs(diff.value)) <= 1.0) {
        errors := errors + 1;
        log := log + [LogRecord(Error, CountyMismatch(name, abbreviation, fips, pop, cell.value))];
      }
      return assignedFips, None;
    }
  }

  // ---------------------------------------------------------------------
  // DataExistenceCheck

  /** The columns that must be filled: the county-code column, when set. */
  function ExpectedColumns(d: Descriptor): seq<string> {
    if IsSet(d.countyFIPS) then [d.countyFIPS.value] else []
  }

  /** One pass of the loop: a column with a falsy value costs one error and
      a warning. */
  function ExistenceStep(s: Setup, column: string, p: Progress): Progress {
    if p.raised.Some? then p
    else
      match ListValues(s.frame, Some(column))
      case Err(e) => p.(raised := Some(e))
      case Ok(values) =>
        if forall i :: 0 <= i < |values| ==> Truthy(values[i]) then p
        else p.(errors := p.errors + 1,
                log := p.log + [LogRecord(Warning, ColumnNotFilled(column, s.metadata.repoName, s.metadata.yearEffectiveEnd))])
  }

  function ExistenceRun(s: Setup, columns: seq<string>, n: nat, start: Progress): Progress
    requires n <= |columns|
  {
    if n == 0 then start else ExistenceStep(s, columns[n - 1], ExistenceRun(s, columns, n - 1, start))
  }

  /** The check returns nothing (`None`), which `Ok(())` stands for. */
  function DataExistenceAudit(s: Setup, errors: nat, log: seq<LogRecord>): Outcome<()> {
    var columns := ExpectedColumns(s.descriptors);
    var run := ExistenceRun(s, columns, |columns|, Progress(errors, log, None, None));
    Outcome(run.errors, run.log, [], if run.raised.Some? then Err(run.raised.value) else Ok(()))
  }

  lemma {:induction false} ExistenceRunRaisedSticks(s: Setup, columns: seq<string>, i: nat, n: nat, start: Progress)
    requires i <= n <= |columns| && ExistenceRun(s, columns, i, start).raised.Some?
    ensures ExistenceRun(s, columns, n, start) == ExistenceRun(s, columns, i, start)
    decreases n
  {
    if n > i {
      ExistenceRunRaisedSticks(s, columns, i, n - 1, start);
    }
  }

  /** The check adds one error exactly when the county-code column is set,
      present in every row, and holds a falsy value somewhere; a column
      missing from a row raises KeyError instead; an unset column checks
      nothing. The counter never decreases. */
  lemma DataExistenceCounts(s: Setup, errors: nat, log: seq<LogRecord>)
    ensures var o := DataExistenceAudit(s, errors, log);
      errors <= o.errors <= errors + 1 && o.requests == []
      && (!IsSet(s.descriptors.countyFIPS) ==> o == Outcome(errors, log, [], Ok(())))
      && (IsSet(s.descriptors.countyFIPS) ==>
        var values := ListValues(s.frame, s.descriptors.countyFIPS);
        (values.Err? ==> o == Outcome(errors, log, [], Err(KeyError)))
        && (values.Ok? ==>
              o.result == Ok(())
              && (o.errors == errors + 1 <==> exists i :: 0 <= i < |values.value| && !Truthy(values.value[i]))))
  {
    var columns := ExpectedColumns(s.descriptors);
    var start := Progress(errors, log, None, None);
    ListValuesSpec(s.frame, s.descriptors.countyFIPS);
    if IsSet(s.descriptors.countyFIPS) {
      assert ExistenceRun(s, columns, 1, start) == ExistenceStep(s, columns[0], start);
    }
  }

  class DataExistenceCheck {
    const setup: Setup
    var errors: nat
    var log: seq<LogRecord>
    var requests: seq<string>

    constructor (schema: StateSchema, frame: Frame)
      ensures setup == MakeSetup(schema, frame) && errors == 0 && log == [] && requests == []
    {
      setup := MakeSetup(schema, frame);
      errors := 0;
      log := [];
      requests := [];
    }

    method Audit() returns (r: Result<(), Exc>)
      modifies this
      ensures var o := DataExistenceAudit(setup, old(errors), old(log));
        errors == o.errors && log == o.log && requests == old(requests) + o.requests && r == o.result
    {
      var expectedValues := [];
      if IsSet(setup.descriptors.countyFIPS) {
        expectedValues := expectedValues + [setup.descriptors.countyFIPS.value];
      }
      assert expectedValues == ExpectedColumns(setup.descriptors);
      ghost var start := Progress(errors, log, None, None);
      var i := 0;
      while i < |expectedValues|
        invariant 0 <= i <= |expectedValues|
        invariant ExistenceRun(setup, expectedValues, i, start) == Progress(errors, log, None, None)
        invariant requests == old(requests)
      {
        var column := expectedValues[i];
        var values := ListValues(setup.frame, Some(column));
        if values.Err? {
          ExistenceRunRaisedSticks(setup, expectedValues, i + 1, |expectedValues|, start);
          return Err(values.error);
        }
        if !(forall k :: 0 <= k < |values.value| ==> Truthy(values.value[k])) {
          errors := errors + 1;
          log := log + [LogRecord(Warning, ColumnNotFilled(column, setup.metadata.repoName, setup.metadata.yearEffectiveEnd))];
        }
        i := i + 1;
      }
      return Ok(());
    }
  }
}
