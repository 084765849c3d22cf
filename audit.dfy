/** The older driver audit.py: the repository listings it keeps, the set of
    repositories it audits, the paths it builds for each dataset, its own
    state-level Census wrapper, and the total-population comparison it runs
    for every description, aborting on the first mismatch.

    The GitHub listings, the description files, the extracted tables and
    the network are parameters; directories come in as names. */
module Audit {
  import opened Wrappers
  import opened Exceptions
  import opened Strings
  import opened Rules
  import opened Description
  import Census
  import Checks

  // ---------------------------------------------------------------------
  // Repository listings

  datatype Account = OpenElections | MgggStates

  function AccountName(a: Account): string {
    match a
    case OpenElections => "openelections"
    case MgggStates => "mggg-states"
  }

  datatype StateRepo = StateRepo(state: string, repoName: string, repoAccount: string, repoUrl: string)

  const StateRepoPrefix: string := "openelections-data-"

  /** `re.match(r"^openelections-data-\S\S$", name)`: the prefix, then two
      characters that are not whitespace; `$` also matches just before a
      final newline. */
  predicate IsStateRepoName(name: string) {
    StartsWith(name, StateRepoPrefix)
    && var rest := name[|StateRepoPrefix|..];
    (|rest| == 2 || (|rest| == 3 && rest[2] == '\n')) && !IsSpace(rest[0]) && !IsSpace(rest[1])
  }

  /** Which listed repositories an account's map keeps. */
  predicate Accepts(a: Account, name: string) {
    match a
    case OpenElections => IsStateRepoName(name)
    case MgggStates => true
  }

  /** The state a repository name stands for: the text after the last "-"
      for openelections, the text before the first "-" for mggg-states. */
  function RepoState(a: Account, name: string): string {
    match a
    case OpenElections => LastPart(name, '-')
    case MgggStates => FirstPart(name, '-')
  }

  function RepoEntry(a: Account, name: string, url: string): StateRepo {
    StateRepo(RepoState(a, name), name, AccountName(a), url)
  }

  /** The dict comprehension over a listing of (name, url) pairs: entries
      are inserted in listing order, so a later pair for the same name
      replaces an earlier one. */
  function RepoMap(a: Account, listing: seq<(string, string)>): map<string, StateRepo>
    decreases |listing|
  {
    if listing == [] then map[]
    else
      var m := RepoMap(a, listing[..|listing| - 1]);
      var (name, url) := listing[|listing| - 1];
      if Accepts(a, name) then m[name := RepoEntry(a, name, url)] else m
  }

  /** A name is a key of the map exactly when it is listed and accepted. */
  lemma {:induction false} RepoMapKeys(a: Account, listing: seq<(string, string)>, name: string)
    ensures name in RepoMap(a, listing) <==> Accepts(a, name) && exists i :: 0 <= i < |listing| && listing[i].0 == name
    decreases |listing|
  {
    if listing != [] {
      var init := listing[..|listing| - 1];
      RepoMapKeys(a, init, name);
      assert forall i :: 0 <= i < |init| ==> init[i] == listing[i];
    }
  }

  /** The entry for a name is built from the last listed pair of that name. */
  lemma {:induction false} RepoMapLastWins(a: Account, listing: seq<(string, string)>, i: nat)
    requires i < |listing| && Accepts(a, listing[i].0)
    requires forall j :: i < j < |listing| ==> listing[j].0 != listing[i].0
    ensures listing[i].0 in RepoMap(a, listing)
    ensures RepoMap(a, listing)[listing[i].0] == RepoEntry(a, listing[i].0, listing[i].1)
    decreases |listing|
  {
    if i < |listing| - 1 {
      var init := listing[..|listing| - 1];
      assert init[i] == listing[i];
      RepoMapLastWins(a, init, i);
    }
  }

  /** An accepted openelections name whose two state characters are not
      "-" stands for exactly the text after the prefix. */
  lemma OpenElectionsState(name: string)
    requires IsStateRepoName(name) && '-' !in name[|StateRepoPrefix|..]
    ensures RepoState(OpenElections, name) == name[|StateRepoPrefix|..]
    ensures 2 <= |RepoState(OpenElections, name)| <= 3
  {
    var rest := name[|StateRepoPrefix|..];
    assert name == StateRepoPrefix + rest;
    LastPartAfter(StateRepoPrefix, '-', rest);
  }

  /** An mggg-states name `state-rest` stands for `state`. */
  lemma MgggState(state: string, rest: string)
    requires '-' !in state
    ensures RepoState(MgggStates, state + "-" + rest) == state
  {
    FirstPartBefore(state, '-', rest);
  }

  /** The set of repository names the descriptions name. */
  function RepoNames(ds: seq<StateSchema>): set<string> {
    set i | 0 <= i < |ds| :: ds[i].metadata.repoName
  }

  lemma RepoNamesSnoc(ds: seq<StateSchema>, d: StateSchema)
    ensures RepoNames(ds + [d]) == RepoNames(ds) + {d.metadata.repoName}
  {
    var e := ds + [d];
    assert forall i :: 0 <= i < |ds| ==> e[i] == ds[i];
    assert e[|ds|] == d;
  }

  /** Duplicates collapse: there are at most as many names as descriptions,
      and exactly as many when no two descriptions share a name. */
  lemma {:induction false} RepoNamesCount(ds: seq<StateSchema>)
    ensures |RepoNames(ds)| <= |ds|
    ensures (forall i, j :: 0 <= i < j < |ds| ==> ds[i].metadata.repoName != ds[j].metadata.repoName)
      ==> |RepoNames(ds)| == |ds|
    decreases |ds|
  {
    if ds != [] {
      var init := ds[..|ds| - 1];
      var last := ds[|ds| - 1];
      assert ds == init + [last];
      RepoNamesSnoc(init, last);
      RepoNamesCount(init);
      if forall i, j :: 0 <= i < j < |ds| ==> ds[i].metadata.repoName != ds[j].metadata.repoName {
        assert forall i, j :: 0 <= i < j < |init| ==> init[i].metadata.repoName != init[j].metadata.repoName;
        assert last.metadata.repoName !in RepoNames(init);
      }
    }
  }

  // ---------------------------------------------------------------------
  // Paths

  const ZipSuffix: string := ".zip"

  /** The directory `expand_zipfile` extracts into and returns: every ".zip"
      of the archive path replaced by "/". */
  function ExpandZipfile(archivePath: string): string {
    Replace(archivePath, ZipSuffix, "/")
  }

  function ArchivePath(mgggStatesDir: string, repoName: string, archive: string): string {
    mgggStatesDir + "/" + repoName + "/" + archive
  }

  function FilePath(mgggStatesDir: string, repoName: string, archive: string, fileName: string): string {
    ExpandZipfile(ArchivePath(mgggStatesDir, repoName, archive)) + fileName
  }

  /** A path without ".zip" is its own directory name. */
  lemma ExpandPlain(p: string)
    requires !Contains(p, ZipSuffix)
    ensures ExpandZipfile(p) == p
  {
    ReplaceAbsent(p, ZipSuffix, "/");
  }

  /** An archive name ending in its only ".zip" extracts into the directory
      named by its stem. */
  lemma {:induction false} ExpandArchive(stem: string)
    requires !Contains(stem, ZipSuffix)
    ensures ExpandZipfile(stem + ZipSuffix) == stem + "/"
    decreases |stem|
  {
    var s := stem + ZipSuffix;
    if stem == [] {
      assert s == ZipSuffix && s[..4] == ZipSuffix && s[4..] == [];
      ReplaceTake(s, ZipSuffix, "/");
    } else {
      NoZipAtStart(stem);
      ReplaceSkip(s, ZipSuffix, "/");
      NoZipInTail(stem);
      assert s[1..] == stem[1..] + ZipSuffix;
      ExpandArchive(stem[1..]);
      assert [stem[0]] + (stem[1..] + "/") == stem + "/";
    }
  }

  /** The first window of `stem + ".zip"` is not ".zip" when `stem` is
      non-empty and holds no ".zip": ".zip" does not overlap itself. */
  lemma NoZipAtStart(stem: string)
    requires stem != [] && !Contains(stem, ZipSuffix)
    ensures (stem + ZipSuffix)[..4] != ZipSuffix
  {
    var s := stem + ZipSuffix;
    if |stem| >= 4 {
      assert s[..4] == stem[..4];
      assert !OccursAt(stem, ZipSuffix, 0);
    } else {
      assert s[|stem|] == '.';
      assert ZipSuffix[|stem|] != '.';
    }
  }

  lemma NoZipInTail(stem: string)
    requires stem != [] && !Contains(stem, ZipSuffix)
    ensures !Contains(stem[1..], ZipSuffix)
  {
    forall i: nat ensures !OccursAt(stem[1..], ZipSuffix, i) {
      assert !OccursAt(stem, ZipSuffix, i + 1);
      if i + 4 <= |stem| - 1 {
        assert stem[1..][i..i + 4] == stem[i + 1..i + 5];
      }
    }
  }

  /** For a directory and a repository name without ".zip" and an archive
      `stem.zip`, the file is read from `dir/repo/stem/file`. */
  lemma FilePathLayout(dir: string, repo: string, stem: string, fileName: string)
    requires !Contains(dir, ZipSuffix) && !Contains(repo, ZipSuffix) && !Contains(stem, ZipSuffix)
    ensures FilePath(dir, repo, stem + ZipSuffix, fileName) == dir + "/" + repo + "/" + stem + "/" + fileName
  {
    var tail := stem + ZipSuffix;
    var inner := repo + ['/'] + tail;
    ArchivePathParts(dir, repo, tail);
    ExpandRepoPart(repo, stem);
    assert '/' !in ZipSuffix;
    ReplaceAround(dir, '/', inner, ZipSuffix, "/");
    ExpandPlain(dir);
    PathRegroup(dir, repo, stem, fileName);
  }

  lemma ArchivePathParts(dir: string, repo: string, tail: string)
    ensures ArchivePath(dir, repo, tail) == dir + ['/'] + (repo + ['/'] + tail)
  {
  }

  /** The part of the archive path after the directory. */
  lemma ExpandRepoPart(repo: string, stem: string)
    requires !Contains(repo, ZipSuffix) && !Contains(stem, ZipSuffix)
    ensures ExpandZipfile(repo + ['/'] + (stem + ZipSuffix)) == repo + ['/'] + (stem + "/")
  {
    assert '/' !in ZipSuffix;
    ReplaceAround(repo, '/', stem + ZipSuffix, ZipSuffix, "/");
    ExpandPlain(repo);
    ExpandArchive(stem);
  }

  lemma PathRegroup(dir: string, repo: string, stem: string, fileName: string)
    ensures dir + ['/'] + (repo + ['/'] + (stem + "/")) + fileName == dir + "/" + repo + "/" + stem + "/" + fileName
  {
  }

  // ---------------------------------------------------------------------
  // The state-level Census wrapper

  /** This wrapper queries whole states: `{fields}` is the only field left
      in its template. */
  datatype CensusWrapper = CensusWrapper(year: int, state: int, url: string)

  /** The template's text before the fields. */
  function UrlHead(year: int): string {
    "https://api.census.gov/data/" + IntToString(year) + "/dec/sf1?get="
  }

  const FieldsSlot: string := "{fields}"

  /** The template's text after the fields. */
  function StateTail(state: int): string {
    "&for=state:" + IntToString(state)
  }

  /** `CensusWrapper(year, state)` of audit.py. */
  function NewCensusWrapper(year: int, state: int): CensusWrapper {
    CensusWrapper(year, state, UrlHead(year) + FieldsSlot + StateTail(state))
  }

  function StateQueryUrl(year: int, state: int, fields: seq<string>): string {
    UrlHead(year) + Join(",", fields) + StateTail(state)
  }

  function Resource(w: CensusWrapper, fields: seq<string>): Result<string, Exc> {
    Format(w.url, map["fields" := Join(",", fields)])
  }

  /** The constructed wrapper requests the state query with the fields
      joined by commas. */
  lemma ResourceIsStateQueryUrl(year: int, state: int, fields: seq<string>)
    ensures Resource(NewCensusWrapper(year, state), fields) == Ok(StateQueryUrl(year, state, fields))
  {
    var head, tail, joined := UrlHead(year), StateTail(state), Join(",", fields);
    var args := map["fields" := joined];
    UrlPiecesBraceFree(year, state);
    assert FieldsSlot == "{" + "fields" + "}";
    Regroup3Seq(head, "{" + "fields" + "}", tail);
    FormatBraceFree(tail, args);
    FormatOneField(head, "fields", tail, args);
    Regroup3Seq(head, joined, tail);
  }

  lemma UrlPiecesBraceFree(year: int, state: int)
    ensures BraceFree(UrlHead(year)) && BraceFree(StateTail(state))
  {
    IntToStringBraceFree(year);
    IntToStringBraceFree(state);
    assert BraceFree("https://api.census.gov/data/") && BraceFree("/dec/sf1?get=") && BraceFree("&for=state:");
  }

  /** The length of the shortest row, 0 for no rows: how many tuples
      `zip(*rows)` yields. */
  function MinLength(rows: seq<seq<string>>): nat {
    if rows == [] then 0
    else if |rows| == 1 then |rows[0]|
    else
      var rest := MinLength(rows[1..]);
      if |rows[0]| <= rest then |rows[0]| else rest
  }

  /** The minimum is a lower bound of the lengths and is one of them. */
  lemma {:induction false} MinLengthSpec(rows: seq<seq<string>>)
    ensures forall i :: 0 <= i < |rows| ==> MinLength(rows) <= |rows[i]|
    ensures rows != [] ==> exists i :: 0 <= i < |rows| && |rows[i]| == MinLength(rows)
    decreases |rows|
  {
    if |rows| > 1 {
      MinLengthSpec(rows[1..]);
      assert forall i :: 1 <= i < |rows| ==> rows[i] == rows[1..][i - 1];
      if |rows[0]| > MinLength(rows[1..]) {
        var i :| 0 <= i < |rows[1..]| && |rows[1..][i]| == MinLength(rows[1..]);
        assert |rows[i + 1]| == MinLength(rows);
      }
    }
  }

  /** `dict(zip(keys, values))`: later keys replace earlier ones. */
  function Pairs(keys: seq<string>, values: seq<string>): map<string, string>
    requires |keys| == |values|
    decreases |keys|
  {
    if keys == [] then map[]
    else Pairs(keys[..|keys| - 1], values[..|values| - 1])[keys[|keys| - 1] := values[|values| - 1]]
  }

  /** `dict(zip(*rows))`: each tuple of the transposition holds one cell per
      row, and `dict` accepts only pairs, so a non-empty transposition works
      only for a header and one data row; no tuples give an empty dict. */
  function DictOfRows(rows: seq<seq<string>>): Result<map<string, string>, Exc> {
    MinLengthSpec(rows);
    var width := MinLength(rows);
    if width == 0 then Ok(map[])
    else if |rows| != 2 then Err(ValueError)
    else Ok(Pairs(rows[0][..width], rows[1][..width]))
  }

  /** The reply of a request for `url`, made into a dictionary. */
  function ReplyAt(url: string, net: Census.Network): Result<map<string, string>, Exc> {
    DictOfRows(net(url))
  }

  /** `fetch(*fields)`: the resource is formatted, then requested. */
  function Fetch(w: CensusWrapper, fields: seq<string>, net: Census.Network): Result<map<string, string>, Exc> {
    var url :- Resource(w, fields);
    ReplyAt(url, net)
  }

  /** The text under the population field of the reply for `url`. */
  function PopulationAt(url: string, net: Census.Network): Result<string, Exc> {
    var result :- ReplyAt(url, net);
    if Census.PopulationField in result then Ok(result[Census.PopulationField]) else Err(KeyError)
  }

  /** `get_population()`: the text under the population field. */
  function GetPopulation(w: CensusWrapper, net: Census.Network): Result<string, Exc> {
    var url :- Resource(w, [Census.PopulationField]);
    PopulationAt(url, net)
  }

  /** Every header name is a key; a name maps to the value in the same
      position as its last occurrence. */
  lemma {:induction false} PairsLookup(keys: seq<string>, values: seq<string>, j: nat)
    requires |keys| == |values| && j < |keys|
    requires forall k :: j < k < |keys| ==> keys[k] != keys[j]
    ensures keys[j] in Pairs(keys, values) && Pairs(keys, values)[keys[j]] == values[j]
    decreases |keys|
  {
    if j < |keys| - 1 {
      var ks, vs := keys[..|keys| - 1], values[..|values| - 1];
      assert ks[j] == keys[j] && vs[j] == values[j];
      PairsLookup(ks, vs, j);
    }
  }

  lemma {:induction false} PairsKeys(keys: seq<string>, values: seq<string>, k: string)
    requires |keys| == |values|
    ensures k in Pairs(keys, values) <==> k in keys
    decreases |keys|
  {
    if keys != [] {
      var ks := keys[..|keys| - 1];
      PairsKeys(ks, values[..|values| - 1], k);
      assert keys == ks + [keys[|keys| - 1]];
    }
  }

  /** A header and one data row of the same length pair up position by
      position: the header's names are the keys, and each name maps to the
      cell under its last occurrence. */
  lemma HeaderRowPairing(header: seq<string>, row: seq<string>, j: nat)
    requires |header| == |row| && j < |header|
    requires forall k :: j < k < |header| ==> header[k] != header[j]
    ensures DictOfRows([header, row]).Ok?
    ensures forall k :: k in DictOfRows([header, row]).value <==> k in header
    ensures DictOfRows([header, row]).value[header[j]] == row[j]
  {
    var rows := [header, row];
    assert rows[0] == header && rows[1] == row;
    assert MinLength(rows) == |header|;
    assert header[..|header|] == header && row[..|row|] == row;
    forall k ensures k in DictOfRows(rows).value <==> k in header {
      PairsKeys(header, row, k);
    }
    PairsLookup(header, row, j);
  }

  /** Any other non-empty shape makes `dict` raise ValueError. */
  lemma OtherShapesRaise(rows: seq<seq<string>>)
    requires |rows| != 2 && forall i :: 0 <= i < |rows| ==> rows[i] != []
    requires rows != []
    ensures DictOfRows(rows) == Err(ValueError)
  {
    var m := MinLength(rows);
    MinLengthSpec(rows);
    var i :| 0 <= i < |rows| && |rows[i]| == m;
    assert rows[i] != [];
  }

  // ---------------------------------------------------------------------
  // run_audit

  datatype AuditEvent =
    | Auditing(stateLegalName: string, repoName: string)
    | Comparing(decade: int, census: int, mggg: int, repoName: string, year: int)

  /** What auditing one description logged and read, and what it raised. */
  datatype Pass = Pass(log: seq<AuditEvent>, requests: seq<string>, raised: Option<Exc>)

  /** `int()` of the population text read at `url`. */
  function TotalAt(url: string, net: Census.Network): Result<int, Exc> {
    var text :- PopulationAt(url, net);
    if ParseInt(text).Some? then Ok(ParseInt(text).value) else Err(ValueError)
  }

  /** `int(census.get_population())`. */
  function CensusTotal(w: CensusWrapper, net: Census.Network): Result<int, Exc> {
    var url :- Resource(w, [Census.PopulationField]);
    TotalAt(url, net)
  }

  /** One pass of the loop of `run_audit` for description `d`: the table is
      read from the file path, the state query is made for the census
      decade, and the totals must agree within one. */
  function AuditDescription(mgggStatesDir: string, d: StateSchema, files: string -> Checks.Frame, net: Census.Network): Pass {
    var m := d.metadata;
    var started := [Auditing(m.stateLegalName, m.repoName)];
    var frame := files(FilePath(mgggStatesDir, m.repoName, m.archive, m.fileName));
    var decentennial := Decade(m.yearEffectiveEnd);
    var census := NewCensusWrapper(decentennial, m.stateFIPSCode);
    match Resource(census, [Census.PopulationField])
    case Err(e) => Pass(started, [], Some(e))
    case Ok(url) =>
      match TotalAt(url, net)
      case Err(e) => Pass(started, [url], Some(e))
      case Ok(censusTotal) =>
        match Checks.MgggTotal(frame, d.descriptors.totalPopulation)
        case Err(e) => Pass(started, [url], Some(e))
        case Ok(mgggTotal) =>
          var compared := started + [Comparing(decentennial, censusTotal, mgggTotal, m.repoName, m.yearEffectiveEnd)];
          if WithinTolerance(mgggTotal, censusTotal) then Pass(compared, [url], None)
          else Pass(compared, [url], Some(AssertionError(Distance(censusTotal, mgggTotal))))
  }

  /** The loop over the first `n` items, each making the pass `step` gives
      it: logs and reads are appended, and the first raise ends the loop. */
  function Chain<T>(step: T -> Pass, items: seq<T>, n: nat): Pass
    requires n <= |items|
  {
    if n == 0 then Pass([], [], None)
    else
      var before := Chain(step, items, n - 1);
      if before.raised.Some? then before
      else
        var p := step(items[n - 1]);
        Pass(before.log + p.log, before.requests + p.requests, p.raised)
  }

  /** The pass of `run_audit` for one description. */
  function AuditStep(dir: string, files: string -> Checks.Frame, net: Census.Network): StateSchema -> Pass {
    d => AuditDescription(dir, d, files, net)
  }

  /** `step` gives every description the pass `AuditDescription` makes.
      The loop methods of `Auditor` are proved for any such `step`, only so
      that their proofs do not unfold `AuditDescription` at every iteration;
      `RunAudit` instantiates it with `AuditStep`. */
  ghost predicate IsAuditStep(step: StateSchema -> Pass, dir: string, files: string -> Checks.Frame, net: Census.Network) {
    forall d {:trigger AuditDescription(dir, d, files, net)} :: step(d) == AuditDescription(dir, d, files, net)
  }

  /** `run_audit` over all descriptions. */
  function AuditRun(dir: string, ds: seq<StateSchema>, files: string -> Checks.Frame, net: Census.Network): Pass {
    Chain(AuditStep(dir, files, net), ds, |ds|)
  }

  /** A description passes when both totals exist and differ by at most one;
      a mismatch raises AssertionError carrying the distance. Either way
      the pass logs the start and, once both totals exist, the comparison
      for the census decade of the effective year, and reads the state
      query for that decade once. */
  lemma AuditDescriptionOutcome(dir: string, d: StateSchema, files: string -> Checks.Frame, net: Census.Network)
    ensures var p := AuditDescription(dir, d, files, net);
      var m := d.metadata;
      var w := NewCensusWrapper(Decade(m.yearEffectiveEnd), m.stateFIPSCode);
      var mggg := Checks.MgggTotal(files(FilePath(dir, m.repoName, m.archive, m.fileName)), d.descriptors.totalPopulation);
      p.requests == [StateQueryUrl(Decade(m.yearEffectiveEnd), m.stateFIPSCode, [Census.PopulationField])]
      && p.log[..1] == [Auditing(m.stateLegalName, m.repoName)]
      && (CensusTotal(w, net).Err? ==> p.raised == Some(CensusTotal(w, net).error) && |p.log| == 1)
      && (CensusTotal(w, net).Ok? && mggg.Err? ==> p.raised == Some(mggg.error) && |p.log| == 1)
      && (CensusTotal(w, net).Ok? && mggg.Ok? ==>
        var census := CensusTotal(w, net).value;
        p.log == [Auditing(m.stateLegalName, m.repoName),
                  Comparing(Decade(m.yearEffectiveEnd), census, mggg.value, m.repoName, m.yearEffectiveEnd)]
        && (p.raised.None? <==> Distance(mggg.value, census) <= 1)
        && (p.raised.Some? ==> p.raised == Some(AssertionError(Distance(census, mggg.value)))))
  {
    var m := d.metadata;
    ResourceIsStateQueryUrl(Decade(m.yearEffectiveEnd), m.stateFIPSCode, [Census.PopulationField]);
  }

  lemma {:induction false} ChainRaisedSticks<T>(step: T -> Pass, items: seq<T>, i: nat, n: nat)
    requires i <= n <= |items| && Chain(step, items, i).raised.Some?
    ensures Chain(step, items, n) == Chain(step, items, i)
    decreases n
  {
    if n > i {
      ChainRaisedSticks(step, items, i, n - 1);
    }
  }

  /** The loop gets through the first `n` items exactly when none of their
      passes raises; then it has read what they read, one after the other. */
  lemma {:induction false} ChainCompletes<T>(step: T -> Pass, items: seq<T>, n: nat)
    requires n <= |items|
    ensures Chain(step, items, n).raised.None? <==> forall i :: 0 <= i < n ==> step(items[i]).raised.None?
    ensures (forall i :: 0 <= i < n ==> |step(items[i]).requests| == 1) ==> |Chain(step, items, n).requests| <= n
    ensures (forall i :: 0 <= i < n ==> |step(items[i]).requests| == 1) && Chain(step, items, n).raised.None?
      ==> |Chain(step, items, n).requests| == n
    decreases n
  {
    if n > 0 {
      ChainCompletes(step, items, n - 1);
    }
  }

  /** The audit gets through all descriptions exactly when every one
      passes; then it has made one state query per description. */
  lemma AuditRunCompletes(dir: string, ds: seq<StateSchema>, files: string -> Checks.Frame, net: Census.Network)
    ensures AuditRun(dir, ds, files, net).raised.None?
      <==> forall i :: 0 <= i < |ds| ==> AuditDescription(dir, ds[i], files, net).raised.None?
    ensures AuditRun(dir, ds, files, net).raised.None? ==> |AuditRun(dir, ds, files, net).requests| == |ds|
  {
    var step := AuditStep(dir, files, net);
    forall i | 0 <= i < |ds| ensures |step(ds[i]).requests| == 1 {
      var m := ds[i].metadata;
      ResourceIsStateQueryUrl(Decade(m.yearEffectiveEnd), m.stateFIPSCode, [Census.PopulationField]);
    }
    ChainCompletes(step, ds, |ds|);
  }

  /** One more pass of a loop that has not raised. */
  lemma ChainStep<T>(step: T -> Pass, items: seq<T>, i: nat)
    requires i < |items| && Chain(step, items, i).raised.None?
    ensures var before, p := Chain(step, items, i), step(items[i]);
      Chain(step, items, i + 1) == Pass(before.log + p.log, before.requests + p.requests, p.raised)
  {
  }

  lemma Regroup3Seq<T>(a: seq<T>, b: seq<T>, c: seq<T>)
    ensures a + b + c == a + (b + c)
  {
  }

  // ---------------------------------------------------------------------
  // The auditor

  class Auditor {
    const openelectionsDir: string
    const mgggStatesDir: string
    const openelectionsRepos: map<string, StateRepo>
    const mgggStateRepos: map<string, StateRepo>
    const descriptors: seq<StateSchema>
    var auditRepos: set<string>
    var log: seq<AuditEvent>
    var requests: seq<string>

    /** `Auditor.__init__` with the scratch directories, the two GitHub
        listings and the loaded descriptions given. */
    constructor (openelectionsDir: string, mgggStatesDir: string,
                 openelectionsListing: seq<(string, string)>, mgggListing: seq<(string, string)>,
                 descriptors: seq<StateSchema>)
      ensures this.openelectionsDir == openelectionsDir && this.mgggStatesDir == mgggStatesDir
      ensures openelectionsRepos == RepoMap(OpenElections, openelectionsListing)
      ensures mgggStateRepos == RepoMap(MgggStates, mgggListing)
      ensures this.descriptors == descriptors
      ensures auditRepos == RepoNames(descriptors) && log == [] && requests == []
    {
      this.openelectionsDir := openelectionsDir;
      this.mgggStatesDir := mgggStatesDir;
      openelectionsRepos := RepoMap(OpenElections, openelectionsListing);
      mgggStateRepos := RepoMap(MgggStates, mgggListing);
      this.descriptors := descriptors;
      auditRepos := {};
      log := [];
      requests := [];
      new;
      var i := 0;
      while i < |descriptors|
        invariant 0 <= i <= |descriptors|
        invariant auditRepos == RepoNames(descriptors[..i]) && log == [] && requests == []
      {
        RepoNamesSnoc(descriptors[..i], descriptors[i]);
        assert descriptors[..i + 1] == descriptors[..i] + [descriptors[i]];
        auditRepos := auditRepos + {descriptors[i].metadata.repoName};
        i := i + 1;
      }
      assert descriptors[..i] == descriptors;
    }

    /** `run_audit`: the descriptions in order, until the first exception. */
    method RunAudit(files: string -> Checks.Frame, net: Census.Network) returns (r: Result<(), Exc>)
      modifies this
      ensures var run := AuditRun(mgggStatesDir, descriptors, files, net);
        log == old(log) + run.log && requests == old(requests) + run.requests
        && auditRepos == old(auditRepos)
        && r == if run.raised.Some? then Err(run.raised.value) else Ok(())
    {
      r := RunChain(files, net, AuditStep(mgggStatesDir, files, net));
    }

    /** The loop of `run_audit`, for a `step` that gives each description
        the pass `AuditDescription` makes for it. */
    method RunChain(files: string -> Checks.Frame, net: Census.Network, ghost step: StateSchema -> Pass) returns (r: Result<(), Exc>)
      requires IsAuditStep(step, mgggStatesDir, files, net)
      modifies this
      ensures var run := Chain(step, descriptors, |descriptors|);
        log == old(log) + run.log && requests == old(requests) + run.requests
        && auditRepos == old(auditRepos)
        && r == if run.raised.Some? then Err(run.raised.value) else Ok(())
    {
      ghost var log0, requests0 := log, requests;
      var i := 0;
      var raised: Option<Exc> := None;
      while i < |descriptors| && raised.None?
        invariant 0 <= i <= |descriptors| && raised == Chain(step, descriptors, i).raised
        invariant log == log0 + Chain(step, descriptors, i).log && requests == requests0 + Chain(step, descriptors, i).requests
        invariant auditRepos == old(auditRepos)
      {
        raised := AuditNext(i, files, net, step, log0, requests0);
        i := i + 1;
      }
      if raised.Some? {
        ChainRaisedSticks(step, descriptors, i, |descriptors|);
        r := Err(raised.value);
      } else {
        r := Ok(());
      }
    }

    /** The loop of `run_audit`, past `i` descriptions that did not raise,
        audits one description more. */
    method AuditNext(i: nat, files: string -> Checks.Frame, net: Census.Network, ghost step: StateSchema -> Pass,
                     ghost log0: seq<AuditEvent>, ghost requests0: seq<string>) returns (raised: Option<Exc>)
      requires IsAuditStep(step, mgggStatesDir, files, net)
      requires i < |descriptors| && Chain(step, descriptors, i).raised.None?
      requires log == log0 + Chain(step, descriptors, i).log && requests == requests0 + Chain(step, descriptors, i).requests
      modifies this
      ensures var after := Chain(step, descriptors, i + 1);
        log == log0 + after.log && requests == requests0 + after.requests && raised == after.raised
        && auditRepos == old(auditRepos)
    {
      ghost var before := Chain(step, descriptors, i);
      raised := AuditOne(descriptors[i], files, net);
      ChainStep(step, descriptors, i);
      Regroup3Seq(log0, before.log, step(descriptors[i]).log);
      Regroup3Seq(requests0, before.requests, step(descriptors[i]).requests);
    }

    /** One pass of `run_audit`'s loop. */
    method AuditOne(d: StateSchema, files: string -> Checks.Frame, net: Census.Network) returns (raised: Option<Exc>)
      modifies this
      ensures var p := AuditDescription(mgggStatesDir, d, files, net);
        log == old(log) + p.log && requests == old(requests) + p.requests && raised == p.raised
        && auditRepos == old(auditRepos)
    {
      var metadata := d.metadata;
      log := log + [Auditing(metadata.stateLegalName, metadata.repoName)];
      var archivePath := ArchivePath(mgggStatesDir, metadata.repoName, metadata.archive);
      var filePath := ExpandZipfile(archivePath) + metadata.fileName;
      var shapefile := files(filePath);
      var decentennial := Decade(metadata.yearEffectiveEnd);
      var census := NewCensusWrapper(decentennial, metadata.stateFIPSCode);
      var resource := Resource(census, [Census.PopulationField]);
      if resource.Err? {
        return Some(resource.error);
      }
      requests := requests + [resource.value];
      var censusTotal := TotalAt(resource.value, net);
      if censusTotal.Err? {
        return Some(censusTotal.error);
      }
      var mgggTotal := Checks.MgggTotal(shapefile, d.descriptors.totalPopulation);
      if mgggTotal.Err? {
        return Some(mgggTotal.error);
      }
      log := log + [Comparing(decentennial, censusTotal.value, mgggTotal.value, metadata.repoName, metadata.yearEffectiveEnd)];
      if !(Distance(mgggTotal.value, censusTotal.value) <= 1) {
        return Some(AssertionError(Distance(censusTotal.value, mgggTotal.value)));
      }
      return None;
    }
  }
}
