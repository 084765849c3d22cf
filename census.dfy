/** The Census API wrapper of census.py: a URL template fixed at
    construction, the decoding of the API's answer (a header row followed by
    data rows of text cells) and the population query, which answers either
    a state total or a county-to-population map. The network read is the
    parameter `net`, from request URL to the rows of the decoded JSON
    answer. */
module Census {
  import opened Wrappers
  import opened Exceptions
  import opened Strings

  /** A decoded cell: text written with a leading "0" stays text, any other
      text becomes an integer. */
  datatype Cell = IntCell(n: int) | TextCell(text: string)

  type Response = seq<seq<string>>
  type Network = string -> Response

  const PopulationField: string := "P009001"
  const CountyField: string := "county"
  /** The default county selection: every county of the state. */
  const AllCounties: seq<string> := ["*"]

  datatype CensusWrapper = CensusWrapper(year: int, state: int, url: string)

  /** `CensusWrapper(year, state)`: the URL is a template with the year and
      state filled in and `{fields}` and `{counties}` left to fill. */
  function NewCensusWrapper(year: int, state: int): CensusWrapper {
    CensusWrapper(year, state,
      "https://api.census.gov/data/" + IntToString(year)
      + "/dec/sf1?get={fields}&for=county:{counties}&in=state:" + IntToString(state))
  }

  /** The request for some fields of some counties, written out. */
  function QueryUrl(year: int, state: int, fields: seq<string>, counties: seq<string>): string {
    "https://api.census.gov/data/" + IntToString(year) + "/dec/sf1?get=" + Join(",", fields)
    + "&for=county:" + Join(",", counties) + "&in=state:" + IntToString(state)
  }

  /** The URL `fetch` requests: the template formatted with the fields and
      the counties, each joined by commas. */
  function Resource(w: CensusWrapper, fields: seq<string>, counties: seq<string>): Result<string, Exc> {
    Format(w.url, map["counties" := Join(",", counties), "fields" := Join(",", fields)])
  }

  /** A wrapper built by the constructor requests exactly the written-out URL. */
  lemma ResourceIsQueryUrl(year: int, state: int, fields: seq<string>, counties: seq<string>)
    ensures Resource(NewCensusWrapper(year, state), fields, counties) == Ok(QueryUrl(year, state, fields, counties))
  {
    var y, s := IntToString(year), IntToString(state);
    IntToStringBraceFree(year);
    IntToStringBraceFree(state);
    var p1 := "https://api.census.gov/data/" + y + "/dec/sf1?get=";
    var p3 := "&in=state:" + s;
    assert BraceFree("https://api.census.gov/data/") && BraceFree("/dec/sf1?get=") && BraceFree("&in=state:");
    assert BraceFree(p1) && BraceFree(p3);
    UrlPieces(year, state);
    FormatTemplate(p1, p3, Join(",", fields), Join(",", counties));
  }

  lemma UrlPieces(year: int, state: int)
    ensures var p1 := "https://api.census.gov/data/" + IntToString(year) + "/dec/sf1?get=";
      var p3 := "&in=state:" + IntToString(state);
      NewCensusWrapper(year, state).url == p1 + ("{" + "fields" + "}" + ("&for=county:" + ("{" + "counties" + "}" + p3)))
      && forall f, c :: QueryUrl(year, state, f, c) == p1 + (Join(",", f) + ("&for=county:" + (Join(",", c) + p3)))
  {
    var fields, counties := "{fields}", "{counties}";
    assert fields == "{" + "fields" + "}" && counties == "{" + "counties" + "}";
    assert "/dec/sf1?get={fields}&for=county:{counties}&in=state:"
      == "/dec/sf1?get=" + fields + "&for=county:" + counties + "&in=state:";
    Regroup("https://api.census.gov/data/", IntToString(year), "/dec/sf1?get=", fields, "&for=county:", counties,
      "&in=state:", IntToString(state));
    forall f, c {
      Regroup("https://api.census.gov/data/", IntToString(year), "/dec/sf1?get=", Join(",", f), "&for=county:",
        Join(",", c), "&in=state:", IntToString(state));
    }
  }

  lemma Regroup(a: string, y: string, g: string, f: string, p: string, c: string, i: string, s: string)
    ensures a + y + (g + f + p + c + i) + s == (a + y + g) + (f + (p + (c + (i + s))))
    ensures a + y + g + f + p + c + i + s == (a + y + g) + (f + (p + (c + (i + s))))
  {
  }

  lemma FormatTemplate(p1: string, p3: string, f: string, c: string)
    requires BraceFree(p1) && BraceFree(p3)
    ensures var args := map["counties" := c, "fields" := f];
      Format(p1 + ("{" + "fields" + "}" + ("&for=county:" + ("{" + "counties" + "}" + p3))), args)
      == Ok(p1 + (f + ("&for=county:" + (c + p3))))
  {
    var args := map["counties" := c, "fields" := f];
    var p2 := "&for=county:";
    assert BraceFree(p2);
    FormatBraceFree(p3, args);
    FormatOneField(p2, "counties", p3, args);
    FormatOneField(p1, "fields", p2 + ("{" + "counties" + "}" + p3), args);
  }

  /** The conversion of one cell of the answer. */
  function ConvertCell(y: string): Result<Cell, Exc> {
    if StartsWith(y, "0") then Ok(TextCell(y))
    else if ParseInt(y).Some? then Ok(IntCell(ParseInt(y).value))
    else Err(ValueError)
  }

  /** The text of an integer decodes to that integer, except zero, whose
      text "0" is kept as text. */
  lemma ConvertCellOfIntToString(n: int)
    ensures ConvertCell(IntToString(n)) == Ok(if n == 0 then TextCell("0") else IntCell(n))
  {
    var s := IntToString(n);
    if n == 0 {
      assert s == "0";
      assert StartsWith(s, "0");
    } else {
      ParseIntToString(n);
      assert s[0] != '0';
      assert s[..1] != "0";
    }
  }

  lemma {:induction false} NatToStringLength(n: nat)
    ensures (|NatToString(n)| >= 3) == (n >= 100)
    decreases n
  {
    if n >= 10 {
      NatToStringLength(n / 10);
      assert |NatToString(n / 10)| >= 1;
      if n / 10 < 10 {
        assert |NatToString(n / 10)| == 1;
      }
    }
  }

  /** A county code zero-padded to three characters, as the checks send it,
      comes back as text below 100 and as an integer from 100 on. */
  lemma ConvertPaddedCode(n: nat)
    ensures ConvertCell(ZFill(IntToString(n), 3))
      == Ok(if n < 100 then TextCell(ZFill(IntToString(n), 3)) else IntCell(n))
  {
    NatToStringLength(n);
    var s := ZFill(IntToString(n), 3);
    if n < 100 {
      assert s == Zeros(3 - |IntToString(n)|) + IntToString(n);
      assert s[0] == '0';
    } else {
      ConvertCellOfIntToString(n);
    }
  }

  /** One data row converted cell by cell; the first bad cell raises ValueError. */
  function ConvertRow(row: seq<string>): (r: Result<seq<Cell>, Exc>)
    ensures r.Ok? <==> forall j :: 0 <= j < |row| ==> ConvertCell(row[j]).Ok?
    ensures r.Ok? ==> |r.value| == |row| && forall j :: 0 <= j < |row| ==> r.value[j] == ConvertCell(row[j]).value
    ensures r.Err? ==> r.error == ValueError
  {
    if row == [] then Ok([])
    else
      var c :- ConvertCell(row[0]);
      var rest :- ConvertRow(row[1..]);
      Ok([c] + rest)
  }

  /** The data rows converted in order; the first bad row raises ValueError. */
  function ConvertRows(rows: seq<seq<string>>): (r: Result<seq<seq<Cell>>, Exc>)
    ensures r.Ok? <==> forall i :: 0 <= i < |rows| ==> ConvertRow(rows[i]).Ok?
    ensures r.Ok? ==> |r.value| == |rows| && forall i :: 0 <= i < |rows| ==> ConvertRow(rows[i]) == Ok(r.value[i])
    ensures r.Err? ==> r.error == ValueError
  {
    if rows == [] then Ok([])
    else
      var row :- ConvertRow(rows[0]);
      var rest :- ConvertRows(rows[1..]);
      Ok([row] + rest)
  }

  /** The answer as a table: its header and its decoded data rows. */
  datatype CensusFrame = CensusFrame(header: seq<string>, data: seq<seq<Cell>>)

  predicate HasColumn(data: seq<seq<Cell>>, col: nat) {
    forall i :: 0 <= i < |data| ==> col < |data[i]|
  }

  /** The answer made into a table: the first row is the header and the
      remaining rows are decoded. Every data row must be as long as the
      header and the header must name the `county` column, which becomes
      the index. */
  function Decode(response: Response): (r: Result<CensusFrame, Exc>)
    ensures r.Ok? ==>
      |response| >= 1 && r.value.header == response[0] && CountyField in response[0] &&
      |r.value.data| == |response| - 1 &&
      forall i :: 0 <= i < |r.value.data| ==>
        |response[i + 1]| == |response[0]| && ConvertRow(response[i + 1]) == Ok(r.value.data[i])
  {
    if |response| == 0 then Err(IndexError)
    else
      var data :- ConvertRows(response[1..]);
      if !RowsOfWidth(data, |response[0]|) then Err(ValueError)
      else if CountyField !in response[0] then Err(KeyError)
      else Ok(CensusFrame(response[0], data))
  }

  /** Every row of `data` has `width` cells. */
  predicate RowsOfWidth(data: seq<seq<Cell>>, width: nat) {
    forall i :: 0 <= i < |data| ==> |data[i]| == width
  }

  /** `fetch(*fields, counties)`: request the formatted URL and make the
      answer into a table. */
  function Fetch(w: CensusWrapper, fields: seq<string>, counties: seq<string>, net: Network): (r: Result<CensusFrame, Exc>)
    ensures r.Ok? ==>
      Resource(w, fields, counties).Ok? &&
      var response := net(Resource(w, fields, counties).value);
      |response| >= 1 && r.value.header == response[0] && CountyField in response[0] &&
      |r.value.data| == |response| - 1 &&
      forall i :: 0 <= i < |r.value.data| ==>
        |response[i + 1]| == |response[0]| && ConvertRow(response[i + 1]) == Ok(r.value.data[i])
  {
    var resource :- Resource(w, fields, counties);
    Decode(net(resource))
  }

  /** A data row of the answer is usable: every cell converts and the row
      is as wide as the header. */
  predicate GoodRow(response: Response, i: nat)
    requires 1 <= i < |response|
  {
    ConvertRow(response[i]).Ok? && |response[i]| == |response[0]|
  }

  /** When the answer makes a table and which exception it raises
      otherwise: an empty answer IndexError (`response[0]`); a cell that is
      not a number, or a row not as wide as the header, ValueError; a
      header without `county` KeyError. */
  lemma DecodeOutcome(response: Response)
    requires |response| > 0
    ensures var r := Decode(response);
      (r.Ok? <==> CountyField in response[0] && forall i :: 1 <= i < |response| ==> GoodRow(response, i))
      && ((exists i :: 1 <= i < |response| && !GoodRow(response, i)) ==> r == Err(ValueError))
      && ((forall i :: 1 <= i < |response| ==> GoodRow(response, i)) && CountyField !in response[0] ==> r == Err(KeyError))
  {
    var rest := response[1..];
    var data := ConvertRows(rest);
    assert forall i :: 1 <= i < |response| ==> response[i] == rest[i - 1];
    if data.Ok? {
      DecodedWidths(response, data.value);
      if !RowsOfWidth(data.value, |response[0]|) {
        assert Decode(response) == Err(ValueError);
      } else {
        assert Decode(response) == if CountyField !in response[0] then Err(KeyError) else Ok(CensusFrame(response[0], data.value));
      }
    } else {
      var k :| 0 <= k < |rest| && ConvertRow(rest[k]).Err?;
      assert !GoodRow(response, k + 1);
      assert Decode(response) == Err(ValueError);
    }
  }

  /** With every data row converted, a row of another width than the
      header is exactly a converted row of another width. */
  lemma DecodedWidths(response: Response, data: seq<seq<Cell>>)
    requires |response| > 0 && ConvertRows(response[1..]) == Ok(data)
    ensures !RowsOfWidth(data, |response[0]|)
      <==> exists i :: 1 <= i < |response| && !GoodRow(response, i)
  {
    var rest := response[1..];
    assert forall i :: 1 <= i < |response| ==> response[i] == rest[i - 1];
    assert forall i :: 1 <= i < |response| ==> |data[i - 1]| == |response[i]| && ConvertRow(response[i]).Ok?;
    if !RowsOfWidth(data, |response[0]|) {
      var i :| 0 <= i < |data| && |data[i]| != |response[0]|;
      assert !GoodRow(response, i + 1);
    }
    if exists i :: 1 <= i < |response| && !GoodRow(response, i) {
      var i :| 1 <= i < |response| && !GoodRow(response, i);
      assert |data[i - 1]| != |response[0]|;
    }
  }

  /** When `fetch` succeeds and which exception it raises otherwise: a bad
      template raises its formatting error, an empty answer IndexError, and
      otherwise the answer decides as `DecodeOutcome` says. */
  lemma FetchOutcome(w: CensusWrapper, fields: seq<string>, counties: seq<string>, net: Network)
    ensures var r := Fetch(w, fields, counties, net);
      var resource := Resource(w, fields, counties);
      (resource.Err? ==> r == Err(resource.error))
      && (resource.Ok? ==>
        var response := net(resource.value);
        (|response| == 0 ==> r == Err(IndexError))
        && (|response| > 0 ==>
          (r.Ok? <==> CountyField in response[0] && forall i :: 1 <= i < |response| ==> GoodRow(response, i))
          && ((exists i :: 1 <= i < |response| && !GoodRow(response, i)) ==> r == Err(ValueError))
          && ((forall i :: 1 <= i < |response| ==> GoodRow(response, i)) && CountyField !in response[0] ==> r == Err(KeyError))))
  {
    var resource := Resource(w, fields, counties);
    if resource.Ok? && |net(resource.value)| > 0 {
      DecodeOutcome(net(resource.value));
    }
  }

  /** What `get_population` answers: the state total, or a map from each
      county cell to its population cell. */
  datatype Population = Total(count: int) | ByCounty(counts: map<Cell, Cell>)

  /** The sum of an integer column, counted from the first row. */
  function CellSum(data: seq<seq<Cell>>, col: nat): int
    requires HasColumn(data, col)
    requires forall i :: 0 <= i < |data| ==> data[i][col].IntCell?
  {
    if data == [] then 0 else data[0][col].n + CellSum(data[1..], col)
  }

  lemma {:induction false} CellSumSnoc(data: seq<seq<Cell>>, row: seq<Cell>, col: nat)
    requires HasColumn(data, col) && col < |row| && row[col].IntCell?
    requires forall i :: 0 <= i < |data| ==> data[i][col].IntCell?
    ensures HasColumn(data + [row], col)
    ensures CellSum(data + [row], col) == CellSum(data, col) + row[col].n
    decreases |data|
  {
    if data != [] {
      CellSumSnoc(data[1..], row, col);
      assert (data + [row])[1..] == data[1..] + [row];
    }
  }

  /** `column.sum()`: the sum of an all-integer column; a text cell raises TypeError. */
  function ColumnTotal(data: seq<seq<Cell>>, col: nat): (r: Result<int, Exc>)
    requires HasColumn(data, col)
    ensures r.Ok? <==> forall i :: 0 <= i < |data| ==> data[i][col].IntCell?
    ensures r.Ok? ==> r.value == CellSum(data, col)
  {
    if data == [] then Ok(0)
    else
      var init := data[..|data| - 1];
      var last := data[|data| - 1][col];
      assert data == init + [data[|data| - 1]];
      var s :- ColumnTotal(init, col);
      if last.IntCell? then
        CellSumSnoc(init, data[|data| - 1], col);
        Ok(s + last.n)
      else Err(TypeError)
  }

  /** `dict(column)` for a column indexed by the county column: rows are
      read in order, so a repeated county keeps its last value. */
  function CountyMap(data: seq<seq<Cell>>, county: nat, col: nat): map<Cell, Cell>
    requires HasColumn(data, county) && HasColumn(data, col)
  {
    if data == [] then map[]
    else CountyMap(data[..|data| - 1], county, col)[data[|data| - 1][county] := data[|data| - 1][col]]
  }

  /** The county map has one entry per distinct county of the answer. */
  lemma {:induction false} CountyMapKeys(data: seq<seq<Cell>>, county: nat, col: nat)
    requires HasColumn(data, county) && HasColumn(data, col)
    ensures forall k :: k in CountyMap(data, county, col) <==> exists i :: 0 <= i < |data| && data[i][county] == k
    decreases |data|
  {
    if data != [] {
      var init := data[..|data| - 1];
      var last := data[|data| - 1];
      CountyMapKeys(init, county, col);
      var m := CountyMap(data, county, col);
      assert m == CountyMap(init, county, col)[last[county] := last[col]];
      assert last == data[|data| - 1];
      forall k ensures k in m <==> exists i :: 0 <= i < |data| && data[i][county] == k {
        if k in m && k != last[county] {
          assert k in CountyMap(init, county, col);
          var i :| 0 <= i < |init| && init[i][county] == k;
          assert data[i] == init[i];
        }
        if k !in m {
          assert k !in CountyMap(init, county, col) && k != last[county];
          forall i | 0 <= i < |data| ensures data[i][county] != k {
            if i < |init| {
              assert data[i] == init[i];
            }
          }
        }
      }
    }
  }

  /** Each county's entry holds the population of the last row for that county. */
  lemma {:induction false} CountyMapLastWins(data: seq<seq<Cell>>, county: nat, col: nat, i: nat)
    requires HasColumn(data, county) && HasColumn(data, col)
    requires i < |data| && forall j :: i < j < |data| ==> data[j][county] != data[i][county]
    ensures data[i][county] in CountyMap(data, county, col)
    ensures CountyMap(data, county, col)[data[i][county]] == data[i][col]
    decreases |data|
  {
    var init := data[..|data| - 1];
    if i < |init| {
      assert init[i] == data[i];
      CountyMapLastWins(init, county, col, i);
    }
  }

  /** `get_population(counties)`: query the population field; for all
      counties (`["*"]`, the default) answer the sum of the column, for any
      other selection the map from county to population. */
  function GetPopulation(w: CensusWrapper, counties: seq<string>, net: Network): (r: Result<Population, Exc>)
    ensures r.Ok? ==> (r.value.Total? <==> counties == AllCounties)
  {
    var frame :- Fetch(w, [PopulationField], counties, net);
    if PopulationField !in frame.header then Err(KeyError)
    else
      var pop := IndexOf(frame.header, PopulationField);
      if counties == AllCounties then
        var total :- ColumnTotal(frame.data, pop);
        Ok(Total(total))
      else
        Ok(ByCounty(CountyMap(frame.data, IndexOf(frame.header, CountyField), pop)))
  }

  /** The whole-state answer is the sum of the population column over all
      data rows, and it exists exactly when every such cell is an integer. */
  lemma GetPopulationTotal(w: CensusWrapper, net: Network)
    requires Fetch(w, [PopulationField], AllCounties, net).Ok?
    requires PopulationField in Fetch(w, [PopulationField], AllCounties, net).value.header
    ensures var frame := Fetch(w, [PopulationField], AllCounties, net).value;
      var pop := IndexOf(frame.header, PopulationField);
      HasColumn(frame.data, pop) &&
      (GetPopulation(w, AllCounties, net).Ok? <==> forall i :: 0 <= i < |frame.data| ==> frame.data[i][pop].IntCell?) &&
      (GetPopulation(w, AllCounties, net).Ok? ==> GetPopulation(w, AllCounties, net) == Ok(Total(CellSum(frame.data, pop))))
  {
  }

  /** For a selection of counties, the answer exists exactly when the
      fetched header names the population field, and is then the map from
      each data row's county cell to its population cell; a failed fetch
      raises its own exception and a missing population field KeyError. */
  lemma GetPopulationCounties(w: CensusWrapper, counties: seq<string>, net: Network)
    requires counties != AllCounties
    ensures var frame := Fetch(w, [PopulationField], counties, net);
      var r := GetPopulation(w, counties, net);
      (frame.Err? ==> r == Err(frame.error))
      && (frame.Ok? ==>
        (r.Ok? <==> PopulationField in frame.value.header)
        && (r.Err? ==> r.error == KeyError)
        && (r.Ok? ==>
          var header, data := frame.value.header, frame.value.data;
          HasColumn(data, IndexOf(header, CountyField)) && HasColumn(data, IndexOf(header, PopulationField))
          && r.value == ByCounty(CountyMap(data, IndexOf(header, CountyField), IndexOf(header, PopulationField)))))
  {
  }

  /** Every text key of a county map starts with "0": a county code written
      without a leading zero comes back as an integer key. */
  lemma CountyKeysText(w: CensusWrapper, counties: seq<string>, net: Network)
    requires GetPopulation(w, counties, net).Ok? && GetPopulation(w, counties, net).value.ByCounty?
    ensures forall k :: k in GetPopulation(w, counties, net).value.counts && k.TextCell? ==> StartsWith(k.text, "0")
  {
    var frame := Fetch(w, [PopulationField], counties, net).value;
    var pop := IndexOf(frame.header, PopulationField);
    var county := IndexOf(frame.header, CountyField);
    DecodedTextCells(net(Resource(w, [PopulationField], counties).value));
    assert TextCellsZero(frame.data);
    CountyMapKeys(frame.data, county, pop);
    assert GetPopulation(w, counties, net).value.counts == CountyMap(frame.data, county, pop);
  }

  /** Every text cell of the data starts with "0". */
  ghost predicate TextCellsZero(data: seq<seq<Cell>>) {
    forall i, j :: 0 <= i < |data| && 0 <= j < |data[i]| && data[i][j].TextCell? ==> StartsWith(data[i][j].text, "0")
  }

  /** A decoded answer keeps as text only cells written with a leading "0". */
  lemma DecodedTextCells(response: Response)
    requires Decode(response).Ok?
    ensures TextCellsZero(Decode(response).value.data)
  {
    var data: seq<seq<Cell>> := Decode(response).value.data;
    forall i: int, j: int | 0 <= i < |data| && 0 <= j < |data[i]| && data[i][j].TextCell?
      ensures StartsWith(data[i][j].text, "0")
    {
      assert ConvertRow(response[i + 1]) == Ok(data[i]);
      assert ConvertCell(response[i + 1][j]) == Ok(data[i][j]);
    }
  }
}
