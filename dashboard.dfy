/**
 * The exoplanet dashboard (app.js): API address joining, the APOD date
 * rewrite, row normalisation into planet records, the discoveries-per-year
 * series, and the table state: all rows, the filtered and sorted rows, and
 * the sort column and direction.
 *
 * Input boxes are parameters. `parseFloat`/`parseInt` of the range boxes are
 * given as their results (`JsNumber`). The Arabic numeric collation that
 * orders text columns is a parameter `collate`, standing for
 * `(a, b) => a.localeCompare(b, "ar", { numeric: true })`.
 */
module Dashboard {
  import opened JsValues
  import opened Resolver
  import opened Coercion
  import opened Grouping
  import opened StableSort
  import Csv

  // ---------------------------------------------------------------------------
  // API address

  /** `s.replace(/\/+$/, "")` */
  function TrimSlashes(s: string): (r: string)
    ensures |r| <= |s| && r == s[..|r|]
    ensures r == [] || r[|r| - 1] != '/'
    ensures forall i :: |r| <= i < |s| ==> s[i] == '/'
  {
    if s != [] && s[|s| - 1] == '/' then TrimSlashes(s[..|s| - 1]) else s
  }

  /** `apiUrl(path)` with `API.base == base` */
  function ApiUrl(base: string, path: string): (url: string)
    ensures base == "" ==> url == path
    ensures base != "" ==> StartsWith(url, TrimSlashes(base) + "/")
    ensures base != "" ==> |path| <= |url| && url[|url| - |path|..] == path
    ensures base != "" ==> |url| == |TrimSlashes(base)| + |path| + (if StartsWith(path, "/") then 0 else 1)
  {
    if base == "" then path
    else TrimSlashes(base) + (if StartsWith(path, "/") then path else "/" + path)
  }

  /** Slashes at the end of the base address make no difference. */
  lemma {:induction false} ApiUrlTrailingSlash(base: string, path: string)
    requires base != ""
    ensures ApiUrl(base + "/", path) == ApiUrl(base, path)
  {
    assert (base + "/")[..|base|] == base;
  }

  /** A path with or without its leading slash gives the same address. */
  lemma {:induction false} ApiUrlLeadingSlash(base: string, path: string)
    requires base != "" && !StartsWith(path, "/")
    ensures ApiUrl(base, "/" + path) == ApiUrl(base, path)
  {
    assert StartsWith("/" + path, "/");
  }

  // ---------------------------------------------------------------------------
  // APOD request

  /** `/^\d{2}\/\d{2}\/\d{4}$/` */
  predicate IsUsDate(s: string) {
    |s| == 10 && AllDigits(s[..2]) && s[2] == '/' && AllDigits(s[3..5]) && s[5] == '/' && AllDigits(s[6..])
  }

  /** `YYYY-MM-DD` */
  predicate IsIsoDate(s: string) {
    |s| == 10 && AllDigits(s[..4]) && s[4] == '-' && AllDigits(s[5..7]) && s[7] == '-' && AllDigits(s[8..])
  }

  /** The date sent to APOD: `MM/DD/YYYY` becomes `YYYY-MM-DD`, anything else is sent as typed. */
  function ApodDate(date: string): (r: string)
    ensures IsUsDate(date) ==> IsIsoDate(r) && r[..4] == date[6..] && r[5..7] == date[..2] && r[8..] == date[3..5]
    ensures !IsUsDate(date) ==> r == date
  {
    if date != "" && IsUsDate(date) then date[6..] + "-" + date[..2] + "-" + date[3..5] else date
  }

  /** Reading an ISO date back in the `MM/DD/YYYY` form. */
  function UsDate(iso: string): string
    requires |iso| == 10
  {
    iso[5..7] + "/" + iso[8..] + "/" + iso[..4]
  }

  /** The rewrite loses nothing, and a rewritten date is left alone. */
  lemma {:induction false} ApodDateRoundTrip(date: string)
    requires IsUsDate(date)
    ensures UsDate(ApodDate(date)) == date
    ensures ApodDate(ApodDate(date)) == ApodDate(date)
  {
    var r := ApodDate(date);
    assert UsDate(r) == date[..2] + "/" + date[3..5] + "/" + date[6..];
    assert date == date[..2] + [date[2]] + date[3..5] + [date[5]] + date[6..];
    assert r[2] != '/' by {
      assert r[..4][2] == r[2];
    }
  }

  /**
   * The query parameters of the APOD request: the trimmed key or `DEMO_KEY`,
   * and the (rewritten) date when one was typed.
   */
  function ApodParams(keyInput: string, dateInput: string): (ps: seq<(string, string)>)
    ensures 1 <= |ps| <= 2 && ps[0].0 == "api_key" && ps[0].1 != ""
    ensures |ps| == 2 <==> dateInput != ""
    ensures Trim(keyInput) != "" ==> ps[0].1 == Trim(keyInput)
    ensures Trim(keyInput) == "" ==> ps[0].1 == "DEMO_KEY"
    ensures |ps| == 2 ==> ps[1].0 == "date" && ps[1].1 == ApodDate(dateInput)
    ensures |ps| == 2 ==> (IsUsDate(dateInput) ==> IsIsoDate(ps[1].1))
  {
    var key := if Trim(keyInput) == "" then "DEMO_KEY" else Trim(keyInput);
    var date := ApodDate(dateInput);
    [("api_key", key)] + (if date != "" then [("date", date)] else [])
  }

  /** Typing the values that were sent gives the same request again. */
  lemma ApodParamsStable(keyInput: string, dateInput: string)
    ensures var ps := ApodParams(keyInput, dateInput);
      ApodParams(ps[0].1, if |ps| == 2 then ps[1].1 else "") == ps
  {
    var ps := ApodParams(keyInput, dateInput);
    var key := ps[0].1;
    if Trim(keyInput) == "" {
      assert Trim("DEMO_KEY") == "DEMO_KEY" by {
        TrimUnchanged("DEMO_KEY");
      }
    } else {
      TrimUnchanged(key);
    }
    if IsUsDate(dateInput) {
      ApodDateRoundTrip(dateInput);
    }
  }

  // ---------------------------------------------------------------------------
  // Planet records

  datatype PlanetRow = PlanetRow(
    plName: Value,
    plOrbper: Option<real>,
    plRade: Option<real>,
    discYear: Option<int>,
    hostname: Value,
    discoveryMethod: Value)

  const NameKeys: seq<string> :=
    ["pl_name", "name", "planet", "PL_NAME", "Name", "الكوكب", "الاسم", "kepler_name", "kepoi_name", "koi_name"]
  const PeriodKeys: seq<string> :=
    ["pl_orbper", "period", "PL_ORBPER", "koi_period", "orbital_period", "الفترة", "الفترة (يوم)"]
  const RadiusKeys: seq<string> :=
    ["pl_rade", "radius", "PL_RADE", "koi_prad", "earth_radius", "نصف القطر", "نصف القطر (أرضي)"]
  const YearKeys: seq<string> :=
    ["disc_year", "year", "DISC_YEAR", "Year", "سنة الاكتشاف", "Year"]
  const HostKeys: seq<string> :=
    ["hostname", "host_star", "HOSTNAME", "Star", "النجم المضيف", "النجم", "koi_targetname"]
  const MethodKeys: seq<string> :=
    ["discoverymethod", "method", "DISCOVERYMETHOD", "Method", "طريقة الاكتشاف", "الطريقة", "koi_disposition"]

  /**
   * `normalizeRow(r)`: each field resolved from its candidate headers; the
   * text fields are kept as found, the period and radius read as numbers
   * and the year as the first four-digit run.
   */
  function NormalizeRow(r: Record): (p: PlanetRow)
    ensures p.discYear.Some? ==> 0 <= p.discYear.value <= 9999
    ensures p.plName == Null || (Present(p.plName) && exists i :: 0 <= i < |r| && r[i].1 == p.plName)
    ensures p.hostname == Null || (Present(p.hostname) && exists i :: 0 <= i < |r| && r[i].1 == p.hostname)
    ensures p.discoveryMethod == Null ||
      (Present(p.discoveryMethod) && exists i :: 0 <= i < |r| && r[i].1 == p.discoveryMethod)
  {
    ResolveStored(r, NameKeys);
    ResolveStored(r, HostKeys);
    ResolveStored(r, MethodKeys);
    PlanetRow(
      Resolve(r, NameKeys),
      ToNum(Resolve(r, PeriodKeys)),
      ToNum(Resolve(r, RadiusKeys)),
      ToYear(Resolve(r, YearKeys)),
      Resolve(r, HostKeys),
      Resolve(r, MethodKeys))
  }

  /** `data.map(normalizeRow)` */
  function NormalizeAll(data: seq<Record>): (rows: seq<PlanetRow>)
    ensures |rows| == |data| && forall i :: 0 <= i < |data| ==> rows[i] == NormalizeRow(data[i])
  {
    seq(|data|, i requires 0 <= i < |data| => NormalizeRow(data[i]))
  }

  /** `normalizeRow(r)` with each field looked up by `getAny`. */
  method NormalizeRecord(r: Record) returns (p: PlanetRow)
    ensures p == NormalizeRow(r)
  {
    var name := GetAny(r, NameKeys);
    var period := GetAny(r, PeriodKeys);
    var radius := GetAny(r, RadiusKeys);
    var year := GetAny(r, YearKeys);
    var host := GetAny(r, HostKeys);
    var method_ := GetAny(r, MethodKeys);
    p := PlanetRow(name, ToNum(period), ToNum(radius), ToYear(year), host, method_);
  }

  /** A record with none of the headers gives a row of nulls. */
  lemma EmptyRecordRow()
    ensures NormalizeRow([]) == PlanetRow(Null, None, None, None, Null, Null)
  {
    ResolveEmpty(NameKeys);
    ResolveEmpty(PeriodKeys);
    ResolveEmpty(RadiusKeys);
    ResolveEmpty(YearKeys);
    ResolveEmpty(HostKeys);
    ResolveEmpty(MethodKeys);
  }

  function NumOrNull(x: Option<real>): Value {
    if x.Some? then Num(x.value) else Null
  }

  function YearValue(y: Option<int>): Value {
    if y.Some? then Num(y.value as real) else Null
  }

  /** A planet row as the object `toCSV` and the sort comparator see. */
  function AsRecord(p: PlanetRow): Record {
    [("pl_name", p.plName), ("pl_orbper", NumOrNull(p.plOrbper)), ("pl_rade", NumOrNull(p.plRade)),
     ("disc_year", YearValue(p.discYear)), ("hostname", p.hostname), ("discoverymethod", p.discoveryMethod)]
  }

  const Headers: seq<string> := ["pl_name", "pl_orbper", "pl_rade", "disc_year", "hostname", "discoverymethod"]

  /** The planet rows as objects. */
  function Records(rows: seq<PlanetRow>): (rs: seq<Record>)
    ensures |rs| == |rows|
  {
    seq(|rows|, i requires 0 <= i < |rows| => AsRecord(rows[i]))
  }

  /** `r[key]` on a planet row: one of its six columns, or undefined for any other key. */
  function Column(p: PlanetRow, key: string): (v: Option<Value>)
    ensures v == Get(AsRecord(p), key)
  {
    var r := AsRecord(p);
    var r1 := r[1..];
    var r2 := r1[1..];
    var r3 := r2[1..];
    var r4 := r3[1..];
    var r5 := r4[1..];
    assert r5[1..] == [];
    assert Get(r5, key) == if key == "discoverymethod" then Some(p.discoveryMethod) else None;
    assert Get(r4, key) == if key == "hostname" then Some(p.hostname) else Get(r5, key);
    assert Get(r3, key) == if key == "disc_year" then Some(YearValue(p.discYear)) else Get(r4, key);
    assert Get(r2, key) == if key == "pl_rade" then Some(NumOrNull(p.plRade)) else Get(r3, key);
    assert Get(r1, key) == if key == "pl_orbper" then Some(NumOrNull(p.plOrbper)) else Get(r2, key);
    if key == "pl_name" then Some(p.plName)
    else if key == "pl_orbper" then Some(NumOrNull(p.plOrbper))
    else if key == "pl_rade" then Some(NumOrNull(p.plRade))
    else if key == "disc_year" then Some(YearValue(p.discYear))
    else if key == "hostname" then Some(p.hostname)
    else if key == "discoverymethod" then Some(p.discoveryMethod)
    else None
  }

  /** The export of planet rows reads back as the header row and each row's cells. */
  lemma {:induction false} ExportReadsBack(rows: seq<PlanetRow>)
    requires rows != []
    ensures Csv.ReadTable(Csv.CsvText(Records(rows))) ==
      Some([Headers] + seq(|rows|, i requires 0 <= i < |rows| => Csv.Cells(Headers, AsRecord(rows[i]))))
  {
    var recs := Records(rows);
    assert recs[0] == AsRecord(rows[0]);
    assert Csv.Keys(recs[0]) == Headers;
    forall i | 0 <= i < |recs[0]| ensures Csv.PlainHeader(recs[0][i].0) {
      PlainHeaders(i);
    }
    Csv.CsvReadsBack(recs);
    assert seq(|recs|, i requires 0 <= i < |recs| => Csv.Cells(Csv.Keys(recs[0]), recs[i])) ==
      seq(|rows|, i requires 0 <= i < |rows| => Csv.Cells(Headers, AsRecord(rows[i])));
  }

  lemma {:induction false} PlainHeaders(i: nat)
    requires i < |Headers|
    ensures Csv.PlainHeader(Headers[i])
  {
    var h := Headers[i];
    forall j | 0 <= j < |h| ensures h[j] != '"' && h[j] != ',' && h[j] != '\n' {
      assert 'a' <= h[j] <= 'z' || h[j] == '_';
    }
    assert !('"' in h) && !(',' in h) && !('\n' in h);
  }

  // ---------------------------------------------------------------------------
  // Discoveries per year

  /** The discovery years of the rows that have one, in order. */
  function Years(rows: seq<PlanetRow>): (ys: seq<int>)
    ensures |ys| <= |rows|
  {
    if rows == [] then []
    else
      var p := rows[|rows| - 1];
      Years(rows[..|rows| - 1]) + (if p.discYear.Some? then [p.discYear.value] else [])
  }

  /** The keys of count entries. */
  function Firsts<K>(t: seq<(K, nat)>): (r: seq<K>)
    ensures |r| == |t|
    ensures forall i :: 0 <= i < |t| ==> r[i] == t[i].0
  {
    seq(|t|, i requires 0 <= i < |t| => t[i].0)
  }

  /** The discovery years counted in row order. */
  method CountYears(rows: seq<PlanetRow>) returns (m: seq<(int, nat)>)
    ensures m == Tally(Years(rows))
  {
    m := [];
    for i := 0 to |rows|
      invariant m == Tally(Years(rows[..i]))
    {
      var ys := Years(rows[..i]);
      assert rows[..i + 1][..i] == rows[..i];
      var y := rows[i].discYear;
      if y.Some? {
        assert Years(rows[..i + 1]) == ys + [y.value];
        assert (ys + [y.value])[..|ys|] == ys;
        m := Bump(m, y.value);
      } else {
        assert Years(rows[..i + 1]) == ys;
      }
    }
    assert rows[..|rows|] == rows;
  }

  /** The year series of a list of years: ascending distinct years, each with its number of occurrences. */
  lemma {:induction false} YearSeries(ks: seq<int>)
    ensures var t := SortedTally(ks);
      var years, counts := Firsts(t), Seconds(t);
      |years| == |counts| &&
      (forall i, j :: 0 <= i < j < |years| ==> years[i] < years[j]) &&
      (forall y :: y in years <==> y in ks) &&
      (forall i :: 0 <= i < |years| ==> counts[i] == multiset(ks)[years[i]] >= 1) &&
      SumNat(counts) == |ks|
  {
    var t := SortedTally(ks);
    SortedTallyAscending(ks);
    SortedTallyCounts(ks);
    SumSeconds(t);
    var years := Firsts(t);
    forall y ensures y in years <==> HasKey(t, y) {
      if y in years {
        var i :| 0 <= i < |years| && years[i] == y;
      }
    }
  }

  /**
   * `groupByYear(rows)`: the years that occur, ascending, each with its
   * number of rows; the counts add up to the number of rows with a year.
   */
  method GroupByYear(rows: seq<PlanetRow>) returns (years: seq<int>, counts: seq<nat>)
    ensures |years| == |counts|
    ensures forall i, j :: 0 <= i < j < |years| ==> years[i] < years[j]
    ensures forall y :: y in years <==> y in Years(rows)
    ensures forall i :: 0 <= i < |years| ==> counts[i] == multiset(Years(rows))[years[i]] >= 1
    ensures SumNat(counts) == |Years(rows)|
  {
    var m := CountYears(rows);
    var sorted := Sort(m, KeyOrder());
    years := Firsts(sorted);
    counts := Seconds(sorted);
    YearSeries(Years(rows));
  }

  // ---------------------------------------------------------------------------
  // Filtering

  /** The filter boxes: the name text and the range bounds as parsed. */
  datatype Query = Query(name: string, minRadius: JsNumber, maxRadius: JsNumber, minYear: JsNumber, maxYear: JsNumber)

  /** The boxes after Reset: all empty, so every bound is NaN. */
  const EmptyQuery := Query("", NaN, NaN, NaN, NaN)

  /** `searchName.value.trim().toLowerCase()` */
  function NameQuery(q: Query): string {
    ToLower(Trim(q.name))
  }

  datatype Outcome = Ok(keep: bool) | TypeError

  /**
   * `!nameQ || (r.pl_name && r.pl_name.toLowerCase().includes(nameQ))` as
   * written: a name that is a non-zero number has no `toLowerCase`, and the
   * call throws.
   */
  function NameOkAsWritten(name: Value, nameQ: string): Outcome {
    if nameQ == "" then Ok(true)
    else if !Truthy(name) then Ok(false)
    else match name
      case Str(s) => Ok(Contains(ToLower(s), nameQ))
      case _ => TypeError
  }

  /** The name test on the text of the name, whatever its type. */
  predicate NameOk(name: Value, nameQ: string) {
    nameQ == "" || (Truthy(name) && Contains(ToLower(ToJsString(name)), nameQ))
  }

  /** The name test as written throws exactly for a non-zero numeric name, and otherwise agrees with `NameOk`. */
  lemma {:induction false} NameOkAsWrittenAgrees(name: Value, nameQ: string)
    ensures NameOkAsWritten(name, nameQ) == TypeError <==> nameQ != "" && name.Num? && name.x != 0.0
    ensures NameOkAsWritten(name, nameQ).Ok? ==> NameOkAsWritten(name, nameQ).keep == NameOk(name, nameQ)
  {
  }

  /** A planet named 2014 (read from a numeric cell) stops the search for "20". */
  lemma NumericNameThrows()
    ensures NameOkAsWritten(Num(2014.0), "20") == TypeError
    ensures NameOk(Num(2014.0), "20")
  {
    Text2014();
    assert StartsWith("2014", "20");
  }

  lemma Text2014()
    ensures ToJsString(Num(2014.0)) == "2014"
  {
    Digits2014();
    assert (2014.0).Floor == 2014;
    assert 2014.0 - 2014 as real == 0.0;
    assert "" + "2014" + "" == "2014";
  }

  lemma Digits2014()
    ensures NatToString(2014) == "2014"
  {
    assert NatToString(2) == "2";
    assert NatToString(20) == NatToString(2) + "0";
    assert NatToString(201) == NatToString(20) + "1";
    assert NatToString(2014) == NatToString(201) + "4";
  }

  /** `isNaN(min) || (v ?? Infinity) >= min` */
  predicate MinOk(v: Option<real>, min: JsNumber) {
    min.NaN? || AtLeast(if v.Some? then Finite(v.value) else PosInf, min)
  }

  /** `isNaN(max) || (v ?? -Infinity) <= max` */
  predicate MaxOk(v: Option<real>, max: JsNumber) {
    max.NaN? || AtMost(if v.Some? then Finite(v.value) else NegInf, max)
  }

  function YearReal(y: Option<int>): Option<real> {
    if y.Some? then Some(y.value as real) else None
  }

  /** The row predicate of `applyFilters`. */
  predicate Keep(q: Query, p: PlanetRow) {
    NameOk(p.plName, NameQuery(q))
    && MinOk(p.plRade, q.minRadius) && MaxOk(p.plRade, q.maxRadius)
    && MinOk(YearReal(p.discYear), q.minYear) && MaxOk(YearReal(p.discYear), q.maxYear)
  }

  /** `ALL_ROWS.filter(...)` */
  function FilterRows(rows: seq<PlanetRow>, q: Query): (r: seq<PlanetRow>)
    ensures |r| <= |rows|
  {
    if rows == [] then []
    else (if Keep(q, rows[0]) then [rows[0]] else []) + FilterRows(rows[1..], q)
  }

  /** A NaN bound checks nothing, and an absent value passes every bound. */
  lemma {:induction false} BoundsBehaviour(v: Option<real>, b: JsNumber)
    ensures b.NaN? ==> MinOk(v, b) && MaxOk(v, b)
    ensures v.None? ==> MinOk(v, b) && MaxOk(v, b)
    ensures v.Some? && b.Finite? ==> (MinOk(v, b) <==> v.value >= b.x) && (MaxOk(v, b) <==> v.value <= b.x)
  {
  }

  /** The filter keeps exactly the rows that pass, each as often as it occurs. */
  lemma {:induction false} FilterKeepsPassing(rows: seq<PlanetRow>, q: Query)
    ensures forall p :: multiset(FilterRows(rows, q))[p] == if Keep(q, p) then multiset(rows)[p] else 0
    ensures forall i :: 0 <= i < |FilterRows(rows, q)| ==> Keep(q, FilterRows(rows, q)[i])
  {
    if rows != [] {
      FilterKeepsPassing(rows[1..], q);
      assert rows == [rows[0]] + rows[1..];
    }
  }

  /** The filter keeps the rows in their original order: it works piece by piece. */
  lemma {:induction false} FilterRowsInOrder(a: seq<PlanetRow>, b: seq<PlanetRow>, q: Query)
    ensures FilterRows(a + b, q) == FilterRows(a, q) + FilterRows(b, q)
    decreases |a|
  {
    if a != [] {
      assert (a + b)[0] == a[0] && (a + b)[1..] == a[1..] + b;
      FilterRowsInOrder(a[1..], b, q);
    } else {
      assert a + b == b;
    }
  }

  /** A single row stays exactly when it passes. */
  lemma FilterRowsSingle(p: PlanetRow, q: Query)
    ensures FilterRows([p], q) == if Keep(q, p) then [p] else []
  {
    assert [p][1..] == [];
  }

  /** A sequence of rows that all pass is left as it is. */
  lemma {:induction false} FilterAllPass(rows: seq<PlanetRow>, q: Query)
    requires forall i :: 0 <= i < |rows| ==> Keep(q, rows[i])
    ensures FilterRows(rows, q) == rows
  {
    if rows != [] {
      assert Keep(q, rows[0]);
      FilterAllPass(rows[1..], q);
    }
  }

  /** Filtering twice with the same query changes nothing more. */
  lemma {:induction false} FilterIdempotent(rows: seq<PlanetRow>, q: Query)
    ensures FilterRows(FilterRows(rows, q), q) == FilterRows(rows, q)
  {
    FilterKeepsPassing(rows, q);
    FilterAllPass(FilterRows(rows, q), q);
  }

  /** With every box empty, every row is kept. */
  lemma {:induction false} EmptyQueryKeepsAll(rows: seq<PlanetRow>)
    ensures FilterRows(rows, EmptyQuery) == rows
  {
    if rows != [] {
      assert NameQuery(EmptyQuery) == "" by {
        assert Trim("") == "";
      }
      EmptyQueryKeepsAll(rows[1..]);
    }
  }

  // ---------------------------------------------------------------------------
  // Sorting

  /** `a[key] ?? ""` */
  function SortCell(p: PlanetRow, key: string): Value {
    var v := Column(p, key);
    if v.None? || v.value == Null then Str("") else v.value
  }

  /** The comparator of `applyFilters`: numbers by difference, anything else by collation, times `dir`. */
  function RowOrder(key: string, dir: int, collate: (string, string) -> int): (PlanetRow, PlanetRow) -> real {
    (a: PlanetRow, b: PlanetRow) =>
      var av, bv := SortCell(a, key), SortCell(b, key);
      if av.Num? && bv.Num? then (av.x - bv.x) * dir as real
      else (collate(ToJsString(av), ToJsString(bv)) * dir) as real
  }

  /** A collation puts the empty string before any other and equal to itself. */
  ghost predicate EmptyFirst(collate: (string, string) -> int) {
    collate("", "") == 0 && forall t :: t != "" ==> collate("", t) < 0 && collate(t, "") > 0
  }

  predicate NumericColumn(key: string) {
    key == "pl_orbper" || key == "pl_rade" || key == "disc_year"
  }

  /** The value of a numeric column, or None when the row has none. */
  function NumericCell(p: PlanetRow, key: string): Option<real>
    requires NumericColumn(key)
  {
    if key == "pl_orbper" then p.plOrbper else if key == "pl_rade" then p.plRade else YearReal(p.discYear)
  }

  lemma {:induction false} NumericSortCell(p: PlanetRow, key: string)
    requires NumericColumn(key)
    ensures SortCell(p, key) == if NumericCell(p, key).Some? then Num(NumericCell(p, key).value) else Str("")
  {
  }

  /** The order the comparator gives a numeric column: rows without a value below every value. */
  predicate NumLe(a: Option<real>, b: Option<real>, dir: int) {
    match (a, b)
    case (None, None) => true
    case (None, Some(_)) => dir == 1
    case (Some(_), None) => dir == -1
    case (Some(x), Some(y)) => (x - y) * dir as real <= 0.0
  }

  lemma {:induction false} NumericLe(key: string, dir: int, collate: (string, string) -> int, a: PlanetRow, b: PlanetRow)
    requires NumericColumn(key) && (dir == 1 || dir == -1) && EmptyFirst(collate)
    ensures Le(RowOrder(key, dir, collate), a, b) <==> NumLe(NumericCell(a, key), NumericCell(b, key), dir)
  {
    NumericSortCell(a, key);
    NumericSortCell(b, key);
    var x, y := NumericCell(a, key), NumericCell(b, key);
    var c := collate(ToJsString(SortCell(a, key)), ToJsString(SortCell(b, key)));
    TimesDirection(c, dir);
    if x.None? && y.Some? {
      assert c < 0;
    } else if x.Some? && y.None? {
      assert c > 0;
    } else if x.None? && y.None? {
      assert c == 0;
    }
  }

  lemma {:induction false} TimesDirection(c: int, dir: int)
    requires dir == 1 || dir == -1
    ensures c * dir == if dir == 1 then c else -c
  {
  }

  /** On a numeric column the comparator is consistent, so the sort is well defined. */
  lemma {:induction false} NumericOrderConsistent(key: string, dir: int, collate: (string, string) -> int)
    requires NumericColumn(key) && (dir == 1 || dir == -1) && EmptyFirst(collate)
    ensures TotalPreorder(RowOrder(key, dir, collate))
  {
    var cmp := RowOrder(key, dir, collate);
    forall a, b ensures Le(cmp, a, b) || Le(cmp, b, a) {
      NumericLe(key, dir, collate, a, b);
      NumericLe(key, dir, collate, b, a);
    }
    forall a, b, c | Le(cmp, a, b) && Le(cmp, b, c) ensures Le(cmp, a, c) {
      NumericLe(key, dir, collate, a, b);
      NumericLe(key, dir, collate, b, c);
      NumericLe(key, dir, collate, a, c);
    }
  }

  /**
   * Sorting a numeric column: ascending puts rows without a value first and
   * the values in ascending order; descending puts the values in descending
   * order and rows without a value last.
   */
  lemma {:induction false} NumericSortOrder(rows: seq<PlanetRow>, key: string, dir: int, collate: (string, string) -> int)
    requires NumericColumn(key) && (dir == 1 || dir == -1) && EmptyFirst(collate)
    ensures var s := Sort(rows, RowOrder(key, dir, collate));
      forall i, j :: 0 <= i < j < |s| ==> NumLe(NumericCell(s[i], key), NumericCell(s[j], key), dir)
  {
    var cmp := RowOrder(key, dir, collate);
    NumericOrderConsistent(key, dir, collate);
    SortSorted(rows, cmp);
    var s := Sort(rows, cmp);
    forall i, j | 0 <= i < j < |s| ensures NumLe(NumericCell(s[i], key), NumericCell(s[j], key), dir) {
      assert Le(cmp, s[i], s[j]);
      NumericLe(key, dir, collate, s[i], s[j]);
    }
  }

  // ---------------------------------------------------------------------------
  // Table state

  class Table {
    /** `ALL_ROWS` */
    var allRows: seq<PlanetRow>
    /** `FILTERED` */
    var filtered: seq<PlanetRow>
    /** `sortState.key`: `None` is `null` */
    var sortKey: Option<string>
    /** `sortState.dir` */
    var sortDir: int

    ghost predicate Valid()
      reads this
    {
      sortDir == 1 || sortDir == -1
    }

    constructor()
      ensures Valid()
      ensures allRows == [] && filtered == [] && sortKey == None && sortDir == 1
    {
      allRows := [];
      filtered := [];
      sortKey := None;
      sortDir := 1;
    }

    /** `if (sortState.key)`: a non-empty key turns sorting on. */
    predicate Sorting()
      reads this
    {
      sortKey.Some? && sortKey.value != ""
    }

    /** The rows `applyFilters` leaves in `FILTERED` for the current state. */
    function Shown(q: Query, collate: (string, string) -> int): seq<PlanetRow>
      reads this
    {
      var kept := FilterRows(allRows, q);
      if Sorting() then Sort(kept, RowOrder(sortKey.value, sortDir, collate)) else kept
    }

    /** `applyFilters()` */
    method ApplyFilters(q: Query, collate: (string, string) -> int)
      modifies this`filtered
      ensures filtered == Shown(q, collate)
    {
      filtered := FilterRows(allRows, q);
      if sortKey.Some? && sortKey.value != "" {
        filtered := Sort(filtered, RowOrder(sortKey.value, sortDir, collate));
      }
    }

    /** Loading rows: `ALL_ROWS = data.map(normalizeRow)`, the sort state is reset and the filters applied. */
    method Load(data: seq<Record>, q: Query, collate: (string, string) -> int)
      modifies this
      ensures Valid()
      ensures allRows == NormalizeAll(data)
      ensures sortKey == None && sortDir == 1
      ensures filtered == FilterRows(allRows, q)
    {
      allRows := NormalizeAll(data);
      sortKey := None;
      sortDir := 1;
      ApplyFilters(q, collate);
    }

    /** A click on a column header: the same key flips the direction, another key sorts ascending by it. */
    method ClickHeader(key: Option<string>, q: Query, collate: (string, string) -> int)
      requires Valid()
      modifies this`sortKey, this`sortDir, this`filtered
      ensures Valid()
      ensures old(sortKey) == key ==> sortKey == key && sortDir == -old(sortDir)
      ensures old(sortKey) != key ==> sortKey == key && sortDir == 1
      ensures filtered == Shown(q, collate)
    {
      if sortKey == key {
        sortDir := sortDir * -1;
      } else {
        sortKey := key;
        sortDir := 1;
      }
      ApplyFilters(q, collate);
    }

    /** Reset: every box emptied, sort state cleared, filters applied; every row is shown in load order. */
    method Reset(collate: (string, string) -> int)
      modifies this`sortKey, this`sortDir, this`filtered
      ensures Valid()
      ensures sortKey == None && sortDir == 1
      ensures filtered == allRows
    {
      sortKey := None;
      sortDir := 1;
      ApplyFilters(EmptyQuery, collate);
      EmptyQueryKeepsAll(allRows);
    }

    /** Export: nothing when no row is shown, otherwise `toCSV(FILTERED)`. */
    method Export() returns (csv: Option<string>)
      ensures filtered == [] ==> csv == None
      ensures filtered != [] ==> csv == Some(Csv.CsvText(Records(filtered)))
    {
      if |filtered| == 0 {
        return None;
      }
      var text := Csv.ToCsv(Records(filtered));
      csv := Some(text);
    }
  }

  /** Whatever the sort state, `FILTERED` holds exactly the rows that pass the filter. */
  lemma {:induction false} ShownIsFilteredRows(t: Table, q: Query, collate: (string, string) -> int)
    ensures multiset(t.Shown(q, collate)) == multiset(FilterRows(t.allRows, q))
  {
  }
}
