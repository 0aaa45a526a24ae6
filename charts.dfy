/**
 * The analytic charts over the dashboard's filtered planet rows
 * (charts3d.js): the `fmt`, `clamp` and `by` helpers, the points of the 3-D
 * scatter, the method-by-year count surface, the cumulative discoveries line
 * and the year-by-radius heatmap. Only the data each chart is given is
 * modelled, not the drawing.
 *
 * A count matrix `Z` is a sequence of rows of counts; `Z[i][j]++` is `Inc`.
 */
module Charts {
  import opened JsValues
  import opened Grouping
  import opened StableSort
  import opened Dashboard

  // ---------------------------------------------------------------------------
  // Helpers

  /**
   * `fmt(n)` on a numeric cell: `null`/`undefined` (`None`) and NaN become
   * `null`; any other number, infinities included, is returned as it is.
   */
  function Fmt(n: Option<JsNumber>): (r: Option<JsNumber>)
    ensures r.None? <==> n.None? || n == Some(NaN)
    ensures r.Some? ==> r == n
  {
    if n.None? || n == Some(NaN) then None else n
  }

  /** A planet row's number as `fmt` sees it: `null` or a finite number. */
  function Cell(x: Option<real>): Option<JsNumber> {
    if x.Some? then Some(Finite(x.value)) else None
  }

  /** `fmt` leaves the numbers of a planet row alone, and is idempotent. */
  lemma {:induction false} FmtKeepsCells(x: Option<real>, n: Option<JsNumber>)
    ensures Fmt(Cell(x)) == Cell(x)
    ensures Fmt(Fmt(n)) == Fmt(n)
  {
  }

  /** `Math.max(min, Math.min(max, n))` */
  function Clamp(n: int, lo: int, hi: int): (r: int)
    ensures r >= lo
    ensures lo <= hi ==> r <= hi
    ensures lo <= n <= hi ==> r == n
  {
    var m := if hi < n then hi else n;
    if lo > m then lo else m
  }

  /** Clamping pushes a value below the range up to its bottom and one above it down to its top. */
  lemma {:induction false} ClampEnds(n: int, lo: int, hi: int)
    requires lo <= hi
    ensures n < lo ==> Clamp(n, lo, hi) == lo
    ensures n > hi ==> Clamp(n, lo, hi) == hi
  {
  }

  function RowSelf(p: PlanetRow): PlanetRow { p }

  /** The group name of a row in `by(arr, key)`: `String(r[key] ?? '—')`. */
  function ByKey(key: string): PlanetRow -> string {
    p => match Column(p, key)
         case None => "—"
         case Some(v) => if v == Null then "—" else ToJsString(v)
  }

  /** `by(arr, key)`: the rows grouped under their value of `key`, in first-seen order. */
  method By(arr: seq<PlanetRow>, key: string) returns (g: seq<(string, seq<PlanetRow>)>)
    ensures g == Group(arr, ByKey(key), RowSelf)
  {
    g := GroupInto(arr, ByKey(key), RowSelf);
  }

  /**
   * `by` partitions the rows: one group per value met, holding exactly the
   * rows with that value in order; the group sizes add up to the row count.
   */
  lemma {:induction false} ByPartition(arr: seq<PlanetRow>, key: string)
    ensures DistinctKeys(Group(arr, ByKey(key), RowSelf))
    ensures forall i :: 0 <= i < |Group(arr, ByKey(key), RowSelf)| ==>
      Group(arr, ByKey(key), RowSelf)[i].1 ==
      Select(arr, ByKey(key), RowSelf, Group(arr, ByKey(key), RowSelf)[i].0) != []
    ensures forall k :: HasKey(Group(arr, ByKey(key), RowSelf), k) <==> Select(arr, ByKey(key), RowSelf, k) != []
    ensures SumSizes(Group(arr, ByKey(key), RowSelf)) == |arr|
  {
    GroupContents(arr, ByKey(key), RowSelf);
    GroupSizes(arr, ByKey(key), RowSelf);
  }

  /** A row without the column, or with `null` in it, is filed under '—'. */
  lemma {:induction false} ByMissing(p: PlanetRow, key: string)
    requires Column(p, key).None? || Column(p, key) == Some(Null)
    ensures ByKey(key)(p) == "—"
  {
  }

  // ---------------------------------------------------------------------------
  // 3-D scatter

  /** `ox != null && ry != null && zy != null` */
  predicate Plottable(p: PlanetRow) {
    p.plOrbper.Some? && p.plRade.Some? && p.discYear.Some?
  }

  /** The rows the scatter plots, in order. */
  function Plotted(rows: seq<PlanetRow>): (r: seq<PlanetRow>)
    ensures |r| <= |rows|
    ensures forall i :: 0 <= i < |r| ==> Plottable(r[i])
  {
    if rows == [] then []
    else
      var p := rows[|rows| - 1];
      Plotted(rows[..|rows| - 1]) + (if Plottable(p) then [p] else [])
  }

  lemma {:induction false} PlottedMembers(rows: seq<PlanetRow>, p: PlanetRow)
    ensures p in Plotted(rows) <==> p in rows && Plottable(p)
  {
    if rows != [] {
      PlottedMembers(rows[..|rows| - 1], p);
      assert rows == rows[..|rows| - 1] + [rows[|rows| - 1]];
    }
  }

  /** The scatter keeps the rows in order: it works piece by piece, and one row is plotted exactly when it is plottable. */
  lemma {:induction false} PlottedInOrder(a: seq<PlanetRow>, b: seq<PlanetRow>, p: PlanetRow)
    ensures Plotted(a + b) == Plotted(a) + Plotted(b)
    ensures Plotted([p]) == if Plottable(p) then [p] else []
    decreases |b|
  {
    assert [p][..0] == [];
    if b == [] {
      assert a + b == a;
    } else {
      var init := b[..|b| - 1];
      assert (a + b)[..|a + b| - 1] == a + init;
      assert (a + b)[|a + b| - 1] == b[|b| - 1];
      PlottedInOrder(a, init, p);
    }
  }

  /** Each plottable row is plotted as often as it occurs, and no other row is. */
  lemma {:induction false} PlottedCount(rows: seq<PlanetRow>, p: PlanetRow)
    ensures multiset(Plotted(rows))[p] == if Plottable(p) then multiset(rows)[p] else 0
  {
    if rows != [] {
      PlottedCount(rows[..|rows| - 1], p);
      assert rows == rows[..|rows| - 1] + [rows[|rows| - 1]];
    }
  }

  /** `` `${r.pl_name||'Unknown'} | ${r.discoverymethod||'-'}` `` */
  function Caption(p: PlanetRow): string {
    (if Truthy(p.plName) then ToJsString(p.plName) else "Unknown") + " | " +
    (if Truthy(p.discoveryMethod) then ToJsString(p.discoveryMethod) else "-")
  }

  /** `r.discoverymethod || 'Other'` */
  function MethodOrOther(p: PlanetRow): Value {
    if Truthy(p.discoveryMethod) then p.discoveryMethod else Str("Other")
  }

  /** `scatter3d`'s `forEach`: one point per plottable row, in the five parallel arrays. */
  method Scatter3d(rows: seq<PlanetRow>) returns (x: seq<real>, y: seq<real>, z: seq<int>,
                                                text: seq<string>, color: seq<Value>)
    ensures |x| == |Plotted(rows)| && |y| == |x| && |z| == |x| && |text| == |x| && |color| == |x|
    ensures forall i :: 0 <= i < |x| ==>
      x[i] == Plotted(rows)[i].plOrbper.value && y[i] == Plotted(rows)[i].plRade.value &&
      z[i] == Plotted(rows)[i].discYear.value
    ensures forall i :: 0 <= i < |x| ==>
      text[i] == Caption(Plotted(rows)[i]) && color[i] == MethodOrOther(Plotted(rows)[i])
  {
    x, y, z, text, color := [], [], [], [], [];
    for i := 0 to |rows|
      invariant |x| == |Plotted(rows[..i])| && |y| == |x| && |z| == |x| && |text| == |x| && |color| == |x|
      invariant forall j :: 0 <= j < |x| ==>
        x[j] == Plotted(rows[..i])[j].plOrbper.value && y[j] == Plotted(rows[..i])[j].plRade.value &&
        z[j] == Plotted(rows[..i])[j].discYear.value
      invariant forall j :: 0 <= j < |x| ==>
        text[j] == Caption(Plotted(rows[..i])[j]) && color[j] == MethodOrOther(Plotted(rows[..i])[j])
    {
      var r := rows[i];
      assert rows[..i + 1][..i] == rows[..i];
      var ox, ry, zy := Cell(r.plOrbper), Cell(r.plRade), r.discYear;
      if ox.Some? && ry.Some? && zy.Some? {
        x, y, z := x + [r.plOrbper.value], y + [r.plRade.value], z + [zy.value];
        text, color := text + [Caption(r)], color + [MethodOrOther(r)];
      }
    }
    assert rows[..|rows|] == rows;
  }

  // ---------------------------------------------------------------------------
  // Count matrices

  predicate Shaped(z: seq<seq<nat>>, m: nat, n: nat) {
    |z| == m && forall i :: 0 <= i < m ==> |z[i]| == n
  }

  /** `Array.from({length: m}, () => Array(n).fill(0))` */
  function Zeros(m: nat, n: nat): (z: seq<seq<nat>>)
    ensures Shaped(z, m, n)
    ensures forall i, j :: 0 <= i < m && 0 <= j < n ==> z[i][j] == 0
  {
    seq(m, _ => seq(n, _ => 0))
  }

  /** `Z[i][j]++` */
  function Inc(z: seq<seq<nat>>, i: nat, j: nat): (r: seq<seq<nat>>)
    requires i < |z| && j < |z[i]|
    ensures |r| == |z| && forall k :: 0 <= k < |z| ==> |r[k]| == |z[k]|
  {
    z[i := z[i][j := z[i][j] + 1]]
  }

  /** Every cell position is inside an `m` by `n` matrix. */
  predicate InRange(cells: seq<(nat, nat)>, m: nat, n: nat) {
    forall k :: 0 <= k < |cells| ==> cells[k].0 < m && cells[k].1 < n
  }

  /** The matrix after `Z[i][j]++` for every position of `cells`, in order. */
  function Tabulate(cells: seq<(nat, nat)>, m: nat, n: nat): (z: seq<seq<nat>>)
    requires InRange(cells, m, n)
    ensures Shaped(z, m, n)
  {
    if cells == [] then Zeros(m, n)
    else
      var c := cells[|cells| - 1];
      Inc(Tabulate(cells[..|cells| - 1], m, n), c.0, c.1)
  }

  /** The sum of all cells. */
  function Total(z: seq<seq<nat>>): nat {
    if z == [] then 0 else Total(z[..|z| - 1]) + SumNat(z[|z| - 1])
  }

  lemma {:induction false} SumNatInc(s: seq<nat>, j: nat)
    requires j < |s|
    ensures SumNat(s[j := s[j] + 1]) == SumNat(s) + 1
    decreases |s|
  {
    var t := s[j := s[j] + 1];
    if j < |s| - 1 {
      assert t[..|s| - 1] == s[..|s| - 1][j := s[j] + 1];
      SumNatInc(s[..|s| - 1], j);
    } else {
      assert t[..|s| - 1] == s[..|s| - 1];
    }
  }

  lemma {:induction false} TotalInc(z: seq<seq<nat>>, i: nat, j: nat)
    requires i < |z| && j < |z[i]|
    ensures Total(Inc(z, i, j)) == Total(z) + 1
    decreases |z|
  {
    var r := Inc(z, i, j);
    SumNatInc(z[i], j);
    if i < |z| - 1 {
      assert r[..|z| - 1] == Inc(z[..|z| - 1], i, j);
      TotalInc(z[..|z| - 1], i, j);
    } else {
      assert r[..|z| - 1] == z[..|z| - 1];
    }
  }

  lemma {:induction false} SumNatZeros(s: seq<nat>)
    requires forall j :: 0 <= j < |s| ==> s[j] == 0
    ensures SumNat(s) == 0
    decreases |s|
  {
    if s != [] {
      SumNatZeros(s[..|s| - 1]);
    }
  }

  lemma {:induction false} TotalZeros(z: seq<seq<nat>>)
    requires forall i, j :: 0 <= i < |z| && 0 <= j < |z[i]| ==> z[i][j] == 0
    ensures Total(z) == 0
    decreases |z|
  {
    if z != [] {
      SumNatZeros(z[|z| - 1]);
      TotalZeros(z[..|z| - 1]);
    }
  }

  /** Each cell counts the times its position occurs in `cells`. */
  lemma {:induction false} TabulateCell(cells: seq<(nat, nat)>, m: nat, n: nat, a: nat, b: nat)
    requires InRange(cells, m, n) && a < m && b < n
    ensures Tabulate(cells, m, n)[a][b] == multiset(cells)[(a, b)]
    decreases |cells|
  {
    if cells != [] {
      var front := cells[..|cells| - 1];
      var c := cells[|cells| - 1];
      assert InRange(front, m, n);
      TabulateCell(front, m, n, a, b);
      assert cells == front + [c];
      assert multiset(cells) == multiset(front) + multiset{c};
    }
  }

  /** The cells add up to the number of increments. */
  lemma {:induction false} TabulateTotal(cells: seq<(nat, nat)>, m: nat, n: nat)
    requires InRange(cells, m, n)
    ensures Total(Tabulate(cells, m, n)) == |cells|
    decreases |cells|
  {
    if cells == [] {
      TotalZeros(Zeros(m, n));
    } else {
      var front := cells[..|cells| - 1];
      var c := cells[|cells| - 1];
      assert InRange(front, m, n);
      TabulateTotal(front, m, n);
      TotalInc(Tabulate(front, m, n), c.0, c.1);
    }
  }

  lemma {:induction false} TabulateSnoc(cells: seq<(nat, nat)>, c: (nat, nat), m: nat, n: nat)
    requires InRange(cells + [c], m, n)
    ensures InRange(cells, m, n) && c.0 < m && c.1 < n
    ensures Tabulate(cells + [c], m, n) == Inc(Tabulate(cells, m, n), c.0, c.1)
  {
    assert (cells + [c])[..|cells|] == cells;
    assert (cells + [c])[|cells|] == c;
    assert forall k :: 0 <= k < |cells| ==> cells[k] == (cells + [c])[k];
  }

  // ---------------------------------------------------------------------------
  // Cumulative discoveries

  /** The running totals of `s`: entry `i` is the sum of the first `i + 1` values. */
  function Running(s: seq<nat>): (r: seq<nat>)
    ensures |r| == |s|
  {
    if s == [] then [] else Running(s[..|s| - 1]) + [SumNat(s)]
  }

  lemma {:induction false} RunningValues(s: seq<nat>)
    ensures forall i :: 0 <= i < |s| ==> Running(s)[i] == SumNat(s[..i + 1])
    decreases |s|
  {
    if s != [] {
      var front := s[..|s| - 1];
      RunningValues(front);
      forall i | 0 <= i < |s| ensures Running(s)[i] == SumNat(s[..i + 1]) {
        if i < |front| {
          assert front[..i + 1] == s[..i + 1];
        } else {
          assert s[..i + 1] == s;
        }
      }
    }
  }

  /** With every value at least 1 the running totals strictly increase, the last one being the sum. */
  lemma {:induction false} RunningIncreasing(s: seq<nat>)
    requires forall i :: 0 <= i < |s| ==> s[i] >= 1
    ensures forall i, j :: 0 <= i < j < |s| ==> Running(s)[i] < Running(s)[j]
    ensures s != [] ==> Running(s)[|s| - 1] == SumNat(s)
    decreases |s|
  {
    if s != [] {
      var front := s[..|s| - 1];
      RunningIncreasing(front);
      if front != [] {
        RunningValues(front);
        assert front[..|front|] == front;
        assert Running(s)[|front| - 1] == SumNat(front) < SumNat(s);
      }
    }
  }

  lemma {:induction false} SeriesStep(t: seq<(int, nat)>, i: nat)
    requires i < |t|
    ensures Firsts(t[..i + 1]) == Firsts(t[..i]) + [t[i].0]
    ensures Seconds(t[..i + 1]) == Seconds(t[..i]) + [t[i].1]
    ensures SumNat(Seconds(t[..i + 1])) == SumNat(Seconds(t[..i])) + t[i].1
    ensures Running(Seconds(t[..i + 1])) == Running(Seconds(t[..i])) + [SumNat(Seconds(t[..i + 1]))]
  {
    assert Seconds(t[..i + 1])[..i] == Seconds(t[..i]);
  }

  /** `years.forEach(y => { cum += perYear.get(y); yVals.push(y); cVals.push(cum); })` */
  method Accumulate(entries: seq<(int, nat)>) returns (yVals: seq<int>, cVals: seq<nat>)
    ensures yVals == Firsts(entries)
    ensures cVals == Running(Seconds(entries))
  {
    var cum := 0;
    yVals, cVals := [], [];
    for i := 0 to |entries|
      invariant yVals == Firsts(entries[..i])
      invariant cVals == Running(Seconds(entries[..i]))
      invariant cum == SumNat(Seconds(entries[..i]))
    {
      SeriesStep(entries, i);
      cum := cum + entries[i].1;
      yVals := yVals + [entries[i].0];
      cVals := cVals + [cum];
    }
    assert entries[..|entries|] == entries;
  }

  /**
   * `cumulativeLine(rows)`: rows with a year counted per year (`perYear`),
   * the years ascending, and the running total of discoveries up to each.
   * Sorting the count entries by year is sorting the keys and looking each up.
   */
  method CumulativeLine(rows: seq<PlanetRow>) returns (yVals: seq<int>, cVals: seq<nat>)
    ensures yVals == Firsts(SortedTally(Years(rows)))
    ensures cVals == Running(Seconds(SortedTally(Years(rows))))
  {
    var perYear := CountYears(rows);
    yVals, cVals := Accumulate(Sort(perYear, KeyOrder()));
  }

  /**
   * The cumulative line: strictly ascending years, strictly increasing totals,
   * one per year, the last total being the number of rows with a year.
   */
  lemma {:induction false} CumulativeSeries(rows: seq<PlanetRow>)
    ensures |Firsts(SortedTally(Years(rows)))| == |Running(Seconds(SortedTally(Years(rows))))|
    ensures forall i, j :: 0 <= i < j < |Firsts(SortedTally(Years(rows)))| ==>
      Firsts(SortedTally(Years(rows)))[i] < Firsts(SortedTally(Years(rows)))[j]
    ensures forall i, j :: 0 <= i < j < |Running(Seconds(SortedTally(Years(rows))))| ==>
      Running(Seconds(SortedTally(Years(rows))))[i] < Running(Seconds(SortedTally(Years(rows))))[j]
    ensures Years(rows) != [] ==>
      |SortedTally(Years(rows))| > 0 &&
      Running(Seconds(SortedTally(Years(rows))))[|SortedTally(Years(rows))| - 1] == |Years(rows)|
  {
    var ks := Years(rows);
    var t := SortedTally(ks);
    YearSeries(ks);
    RunningIncreasing(Seconds(t));
    if ks != [] {
      assert ks[0] in ks;
      assert HasKey(t, ks[0]) by {
        SortedTallyCounts(ks);
      }
    }
  }

  // ---------------------------------------------------------------------------
  // Method-by-year surface

  /** `r.discoverymethod || 'Other'` as the string the surface counts it under. */
  function MethodLabel(p: PlanetRow): string {
    ToJsString(MethodOrOther(p))
  }

  function Labels(rows: seq<PlanetRow>): (ls: seq<string>)
    ensures |ls| == |rows|
    ensures forall i :: 0 <= i < |rows| ==> ls[i] == MethodLabel(rows[i])
  {
    seq(|rows|, i requires 0 <= i < |rows| => MethodLabel(rows[i]))
  }

  /** `(a, b) => a.localeCompare(b)` on the methods, with `collate` standing for `localeCompare`. */
  function LabelOrder(collate: (string, string) -> int): ((string, nat), (string, nat)) -> real {
    (a: (string, nat), b: (string, nat)) => collate(a.0, b.0) as real
  }

  /** `[...yset].sort((a, b) => a - b)`: the years met, ascending. */
  function SurfaceYears(rows: seq<PlanetRow>): seq<int> {
    Firsts(SortedTally(Years(rows)))
  }

  /** `[...mset].sort((a, b) => a.localeCompare(b))`: the methods met, each once, in collation order. */
  function SurfaceMethods(rows: seq<PlanetRow>, collate: (string, string) -> int): seq<string> {
    Firsts(Sort(Tally(Labels(rows)), LabelOrder(collate)))
  }

  predicate Distinct<K(==)>(s: seq<K>) {
    forall i, j :: 0 <= i < j < |s| ==> s[i] != s[j]
  }

  /** `new Map(s.map((v, i) => [v, i])).get(k)`, or `|s|` when `k` is not there. */
  function IndexOf<K(==)>(s: seq<K>, k: K): (i: nat)
    ensures i <= |s|
    ensures i < |s| ==> s[i] == k
    ensures forall j :: 0 <= j < i ==> s[j] != k
  {
    if s == [] then 0 else if s[0] == k then 0 else 1 + IndexOf(s[1..], k)
  }

  lemma {:induction false} IndexOfDistinct<K>(s: seq<K>, a: nat)
    requires Distinct(s) && a < |s|
    ensures IndexOf(s, s[a]) == a
  {
  }

  /** The cell `Z[im.get(m)][iy.get(y)]` a row increments, when both its method and its year are axes. */
  function RowCell(p: PlanetRow, methods: seq<string>, years: seq<int>): (c: seq<(nat, nat)>)
    ensures InRange(c, |methods|, |years|) && |c| <= 1
  {
    if p.discYear.None? then []
    else
      var mi := IndexOf(methods, MethodLabel(p));
      var yi := IndexOf(years, p.discYear.value);
      if mi < |methods| && yi < |years| then [(mi, yi)] else []
  }

  /** The cells incremented by the rows, in order. */
  function SurfaceCells(rows: seq<PlanetRow>, methods: seq<string>, years: seq<int>): (cells: seq<(nat, nat)>)
    ensures InRange(cells, |methods|, |years|)
  {
    if rows == [] then []
    else SurfaceCells(rows[..|rows| - 1], methods, years) + RowCell(rows[|rows| - 1], methods, years)
  }

  /** `Z` after the counting `forEach`. */
  function Surface(rows: seq<PlanetRow>, collate: (string, string) -> int): seq<seq<nat>> {
    var methods := SurfaceMethods(rows, collate);
    var years := SurfaceYears(rows);
    Tabulate(SurfaceCells(rows, methods, years), |methods|, |years|)
  }

  /** The number of rows with method `m` and year `y`. */
  function CountAt(rows: seq<PlanetRow>, m: string, y: int): nat {
    if rows == [] then 0
    else
      var p := rows[|rows| - 1];
      CountAt(rows[..|rows| - 1], m, y) + (if MethodLabel(p) == m && p.discYear == Some(y) then 1 else 0)
  }

  /** `surface3d`: the axes, then `Z[m][y]++` for every row whose method and year are on them. */
  method Surface3d(rows: seq<PlanetRow>, collate: (string, string) -> int)
    returns (years: seq<int>, methods: seq<string>, z: seq<seq<nat>>)
    ensures years == SurfaceYears(rows) && methods == SurfaceMethods(rows, collate)
    ensures z == Surface(rows, collate)
  {
    var yset := CountYears(rows);
    var mset := TallyInto(Labels(rows));
    years := Firsts(Sort(yset, KeyOrder()));
    methods := Firsts(Sort(mset, LabelOrder(collate)));
    z := CountCells(rows, methods, years);
  }

  /** `rows.forEach(r => { ... if (iy.has(y) && im.has(m)) Z[im.get(m)][iy.get(y)]++; })` */
  method CountCells(rows: seq<PlanetRow>, methods: seq<string>, years: seq<int>) returns (z: seq<seq<nat>>)
    ensures z == Tabulate(SurfaceCells(rows, methods, years), |methods|, |years|)
  {
    z := Zeros(|methods|, |years|);
    for i := 0 to |rows|
      invariant z == Tabulate(SurfaceCells(rows[..i], methods, years), |methods|, |years|)
    {
      var r := rows[i];
      var cells := SurfaceCells(rows[..i], methods, years);
      assert rows[..i + 1][..i] == rows[..i];
      assert SurfaceCells(rows[..i + 1], methods, years) == cells + RowCell(r, methods, years);
      if r.discYear.Some? {
        var mi := IndexOf(methods, MethodLabel(r));
        var yi := IndexOf(years, r.discYear.value);
        if mi < |methods| && yi < |years| {
          assert RowCell(r, methods, years) == [(mi, yi)];
          TabulateSnoc(cells, (mi, yi), |methods|, |years|);
          z := Inc(z, mi, yi);
        } else {
          assert RowCell(r, methods, years) == [];
          assert cells + [] == cells;
        }
      } else {
        assert RowCell(r, methods, years) == [];
        assert cells + [] == cells;
      }
    }
    assert rows[..|rows|] == rows;
  }

  lemma {:induction false} SurfaceCellsCount(rows: seq<PlanetRow>, methods: seq<string>, years: seq<int>, a: nat, b: nat)
    requires Distinct(methods) && Distinct(years) && a < |methods| && b < |years|
    ensures multiset(SurfaceCells(rows, methods, years))[(a, b)] == CountAt(rows, methods[a], years[b])
    decreases |rows|
  {
    if rows != [] {
      var front := rows[..|rows| - 1];
      var p := rows[|rows| - 1];
      SurfaceCellsCount(front, methods, years, a, b);
      IndexOfDistinct(methods, a);
      IndexOfDistinct(years, b);
      var c := RowCell(p, methods, years);
      assert multiset(SurfaceCells(rows, methods, years)) == multiset(SurfaceCells(front, methods, years)) + multiset(c);
      if MethodLabel(p) == methods[a] && p.discYear == Some(years[b]) {
        assert c == [(a, b)];
      } else if c != [] {
        assert c[0] != (a, b);
      }
    }
  }

  lemma {:induction false} SurfaceCellsAll(rows: seq<PlanetRow>, methods: seq<string>, years: seq<int>)
    requires forall i :: 0 <= i < |rows| ==> MethodLabel(rows[i]) in methods
    requires forall y :: y in Years(rows) ==> y in years
    ensures |SurfaceCells(rows, methods, years)| == |Years(rows)|
    decreases |rows|
  {
    if rows != [] {
      var front := rows[..|rows| - 1];
      var p := rows[|rows| - 1];
      assert forall y :: y in Years(front) ==> y in Years(rows);
      SurfaceCellsAll(front, methods, years);
      if p.discYear.Some? {
        assert Years(rows) == Years(front) + [p.discYear.value];
        assert p.discYear.value in Years(rows);
        assert MethodLabel(p) in methods by {
          assert rows[|rows| - 1] == p;
        }
        assert IndexOf(methods, MethodLabel(p)) < |methods|;
        assert IndexOf(years, p.discYear.value) < |years|;
      } else {
        assert Years(rows) == Years(front);
      }
    }
  }

  /** The years axis is strictly ascending and holds exactly the years met. */
  lemma {:induction false} SurfaceYearsAxis(rows: seq<PlanetRow>)
    ensures forall i, j :: 0 <= i < j < |SurfaceYears(rows)| ==> SurfaceYears(rows)[i] < SurfaceYears(rows)[j]
    ensures forall y :: y in SurfaceYears(rows) <==> y in Years(rows)
  {
    YearSeries(Years(rows));
  }

  /** The methods axis names each method once, every row's method among them. */
  lemma {:induction false} SurfaceMethodsAxis(rows: seq<PlanetRow>, collate: (string, string) -> int)
    ensures Distinct(SurfaceMethods(rows, collate))
    ensures forall i :: 0 <= i < |rows| ==> MethodLabel(rows[i]) in SurfaceMethods(rows, collate)
  {
    var ls := Labels(rows);
    var t := Tally(ls);
    var sorted := Sort(t, LabelOrder(collate));
    TallyKeys(ls);
    PermutationDistinctKeys(t, sorted);
    var methods := Firsts(sorted);
    assert Distinct(methods) by {
      forall i, j | 0 <= i < j < |methods| ensures methods[i] != methods[j] {
        assert sorted[i].0 != sorted[j].0;
      }
    }
    forall i | 0 <= i < |rows| ensures MethodLabel(rows[i]) in methods {
      assert ls[i] in ls;
      assert HasKey(t, ls[i]);
      var j :| 0 <= j < |t| && t[j].0 == ls[i];
      assert t[j] in multiset(sorted);
      var k :| 0 <= k < |sorted| && sorted[k] == t[j];
      assert methods[k] == ls[i];
    }
  }

  /** The surface's cell for method `m` and year `y` is the number of rows with that method and year. */
  lemma {:induction false} SurfaceCounts(rows: seq<PlanetRow>, collate: (string, string) -> int, a: nat, b: nat)
    requires a < |SurfaceMethods(rows, collate)| && b < |SurfaceYears(rows)|
    ensures Surface(rows, collate)[a][b] == CountAt(rows, SurfaceMethods(rows, collate)[a], SurfaceYears(rows)[b])
  {
    var methods := SurfaceMethods(rows, collate);
    var years := SurfaceYears(rows);
    SurfaceYearsAxis(rows);
    SurfaceMethodsAxis(rows, collate);
    assert Distinct(years) by {
      forall i, j | 0 <= i < j < |years| ensures years[i] != years[j] {
        assert years[i] < years[j];
      }
    }
    TabulateCell(SurfaceCells(rows, methods, years), |methods|, |years|, a, b);
    SurfaceCellsCount(rows, methods, years, a, b);
  }

  /** The surface counts every row with a year exactly once. */
  lemma {:induction false} SurfaceTotal(rows: seq<PlanetRow>, collate: (string, string) -> int)
    ensures Total(Surface(rows, collate)) == |Years(rows)|
  {
    var methods := SurfaceMethods(rows, collate);
    var years := SurfaceYears(rows);
    SurfaceYearsAxis(rows);
    SurfaceMethodsAxis(rows, collate);
    SurfaceCellsAll(rows, methods, years);
    TabulateTotal(SurfaceCells(rows, methods, years), |methods|, |years|);
  }

  /** With a consistent collation the methods are in collation order. */
  lemma {:induction false} SurfaceMethodsOrdered(rows: seq<PlanetRow>, collate: (string, string) -> int)
    requires TotalPreorder(LabelOrder(collate))
    ensures forall i, j :: 0 <= i < j < |SurfaceMethods(rows, collate)| ==>
      collate(SurfaceMethods(rows, collate)[i], SurfaceMethods(rows, collate)[j]) <= 0
  {
    var sorted := Sort(Tally(Labels(rows)), LabelOrder(collate));
    SortSorted(Tally(Labels(rows)), LabelOrder(collate));
    forall i, j | 0 <= i < j < |sorted| ensures collate(sorted[i].0, sorted[j].0) <= 0 {
      assert Le(LabelOrder(collate), sorted[i], sorted[j]);
    }
  }

  lemma {:induction false} CountAtNone(rows: seq<PlanetRow>, m: string, y: int)
    requires forall i :: 0 <= i < |rows| && MethodLabel(rows[i]) == m ==> rows[i].discYear.None?
    ensures CountAt(rows, m, y) == 0
    decreases |rows|
  {
    if rows != [] {
      CountAtNone(rows[..|rows| - 1], m, y);
    }
  }

  /** A method none of whose rows has a year still gets its row of the surface, all zeros. */
  lemma {:induction false} SurfaceIdleMethod(rows: seq<PlanetRow>, collate: (string, string) -> int, a: nat)
    requires a < |SurfaceMethods(rows, collate)|
    requires forall i :: 0 <= i < |rows| && MethodLabel(rows[i]) == SurfaceMethods(rows, collate)[a] ==>
      rows[i].discYear.None?
    ensures |Surface(rows, collate)[a]| == |SurfaceYears(rows)|
    ensures forall b :: 0 <= b < |SurfaceYears(rows)| ==> Surface(rows, collate)[a][b] == 0
  {
    forall b | 0 <= b < |SurfaceYears(rows)| ensures Surface(rows, collate)[a][b] == 0 {
      SurfaceCounts(rows, collate, a, b);
      CountAtNone(rows, SurfaceMethods(rows, collate)[a], SurfaceYears(rows)[b]);
    }
  }

  // ---------------------------------------------------------------------------
  // Year-by-radius heatmap

  /** `Number.isFinite(r.disc_year) && Number.isFinite(r.pl_rade)` */
  predicate HasYearRadius(p: PlanetRow) {
    p.discYear.Some? && p.plRade.Some?
  }

  /** The rows the heatmap counts, in order. */
  function HeatData(rows: seq<PlanetRow>): (d: seq<PlanetRow>)
    ensures |d| <= |rows|
    ensures forall i :: 0 <= i < |d| ==> HasYearRadius(d[i])
  {
    if rows == [] then []
    else
      var p := rows[|rows| - 1];
      HeatData(rows[..|rows| - 1]) + (if HasYearRadius(p) then [p] else [])
  }

  /** There is no heatmap data exactly when no row has both a year and a radius. */
  lemma {:induction false} HeatDataEmpty(rows: seq<PlanetRow>)
    ensures HeatData(rows) == [] <==> forall i :: 0 <= i < |rows| ==> !HasYearRadius(rows[i])
    decreases |rows|
  {
    if rows != [] {
      var front := rows[..|rows| - 1];
      HeatDataEmpty(front);
      if HeatData(rows) == [] {
        forall i | 0 <= i < |rows| ensures !HasYearRadius(rows[i]) {
          if i < |front| {
            assert rows[i] == front[i];
          }
        }
      }
    }
  }

  /** `rad >= 10 ? 10 : clamp(Math.floor(rad), 0, 10)`: bins 0-1, 1-2, ..., 9-10 and 10+. */
  function Bin(rad: real): (b: nat)
    ensures b <= 10
    ensures rad >= 10.0 ==> b == 10
    ensures 0.0 <= rad < 10.0 ==> b == rad.Floor
    ensures rad < 0.0 ==> b == 0
  {
    if rad >= 10.0 then 10 else Clamp(rad.Floor, 0, 10)
  }

  function MinOf(s: seq<int>): (m: int)
    requires s != []
    ensures m in s && forall i :: 0 <= i < |s| ==> m <= s[i]
  {
    if |s| == 1 then s[0]
    else
      var m := MinOf(s[..|s| - 1]);
      assert forall i :: 0 <= i < |s| - 1 ==> s[..|s| - 1][i] == s[i];
      if s[|s| - 1] < m then s[|s| - 1] else m
  }

  function MaxOf(s: seq<int>): (m: int)
    requires s != []
    ensures m in s && forall i :: 0 <= i < |s| ==> s[i] <= m
  {
    if |s| == 1 then s[0]
    else
      var m := MaxOf(s[..|s| - 1]);
      assert forall i :: 0 <= i < |s| - 1 ==> s[..|s| - 1][i] == s[i];
      if s[|s| - 1] > m then s[|s| - 1] else m
  }

  /** When every row has a year, the years are the rows' years one for one. */
  lemma {:induction false} YearsOfDated(data: seq<PlanetRow>)
    requires forall i :: 0 <= i < |data| ==> data[i].discYear.Some?
    ensures |Years(data)| == |data|
    ensures forall i :: 0 <= i < |data| ==> Years(data)[i] == data[i].discYear.value
    decreases |data|
  {
    if data != [] {
      YearsOfDated(data[..|data| - 1]);
    }
  }

  /** Every dated row's year lies between the least and the greatest year. */
  lemma {:induction false} YearBounds(data: seq<PlanetRow>)
    requires data != []
    requires forall i :: 0 <= i < |data| ==> data[i].discYear.Some?
    ensures Years(data) != [] && MinOf(Years(data)) <= MaxOf(Years(data))
    ensures forall i :: 0 <= i < |data| ==>
      MinOf(Years(data)) <= data[i].discYear.value <= MaxOf(Years(data))
  {
    YearsOfDated(data);
    var ys := Years(data);
    assert ys[0] in ys;
    forall i | 0 <= i < |data| ensures MinOf(ys) <= data[i].discYear.value <= MaxOf(ys) {
      assert ys[i] == data[i].discYear.value;
    }
  }

  /** The cell `Z[bi][yi]++` of one row, with `yi = y - minY`; none when the row falls outside the `n` year columns. */
  function HeatCell(p: PlanetRow, minY: int, n: nat): (cell: seq<(nat, nat)>)
    ensures InRange(cell, 11, n) && |cell| <= 1
  {
    if p.discYear.Some? && p.plRade.Some? && minY <= p.discYear.value < minY + n then
      [(Bin(p.plRade.value), p.discYear.value - minY)]
    else []
  }

  /** The cells of the rows, in order. */
  function HeatCells(data: seq<PlanetRow>, minY: int, n: nat): (cells: seq<(nat, nat)>)
    ensures InRange(cells, 11, n)
  {
    if data == [] then []
    else HeatCells(data[..|data| - 1], minY, n) + HeatCell(data[|data| - 1], minY, n)
  }

  /** The year columns `minY, minY + 1, ..., maxY`. */
  function YearSpan(lo: int, hi: int): (ys: seq<int>)
    requires lo <= hi
    ensures |ys| == hi - lo + 1
    ensures forall i :: 0 <= i < |ys| ==> ys[i] == lo + i
  {
    seq(hi - lo + 1, i => lo + i)
  }

  /** The heatmap's columns and counts. */
  datatype Heat = Heat(years: seq<int>, z: seq<seq<nat>>)

  /** `heatYearRadius(rows)`: nothing when no row has a year and a radius, else the year span and the counts. */
  function HeatOf(rows: seq<PlanetRow>): (h: Option<Heat>)
    ensures h.None? <==> HeatData(rows) == []
  {
    var data := HeatData(rows);
    if data == [] then None
    else
      YearsOfDated(data);
      var ys := Years(data);
      Some(HeatBetween(data, MinOf(ys), MaxOf(ys)))
  }

  /** The year columns `minY..maxY` and the count matrix of the rows over them. */
  function HeatBetween(data: seq<PlanetRow>, minY: int, maxY: int): Heat
    requires minY <= maxY
  {
    Heat(YearSpan(minY, maxY), Tabulate(HeatCells(data, minY, maxY - minY + 1), 11, maxY - minY + 1))
  }

  /** `heatYearRadius(rows)`: the rows with a year and a radius, their year span, and `Z[bi][yi]++` for each. */
  method HeatYearRadius(rows: seq<PlanetRow>) returns (h: Option<Heat>)
    ensures h == HeatOf(rows)
  {
    var data := HeatData(rows);
    if data == [] {
      return None;
    }
    YearBounds(data);
    var minY, maxY := MinOf(Years(data)), MaxOf(Years(data));
    var heat := HeatGrid(data, minY, maxY);
    h := Some(heat);
  }

  /** The year columns `minY..maxY` (`years`) and the matrix `Z` filled in by the loop. */
  method HeatGrid(data: seq<PlanetRow>, minY: int, maxY: int) returns (heat: Heat)
    requires forall i :: 0 <= i < |data| ==>
      data[i].discYear.Some? && data[i].plRade.Some? && minY <= data[i].discYear.value <= maxY
    requires minY <= maxY
    ensures heat == HeatBetween(data, minY, maxY)
  {
    var z := FillHeat(data, minY, maxY - minY + 1);
    heat := Heat(YearSpan(minY, maxY), z);
  }

  /** `data.forEach(r => { ... Z[bi][yi]++; })` over a zero matrix of 11 bins by `n` year columns. */
  method FillHeat(data: seq<PlanetRow>, minY: int, n: nat) returns (z: seq<seq<nat>>)
    requires forall i :: 0 <= i < |data| ==>
      data[i].discYear.Some? && data[i].plRade.Some? && minY <= data[i].discYear.value < minY + n
    ensures z == Tabulate(HeatCells(data, minY, n), 11, n)
  {
    z := Zeros(11, n);
    for i := 0 to |data|
      invariant z == Tabulate(HeatCells(data[..i], minY, n), 11, n)
    {
      var r := data[i];
      var rad := r.plRade.value;
      var bi := if rad >= 10.0 then 10 else Clamp(rad.Floor, 0, 10);
      var yi := r.discYear.value - minY;
      assert bi == Bin(rad);
      HeatStep(data, i, minY, n);
      z := Inc(z, bi, yi);
    }
    assert data[..|data|] == data;
  }

  /** Row `i`, which has a year and a radius inside the columns, adds one `Z[bi][yi]++`. */
  lemma {:induction false} HeatStep(data: seq<PlanetRow>, i: nat, minY: int, n: nat)
    requires i < |data| && data[i].discYear.Some? && data[i].plRade.Some?
    requires minY <= data[i].discYear.value < minY + n
    ensures Bin(data[i].plRade.value) < 11 && data[i].discYear.value - minY < n
    ensures Tabulate(HeatCells(data[..i + 1], minY, n), 11, n) ==
      Inc(Tabulate(HeatCells(data[..i], minY, n), 11, n), Bin(data[i].plRade.value), data[i].discYear.value - minY)
  {
    assert data[..i + 1][..i] == data[..i];
    var c := (Bin(data[i].plRade.value), data[i].discYear.value - minY);
    assert HeatCells(data[..i + 1], minY, n) == HeatCells(data[..i], minY, n) + [c];
    TabulateSnoc(HeatCells(data[..i], minY, n), c, 11, n);
  }

  /** The number of rows in radius bin `b` discovered in year `y`. */
  function CountBinYear(data: seq<PlanetRow>, b: nat, y: int): nat {
    if data == [] then 0
    else
      var p := data[|data| - 1];
      CountBinYear(data[..|data| - 1], b, y) +
        (if p.plRade.Some? && Bin(p.plRade.value) == b && p.discYear == Some(y) then 1 else 0)
  }

  /** The cells hold position `(b, k)` once for every row in radius bin `b` discovered in year `minY + k`. */
  lemma {:induction false} HeatCellsCount(data: seq<PlanetRow>, minY: int, n: nat, b: nat, k: nat, y: int)
    requires k < n && y == minY + k
    ensures multiset(HeatCells(data, minY, n))[(b, k)] == CountBinYear(data, b, y)
    decreases |data|
  {
    if data != [] {
      var front, p := data[..|data| - 1], data[|data| - 1];
      HeatCellsCount(front, minY, n, b, k, y);
      HeatCellCount(p, minY, n, b, k, y);
      assert HeatCells(data, minY, n) == HeatCells(front, minY, n) + HeatCell(p, minY, n);
    }
  }

  lemma {:induction false} HeatCellCount(p: PlanetRow, minY: int, n: nat, b: nat, k: nat, y: int)
    requires k < n && y == minY + k
    ensures multiset(HeatCell(p, minY, n))[(b, k)] ==
      if p.plRade.Some? && Bin(p.plRade.value) == b && p.discYear == Some(y) then 1 else 0
  {
  }

  /** When every row has a year and a radius inside the columns, every row has a cell. */
  lemma {:induction false} HeatCellsLength(data: seq<PlanetRow>, minY: int, n: nat)
    requires forall i :: 0 <= i < |data| ==>
      data[i].discYear.Some? && data[i].plRade.Some? && minY <= data[i].discYear.value < minY + n
    ensures |HeatCells(data, minY, n)| == |data|
    decreases |data|
  {
    if data != [] {
      HeatCellsLength(data[..|data| - 1], minY, n);
    }
  }

  /** Counting over the rows with a year and a radius is counting over all the rows. */
  lemma {:induction false} CountBinYearData(rows: seq<PlanetRow>, b: nat, y: int)
    ensures CountBinYear(HeatData(rows), b, y) == CountBinYear(rows, b, y)
    decreases |rows|
  {
    if rows != [] {
      var front, p := rows[..|rows| - 1], rows[|rows| - 1];
      CountBinYearData(front, b, y);
      var hd := HeatData(front);
      if HasYearRadius(p) {
        var d := hd + [p];
        assert HeatData(rows) == d;
        assert d[..|d| - 1] == hd && d[|d| - 1] == p;
        assert CountBinYear(d, b, y) == CountBinYear(hd, b, y) + CountBinYear(rows, b, y) - CountBinYear(front, b, y);
      } else {
        assert HeatData(rows) == hd;
      }
    }
  }

  /** Cell `Z[b][k]` counts the rows in radius bin `b` discovered in year `minY + k`. */
  lemma {:induction false} HeatGridCell(data: seq<PlanetRow>, minY: int, n: nat, b: nat, k: nat, y: int)
    requires b <= 10 && k < n && y == minY + k
    ensures Tabulate(HeatCells(data, minY, n), 11, n)[b][k] == CountBinYear(data, b, y)
  {
    TabulateCell(HeatCells(data, minY, n), 11, n, b, k);
    HeatCellsCount(data, minY, n, b, k, y);
  }

  /** Every row with a year and a radius inside the columns adds one to the matrix. */
  lemma {:induction false} HeatGridTotal(data: seq<PlanetRow>, minY: int, n: nat)
    requires forall i :: 0 <= i < |data| ==>
      data[i].discYear.Some? && data[i].plRade.Some? && minY <= data[i].discYear.value < minY + n
    ensures Total(Tabulate(HeatCells(data, minY, n), 11, n)) == |data|
  {
    TabulateTotal(HeatCells(data, minY, n), 11, n);
    HeatCellsLength(data, minY, n);
  }

  /** An 11 by `maxY - minY + 1` matrix under the years `minY + k`. */
  lemma {:induction false} HeatBetweenShape(data: seq<PlanetRow>, minY: int, maxY: int)
    requires minY <= maxY
    ensures |HeatBetween(data, minY, maxY).years| == maxY - minY + 1
    ensures forall k :: 0 <= k < |HeatBetween(data, minY, maxY).years| ==>
      HeatBetween(data, minY, maxY).years[k] == minY + k
    ensures HeatBetween(data, minY, maxY).z == Tabulate(HeatCells(data, minY, maxY - minY + 1), 11, maxY - minY + 1)
    ensures Shaped(HeatBetween(data, minY, maxY).z, 11, maxY - minY + 1)
  {
  }

  /** The matrix over `minY..maxY` of rows that all have a radius and a year in that span. */
  lemma {:induction false} HeatBetweenCounts(data: seq<PlanetRow>, minY: int, maxY: int, b: nat, k: nat)
    requires forall i :: 0 <= i < |data| ==>
      data[i].discYear.Some? && data[i].plRade.Some? && minY <= data[i].discYear.value <= maxY
    requires minY <= maxY && b <= 10 && k <= maxY - minY
    ensures Shaped(HeatBetween(data, minY, maxY).z, 11, maxY - minY + 1)
    ensures HeatBetween(data, minY, maxY).years[k] == minY + k
    ensures HeatBetween(data, minY, maxY).z[b][k] == CountBinYear(data, b, HeatBetween(data, minY, maxY).years[k])
    ensures Total(HeatBetween(data, minY, maxY).z) == |data|
  {
    HeatBetweenShape(data, minY, maxY);
    var n := maxY - minY + 1;
    var h := HeatBetween(data, minY, maxY);
    assert h.z == Tabulate(HeatCells(data, minY, n), 11, n);
    HeatGridCell(data, minY, n, b, k, h.years[k]);
    HeatGridTotal(data, minY, n);
  }

  /**
   * Cell `Z[b][k]` counts the rows in radius bin `b` discovered in the `k`-th
   * year column; the cells add up to the number of rows with a year and a radius.
   */
  lemma {:induction false} HeatCounts(rows: seq<PlanetRow>, b: nat, k: nat)
    requires HeatOf(rows).Some? && b <= 10 && k < |HeatOf(rows).value.years|
    ensures |HeatOf(rows).value.z| == 11 && |HeatOf(rows).value.z[b]| == |HeatOf(rows).value.years|
    ensures HeatOf(rows).value.z[b][k] == CountBinYear(rows, b, HeatOf(rows).value.years[k])
    ensures Total(HeatOf(rows).value.z) == |HeatData(rows)|
  {
    var data, minY, maxY := HeatSpan(rows, b);
    HeatBetweenCounts(data, minY, maxY, b, k);
  }

  /** The columns run from `minY` to `maxY`, one year apart, and hold the year of every row. */
  lemma {:induction false} HeatBetweenYears(data: seq<PlanetRow>, minY: int, maxY: int)
    requires minY <= maxY
    requires forall i :: 0 <= i < |data| ==> data[i].discYear.Some? && minY <= data[i].discYear.value <= maxY
    ensures HeatBetween(data, minY, maxY).years[0] == minY
    ensures HeatBetween(data, minY, maxY).years[|HeatBetween(data, minY, maxY).years| - 1] == maxY
    ensures forall k :: 0 <= k < |HeatBetween(data, minY, maxY).years| ==>
      HeatBetween(data, minY, maxY).years[k] == minY + k
    ensures forall i :: 0 <= i < |data| ==> data[i].discYear.value in HeatBetween(data, minY, maxY).years
  {
    var span := HeatBetween(data, minY, maxY).years;
    forall i | 0 <= i < |data| ensures data[i].discYear.value in span {
      assert span[data[i].discYear.value - minY] == data[i].discYear.value;
    }
  }

  /**
   * The columns are the consecutive years from the earliest discovery year of
   * a counted row to the latest, and every counted row's year is among them.
   */
  lemma {:induction false} HeatYears(rows: seq<PlanetRow>)
    requires HeatOf(rows).Some?
    ensures forall k :: 0 <= k < |HeatOf(rows).value.years| ==>
      HeatOf(rows).value.years[k] == HeatOf(rows).value.years[0] + k
    ensures HeatOf(rows).value.years[0] in Years(HeatData(rows))
    ensures HeatOf(rows).value.years[|HeatOf(rows).value.years| - 1] in Years(HeatData(rows))
    ensures forall i :: 0 <= i < |HeatData(rows)| ==>
      HeatData(rows)[i].discYear.value in HeatOf(rows).value.years
  {
    var data := HeatData(rows);
    YearBounds(data);
    var minY, maxY := MinOf(Years(data)), MaxOf(Years(data));
    HeatBetweenYears(data, minY, maxY);
    assert HeatOf(rows) == Some(HeatBetween(data, minY, maxY));
  }

  /**
   * The rows a heatmap counts and its earliest and latest year, with every
   * counted row in between; counting them is counting all the rows.
   */
  lemma {:induction false} HeatSpan(rows: seq<PlanetRow>, b: nat) returns (data: seq<PlanetRow>, minY: int, maxY: int)
    requires HeatOf(rows).Some?
    ensures |data| == |HeatData(rows)|
    ensures minY <= maxY && HeatOf(rows) == Some(HeatBetween(data, minY, maxY))
    ensures |HeatOf(rows).value.years| == maxY - minY + 1
    ensures forall i :: 0 <= i < |data| ==>
      data[i].discYear.Some? && data[i].plRade.Some? && minY <= data[i].discYear.value <= maxY
    ensures forall y :: CountBinYear(data, b, y) == CountBinYear(rows, b, y)
  {
    data := HeatData(rows);
    YearBounds(data);
    minY, maxY := MinOf(Years(data)), MaxOf(Years(data));
    forall y {
      CountBinYearData(rows, b, y);
    }
  }
}
