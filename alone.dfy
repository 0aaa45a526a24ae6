/**
 * "Are We Alone" (alone.js): rows normalised into star-planet records with a
 * fallback semi-major axis (from the orbital period) and a fallback
 * equilibrium temperature (from the host star), the KPI counts, and the
 * scatter groups by disposition with the earth-like overlay.
 *
 * `getAny`, `normalizeKeyName` and `toNum` in alone.js are the same as in
 * app.js and are the ones of modules Resolver, KeyNames and Coercion.
 * `Math.pow(x, 2/3)` and `Math.sqrt` are parameters `pow23` and `sqrt`; the
 * lemmas assume of them only what `PowLaw` and `SqrtLaw` say.
 */
module Alone {
  import opened JsValues
  import opened Resolver
  import opened Coercion

  /** The object `normalizeRow` returns: `{ name, disp, a, pr, Teq }`. A non-finite number is `None`. */
  datatype StarRow = StarRow(name: Value, disp: Value, a: Option<real>, pr: Option<real>, teq: Option<real>)

  const NameKeys: seq<string> := ["pl_name", "name", "planet", "kepler_name", "kepoi_name", "koi_name", "الاسم", "الكوكب"]
  const DispKeys: seq<string> := ["koi_disposition", "disposition", "discoverymethod", "الحالة"]
  const PeriodKeys: seq<string> := ["pl_orbper", "period", "koi_period", "الفترة"]
  const AxisKeys: seq<string> := ["pl_orbsmax", "a", "semimajoraxis", "orbitaldistance", "koi_sma", "المسافة (وحدات فلكية)"]
  const RadiusKeys: seq<string> := ["pl_rade", "radius", "koi_prad", "نصف القطر"]
  const TeqKeys: seq<string> := ["pl_eqt", "teq", "equilibriumtemperature", "koi_teq", "درجة التوازن", "درجة الحرارة"]
  const TeffKeys: seq<string> := ["st_teff", "teff", "koi_steff", "درجة حرارة النجم"]
  const RstarKeys: seq<string> := ["st_rad", "rstar", "koi_srad", "نصف قطر النجم"]

  /** Solar radii to astronomical units: `AU_PER_RSUN = 1/215.032`. */
  const AuPerRsun: real := 1.0 / 215.032

  /** What the lemmas use of `Math.pow(·, 2/3)`: zero at zero, never negative on non-negative input. */
  ghost predicate PowLaw(pow23: real -> real) {
    pow23(0.0) == 0.0 && forall x :: x >= 0.0 ==> pow23(x) >= 0.0
  }

  /** What the lemmas use of `Math.sqrt`: never negative on non-negative input. */
  ghost predicate SqrtLaw(sqrt: real -> real) {
    forall x :: x >= 0.0 ==> sqrt(x) >= 0.0
  }

  function Max0(x: real): (m: real)
    ensures m >= 0.0 && m >= x
    ensures m == x || m == 0.0
  {
    if x > 0.0 then x else 0.0
  }

  /**
   * `a_est`: the supplied axis when finite, else `max(P/365.25, 0)^(2/3)` when
   * the period is finite, else nothing.
   */
  function AxisEstimate(aAu: Option<real>, period: Option<real>, pow23: real -> real): (a: Option<real>)
    ensures aAu.Some? ==> a == aAu
    ensures a.None? <==> aAu.None? && period.None?
  {
    if aAu.Some? then aAu
    else if period.Some? then Some(pow23(Max0(period.value / 365.25)))
    else None
  }

  /** `r_au / (2 * a_est)` with `r_au = rstar * AU_PER_RSUN`: non-negative for a non-negative stellar radius. */
  function StellarRatio(rstar: real, a: real): (q: real)
    requires a > 0.0
    ensures rstar >= 0.0 ==> q >= 0.0
  {
    assert 2.0 * a > 0.0;
    rstar * AuPerRsun / (2.0 * a)
  }

  /**
   * `Teq`: the supplied temperature when finite; else, when `teff`, `rstar`
   * and `a_est` are finite and `a_est > 0`, `teff * sqrt(rstar/215.032 / (2 a_est))`.
   * The square root of a negative ratio (a negative stellar radius) is NaN in
   * JavaScript, which is not finite: `None`.
   */
  function TeqEstimate(teqK: Option<real>, teff: Option<real>, rstar: Option<real>, a: Option<real>,
                       sqrt: real -> real): (t: Option<real>)
    ensures teqK.Some? ==> t == teqK
    ensures t.Some? && teqK.None? ==>
      teff.Some? && rstar.Some? && a.Some? && a.value > 0.0 && rstar.value >= 0.0
  {
    if teqK.Some? then teqK
    else if teff.Some? && rstar.Some? && a.Some? && a.value > 0.0 then
      var ratio := StellarRatio(rstar.value, a.value);
      if ratio >= 0.0 then Some(teff.value * sqrt(ratio)) else None
    else None
  }

  /** `normalizeRow(r)` of alone.js. */
  function NormalizeRow(r: Record, pow23: real -> real, sqrt: real -> real): (s: StarRow)
    ensures s.name == Null || (Present(s.name) && exists i :: 0 <= i < |r| && r[i].1 == s.name)
    ensures s.disp == Null || (Present(s.disp) && exists i :: 0 <= i < |r| && r[i].1 == s.disp)
    ensures s.pr == ToNum(Resolve(r, RadiusKeys))
    ensures ToNum(Resolve(r, AxisKeys)).Some? ==> s.a == ToNum(Resolve(r, AxisKeys))
    ensures ToNum(Resolve(r, TeqKeys)).Some? ==> s.teq == ToNum(Resolve(r, TeqKeys))
  {
    ResolveStored(r, NameKeys);
    ResolveStored(r, DispKeys);
    var a := AxisEstimate(ToNum(Resolve(r, AxisKeys)), ToNum(Resolve(r, PeriodKeys)), pow23);
    var t := TeqEstimate(ToNum(Resolve(r, TeqKeys)), ToNum(Resolve(r, TeffKeys)), ToNum(Resolve(r, RstarKeys)), a, sqrt);
    StarRow(Resolve(r, NameKeys), Resolve(r, DispKeys), a, ToNum(Resolve(r, RadiusKeys)), t)
  }

  // ---------------------------------------------------------------------------
  // Physical fallbacks

  /** A derived axis is never negative. */
  lemma {:induction false} DerivedAxisNonNegative(period: real, pow23: real -> real)
    requires PowLaw(pow23)
    ensures AxisEstimate(None, Some(period), pow23).value >= 0.0
  {
    assert Max0(period / 365.25) >= 0.0;
  }

  /** A period of zero or less puts the planet at `a = 0`. */
  lemma {:induction false} NonPositivePeriodAxis(period: real, pow23: real -> real)
    requires PowLaw(pow23) && period <= 0.0
    ensures AxisEstimate(None, Some(period), pow23) == Some(0.0)
  {
    assert period / 365.25 <= 0.0;
  }

  /** With no supplied axis, the estimate is `pow23` of the period in years, clipped at zero. */
  lemma {:induction false} AxisFromPeriod(period: real, pow23: real -> real)
    requires period >= 0.0
    ensures AxisEstimate(None, Some(period), pow23) == Some(pow23(period / 365.25))
  {
  }

  /** The derived temperature is `teff` times a square root, and never negative for a non-negative `teff`. */
  lemma {:induction false} DerivedTeq(teff: real, rstar: real, a: real, sqrt: real -> real)
    requires SqrtLaw(sqrt) && a > 0.0 && rstar >= 0.0
    ensures TeqEstimate(None, Some(teff), Some(rstar), Some(a), sqrt).Some?
    ensures TeqEstimate(None, Some(teff), Some(rstar), Some(a), sqrt).value == teff * sqrt(StellarRatio(rstar, a))
    ensures teff >= 0.0 ==> TeqEstimate(None, Some(teff), Some(rstar), Some(a), sqrt).value >= 0.0
  {
    var ratio := StellarRatio(rstar, a);
    assert sqrt(ratio) >= 0.0;
    if teff >= 0.0 {
      assert teff * sqrt(ratio) >= 0.0;
    }
  }

  /** A star at the centre (a zero or missing axis) gives no temperature estimate. */
  lemma {:induction false} NoTeqWithoutAxis(teff: Option<real>, rstar: Option<real>, a: Option<real>, sqrt: real -> real)
    requires a.None? || a.value <= 0.0
    ensures TeqEstimate(None, teff, rstar, a, sqrt) == None
  {
  }

  // ---------------------------------------------------------------------------
  // Filters

  /** `arr.filter(p)`. */
  function Filter(s: seq<StarRow>, p: StarRow -> bool): (r: seq<StarRow>)
    ensures |r| <= |s|
  {
    if s == [] then [] else (if p(s[0]) then [s[0]] else []) + Filter(s[1..], p)
  }

  /** The filter keeps exactly the elements that pass. */
  lemma {:induction false} FilterMembers(s: seq<StarRow>, p: StarRow -> bool, x: StarRow)
    ensures x in Filter(s, p) <==> x in s && p(x)
  {
    if s != [] {
      FilterMembers(s[1..], p, x);
      assert s == [s[0]] + s[1..];
    }
  }

  /** The filter keeps each element that passes as often as it occurs, and drops every other. */
  lemma {:induction false} FilterCount(s: seq<StarRow>, p: StarRow -> bool, x: StarRow)
    ensures multiset(Filter(s, p))[x] == if p(x) then multiset(s)[x] else 0
  {
    if s != [] {
      FilterCount(s[1..], p, x);
      assert s == [s[0]] + s[1..];
    }
  }

  /** The filter keeps the elements in order: it works piece by piece, one element at a time. */
  lemma {:induction false} FilterInOrder(a: seq<StarRow>, b: seq<StarRow>, p: StarRow -> bool, x: StarRow)
    ensures Filter(a + b, p) == Filter(a, p) + Filter(b, p)
    ensures Filter([x], p) == if p(x) then [x] else []
    decreases |a|
  {
    if a != [] {
      assert (a + b)[0] == a[0] && (a + b)[1..] == a[1..] + b;
      FilterInOrder(a[1..], b, p, x);
    } else {
      assert a + b == b;
    }
  }

  /** The positions of the elements that pass. */
  function Passing(s: seq<StarRow>, p: StarRow -> bool): set<nat> {
    set i: nat | i < |s| && p(s[i])
  }

  /** The filter keeps as many elements as there are positions that pass. */
  lemma {:induction false} FilterLength(s: seq<StarRow>, p: StarRow -> bool)
    ensures |Filter(s, p)| == |Passing(s, p)|
    decreases |s|
  {
    if s != [] {
      var init, last := s[..|s| - 1], s[|s| - 1];
      assert s == init + [last];
      FilterInOrder(init, [last], p, last);
      FilterLength(init, p);
      var k := |init|;
      assert k !in Passing(init, p);
      assert Passing(s, p) == Passing(init, p) + (if p(last) then {k} else {}) by {
        forall i: nat | i < k ensures s[i] == init[i] { }
      }
    }
  }

  /** Keeping everything is the same as every element passing. */
  lemma {:induction false} FilterKeepsAll(s: seq<StarRow>, p: StarRow -> bool)
    ensures |Filter(s, p)| == |s| <==> forall i :: 0 <= i < |s| ==> p(s[i])
  {
    if s != [] {
      FilterKeepsAll(s[1..], p);
      if !p(s[0]) {
        assert |Filter(s, p)| == |Filter(s[1..], p)| <= |s| - 1;
      } else {
        forall i | 1 <= i < |s| && (forall j :: 0 <= j < |s[1..]| ==> p(s[1..][j])) ensures p(s[i]) {
          assert s[i] == s[1..][i - 1];
        }
      }
    }
  }

  /** `r => r.name` */
  predicate IsNamed(s: StarRow) { Truthy(s.name) }

  /** `r => Number.isFinite(r.pr) && r.pr <= 1.5` */
  predicate IsSmall(s: StarRow) { s.pr.Some? && s.pr.value <= 1.5 }

  datatype Kpis = Kpis(total: nat, named: nat, withYear: nat, small: nat)

  /** `calcKPIs(rows)`: the row count, named rows, rows with a year (always 0 here) and small planets. */
  function CalcKpis(rows: seq<StarRow>): (k: Kpis)
    ensures k.total == |rows|
    ensures k.named == |set i: nat | i < |rows| && Truthy(rows[i].name)|
    ensures k.small == |set i: nat | i < |rows| && rows[i].pr.Some? && rows[i].pr.value <= 1.5|
    ensures k.named <= k.total && k.small <= k.total
    ensures k.withYear == 0
  {
    FilterLength(rows, IsNamed);
    FilterLength(rows, IsSmall);
    assert Passing(rows, IsNamed) == set i: nat | i < |rows| && Truthy(rows[i].name);
    assert Passing(rows, IsSmall) == set i: nat | i < |rows| && rows[i].pr.Some? && rows[i].pr.value <= 1.5;
    Kpis(|rows|, |Filter(rows, IsNamed)|, 0, |Filter(rows, IsSmall)|)
  }

  /** Every row is named exactly when `named == total`; likewise for small planets. */
  lemma {:induction false} KpisFull(rows: seq<StarRow>)
    ensures CalcKpis(rows).named == CalcKpis(rows).total <==> forall i :: 0 <= i < |rows| ==> Truthy(rows[i].name)
    ensures CalcKpis(rows).small == CalcKpis(rows).total <==>
      forall i :: 0 <= i < |rows| ==> rows[i].pr.Some? && rows[i].pr.value <= 1.5
  {
    FilterKeepsAll(rows, IsNamed);
    FilterKeepsAll(rows, IsSmall);
  }

  // ---------------------------------------------------------------------------
  // Scatter groups

  datatype Disposition = Confirmed | Candidate | FalsePositive | Other

  /** `(r.disp || "").toString().toUpperCase()` */
  function DispText(disp: Value): string {
    if Truthy(disp) then ToUpper(ToJsString(disp)) else ""
  }

  /** The first of CONFIRMED, CANDIDATE, FALSE that the upper-cased disposition contains; else OTHER. */
  function Classify(d: string): Disposition {
    if Contains(d, "CONFIRMED") then Confirmed
    else if Contains(d, "CANDIDATE") then Candidate
    else if Contains(d, "FALSE") then FalsePositive
    else Other
  }

  function Category(s: StarRow): Disposition {
    Classify(DispText(s.disp))
  }

  /** `r => Number.isFinite(r.Teq) && Number.isFinite(r.a)` */
  predicate IsClean(s: StarRow) { s.teq.Some? && s.a.Some? }

  /** The rows `makeTraces` plots. */
  function Clean(rows: seq<StarRow>): seq<StarRow> {
    Filter(rows, IsClean)
  }

  /** The `groups` object: one array per label. */
  datatype Groups = Groups(confirmed: seq<StarRow>, candidate: seq<StarRow>,
                           falsePositive: seq<StarRow>, other: seq<StarRow>)

  /** `groups[label]` */
  function Slot(g: Groups, c: Disposition): seq<StarRow> {
    match c
    case Confirmed => g.confirmed
    case Candidate => g.candidate
    case FalsePositive => g.falsePositive
    case Other => g.other
  }

  /** `groups[label].push(r)` for the label of `r`. */
  function Add(g: Groups, r: StarRow): (h: Groups)
    ensures forall c :: Slot(h, c) == Slot(g, c) + (if Category(r) == c then [r] else [])
  {
    match Category(r)
    case Confirmed => g.(confirmed := g.confirmed + [r])
    case Candidate => g.(candidate := g.candidate + [r])
    case FalsePositive => g.(falsePositive := g.falsePositive + [r])
    case Other => g.(other := g.other + [r])
  }

  /** The groups after pushing `rows` in order onto empty arrays. */
  function GroupRows(rows: seq<StarRow>): Groups {
    if rows == [] then Groups([], [], [], [])
    else Add(GroupRows(rows[..|rows| - 1]), rows[|rows| - 1])
  }

  /** Group `c` holds exactly the rows of category `c`, each as often as in `rows`. */
  lemma {:induction false} GroupRowsSlot(rows: seq<StarRow>, c: Disposition, x: StarRow)
    ensures multiset(Slot(GroupRows(rows), c))[x] == if Category(x) == c then multiset(rows)[x] else 0
  {
    if rows != [] {
      var init := rows[..|rows| - 1];
      var last := rows[|rows| - 1];
      assert rows == init + [last];
      assert multiset(rows)[x] == multiset(init)[x] + (if last == x then 1 else 0);
      GroupRowsSlot(init, c, x);
      var before := Slot(GroupRows(init), c);
      var pushed := if Category(last) == c then [last] else [];
      assert Slot(GroupRows(rows), c) == before + pushed;
      assert multiset(before + pushed)[x] == multiset(before)[x] + multiset(pushed)[x];
      assert multiset(pushed)[x] == if Category(last) == c && last == x then 1 else 0;
    }
  }

  /** A row lands in the group of its category and in no other. */
  lemma {:induction false} GroupRowsMembers(rows: seq<StarRow>, c: Disposition, x: StarRow)
    ensures x in Slot(GroupRows(rows), c) <==> x in rows && Category(x) == c
  {
    GroupRowsSlot(rows, c, x);
  }

  /** The four groups together hold every row exactly once: their sizes add up to the row count. */
  lemma {:induction false} GroupRowsPartition(rows: seq<StarRow>)
    ensures multiset(Slot(GroupRows(rows), Confirmed)) + multiset(Slot(GroupRows(rows), Candidate)) +
            multiset(Slot(GroupRows(rows), FalsePositive)) + multiset(Slot(GroupRows(rows), Other)) == multiset(rows)
    ensures |Slot(GroupRows(rows), Confirmed)| + |Slot(GroupRows(rows), Candidate)| +
            |Slot(GroupRows(rows), FalsePositive)| + |Slot(GroupRows(rows), Other)| == |rows|
  {
    var g := GroupRows(rows);
    var sum := multiset(Slot(g, Confirmed)) + multiset(Slot(g, Candidate)) +
               multiset(Slot(g, FalsePositive)) + multiset(Slot(g, Other));
    forall x ensures sum[x] == multiset(rows)[x] {
      GroupRowsSlot(rows, Confirmed, x);
      GroupRowsSlot(rows, Candidate, x);
      GroupRowsSlot(rows, FalsePositive, x);
      GroupRowsSlot(rows, Other, x);
    }
    assert sum == multiset(rows);
    assert |sum| == |rows|;
  }

  /** The disposition is matched case-insensitively: a lower-case "confirmed" is CONFIRMED. */
  lemma LowerCaseConfirmed()
    ensures Classify(DispText(Str("confirmed"))) == Confirmed
  {
    var u := ToUpper("confirmed");
    assert u[0] == 'C' && u[1] == 'O' && u[2] == 'N' && u[3] == 'F' && u[4] == 'I';
    assert u[5] == 'R' && u[6] == 'M' && u[7] == 'E' && u[8] == 'D';
    assert u == "CONFIRMED";
    assert DispText(Str("confirmed")) == u;
    assert StartsWith(u, "CONFIRMED");
  }

  /** Priority: a text naming CONFIRMED is CONFIRMED whatever else it names. */
  lemma {:induction false} ConfirmedFirst(d: string)
    requires Contains(d, "CONFIRMED")
    ensures Classify(d) == Confirmed
  {
  }

  /** A missing disposition goes to OTHER. */
  lemma MissingIsOther()
    ensures Classify(DispText(Null)) == Other
  {
    assert DispText(Null) == "";
    assert !StartsWith("", "CONFIRMED") && !StartsWith("", "CANDIDATE") && !StartsWith("", "FALSE");
  }

  /** `makeTraces`: the clean rows, each pushed onto the array of its label. */
  method MakeGroups(rows: seq<StarRow>) returns (groups: Groups)
    ensures groups == GroupRows(Clean(rows))
  {
    var clean := Clean(rows);
    groups := Groups([], [], [], []);
    for i := 0 to |clean|
      invariant groups == GroupRows(clean[..i])
    {
      var r := clean[i];
      assert clean[..i + 1][..i] == clean[..i];
      var d := DispText(r.disp);
      if Contains(d, "CONFIRMED") {
        groups := groups.(confirmed := groups.confirmed + [r]);
      } else if Contains(d, "CANDIDATE") {
        groups := groups.(candidate := groups.candidate + [r]);
      } else if Contains(d, "FALSE") {
        groups := groups.(falsePositive := groups.falsePositive + [r]);
      } else {
        groups := groups.(other := groups.other + [r]);
      }
    }
    assert clean[..|clean|] == clean;
  }

  /** `r => Number.isFinite(r.pr) && r.pr >= 0.8 && r.pr <= 1.5 && r.Teq >= 180 && r.Teq <= 310` */
  predicate EarthLikeRow(s: StarRow) {
    s.pr.Some? && 0.8 <= s.pr.value <= 1.5 && s.teq.Some? && 180.0 <= s.teq.value <= 310.0
  }

  /** The earth-like overlay: clean rows with an earth-sized radius and a temperate `Teq`. */
  function EarthLike(rows: seq<StarRow>): seq<StarRow> {
    Filter(Clean(rows), EarthLikeRow)
  }

  /** A row is earth-like exactly when it is clean and within both ranges. */
  lemma {:induction false} EarthLikeIff(rows: seq<StarRow>, x: StarRow)
    ensures x in EarthLike(rows) <==>
      x in rows && x.a.Some? && x.pr.Some? && 0.8 <= x.pr.value <= 1.5 &&
      x.teq.Some? && 180.0 <= x.teq.value <= 310.0
  {
    FilterMembers(Clean(rows), EarthLikeRow, x);
    FilterMembers(rows, IsClean, x);
  }
}
