/**
 * The prediction explorer (ai-predict.js): rows parsed with the loose
 * resolver `key` and the coercion `n`, grouping by label, and the ANOVA
 * F-score ranking of the numeric columns against a categorical target,
 * computed on the rows as read from the file.
 */
module Predict {
  import opened JsValues
  import opened Resolver
  import opened Coercion
  import opened Grouping
  import opened StableSort

  // ---------------------------------------------------------------------------
  // Parsed rows

  datatype PredRow = PredRow(
    name: Value, classLabel: Value, trueLabel: Value,
    period: Option<real>, t0: Option<real>, duration: Option<real>, insol: Option<real>,
    ra: Option<real>, dec: Option<real>, rstar: Option<real>, impact: Option<real>,
    depth: Option<real>, radius: Option<real>, snr: Option<real>)

  const LabelKeys: seq<string> := ["predicted_label", "label", "class"]

  /** `key(r, names) || "Other"` */
  function LabelOf(r: Record): (l: Value)
    ensures Truthy(l)
  {
    var v := LooseResolve(r, LabelKeys);
    if Truthy(v) then v else Str("Other")
  }

  /** `parseRow(r)` */
  function ParseRow(r: Record): (p: PredRow)
    ensures Truthy(p.classLabel)
  {
    PredRow(
      LooseResolve(r, ["name", "planet", "pl_name", "koi_name", "kepler_name", "kepoi_name", "kepid"]),
      LabelOf(r),
      LooseResolve(r, ["true_label"]),
      ToNum(LooseResolve(r, ["koi_period", "period_days", "pl_orbper"])),
      ToNum(LooseResolve(r, ["koi_time0bk"])),
      ToNum(LooseResolve(r, ["koi_duration"])),
      ToNum(LooseResolve(r, ["koi_insol"])),
      ToNum(LooseResolve(r, ["ra"])),
      ToNum(LooseResolve(r, ["dec"])),
      ToNum(LooseResolve(r, ["koi_srad", "st_rad"])),
      ToNum(LooseResolve(r, ["koi_impact"])),
      ToNum(LooseResolve(r, ["koi_depth"])),
      ToNum(LooseResolve(r, ["koi_prad", "pl_rade"])),
      ToNum(LooseResolve(r, ["koi_model_snr"])))
  }

  /** A label found under one of the label headers is kept when it is truthy. */
  lemma {:induction false} LabelKept(r: Record)
    ensures var v := LooseResolve(r, LabelKeys); Truthy(v) ==> ParseRow(r).classLabel == v
  {
  }

  /** A row with none of the label headers is labelled "Other". */
  lemma {:induction false} UnlabelledIsOther(r: Record)
    requires forall j :: 0 <= j < |LabelKeys| ==> !PresentOpt(DictGet(Dict(r, TrimLower), ToLower(LabelKeys[j])))
    ensures ParseRow(r).classLabel == Str("Other")
  {
    LooseResolveNullIff(r, LabelKeys);
    assert LabelOf(r) == Str("Other");
  }

  // ---------------------------------------------------------------------------
  // Grouping by label

  /** The property name `g[r.label]` uses: the label as text. */
  function LabelKey(p: PredRow): string {
    ToJsString(p.classLabel)
  }

  function Self(p: PredRow): PredRow {
    p
  }

  /** `groupByLabel(rows)` */
  method GroupByLabel(rows: seq<PredRow>) returns (g: seq<(string, seq<PredRow>)>)
    ensures g == Group(rows, LabelKey, Self)
  {
    g := GroupInto(rows, LabelKey, Self);
  }

  /**
   * The groups partition the rows: one group per label that occurs, holding
   * exactly the rows with that label in input order, the sizes adding up to
   * the number of rows.
   */
  lemma {:induction false} GroupByLabelPartition(rows: seq<PredRow>)
    ensures var g := Group(rows, LabelKey, Self);
      DistinctKeys(g) &&
      (forall i :: 0 <= i < |g| ==> g[i].1 == Select(rows, LabelKey, Self, g[i].0) != []) &&
      (forall k :: HasKey(g, k) <==> exists i :: 0 <= i < |rows| && LabelKey(rows[i]) == k) &&
      SumSizes(g) == |rows|
  {
    GroupContents(rows, LabelKey, Self);
    GroupSizes(rows, LabelKey, Self);
    forall k ensures Select(rows, LabelKey, Self, k) != [] <==> exists i :: 0 <= i < |rows| && LabelKey(rows[i]) == k {
      SelectNonEmpty(rows, k);
    }
  }

  lemma {:induction false} SelectNonEmpty(rows: seq<PredRow>, k: string)
    ensures Select(rows, LabelKey, Self, k) != [] <==> exists i :: 0 <= i < |rows| && LabelKey(rows[i]) == k
    decreases |rows|
  {
    if rows != [] {
      var front := rows[..|rows| - 1];
      SelectNonEmpty(front, k);
      if exists i :: 0 <= i < |front| && LabelKey(front[i]) == k {
        var i :| 0 <= i < |front| && LabelKey(front[i]) == k;
        assert rows[i] == front[i];
      }
      if exists i :: 0 <= i < |rows| && LabelKey(rows[i]) == k {
        var i :| 0 <= i < |rows| && LabelKey(rows[i]) == k;
        if i < |front| {
          assert front[i] == rows[i];
        }
      }
    }
  }

  // ---------------------------------------------------------------------------
  // Means and sums of squares

  /** `a.reduce((s, x) => s + x, 0)` */
  function Sum(a: seq<real>): real {
    if a == [] then 0.0 else Sum(a[..|a| - 1]) + a[|a| - 1]
  }

  /** `mean(a)` */
  function Mean(a: seq<real>): real
    requires a != []
  {
    Sum(a) / |a| as real
  }

  lemma {:induction false} SumBounds(a: seq<real>, lo: real, hi: real)
    requires forall i :: 0 <= i < |a| ==> lo <= a[i] <= hi
    ensures |a| as real * lo <= Sum(a) <= |a| as real * hi
  {
    if a != [] {
      SumBounds(a[..|a| - 1], lo, hi);
    }
  }

  /** The mean lies between any bounds of the values. */
  lemma {:induction false} MeanBounds(a: seq<real>, lo: real, hi: real)
    requires a != []
    requires forall i :: 0 <= i < |a| ==> lo <= a[i] <= hi
    ensures lo <= Mean(a) <= hi
  {
    SumBounds(a, lo, hi);
    var n := |a| as real;
    assert Sum(a) / n >= lo by {
      assert Sum(a) >= n * lo;
    }
    assert Sum(a) / n <= hi by {
      assert Sum(a) <= n * hi;
    }
  }

  /** `a.reduce((s, x) => s + (x - m) * (x - m), 0)` */
  function SqDev(a: seq<real>, m: real): (r: real)
    ensures r >= 0.0
  {
    if a == [] then 0.0
    else
      var d := a[|a| - 1] - m;
      SqDev(a[..|a| - 1], m) + d * d
  }

  /** Every group holds at least one value. */
  predicate NonEmptyGroups(g: seq<(string, seq<real>)>) {
    forall i :: 0 <= i < |g| ==> g[i].1 != []
  }

  /** `classes.flatMap(c => buckets[c])` */
  function AllValues(g: seq<(string, seq<real>)>): (all: seq<real>)
    ensures |all| == SumSizes(g)
  {
    if g == [] then [] else AllValues(g[..|g| - 1]) + g[|g| - 1].1
  }

  /** One class's share of the between-groups sum of squares: `a.length * (m - grand) * (m - grand)`. */
  function BetweenTerm(a: seq<real>, grand: real): (r: real)
    requires a != []
    ensures r >= 0.0
  {
    var d := Mean(a) - grand;
    assert |a| as real * d * d == |a| as real * (d * d);
    |a| as real * d * d
  }

  lemma MulPositive(x: real, y: real)
    requires x > 0.0 && y > 0.0
    ensures x * y > 0.0
  {
  }

  /** A class whose mean is off the overall mean adds a positive share. */
  lemma BetweenTermPositive(a: seq<real>, grand: real)
    requires a != [] && Mean(a) != grand
    ensures BetweenTerm(a, grand) > 0.0
  {
    var n, d := |a| as real, Mean(a) - grand;
    if d > 0.0 {
      MulPositive(n, d);
      MulPositive(n * d, d);
    } else {
      MulPositive(n, -d);
      MulPositive(n * -d, -d);
      assert n * -d * -d == n * d * d;
    }
  }

  /** The between-groups sum of squares over the first groups. */
  function Between(g: seq<(string, seq<real>)>, grand: real): (r: real)
    requires NonEmptyGroups(g)
    ensures r >= 0.0
  {
    if g == [] then 0.0 else Between(g[..|g| - 1], grand) + BetweenTerm(g[|g| - 1].1, grand)
  }

  /** The within-groups sum of squares over the first groups. */
  function Within(g: seq<(string, seq<real>)>): (r: real)
    requires NonEmptyGroups(g)
    ensures r >= 0.0
  {
    if g == [] then 0.0
    else Within(g[..|g| - 1]) + SqDev(g[|g| - 1].1, Mean(g[|g| - 1].1))
  }

  function MaxOne(d: int): (r: int)
    ensures r >= 1
  {
    if d > 1 then d else 1
  }

  /** `msb / msw` with both degrees of freedom floored at 1, and 0 when `msw` is 0. */
  function FRatio(ssb: real, ssw: real, dfb: int, dfw: int): (f: real)
    ensures ssb >= 0.0 && ssw >= 0.0 ==> f >= 0.0
    ensures ssw == 0.0 ==> f == 0.0
    ensures ssb == 0.0 ==> f == 0.0
    ensures ssb > 0.0 && ssw > 0.0 ==> f > 0.0
  {
    var msb := ssb / MaxOne(dfb) as real;
    var msw := ssw / MaxOne(dfw) as real;
    if msw == 0.0 then 0.0 else msb / msw
  }

  /** The F statistic with the guards: fewer than two classes or ten values score 0. */
  function Score(g: seq<(string, seq<real>)>): (res: (real, nat))
    requires NonEmptyGroups(g)
    ensures res.0 >= 0.0
    ensures |g| < 2 ==> res == (0.0, 0)
    ensures |g| >= 2 ==> res.1 == SumSizes(g)
    ensures res.1 < 10 ==> res.0 == 0.0
  {
    if |g| < 2 then (0.0, 0)
    else
      var all := AllValues(g);
      if |all| < 10 then (0.0, |all|)
      else (FRatio(Between(g, Mean(all)), Within(g), |g| - 1, |all| - |g|), |all|)
  }

  /** When every class has the overall mean, the between-groups sum of squares is 0. */
  lemma {:induction false} EqualMeansNoBetween(g: seq<(string, seq<real>)>, grand: real)
    requires NonEmptyGroups(g)
    requires forall i :: 0 <= i < |g| ==> Mean(g[i].1) == grand
    ensures Between(g, grand) == 0.0
    decreases |g|
  {
    if g != [] {
      var front := g[..|g| - 1];
      assert forall i :: 0 <= i < |front| ==> front[i] == g[i];
      EqualMeansNoBetween(front, grand);
    }
  }

  /** When some class's mean differs from the overall mean, the between-groups sum of squares is positive. */
  lemma {:induction false} UnequalMeansBetween(g: seq<(string, seq<real>)>, grand: real, k: nat)
    requires NonEmptyGroups(g)
    requires k < |g| && Mean(g[k].1) != grand
    ensures Between(g, grand) > 0.0
    decreases |g|
  {
    if k == |g| - 1 {
      BetweenTermPositive(g[k].1, grand);
    } else {
      var front := g[..|g| - 1];
      assert front[k] == g[k];
      UnequalMeansBetween(front, grand, k);
    }
  }

  /** A feature whose every class has the same mean separates nothing: it scores 0. */
  lemma EqualMeansScoreZero(g: seq<(string, seq<real>)>)
    requires NonEmptyGroups(g) && AllValues(g) != []
    requires forall i :: 0 <= i < |g| ==> Mean(g[i].1) == Mean(AllValues(g))
    ensures Score(g).0 == 0.0
  {
    EqualMeansNoBetween(g, Mean(AllValues(g)));
  }

  /**
   * With enough data, a feature whose class means are not all equal and whose classes
   * are not all constant scores above 0.
   */
  lemma UnequalMeansScorePositive(g: seq<(string, seq<real>)>, k: nat)
    requires NonEmptyGroups(g) && |g| >= 2 && |AllValues(g)| >= 10
    requires k < |g| && Mean(g[k].1) != Mean(AllValues(g))
    requires Within(g) > 0.0
    ensures Score(g).0 > 0.0
  {
    UnequalMeansBetween(g, Mean(AllValues(g)), k);
  }

  // ---------------------------------------------------------------------------
  // Bucketing the raw rows

  /** `(r[targetKey] ?? "Other").toString()` */
  function TargetText(v: Option<Value>): (t: string)
    ensures v.None? || v == Some(Null) ==> t == "Other"
  {
    if v.None? || v.value == Null then "Other" else ToJsString(v.value)
  }

  /** The class and value a raw row contributes, when its cell reads as a finite number. */
  function Sample(r: Record, keyName: string, targetKey: string): Option<(string, real)> {
    var x := CommaNumber(Get(r, keyName));
    if x.Some? then Some((TargetText(Get(r, targetKey)), x.value)) else None
  }

  function Samples(rows: seq<Record>, keyName: string, targetKey: string): (s: seq<(string, real)>)
    ensures |s| <= |rows|
  {
    if rows == [] then []
    else
      var x := Sample(rows[|rows| - 1], keyName, targetKey);
      Samples(rows[..|rows| - 1], keyName, targetKey) + (if x.Some? then [x.value] else [])
  }

  function ClassOf(s: (string, real)): string {
    s.0
  }

  function ValueOf(s: (string, real)): real {
    s.1
  }

  /** The buckets of `anovaF`: the sample values per class, classes in order of first appearance. */
  function Buckets(rows: seq<Record>, keyName: string, targetKey: string): (g: seq<(string, seq<real>)>)
    ensures NonEmptyGroups(g)
  {
    GroupContents(Samples(rows, keyName, targetKey), ClassOf, ValueOf);
    Group(Samples(rows, keyName, targetKey), ClassOf, ValueOf)
  }

  /** The result of `anovaF(rows, keyName, targetKey)`: the score and the sample count. */
  function Anova(rows: seq<Record>, keyName: string, targetKey: string): (res: (real, nat)) {
    Score(Buckets(rows, keyName, targetKey))
  }

  /**
   * The score is never negative; with two or more classes the count is the
   * number of rows whose cell reads as a finite number, and with fewer than
   * two classes or fewer than ten samples the score is 0.
   */
  lemma {:induction false} AnovaGuards(rows: seq<Record>, keyName: string, targetKey: string)
    ensures Anova(rows, keyName, targetKey).0 >= 0.0
    ensures |Buckets(rows, keyName, targetKey)| < 2 ==> Anova(rows, keyName, targetKey) == (0.0, 0)
    ensures |Buckets(rows, keyName, targetKey)| >= 2 ==>
      Anova(rows, keyName, targetKey).1 == |Samples(rows, keyName, targetKey)|
    ensures Anova(rows, keyName, targetKey).1 < 10 ==> Anova(rows, keyName, targetKey).0 == 0.0
  {
    GroupSizes(Samples(rows, keyName, targetKey), ClassOf, ValueOf);
  }

  /**
   * Unlike `n`, the sampler counts an empty cell as 0, and skips a missing
   * cell and a null one.
   */
  lemma {:induction false} EmptyCellIsZero(r: Record, keyName: string, targetKey: string)
    ensures Get(r, keyName) == Some(Str("")) ==>
      Sample(r, keyName, targetKey) == Some((TargetText(Get(r, targetKey)), 0.0)) && ToNum(Str("")) == None
    ensures Get(r, keyName).None? || Get(r, keyName) == Some(Null) ==> Sample(r, keyName, targetKey) == None
  {
    var v := Get(r, keyName);
    if v == Some(Str("")) {
      assert CommaNumber(v) == Some(0.0);
    } else if v.None? || v == Some(Null) {
      CommaNumberOfMissing(v);
    }
  }

  lemma {:induction false} SamplesStep(rows: seq<Record>, i: nat, keyName: string, targetKey: string)
    requires i < |rows|
    ensures var x := Sample(rows[i], keyName, targetKey);
      Samples(rows[..i + 1], keyName, targetKey) ==
        Samples(rows[..i], keyName, targetKey) + (if x.Some? then [x.value] else [])
  {
    assert rows[..i + 1][..i] == rows[..i];
  }

  /** The first loop of `anovaF`: each row's finite sample pushed into its class bucket. */
  method Bucketize(rows: seq<Record>, keyName: string, targetKey: string) returns (buckets: seq<(string, seq<real>)>)
    ensures buckets == Buckets(rows, keyName, targetKey)
  {
    buckets := [];
    for i := 0 to |rows|
      invariant buckets == Group(Samples(rows[..i], keyName, targetKey), ClassOf, ValueOf)
    {
      SamplesStep(rows, i, keyName, targetKey);
      var x := Sample(rows[i], keyName, targetKey);
      if x.Some? {
        GroupSnoc(Samples(rows[..i], keyName, targetKey), x.value, ClassOf, ValueOf);
        assert Samples(rows[..i + 1], keyName, targetKey) == Samples(rows[..i], keyName, targetKey) + [x.value];
        buckets := Push(buckets, ClassOf(x.value), ValueOf(x.value));
        assert buckets == Group(Samples(rows[..i], keyName, targetKey) + [x.value], ClassOf, ValueOf);
      } else {
        assert Samples(rows[..i + 1], keyName, targetKey) == Samples(rows[..i], keyName, targetKey);
      }
    }
    assert rows[..|rows|] == rows;
  }

  lemma {:induction false} SumsStep(g: seq<(string, seq<real>)>, i: nat, grand: real)
    requires NonEmptyGroups(g) && i < |g|
    ensures NonEmptyGroups(g[..i]) && NonEmptyGroups(g[..i + 1])
    ensures Between(g[..i + 1], grand) == Between(g[..i], grand) + BetweenTerm(g[i].1, grand)
    ensures Within(g[..i + 1]) == Within(g[..i]) + SqDev(g[i].1, Mean(g[i].1))
  {
    assert g[..i + 1][..i] == g[..i];
  }

  /** The second loop of `anovaF`: the between- and within-class sums of squares. */
  method SumsOfSquares(buckets: seq<(string, seq<real>)>, grand: real) returns (ssb: real, ssw: real)
    requires NonEmptyGroups(buckets)
    ensures ssb == Between(buckets, grand) && ssw == Within(buckets)
  {
    ssb, ssw := 0.0, 0.0;
    for i := 0 to |buckets|
      invariant NonEmptyGroups(buckets[..i])
      invariant ssb == Between(buckets[..i], grand)
      invariant ssw == Within(buckets[..i])
    {
      SumsStep(buckets, i, grand);
      var a := buckets[i].1;
      var m := Mean(a);
      ssb := ssb + BetweenTerm(a, grand);
      ssw := ssw + SqDev(a, m);
    }
    assert buckets[..|buckets|] == buckets;
  }

  /** The guards and the F ratio of `anovaF`, once the rows are bucketed. */
  method ScoreBuckets(buckets: seq<(string, seq<real>)>) returns (score: real, n: nat)
    requires NonEmptyGroups(buckets)
    ensures score == Score(buckets).0 && n == Score(buckets).1
  {
    if |buckets| < 2 {
      return 0.0, 0;
    }
    var all := AllValues(buckets);
    if |all| < 10 {
      return 0.0, |all|;
    }
    var grand := Mean(all);
    var ssb, ssw := SumsOfSquares(buckets, grand);
    var dfb, dfw := |buckets| - 1, |all| - |buckets|;
    score := FRatio(ssb, ssw, dfb, dfw);
    n := |all|;
  }

  /** `anovaF(rows, keyName, targetKey)` */
  method AnovaF(rows: seq<Record>, keyName: string, targetKey: string) returns (score: real, n: nat)
    ensures score == Anova(rows, keyName, targetKey).0 && n == Anova(rows, keyName, targetKey).1
  {
    var buckets := Bucketize(rows, keyName, targetKey);
    score, n := ScoreBuckets(buckets);
  }

  // ---------------------------------------------------------------------------
  // Feature ranking

  datatype Signal = Signal(key: string, score: real, n: nat)

  const NumericKeys: seq<string> :=
    ["koi_period", "koi_time0bk", "koi_duration", "koi_insol", "ra", "dec", "koi_srad", "koi_impact",
     "koi_depth", "koi_prad", "koi_model_snr"]

  /** The scores `anovaF` gives each column of the raw rows against the target. */
  function AnovaOf(rows: seq<Record>, targetKey: string): string -> (real, nat) {
    k => Anova(rows, k, targetKey)
  }

  /** The signals of `keys` with at least ten samples, in the order of `keys`. */
  function Candidates(keys: seq<string>, eval: string -> (real, nat)): (c: seq<Signal>)
    ensures |c| <= |keys|
  {
    if keys == [] then []
    else
      var k := keys[|keys| - 1];
      var a := eval(k);
      Candidates(keys[..|keys| - 1], eval) + (if a.1 >= 10 then [Signal(k, a.0, a.1)] else [])
  }

  /** `(a, b) => b.score - a.score` */
  function ScoreOrder(): (Signal, Signal) -> real {
    (a: Signal, b: Signal) => b.score - a.score
  }

  /** The candidates sorted by `results.sort((a, b) => b.score - a.score)`. */
  function Ranked(keys: seq<string>, eval: string -> (real, nat)): seq<Signal> {
    Sort(Candidates(keys, eval), ScoreOrder())
  }

  /** The result of `computeSignalsCategorical(rows, targetKey)`. */
  function Signals(rows: seq<Record>, targetKey: string): seq<Signal> {
    Ranked(NumericKeys, AnovaOf(rows, targetKey))
  }

  /** `computeSignalsCategorical(rows, targetKey)` */
  method ComputeSignalsCategorical(rows: seq<Record>, targetKey: string) returns (results: seq<Signal>)
    ensures results == Signals(rows, targetKey)
  {
    results := ScoreColumns(rows, NumericKeys, targetKey);
    results := Sort(results, ScoreOrder());
  }

  /** The loop of `computeSignalsCategorical`: `anovaF` per column, keeping those with `n >= 10`. */
  method ScoreColumns(rows: seq<Record>, keys: seq<string>, targetKey: string) returns (results: seq<Signal>)
    ensures results == Candidates(keys, AnovaOf(rows, targetKey))
  {
    results := [];
    for i := 0 to |keys|
      invariant results == Candidates(keys[..i], AnovaOf(rows, targetKey))
    {
      assert keys[..i + 1][..i] == keys[..i];
      var k := keys[i];
      var score, n := AnovaF(rows, k, targetKey);
      assert (score, n) == AnovaOf(rows, targetKey)(k);
      if n >= 10 {
        results := results + [Signal(k, score, n)];
      }
    }
    assert keys[..|keys|] == keys;
  }

  /** Every candidate is a listed column with at least ten samples, carrying its score and count. */
  lemma {:induction false} CandidateSound(keys: seq<string>, eval: string -> (real, nat), i: nat)
    requires i < |Candidates(keys, eval)|
    ensures var c := Candidates(keys, eval)[i];
      c.key in keys && c.n >= 10 && (c.score, c.n) == eval(c.key)
    decreases |keys|
  {
    var front := keys[..|keys| - 1];
    if i < |Candidates(front, eval)| {
      CandidateSound(front, eval, i);
      assert Candidates(keys, eval)[i] == Candidates(front, eval)[i];
    }
  }

  /** Every listed column with at least ten samples is a candidate. */
  lemma {:induction false} CandidateComplete(keys: seq<string>, eval: string -> (real, nat), k: string)
    requires k in keys && eval(k).1 >= 10
    ensures exists i :: 0 <= i < |Candidates(keys, eval)| && Candidates(keys, eval)[i].key == k
    decreases |keys|
  {
    var front := keys[..|keys| - 1];
    var c := Candidates(keys, eval);
    if k == keys[|keys| - 1] {
      assert c[|c| - 1].key == k;
    } else {
      assert k in front;
      CandidateComplete(front, eval, k);
      var i :| 0 <= i < |Candidates(front, eval)| && Candidates(front, eval)[i].key == k;
      assert c[i] == Candidates(front, eval)[i];
    }
  }

  lemma {:induction false} CandidatesDistinct(keys: seq<string>, eval: string -> (real, nat))
    requires forall i, j :: 0 <= i < j < |keys| ==> keys[i] != keys[j]
    ensures forall i, j :: 0 <= i < j < |Candidates(keys, eval)| ==>
      Candidates(keys, eval)[i].key != Candidates(keys, eval)[j].key
    decreases |keys|
  {
    if keys != [] {
      var front := keys[..|keys| - 1];
      var last := keys[|keys| - 1];
      CandidatesDistinct(front, eval);
      var cf := Candidates(front, eval);
      var c := Candidates(keys, eval);
      forall i | 0 <= i < |cf| ensures cf[i].key != last {
        CandidateSound(front, eval, i);
        var j :| 0 <= j < |front| && front[j] == cf[i].key;
        assert keys[j] == front[j];
      }
      forall i, j | 0 <= i < j < |c| ensures c[i].key != c[j].key {
        assert c[i] == cf[i];
        if j < |cf| {
          assert c[j] == cf[j];
        } else {
          assert c[j].key == last;
        }
      }
    }
  }

  lemma NumericKeysDistinct()
    ensures forall i, j :: 0 <= i < j < |NumericKeys| ==> NumericKeys[i] != NumericKeys[j]
  {
  }

  lemma ScoreOrderTotal()
    ensures TotalPreorder(ScoreOrder())
  {
  }

  /** After sorting, every entry is still a listed column with at least ten samples, carrying its score and count. */
  lemma {:induction false} RankingSound(keys: seq<string>, eval: string -> (real, nat), i: nat)
    requires i < |Ranked(keys, eval)|
    ensures var x := Ranked(keys, eval)[i];
      x.key in keys && x.n >= 10 && (x.score, x.n) == eval(x.key)
  {
    var c := Candidates(keys, eval);
    var s := Sort(c, ScoreOrder());
    assert s[i] in multiset(c);
    var j :| 0 <= j < |c| && c[j] == s[i];
    CandidateSound(keys, eval, j);
  }

  /** After sorting, every listed column with at least ten samples is still present. */
  lemma {:induction false} RankingComplete(keys: seq<string>, eval: string -> (real, nat), k: string)
    requires k in keys && eval(k).1 >= 10
    ensures exists i :: 0 <= i < |Ranked(keys, eval)| && Ranked(keys, eval)[i].key == k
  {
    var c := Candidates(keys, eval);
    var s := Sort(c, ScoreOrder());
    CandidateComplete(keys, eval, k);
    var j :| 0 <= j < |c| && c[j].key == k;
    assert c[j] in multiset(s);
    var i :| 0 <= i < |s| && s[i] == c[j];
    assert s[i].key == k;
    assert s == Ranked(keys, eval);
  }

  /** Sorted candidates of distinct columns name each column at most once. */
  lemma {:induction false} RankingDistinct(keys: seq<string>, eval: string -> (real, nat))
    requires forall i, j :: 0 <= i < j < |keys| ==> keys[i] != keys[j]
    ensures forall i, j :: 0 <= i < j < |Ranked(keys, eval)| ==> Ranked(keys, eval)[i].key != Ranked(keys, eval)[j].key
  {
    var c := Candidates(keys, eval);
    var s := Sort(c, ScoreOrder());
    CandidatesDistinct(keys, eval);
    assert forall i, j :: 0 <= i < j < |c| ==> c[i].key != c[j].key;
    forall i, j | 0 <= i < j < |s| ensures s[i].key != s[j].key {
      assert s[i] in multiset(c) && s[j] in multiset(c);
      var a :| 0 <= a < |c| && c[a] == s[i];
      var b :| 0 <= b < |c| && c[b] == s[j];
      if a == b {
        TwiceInMultiset(s, i, j);
        DistinctOnce(c, s[i]);
        assert false;
      } else if a < b {
        assert c[a].key != c[b].key;
      } else {
        assert c[b].key != c[a].key;
      }
    }
  }

  /** A sequence of signals with distinct columns holds each signal at most once. */
  lemma {:induction false} DistinctOnce(c: seq<Signal>, x: Signal)
    requires forall i, j :: 0 <= i < j < |c| ==> c[i].key != c[j].key
    ensures multiset(c)[x] <= 1
    decreases |c|
  {
    if c != [] {
      var front := c[..|c| - 1];
      DistinctOnce(front, x);
      assert c == front + [c[|c| - 1]];
      if c[|c| - 1] == x {
        forall i | 0 <= i < |front| ensures front[i] != x {
          assert front[i].key == c[i].key != c[|c| - 1].key;
        }
        assert x !in multiset(front);
      }
    }
  }

  /** Sorted candidates are in non-increasing score order. */
  lemma {:induction false} RankingOrder(keys: seq<string>, eval: string -> (real, nat))
    ensures forall i, j :: 0 <= i < j < |Ranked(keys, eval)| ==> Ranked(keys, eval)[i].score >= Ranked(keys, eval)[j].score
  {
    var s := Ranked(keys, eval);
    ScoreOrderTotal();
    SortSorted(Candidates(keys, eval), ScoreOrder());
    forall i, j | 0 <= i < j < |s| ensures s[i].score >= s[j].score {
      assert Le(ScoreOrder(), s[i], s[j]);
    }
  }

  /**
   * `computeSignalsCategorical`: each of the fixed columns whose `anovaF`
   * count reaches ten appears once with its score and count, nothing else
   * appears, and the scores do not increase.
   */
  lemma {:induction false} SignalsRanking(rows: seq<Record>, targetKey: string)
    ensures forall i :: 0 <= i < |Signals(rows, targetKey)| ==>
      var x := Signals(rows, targetKey)[i];
      x.key in NumericKeys && x.n >= 10 && (x.score, x.n) == Anova(rows, x.key, targetKey)
    ensures forall k :: k in NumericKeys && Anova(rows, k, targetKey).1 >= 10 ==>
      exists i :: 0 <= i < |Signals(rows, targetKey)| && Signals(rows, targetKey)[i].key == k
    ensures forall i, j :: 0 <= i < j < |Signals(rows, targetKey)| ==>
      Signals(rows, targetKey)[i].key != Signals(rows, targetKey)[j].key
    ensures forall i, j :: 0 <= i < j < |Signals(rows, targetKey)| ==>
      Signals(rows, targetKey)[i].score >= Signals(rows, targetKey)[j].score
  {
    var eval := AnovaOf(rows, targetKey);
    var s := Signals(rows, targetKey);
    forall i | 0 <= i < |s|
      ensures s[i].key in NumericKeys && s[i].n >= 10 && (s[i].score, s[i].n) == Anova(rows, s[i].key, targetKey)
    {
      RankingSound(NumericKeys, eval, i);
      assert eval(s[i].key) == Anova(rows, s[i].key, targetKey);
    }
    forall k | k in NumericKeys && Anova(rows, k, targetKey).1 >= 10 ensures exists i :: 0 <= i < |s| && s[i].key == k {
      assert eval(k) == Anova(rows, k, targetKey);
      RankingComplete(NumericKeys, eval, k);
    }
    NumericKeysDistinct();
    RankingDistinct(NumericKeys, eval);
    RankingOrder(NumericKeys, eval);
  }

  /** Columns with equal scores keep the order of the fixed column list. */
  lemma {:induction false} SignalsStable(rows: seq<Record>, targetKey: string, x: Signal)
    ensures Tied(Signals(rows, targetKey), x, ScoreOrder()) ==
      Tied(Candidates(NumericKeys, AnovaOf(rows, targetKey)), x, ScoreOrder())
  {
    ScoreOrderTotal();
    SortStable(Candidates(NumericKeys, AnovaOf(rows, targetKey)), x, ScoreOrder());
  }
}
