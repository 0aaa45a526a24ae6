/**
 * Grouping and counting into an insertion-ordered dictionary (a JavaScript
 * object used as a dictionary, or a `Map`), written as an association list
 * whose keys appear in the order they were first met.
 */
module Grouping {
  import opened StableSort

  /** Position of key `k` in `g`, or `|g|` when `k` is not there. */
  function Find<K(==), V>(g: seq<(K, V)>, k: K): (i: nat)
    ensures i <= |g|
    ensures i < |g| ==> g[i].0 == k
    ensures forall j :: 0 <= j < i ==> g[j].0 != k
  {
    if g == [] then 0 else if g[0].0 == k then 0 else 1 + Find(g[1..], k)
  }

  predicate HasKey<K(==), V>(g: seq<(K, V)>, k: K) {
    exists i :: 0 <= i < |g| && g[i].0 == k
  }

  predicate DistinctKeys<K(==), V>(g: seq<(K, V)>) {
    forall i, j :: 0 <= i < j < |g| ==> g[i].0 != g[j].0
  }

  // ---------------------------------------------------------------------------
  // Grouping: `(g[k] ||= []).push(v)`

  function Push<K(==), V>(g: seq<(K, seq<V>)>, k: K, v: V): (r: seq<(K, seq<V>)>)
    ensures |r| == |g| || |r| == |g| + 1
  {
    var i := Find(g, k);
    if i < |g| then g[i := (k, g[i].1 + [v])] else g + [(k, [v])]
  }

  /** The groups after pushing `val(x)` under `key(x)` for every `x` of `xs` in order. */
  function Group<T, K(==), V>(xs: seq<T>, key: T -> K, val: T -> V): seq<(K, seq<V>)>
    decreases |xs|
  {
    if xs == [] then []
    else
      var x := xs[|xs| - 1];
      Push(Group(xs[..|xs| - 1], key, val), key(x), val(x))
  }

  /** The values of the elements of `xs` whose key is `k`, in input order. */
  function Select<T, K(==), V>(xs: seq<T>, key: T -> K, val: T -> V, k: K): (r: seq<V>)
    ensures |r| <= |xs|
    decreases |xs|
  {
    if xs == [] then []
    else
      var x := xs[|xs| - 1];
      Select(xs[..|xs| - 1], key, val, k) + (if key(x) == k then [val(x)] else [])
  }

  function SumSizes<K, V>(g: seq<(K, seq<V>)>): nat {
    if g == [] then 0 else SumSizes(g[..|g| - 1]) + |g[|g| - 1].1|
  }

  /** `Object.entries(g).map(([k, vs]) => vs.length)`. */
  function Sizes<K, V>(g: seq<(K, seq<V>)>): (r: seq<nat>)
    ensures |r| == |g|
    ensures forall i :: 0 <= i < |g| ==> r[i] == |g[i].1|
  {
    if g == [] then [] else Sizes(g[..|g| - 1]) + [|g[|g| - 1].1|]
  }

  lemma {:induction false} SumSizesUpdate<K, V>(g: seq<(K, seq<V>)>, i: nat, p: (K, seq<V>))
    requires i < |g|
    ensures SumSizes(g[i := p]) == SumSizes(g) - |g[i].1| + |p.1|
    decreases |g|
  {
    if i < |g| - 1 {
      assert g[i := p][..|g| - 1] == g[..|g| - 1][i := p];
      SumSizesUpdate(g[..|g| - 1], i, p);
    } else {
      assert g[i := p][..|g| - 1] == g[..|g| - 1];
    }
  }

  /**
   * The groups partition the input: keys are distinct, a key has a group iff
   * some element carries it, each group holds exactly the values of the
   * elements with its key in input order, and no group is empty.
   */
  lemma {:induction false} GroupContents<T, K, V>(xs: seq<T>, key: T -> K, val: T -> V)
    ensures DistinctKeys(Group(xs, key, val))
    ensures forall i :: 0 <= i < |Group(xs, key, val)| ==>
      Group(xs, key, val)[i].1 == Select(xs, key, val, Group(xs, key, val)[i].0) != []
    ensures forall k :: HasKey(Group(xs, key, val), k) <==> Select(xs, key, val, k) != []
    decreases |xs|
  {
    if xs != [] {
      var front := xs[..|xs| - 1];
      var x := xs[|xs| - 1];
      GroupContents(front, key, val);
      var g := Group(front, key, val);
      var r := Group(xs, key, val);
      var i := Find(g, key(x));
      forall j | 0 <= j < |r| ensures r[j].1 == Select(xs, key, val, r[j].0) != [] {
        if j < |g| && g[j].0 != key(x) {
          assert r[j] == g[j];
        }
      }
      forall k ensures HasKey(r, k) <==> Select(xs, key, val, k) != [] {
        if HasKey(r, k) {
          var j :| 0 <= j < |r| && r[j].0 == k;
        }
        if k != key(x) && Select(front, key, val, k) != [] {
          var j :| 0 <= j < |g| && g[j].0 == k;
          assert r[j].0 == k;
        }
        if k == key(x) && i < |g| {
          assert r[i].0 == k;
        }
        if k == key(x) && i == |g| {
          assert r[|g|].0 == k;
        }
      }
    }
  }

  /** Every element lands in some group, so the group sizes add up to the input length. */
  lemma {:induction false} GroupSizes<T, K, V>(xs: seq<T>, key: T -> K, val: T -> V)
    ensures SumSizes(Group(xs, key, val)) == |xs|
    decreases |xs|
  {
    if xs != [] {
      var front := xs[..|xs| - 1];
      var x := xs[|xs| - 1];
      GroupSizes(front, key, val);
      var g := Group(front, key, val);
      var i := Find(g, key(x));
      if i < |g| {
        SumSizesUpdate(g, i, (key(x), g[i].1 + [val(x)]));
      } else {
        assert (g + [(key(x), [val(x)])])[..|g|] == g;
      }
    }
  }

  /** One more element is pushed into the groups of the elements before it. */
  lemma {:induction false} GroupSnoc<T, K, V>(xs: seq<T>, x: T, key: T -> K, val: T -> V)
    ensures Group(xs + [x], key, val) == Push(Group(xs, key, val), key(x), val(x))
  {
    assert (xs + [x])[..|xs|] == xs;
  }

  /** A loop that pushes every element into its group, in input order. */
  method GroupInto<T, K(==), V>(xs: seq<T>, key: T -> K, val: T -> V) returns (g: seq<(K, seq<V>)>)
    ensures g == Group(xs, key, val)
  {
    g := [];
    for n := 0 to |xs|
      invariant g == Group(xs[..n], key, val)
    {
      assert xs[..n + 1][..n] == xs[..n];
      g := Push(g, key(xs[n]), val(xs[n]));
    }
    assert xs[..|xs|] == xs;
  }

  // ---------------------------------------------------------------------------
  // Counting: `m.set(k, (m.get(k) || 0) + 1)`

  function Bump<K(==)>(t: seq<(K, nat)>, k: K): (r: seq<(K, nat)>)
    ensures |r| == |t| || |r| == |t| + 1
  {
    var i := Find(t, k);
    if i < |t| then t[i := (k, t[i].1 + 1)] else t + [(k, 1)]
  }

  /** The counts after bumping every key of `ks` in order. */
  function Tally<K(==)>(ks: seq<K>): seq<(K, nat)>
    decreases |ks|
  {
    if ks == [] then [] else Bump(Tally(ks[..|ks| - 1]), ks[|ks| - 1])
  }

  function SumCounts<K>(t: seq<(K, nat)>): nat {
    if t == [] then 0 else SumCounts(t[..|t| - 1]) + t[|t| - 1].1
  }

  lemma {:induction false} SumCountsUpdate<K>(t: seq<(K, nat)>, i: nat, p: (K, nat))
    requires i < |t|
    ensures SumCounts(t[i := p]) == SumCounts(t) - t[i].1 + p.1
    decreases |t|
  {
    if i < |t| - 1 {
      assert t[i := p][..|t| - 1] == t[..|t| - 1][i := p];
      SumCountsUpdate(t[..|t| - 1], i, p);
    } else {
      assert t[i := p][..|t| - 1] == t[..|t| - 1];
    }
  }

  /** Counted keys are distinct, and a key is counted iff it occurs. */
  lemma {:induction false} TallyKeys<K>(ks: seq<K>)
    ensures DistinctKeys(Tally(ks))
    ensures forall k :: HasKey(Tally(ks), k) <==> k in ks
    decreases |ks|
  {
    if ks != [] {
      var front := ks[..|ks| - 1];
      var k := ks[|ks| - 1];
      assert ks == front + [k];
      TallyKeys(front);
      var t := Tally(front);
      var r := Tally(ks);
      var i := Find(t, k);
      forall q ensures HasKey(r, q) <==> q in ks {
        if HasKey(r, q) {
          var j :| 0 <= j < |r| && r[j].0 == q;
          if j < |t| && t[j].0 != k {
            assert HasKey(t, q);
          }
        }
        if q in front {
          var j :| 0 <= j < |t| && t[j].0 == q;
          assert r[j].0 == q;
        }
        if q == k && i < |t| {
          assert r[i].0 == q;
        }
        if q == k && i == |t| {
          assert r[|t|].0 == q;
        }
      }
    }
  }

  /** Each count is the number of occurrences of its key, so it is at least 1. */
  lemma {:induction false} TallyMultiplicity<K>(ks: seq<K>)
    ensures forall i :: 0 <= i < |Tally(ks)| ==> Tally(ks)[i].1 == multiset(ks)[Tally(ks)[i].0] >= 1
    decreases |ks|
  {
    if ks != [] {
      var front := ks[..|ks| - 1];
      var k := ks[|ks| - 1];
      assert ks == front + [k];
      TallyMultiplicity(front);
      TallyKeys(front);
      var t := Tally(front);
      var r := Tally(ks);
      var i := Find(t, k);
      if i == |t| {
        assert !HasKey(t, k);
        assert k !in front;
      }
      forall j | 0 <= j < |r| ensures r[j].1 == multiset(ks)[r[j].0] >= 1 {
        if j < |t| && t[j].0 != k {
          assert r[j] == t[j];
        }
      }
    }
  }

  /** The counts add up to the number of keys counted. */
  lemma {:induction false} TallySum<K>(ks: seq<K>)
    ensures SumCounts(Tally(ks)) == |ks|
    decreases |ks|
  {
    if ks != [] {
      var front := ks[..|ks| - 1];
      var k := ks[|ks| - 1];
      TallySum(front);
      var t := Tally(front);
      var i := Find(t, k);
      if i < |t| {
        SumCountsUpdate(t, i, (k, t[i].1 + 1));
      } else {
        assert (t + [(k, 1)])[..|t|] == t;
      }
    }
  }

  /** Reordering the entries does not change the total count. */
  lemma {:induction false} SumCountsPermutation<K>(s: seq<(K, nat)>, t: seq<(K, nat)>)
    requires multiset(s) == multiset(t)
    ensures SumCounts(s) == SumCounts(t)
    decreases |s|
  {
    if s != [] {
      var p := s[|s| - 1];
      assert p in multiset(t);
      var j :| 0 <= j < |t| && t[j] == p;
      var t' := t[..j] + t[j + 1..];
      assert t == t' [..j] + [p] + t'[j..] by {
        assert t'[..j] == t[..j] && t'[j..] == t[j + 1..];
      }
      assert s == s[..|s| - 1] + [p];
      assert multiset(s[..|s| - 1]) == multiset(s) - multiset{p};
      assert multiset(t') == multiset(t) - multiset{p} by {
        assert t' == t'[..j] + t'[j..];
        assert multiset(t) == multiset(t'[..j]) + multiset{p} + multiset(t'[j..]);
      }
      SumCountsPermutation(s[..|s| - 1], t');
      SumCountsInsert(t', j, p);
    } else {
      assert t == [];
    }
  }

  lemma {:induction false} SumCountsInsert<K>(t: seq<(K, nat)>, j: nat, p: (K, nat))
    requires j <= |t|
    ensures SumCounts(t[..j] + [p] + t[j..]) == SumCounts(t) + p.1
    decreases |t|
  {
    if j < |t| {
      var u := t[..j] + [p] + t[j..];
      assert u[..|u| - 1] == t[..|t| - 1][..j] + [p] + t[..|t| - 1][j..];
      assert u[|u| - 1] == t[|t| - 1];
      SumCountsInsert(t[..|t| - 1], j, p);
    } else {
      assert t[..j] + [p] + t[j..] == t + [p];
      assert (t + [p])[..|t|] == t;
    }
  }

  /** A loop that bumps the count of every key, in input order. */
  method TallyInto<K(==)>(ks: seq<K>) returns (t: seq<(K, nat)>)
    ensures t == Tally(ks)
  {
    t := [];
    for n := 0 to |ks|
      invariant t == Tally(ks[..n])
    {
      assert ks[..n + 1][..n] == ks[..n];
      t := Bump(t, ks[n]);
    }
    assert ks[..|ks|] == ks;
  }

  // ---------------------------------------------------------------------------
  // Counts sorted by key: `[...m.keys()].sort((a, b) => a - b)`

  /** `(a, b) => a - b` on the keys of count entries. */
  function KeyOrder(): ((int, nat), (int, nat)) -> real {
    (a: (int, nat), b: (int, nat)) => (a.0 - b.0) as real
  }

  lemma KeyOrderTotal()
    ensures TotalPreorder(KeyOrder())
  {
  }

  /** The counts of `ks`, in ascending key order. */
  function SortedTally(ks: seq<int>): seq<(int, nat)> {
    Sort(Tally(ks), KeyOrder())
  }

  function SumNat(s: seq<nat>): nat {
    if s == [] then 0 else SumNat(s[..|s| - 1]) + s[|s| - 1]
  }

  /** `entries.map(e => e[1])` */
  function Seconds<K>(t: seq<(K, nat)>): (r: seq<nat>)
    ensures |r| == |t|
    ensures forall i :: 0 <= i < |t| ==> r[i] == t[i].1
  {
    seq(|t|, i requires 0 <= i < |t| => t[i].1)
  }

  lemma {:induction false} SumSeconds<K>(t: seq<(K, nat)>)
    ensures SumNat(Seconds(t)) == SumCounts(t)
    decreases |t|
  {
    if t != [] {
      assert Seconds(t)[..|t| - 1] == Seconds(t[..|t| - 1]);
      SumSeconds(t[..|t| - 1]);
    }
  }

  lemma {:induction false} TwiceInMultiset<T>(t: seq<T>, i: nat, j: nat)
    requires i < j < |t| && t[i] == t[j]
    ensures multiset(t)[t[i]] >= 2
  {
    assert t == t[..i] + [t[i]] + t[i + 1..j] + [t[j]] + t[j + 1..];
  }

  lemma {:induction false} DistinctKeysOnce<K, V>(s: seq<(K, V)>, x: (K, V))
    requires DistinctKeys(s)
    ensures multiset(s)[x] <= 1
    decreases |s|
  {
    if s != [] {
      var front := s[..|s| - 1];
      assert s == front + [s[|s| - 1]];
      DistinctKeysOnce(front, x);
      if s[|s| - 1] == x {
        assert x !in front by {
          forall i | 0 <= i < |front| ensures front[i] != x {
            assert front[i].0 != s[|s| - 1].0;
          }
        }
      }
    }
  }

  /** Reordering entries keeps their keys distinct. */
  lemma {:induction false} PermutationDistinctKeys<K, V>(s: seq<(K, V)>, t: seq<(K, V)>)
    requires DistinctKeys(s) && multiset(s) == multiset(t)
    ensures DistinctKeys(t)
  {
    forall i, j | 0 <= i < j < |t| ensures t[i].0 != t[j].0 {
      assert t[i] in multiset(s) && t[j] in multiset(s);
      var a :| 0 <= a < |s| && s[a] == t[i];
      var b :| 0 <= b < |s| && s[b] == t[j];
      if t[i].0 == t[j].0 {
        assert a == b;
        TwiceInMultiset(t, i, j);
        DistinctKeysOnce(s, t[i]);
        assert false;
      }
    }
  }

  /** The sorted counts have strictly ascending keys. */
  lemma {:induction false} SortedTallyAscending(ks: seq<int>)
    ensures forall i, j :: 0 <= i < j < |SortedTally(ks)| ==> SortedTally(ks)[i].0 < SortedTally(ks)[j].0
  {
    var t := Tally(ks);
    var r := SortedTally(ks);
    TallyKeys(ks);
    KeyOrderTotal();
    SortSorted(t, KeyOrder());
    PermutationDistinctKeys(t, r);
    forall i, j | 0 <= i < j < |r| ensures r[i].0 < r[j].0 {
      assert Le(KeyOrder(), r[i], r[j]);
    }
  }

  /**
   * The sorted counts name every key that occurs and no other, each with its
   * number of occurrences (at least 1), and they add up to the number of keys.
   */
  lemma {:induction false} SortedTallyCounts(ks: seq<int>)
    ensures forall k :: HasKey(SortedTally(ks), k) <==> k in ks
    ensures forall i :: 0 <= i < |SortedTally(ks)| ==>
      SortedTally(ks)[i].1 == multiset(ks)[SortedTally(ks)[i].0] >= 1
    ensures SumCounts(SortedTally(ks)) == |ks|
  {
    var t := Tally(ks);
    var r := SortedTally(ks);
    TallyKeys(ks);
    TallyMultiplicity(ks);
    TallySum(ks);
    SumCountsPermutation(r, t);
    forall i | 0 <= i < |r| ensures r[i].1 == multiset(ks)[r[i].0] >= 1 {
      assert r[i] in multiset(t);
    }
    forall k ensures HasKey(r, k) <==> HasKey(t, k) {
      if HasKey(r, k) {
        var i :| 0 <= i < |r| && r[i].0 == k;
        assert r[i] in multiset(t);
      }
      if HasKey(t, k) {
        var i :| 0 <= i < |t| && t[i].0 == k;
        assert t[i] in multiset(r);
      }
    }
  }
}
