/**
 * `Array.prototype.sort(cmp)`. ECMAScript requires the sort to be stable,
 * and for a consistent comparator the stable sorted permutation is unique;
 * it is written here as an insertion sort. `cmp(a, b) <= 0` lets `a` stay
 * ahead of `b`.
 */
module StableSort {

  predicate Le<T>(cmp: (T, T) -> real, a: T, b: T) {
    cmp(a, b) <= 0.0
  }

  /** `a` and `b` compare equal both ways: the sort keeps them in input order. */
  predicate Tie<T>(cmp: (T, T) -> real, a: T, b: T) {
    Le(cmp, a, b) && Le(cmp, b, a)
  }

  /** A consistent comparator: any two values are ordered one way or the other, transitively. */
  ghost predicate TotalPreorder<T(!new)>(cmp: (T, T) -> real) {
    (forall a, b :: Le(cmp, a, b) || Le(cmp, b, a)) &&
    (forall a, b, c :: Le(cmp, a, b) && Le(cmp, b, c) ==> Le(cmp, a, c))
  }

  predicate Sorted<T>(s: seq<T>, cmp: (T, T) -> real) {
    forall i, j :: 0 <= i < j < |s| ==> Le(cmp, s[i], s[j])
  }

  /** Puts `x` ahead of the first element it does not exceed. */
  function Insert<T>(x: T, s: seq<T>, cmp: (T, T) -> real): (r: seq<T>)
    ensures multiset(r) == multiset(s) + multiset{x}
  {
    if s == [] || Le(cmp, x, s[0]) then [x] + s
    else
      assert s == [s[0]] + s[1..];
      [s[0]] + Insert(x, s[1..], cmp)
  }

  /** The result of sorting `s` in place with comparator `cmp`. */
  function Sort<T>(s: seq<T>, cmp: (T, T) -> real): (r: seq<T>)
    ensures multiset(r) == multiset(s)
    ensures |r| == |s|
  {
    if s == [] then []
    else
      assert s == [s[0]] + s[1..];
      Insert(s[0], Sort(s[1..], cmp), cmp)
  }

  /** The elements of `s` that tie with `x`, in order. */
  function Tied<T>(s: seq<T>, x: T, cmp: (T, T) -> real): (r: seq<T>)
    ensures |r| <= |s|
  {
    if s == [] then []
    else (if Tie(cmp, s[0], x) then [s[0]] else []) + Tied(s[1..], x, cmp)
  }

  // ---------------------------------------------------------------------------

  lemma {:induction false} InsertSorted<T(!new)>(x: T, s: seq<T>, cmp: (T, T) -> real)
    requires TotalPreorder(cmp) && Sorted(s, cmp)
    ensures Sorted(Insert(x, s, cmp), cmp)
  {
    if s == [] || Le(cmp, x, s[0]) {
      var r := [x] + s;
      forall i, j | 0 <= i < j < |r| ensures Le(cmp, r[i], r[j]) {
        if i == 0 && j > 1 {
          assert Le(cmp, s[0], s[j - 1]);
        }
      }
    } else {
      var t := Insert(x, s[1..], cmp);
      InsertSorted(x, s[1..], cmp);
      var r := [s[0]] + t;
      forall j | 0 <= j < |t| ensures Le(cmp, s[0], t[j]) {
        assert t[j] in multiset(t);
        if t[j] != x {
          assert t[j] in multiset(s[1..]);
          var k :| 0 <= k < |s[1..]| && s[1..][k] == t[j];
          assert s[k + 1] == t[j];
        }
      }
      assert Sorted(r, cmp) by {
        forall i, j | 0 <= i < j < |r| ensures Le(cmp, r[i], r[j]) {
          if i == 0 {
            assert r[j] == t[j - 1];
          } else {
            assert r[i] == t[i - 1] && r[j] == t[j - 1];
          }
        }
      }
    }
  }

  /** With a consistent comparator the result is in comparator order. */
  lemma {:induction false} SortSorted<T(!new)>(s: seq<T>, cmp: (T, T) -> real)
    requires TotalPreorder(cmp)
    ensures Sorted(Sort(s, cmp), cmp)
  {
    if s != [] {
      SortSorted(s[1..], cmp);
      InsertSorted(s[0], Sort(s[1..], cmp), cmp);
    }
  }

  lemma {:induction false} TiedConcat<T>(a: seq<T>, b: seq<T>, x: T, cmp: (T, T) -> real)
    ensures Tied(a + b, x, cmp) == Tied(a, x, cmp) + Tied(b, x, cmp)
  {
    if a != [] {
      assert (a + b)[0] == a[0];
      assert (a + b)[1..] == a[1..] + b;
      TiedConcat(a[1..], b, x, cmp);
    } else {
      assert a + b == b;
    }
  }

  lemma {:induction false} InsertTied<T(!new)>(y: T, t: seq<T>, x: T, cmp: (T, T) -> real)
    requires TotalPreorder(cmp)
    ensures Tied(Insert(y, t, cmp), x, cmp) == (if Tie(cmp, y, x) then [y] else []) + Tied(t, x, cmp)
  {
    if t == [] || Le(cmp, y, t[0]) {
      TiedConcat([y], t, x, cmp);
    } else {
      assert t == [t[0]] + t[1..];
      var rest := Insert(y, t[1..], cmp);
      assert Insert(y, t, cmp) == [t[0]] + rest;
      InsertTied(y, t[1..], x, cmp);
      TiedConcat([t[0]], rest, x, cmp);
      TiedConcat([t[0]], t[1..], x, cmp);
      NotBothTied(cmp, y, t[0], x);
      var head, mine := Tied([t[0]], x, cmp), if Tie(cmp, y, x) then [y] else [];
      assert head == [] || mine == [];
      assert head + (mine + Tied(t[1..], x, cmp)) == mine + (head + Tied(t[1..], x, cmp));
    }
  }

  /** An element that has to pass `z` cannot tie with what `z` ties with. */
  lemma {:induction false} NotBothTied<T(!new)>(cmp: (T, T) -> real, y: T, z: T, x: T)
    requires TotalPreorder(cmp) && !Le(cmp, y, z)
    ensures !(Tie(cmp, y, x) && Tie(cmp, z, x))
  {
    assert Le(cmp, y, x) && Le(cmp, x, z) ==> Le(cmp, y, z);
  }

  /** Stability: elements that tie keep their input order. */
  lemma {:induction false} SortStable<T(!new)>(s: seq<T>, x: T, cmp: (T, T) -> real)
    requires TotalPreorder(cmp)
    ensures Tied(Sort(s, cmp), x, cmp) == Tied(s, x, cmp)
  {
    if s != [] {
      SortStable(s[1..], x, cmp);
      InsertTied(s[0], Sort(s[1..], cmp), x, cmp);
    }
  }
}
