/**
 * Field resolution: given a raw row and an ordered list of header synonyms,
 * find the value of one canonical field.
 *
 * Two resolvers exist. `getAny` (app.js, copied verbatim in alone.js) first
 * looks every candidate up under its exact name, then builds a dictionary of
 * normalised header names and looks every normalised candidate up in it.
 * `key` (ai-predict.js) has only the dictionary pass, with record keys
 * trimmed and lower-cased and candidates only lower-cased.
 */
module Resolver {
  import opened JsValues
  import KeyNames

  /** A raw row: its properties in `Object.keys` order. */
  type Record = seq<(string, Value)>

  /** `obj[k]`: the value stored under the property name `k`, `None` when it is undefined. */
  function Get(obj: Record, k: string): Option<Value> {
    if obj == [] then None
    else if obj[0].0 == k then Some(obj[0].1)
    else Get(obj[1..], k)
  }

  /** `obj[k]` is the value of the first header named `k`, and undefined when there is none. */
  lemma {:induction false} GetFromRow(obj: Record, k: string)
    ensures Get(obj, k).Some? ==> exists i :: 0 <= i < |obj| && obj[i] == (k, Get(obj, k).value)
    ensures Get(obj, k).None? ==> forall i :: 0 <= i < |obj| ==> obj[i].0 != k
  {
    if obj != [] && obj[0].0 != k {
      GetFromRow(obj[1..], k);
      if Get(obj, k).Some? {
        var i :| 0 <= i < |obj[1..]| && obj[1..][i] == (k, Get(obj, k).value);
        assert obj[i + 1] == obj[1..][i];
      }
    }
  }

  /**
   * The dictionary `dict[norm(kk)] = obj[kk]` filled in `Object.keys` order:
   * when two headers normalise to the same name, the later one overwrites.
   */
  function Dict(obj: Record, norm: string -> string): map<string, Value>
    decreases |obj|
  {
    if obj == [] then map[]
    else
      var last := obj[|obj| - 1];
      Dict(obj[..|obj| - 1], norm)[norm(last.0) := last.1]
  }

  /** Every dictionary entry comes from some header of the row. */
  lemma {:induction false} DictFromRow(obj: Record, norm: string -> string, k: string)
    requires k in Dict(obj, norm)
    ensures exists i :: 0 <= i < |obj| && norm(obj[i].0) == k && obj[i].1 == Dict(obj, norm)[k]
    decreases |obj|
  {
    var last := obj[|obj| - 1];
    if norm(last.0) != k {
      var prefix := obj[..|obj| - 1];
      DictFromRow(prefix, norm, k);
      var i :| 0 <= i < |prefix| && norm(prefix[i].0) == k && prefix[i].1 == Dict(prefix, norm)[k];
      assert obj[i] == prefix[i];
    }
  }

  /** `dict` as built by a loop over the row. */
  method BuildDict(obj: Record, norm: string -> string) returns (dict: map<string, Value>)
    ensures dict == Dict(obj, norm)
  {
    dict := map[];
    for j := 0 to |obj|
      invariant dict == Dict(obj[..j], norm)
    {
      assert obj[..j + 1][..j] == obj[..j];
      dict := dict[norm(obj[j].0) := obj[j].1];
    }
    assert obj[..|obj|] == obj;
  }

  /** `dict[k]` */
  function DictGet(d: map<string, Value>, k: string): Option<Value> {
    if k in d then Some(d[k]) else None
  }

  /** First pass of `getAny`: the first candidate whose exact property is present. */
  function FirstExact(obj: Record, keys: seq<string>): Option<Value> {
    if keys == [] then None
    else if PresentOpt(Get(obj, keys[0])) then Get(obj, keys[0])
    else FirstExact(obj, keys[1..])
  }

  /** Dictionary pass: the first candidate whose normalised name is present in `d`. */
  function FirstInDict(d: map<string, Value>, keys: seq<string>, norm: string -> string): Option<Value> {
    if keys == [] then None
    else if PresentOpt(DictGet(d, norm(keys[0]))) then DictGet(d, norm(keys[0]))
    else FirstInDict(d, keys[1..], norm)
  }

  /** The value `getAny(obj, keys)` returns; `Null` when no candidate resolves. */
  function Resolve(obj: Record, keys: seq<string>): Value {
    match FirstExact(obj, keys)
    case Some(v) => v
    case None =>
      match FirstInDict(Dict(obj, KeyNames.NormalizeKeyName), keys, KeyNames.NormalizeKeyName)
      case Some(v) => v
      case None => Null
  }

  /** `k.trim().toLowerCase()`, the record-key normaliser of `key`. */
  function TrimLower(k: string): string {
    ToLower(Trim(k))
  }

  /** The value `key(o, names)` returns; `Null` when no candidate resolves. */
  function LooseResolve(obj: Record, names: seq<string>): Value {
    match FirstInDict(Dict(obj, TrimLower), names, ToLower)
    case Some(v) => v
    case None => Null
  }

  // ---------------------------------------------------------------------------
  // The two passes, one candidate at a time

  lemma {:induction false} FirstExactAt(obj: Record, keys: seq<string>, i: nat)
    requires i < |keys| && PresentOpt(Get(obj, keys[i]))
    requires forall j :: 0 <= j < i ==> !PresentOpt(Get(obj, keys[j]))
    ensures FirstExact(obj, keys) == Get(obj, keys[i])
  {
    if i > 0 {
      FirstExactAt(obj, keys[1..], i - 1);
    }
  }

  lemma {:induction false} FirstExactNone(obj: Record, keys: seq<string>)
    requires forall j :: 0 <= j < |keys| ==> !PresentOpt(Get(obj, keys[j]))
    ensures FirstExact(obj, keys) == None
  {
    if keys != [] {
      FirstExactNone(obj, keys[1..]);
    }
  }

  lemma {:induction false} FirstExactFound(obj: Record, keys: seq<string>)
    requires FirstExact(obj, keys).Some?
    ensures exists i :: 0 <= i < |keys| && PresentOpt(Get(obj, keys[i]))
  {
    if !PresentOpt(Get(obj, keys[0])) {
      FirstExactFound(obj, keys[1..]);
      var i :| 0 <= i < |keys[1..]| && PresentOpt(Get(obj, keys[1..][i]));
      assert keys[1..][i] == keys[i + 1];
    }
  }

  lemma {:induction false} FirstInDictAt(d: map<string, Value>, keys: seq<string>, norm: string -> string, i: nat)
    requires i < |keys| && PresentOpt(DictGet(d, norm(keys[i])))
    requires forall j :: 0 <= j < i ==> !PresentOpt(DictGet(d, norm(keys[j])))
    ensures FirstInDict(d, keys, norm) == DictGet(d, norm(keys[i]))
  {
    if i > 0 {
      FirstInDictAt(d, keys[1..], norm, i - 1);
    }
  }

  lemma {:induction false} FirstInDictNone(d: map<string, Value>, keys: seq<string>, norm: string -> string)
    requires forall j :: 0 <= j < |keys| ==> !PresentOpt(DictGet(d, norm(keys[j])))
    ensures FirstInDict(d, keys, norm) == None
  {
    if keys != [] {
      FirstInDictNone(d, keys[1..], norm);
    }
  }

  lemma {:induction false} FirstInDictFound(d: map<string, Value>, keys: seq<string>, norm: string -> string)
    requires FirstInDict(d, keys, norm).Some?
    ensures exists i :: 0 <= i < |keys| && PresentOpt(DictGet(d, norm(keys[i])))
    ensures Present(FirstInDict(d, keys, norm).value)
    ensures FirstInDict(d, keys, norm).value in d.Values
  {
    if !PresentOpt(DictGet(d, norm(keys[0]))) {
      FirstInDictFound(d, keys[1..], norm);
      var i :| 0 <= i < |keys[1..]| && PresentOpt(DictGet(d, norm(keys[1..][i])));
      assert keys[1..][i] == keys[i + 1];
    }
  }

  // ---------------------------------------------------------------------------
  // Properties of the dictionary

  /**
   * The dictionary holds, under a normalised name, the value of the LAST
   * header with that normalised name.
   */
  lemma {:induction false} DictLastWins(obj: Record, norm: string -> string, i: nat)
    requires i < |obj|
    requires forall j :: i < j < |obj| ==> norm(obj[j].0) != norm(obj[i].0)
    ensures DictGet(Dict(obj, norm), norm(obj[i].0)) == Some(obj[i].1)
    decreases |obj|
  {
    if i < |obj| - 1 {
      var prefix := obj[..|obj| - 1];
      assert prefix[i] == obj[i];
      forall j | i < j < |prefix| ensures norm(prefix[j].0) != norm(prefix[i].0) {
        assert prefix[j] == obj[j];
      }
      DictLastWins(prefix, norm, i);
    }
  }

  /**
   * A later header whose value is empty hides an earlier header with the same
   * normalised name: the dictionary pass cannot see the earlier value.
   */
  lemma {:induction false} CollisionHidesEarlier(obj: Record, norm: string -> string, p: nat, q: nat)
    requires p < q < |obj|
    requires norm(obj[p].0) == norm(obj[q].0)
    requires forall j :: q < j < |obj| ==> norm(obj[j].0) != norm(obj[q].0)
    ensures DictGet(Dict(obj, norm), norm(obj[p].0)) == Some(obj[q].1)
    ensures !Present(obj[q].1) ==> !PresentOpt(DictGet(Dict(obj, norm), norm(obj[p].0)))
  {
    DictLastWins(obj, norm, q);
  }

  // ---------------------------------------------------------------------------
  // getAny

  /**
   * An exact property match wins over every normalised match, and among exact
   * matches the earliest candidate wins.
   */
  lemma {:induction false} ResolveExactFirst(obj: Record, keys: seq<string>, i: nat)
    requires i < |keys| && PresentOpt(Get(obj, keys[i]))
    requires forall j :: 0 <= j < i ==> !PresentOpt(Get(obj, keys[j]))
    ensures Resolve(obj, keys) == Get(obj, keys[i]).value
  {
    FirstExactAt(obj, keys, i);
  }

  /**
   * With no exact match, the earliest candidate whose normalised name holds a
   * present value in the dictionary wins.
   */
  lemma {:induction false} ResolveNormalizedFirst(obj: Record, keys: seq<string>, i: nat)
    requires forall j :: 0 <= j < |keys| ==> !PresentOpt(Get(obj, keys[j]))
    requires i < |keys|
    requires PresentOpt(DictGet(Dict(obj, KeyNames.NormalizeKeyName), KeyNames.NormalizeKeyName(keys[i])))
    requires forall j :: 0 <= j < i ==>
      !PresentOpt(DictGet(Dict(obj, KeyNames.NormalizeKeyName), KeyNames.NormalizeKeyName(keys[j])))
    ensures Resolve(obj, keys) == Dict(obj, KeyNames.NormalizeKeyName)[KeyNames.NormalizeKeyName(keys[i])]
  {
    FirstExactNone(obj, keys);
    FirstInDictAt(Dict(obj, KeyNames.NormalizeKeyName), keys, KeyNames.NormalizeKeyName, i);
  }

  /** An object without properties resolves every candidate list to `null`. */
  lemma {:induction false} ResolveEmpty(keys: seq<string>)
    ensures Resolve([], keys) == Null
  {
    ResolveNullIff([], keys);
    assert Dict([], KeyNames.NormalizeKeyName) == map[];
  }

  /** `getAny` returns `null` exactly when neither pass finds a present value. */
  lemma {:induction false} ResolveNullIff(obj: Record, keys: seq<string>)
    ensures Resolve(obj, keys) == Null <==>
      (forall j :: 0 <= j < |keys| ==> !PresentOpt(Get(obj, keys[j]))) &&
      (forall j :: 0 <= j < |keys| ==>
        !PresentOpt(DictGet(Dict(obj, KeyNames.NormalizeKeyName), KeyNames.NormalizeKeyName(keys[j]))))
  {
    var d := Dict(obj, KeyNames.NormalizeKeyName);
    var noExact := forall j :: 0 <= j < |keys| ==> !PresentOpt(Get(obj, keys[j]));
    var noDict := forall j :: 0 <= j < |keys| ==> !PresentOpt(DictGet(d, KeyNames.NormalizeKeyName(keys[j])));
    if FirstExact(obj, keys).Some? {
      FirstExactFound(obj, keys);
      FirstExactPresent(obj, keys);
    } else if FirstInDict(d, keys, KeyNames.NormalizeKeyName).Some? {
      FirstInDictFound(d, keys, KeyNames.NormalizeKeyName);
      if noExact {
      } else {
        var j :| 0 <= j < |keys| && PresentOpt(Get(obj, keys[j]));
        FirstExactAt(obj, keys, FirstPresentIndex(obj, keys, j));
      }
    } else {
      if !noExact {
        var j :| 0 <= j < |keys| && PresentOpt(Get(obj, keys[j]));
        FirstExactAt(obj, keys, FirstPresentIndex(obj, keys, j));
      } else if !noDict {
        var j :| 0 <= j < |keys| && PresentOpt(DictGet(d, KeyNames.NormalizeKeyName(keys[j])));
        var k := FirstDictIndex(d, keys, KeyNames.NormalizeKeyName, j);
        FirstInDictAt(d, keys, KeyNames.NormalizeKeyName, k);
      }
    }
  }

  lemma {:induction false} FirstExactPresent(obj: Record, keys: seq<string>)
    requires FirstExact(obj, keys).Some?
    ensures Present(FirstExact(obj, keys).value)
    ensures exists i :: 0 <= i < |obj| && obj[i].1 == FirstExact(obj, keys).value
  {
    if !PresentOpt(Get(obj, keys[0])) {
      FirstExactPresent(obj, keys[1..]);
    } else {
      GetFromRow(obj, keys[0]);
    }
  }

  /** The least index at or below `j` whose exact property is present. */
  function FirstPresentIndex(obj: Record, keys: seq<string>, j: nat): (k: nat)
    requires j < |keys| && PresentOpt(Get(obj, keys[j]))
    ensures k <= j && PresentOpt(Get(obj, keys[k]))
    ensures forall m :: 0 <= m < k ==> !PresentOpt(Get(obj, keys[m]))
  {
    if j == 0 then 0
    else if exists m :: 0 <= m < j && PresentOpt(Get(obj, keys[m])) then
      var m :| 0 <= m < j && PresentOpt(Get(obj, keys[m]));
      FirstPresentIndex(obj, keys, m)
    else j
  }

  /** The least index at or below `j` whose normalised name is present in `d`. */
  function FirstDictIndex(d: map<string, Value>, keys: seq<string>, norm: string -> string, j: nat): (k: nat)
    requires j < |keys| && PresentOpt(DictGet(d, norm(keys[j])))
    ensures k <= j && PresentOpt(DictGet(d, norm(keys[k])))
    ensures forall m :: 0 <= m < k ==> !PresentOpt(DictGet(d, norm(keys[m])))
  {
    if j == 0 then 0
    else if exists m :: 0 <= m < j && PresentOpt(DictGet(d, norm(keys[m]))) then
      var m :| 0 <= m < j && PresentOpt(DictGet(d, norm(keys[m])));
      FirstDictIndex(d, keys, norm, m)
    else j
  }

  /** Whatever `getAny` returns is `null` or a present value stored under some header of the row. */
  lemma {:induction false} ResolveStored(obj: Record, keys: seq<string>)
    ensures Resolve(obj, keys) == Null ||
      (Present(Resolve(obj, keys)) && exists i :: 0 <= i < |obj| && obj[i].1 == Resolve(obj, keys))
  {
    if FirstExact(obj, keys).Some? {
      FirstExactPresent(obj, keys);
    } else {
      var d := Dict(obj, KeyNames.NormalizeKeyName);
      if FirstInDict(d, keys, KeyNames.NormalizeKeyName).Some? {
        FirstInDictFound(d, keys, KeyNames.NormalizeKeyName);
        var v := FirstInDict(d, keys, KeyNames.NormalizeKeyName).value;
        var k :| k in d && d[k] == v;
        DictFromRow(obj, KeyNames.NormalizeKeyName, k);
      }
    }
  }

  /** The candidate loop over a dictionary: the first candidate whose normalised name holds a present value. */
  method ScanDict(dict: map<string, Value>, keys: seq<string>, norm: string -> string) returns (r: Option<Value>)
    ensures r == FirstInDict(dict, keys, norm)
  {
    for i := 0 to |keys|
      invariant forall j :: 0 <= j < i ==> !PresentOpt(DictGet(dict, norm(keys[j])))
    {
      var nk := norm(keys[i]);
      if nk in dict && dict[nk] != Null && dict[nk] != Str("") {
        FirstInDictAt(dict, keys, norm, i);
        return Some(dict[nk]);
      }
    }
    FirstInDictNone(dict, keys, norm);
    return None;
  }

  /** The exact pass: the first candidate whose own property is present. */
  method ScanExact(obj: Record, keys: seq<string>) returns (r: Option<Value>)
    ensures r == FirstExact(obj, keys)
  {
    for i := 0 to |keys|
      invariant forall j :: 0 <= j < i ==> !PresentOpt(Get(obj, keys[j]))
    {
      var v := Get(obj, keys[i]);
      if v.Some? && v.value != Null && v.value != Str("") {
        FirstExactAt(obj, keys, i);
        return v;
      }
    }
    FirstExactNone(obj, keys);
    return None;
  }

  /** `getAny` (app.js and alone.js): the exact pass, the dictionary built in a loop, the normalised pass. */
  method GetAny(obj: Record, keys: seq<string>) returns (r: Value)
    ensures r == Resolve(obj, keys)
  {
    var exact := ScanExact(obj, keys);
    if exact.Some? {
      return exact.value;
    }
    var dict := BuildDict(obj, KeyNames.NormalizeKeyName);
    var found := ScanDict(dict, keys, KeyNames.NormalizeKeyName);
    r := if found.Some? then found.value else Null;
  }

  // ---------------------------------------------------------------------------
  // key (ai-predict.js)

  /** The earliest candidate whose lower-cased name holds a present value wins. */
  lemma {:induction false} LooseResolveFirst(obj: Record, names: seq<string>, i: nat)
    requires i < |names| && PresentOpt(DictGet(Dict(obj, TrimLower), ToLower(names[i])))
    requires forall j :: 0 <= j < i ==> !PresentOpt(DictGet(Dict(obj, TrimLower), ToLower(names[j])))
    ensures LooseResolve(obj, names) == Dict(obj, TrimLower)[ToLower(names[i])]
  {
    FirstInDictAt(Dict(obj, TrimLower), names, ToLower, i);
  }

  /** `key` returns `null` exactly when no lower-cased candidate holds a present value. */
  lemma {:induction false} LooseResolveNullIff(obj: Record, names: seq<string>)
    ensures LooseResolve(obj, names) == Null <==>
      forall j :: 0 <= j < |names| ==> !PresentOpt(DictGet(Dict(obj, TrimLower), ToLower(names[j])))
  {
    var d := Dict(obj, TrimLower);
    if FirstInDict(d, names, ToLower).Some? {
      FirstInDictFound(d, names, ToLower);
    } else if exists j :: 0 <= j < |names| && PresentOpt(DictGet(d, ToLower(names[j]))) {
      var j :| 0 <= j < |names| && PresentOpt(DictGet(d, ToLower(names[j])));
      FirstInDictAt(d, names, ToLower, FirstDictIndex(d, names, ToLower, j));
    }
  }

  /** `key`: fill `map` from the trimmed, lower-cased record keys, then scan the candidates. */
  method Key(obj: Record, names: seq<string>) returns (r: Value)
    ensures r == LooseResolve(obj, names)
  {
    var dict := BuildDict(obj, TrimLower);
    var found := ScanDict(dict, names, ToLower);
    r := if found.Some? then found.value else Null;
  }
}
