/**
 * The global helper functions of helpers.php that the framework itself
 * relies on: dotted-key lookup into nested arrays and objects, key
 * filtering, the blank/filled predicates and the two string searches.
 */
module Helpers {
  import opened Php

  // ---------------------------------------------------------------------
  // Dotted-key lookup

  /** Where a path of keys leads inside nested arrays, if it exists: every
      step must be an array that has the next key. */
  function Reach(v: Value, segs: seq<string>): Option<Value>
    decreases |segs|
  {
    if segs == [] then Some(v)
    else if v.Arr? && segs[0] in v.entries then Reach(v.entries[segs[0]], segs[1..])
    else None
  }

  /** The segment loop of `array_get`: the cursor moves one key at a time and
      the default is returned at the first step that is not an array or lacks
      the key. */
  function Walk(v: Value, segs: seq<string>, default: Value): (r: Value)
    ensures Reach(v, segs).Some? ==> r == Reach(v, segs).value
    ensures Reach(v, segs).None? ==> r == default
    decreases |segs|
  {
    if segs == [] then v
    else if !v.Arr? || segs[0] !in v.entries then default
    else Walk(v.entries[segs[0]], segs[1..], default)
  }

  /** Following a path in two pieces is following the first piece and then
      the second from where it led. */
  lemma {:induction false} ReachAppend(v: Value, p: seq<string>, q: seq<string>)
    ensures Reach(v, p + q) == if Reach(v, p).Some? then Reach(Reach(v, p).value, q) else None
    decreases |p|
  {
    if p == [] {
      assert p + q == q;
    } else {
      assert (p + q)[0] == p[0] && (p + q)[1..] == p[1..] + q;
      if v.Arr? && p[0] in v.entries {
        ReachAppend(v.entries[p[0]], p[1..], q);
      }
    }
  }

  /** `array_get($array, $key, $default)`: a non-null entry under the whole
      dotted key wins; otherwise the key is split on dots and walked. */
  function ArrayGet(a: map<string, Value>, key: string, default: Value): (r: Value)
    ensures key in a && a[key] != Null ==> r == a[key]
    ensures !(key in a && a[key] != Null) ==>
      r == (if Reach(Arr(a), Explode(key, '.')).Some? then Reach(Arr(a), Explode(key, '.')).value else default)
  {
    if key in a && a[key] != Null then a[key]
    else Walk(Arr(a), Explode(key, '.'), default)
  }

  /** A dotted key made of dot-free segments looks those segments up in turn,
      unless a literal entry under the whole key shadows it. A path that
      exists but ends in null gives null, not the default. */
  lemma ArrayGetPath(a: map<string, Value>, segs: seq<string>, default: Value)
    requires |segs| >= 1
    requires forall i :: 0 <= i < |segs| ==> '.' !in segs[i]
    requires var key := Implode(segs, '.'); !(key in a && a[key] != Null)
    ensures Reach(Arr(a), segs).Some? ==> ArrayGet(a, Implode(segs, '.'), default) == Reach(Arr(a), segs).value
    ensures Reach(Arr(a), segs).None? ==> ArrayGet(a, Implode(segs, '.'), default) == default
  {
    ExplodeImplode(segs, '.');
  }

  /** Where a path of property names leads through nested objects, if it
      exists: every step must be an object whose property is set (present
      and not null). */
  function PropReach(v: Value, segs: seq<string>): Option<Value>
    decreases |segs|
  {
    if segs == [] then Some(v)
    else if v.Obj? && segs[0] in v.props && v.props[segs[0]] != Null then PropReach(v.props[segs[0]], segs[1..])
    else None
  }

  /** Following a property path in two pieces is following the first piece
      and then the second from where it led. */
  lemma {:induction false} PropReachAppend(v: Value, p: seq<string>, q: seq<string>)
    ensures PropReach(v, p + q) == if PropReach(v, p).Some? then PropReach(PropReach(v, p).value, q) else None
    decreases |p|
  {
    if p == [] {
      assert p + q == q;
    } else {
      assert (p + q)[0] == p[0] && (p + q)[1..] == p[1..] + q;
      if v.Obj? && p[0] in v.props && v.props[p[0]] != Null {
        PropReachAppend(v.props[p[0]], p[1..], q);
      }
    }
  }

  /** The property walk of `data_get` on objects: the end of the path when
      every step finds a set property, the default otherwise. */
  function PropWalk(v: Value, segs: seq<string>, default: Value): (r: Value)
    ensures PropReach(v, segs).Some? ==> r == PropReach(v, segs).value
    ensures PropReach(v, segs).None? ==> r == default
    decreases |segs|
  {
    if segs == [] then v
    else if !v.Obj? || segs[0] !in v.props || v.props[segs[0]] == Null then default
    else PropWalk(v.props[segs[0]], segs[1..], default)
  }

  /** `data_get($target, $key, $default)`. */
  function DataGet(target: Value, key: string, default: Value): (r: Value)
    ensures target.Arr? ==> r == ArrayGet(target.entries, key, default)
    ensures target.Obj? ==> var path := PropReach(target, Explode(key, '.'));
      r == if path.Some? then path.value else default
    ensures !target.Arr? && !target.Obj? ==> r == default
  {
    match target
    case Arr(a) => ArrayGet(a, key, default)
    case Obj(_, _, _, _) => PropWalk(target, Explode(key, '.'), default)
    case _ => default
  }

  /** On an object, a property holding null stops the walk with the default,
      unlike an array entry holding null. */
  lemma DataGetNullProperty(o: Value, name: string, default: Value)
    requires o.Obj? && '.' !in name && name in o.props && o.props[name] == Null
    ensures DataGet(o, name, default) == default
  {
    ExplodeImplode([name], '.');
    assert Implode([name], '.') == name;
  }

  // ---------------------------------------------------------------------
  // Key filtering

  /** `array_only($array, $keys)`: the entries whose key is listed. */
  function ArrayOnly(a: map<string, Value>, keys: seq<string>): (r: map<string, Value>)
    ensures forall k :: k in r <==> k in a && k in keys
    ensures forall k :: k in r ==> r[k] == a[k]
  {
    map k | k in a && k in keys :: a[k]
  }

  /** `array_except($array, $keys)`: the entries whose key is not listed. */
  function ArrayExcept(a: map<string, Value>, keys: seq<string>): (r: map<string, Value>)
    ensures forall k :: k in r <==> k in a && k !in keys
    ensures forall k :: k in r ==> r[k] == a[k]
  {
    map k | k in a && k !in keys :: a[k]
  }

  /** The two filters split an array into two disjoint parts that together
      give it back. */
  lemma OnlyExceptPartition(a: map<string, Value>, keys: seq<string>)
    ensures ArrayOnly(a, keys).Keys !! ArrayExcept(a, keys).Keys
    ensures ArrayOnly(a, keys) + ArrayExcept(a, keys) == a
  {
    var u := ArrayOnly(a, keys) + ArrayExcept(a, keys);
    assert u.Keys == a.Keys;
  }

  // ---------------------------------------------------------------------
  // blank / filled

  /** `blank($value)`. */
  function Blank(v: Value): (r: bool)
    ensures v == Null ==> r
    ensures v.Int? || v.Bool? ==> !r
    ensures v.Arr? ==> (r <==> |v.entries| == 0)
    ensures v.Obj? ==> (r <==> v.count == Some(0))
  {
    match v
    case Null => true
    case Str(s) => Trim(s) == ""
    case Int(_) => false
    case Bool(_) => false
    case Obj(_, _, _, count) => count.Some? && count.value == 0
    case Arr(m) => |m| == 0
  }

  /** `filled($value)`. */
  function Filled(v: Value): (r: bool)
    ensures r <==> !Blank(v)
  {
    !Blank(v)
  }

  /** A string is blank exactly when it is made only of the characters
      `trim` strips. */
  lemma BlankString(s: string)
    ensures Blank(Str(s)) <==> forall i :: 0 <= i < |s| ==> IsTrimmed(s[i])
  {
    TrimEmptyIff(s);
  }

  // ---------------------------------------------------------------------
  // String search

  predicate OccursAt(h: string, n: string, i: nat) {
    i + |n| <= |h| && h[i..i + |n|] == n
  }

  /** `strpos($h, $n, $from)`: the first position at or after `from` where
      `n` occurs. */
  function IndexFrom(h: string, n: string, from: nat): (r: Option<nat>)
    requires from <= |h|
    ensures r.Some? ==> from <= r.value && OccursAt(h, n, r.value)
    ensures r.Some? ==> forall j :: from <= j < r.value ==> !OccursAt(h, n, j)
    ensures r.None? ==> forall j :: from <= j ==> !OccursAt(h, n, j)
    decreases |h| - from
  {
    if from + |n| > |h| then None
    else if h[from..from + |n|] == n then Some(from)
    else IndexFrom(h, n, from + 1)
  }

  /** `str_contains($haystack, $needle)`: `strpos` finds it somewhere. */
  function StrContains(h: string, n: string): (r: bool)
    ensures r <==> exists i :: OccursAt(h, n, i)
  {
    IndexFrom(h, n, 0).Some?
  }

  /** `str_starts_with($haystack, $needle)`: `strpos` finds it at 0. */
  function StrStartsWith(h: string, n: string): (r: bool)
    ensures r <==> n <= h
  {
    assert OccursAt(h, n, 0) <==> n <= h;
    IndexFrom(h, n, 0) == Some(0)
  }
}
