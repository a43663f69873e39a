/**
 * Config.php: the configuration repository, one array of items read with
 * dotted keys through `data_get` and written with dotted keys by a loop
 * that walks (and creates) nested arrays.
 */
module Configs {
  import opened Php
  import opened Helpers

  /** What `set` makes of the items: the value stored at the end of the
      path, every intermediate that is missing, null or not an array
      replaced by an empty array first. */
  function SetPath(m: map<string, Value>, segs: seq<string>, v: Value): (r: map<string, Value>)
    requires |segs| >= 1
    ensures r.Keys == m.Keys + {segs[0]}
    ensures forall k :: k in m && k != segs[0] ==> r[k] == m[k]
    ensures |segs| == 1 ==> r[segs[0]] == v
    ensures |segs| > 1 ==> r[segs[0]].Arr?
    decreases |segs|
  {
    if |segs| == 1 then m[segs[0] := v]
    else m[segs[0] := Arr(SetPath(Child(m, segs[0]), segs[1..], v))]
  }

  /** The array under `key`, or a new empty one. */
  function Child(m: map<string, Value>, key: string): map<string, Value> {
    if key in m && m[key].Arr? then m[key].entries else map[]
  }

  /** The chain of arrays the reference in `set` has passed through, each
      with the key it went down by, outermost first: `Plug` writes an
      inner array back into that chain. */
  function Plug(frames: seq<(map<string, Value>, string)>, inner: map<string, Value>): map<string, Value>
    decreases |frames|
  {
    if frames == [] then inner
    else
      var last := frames[|frames| - 1];
      Plug(frames[..|frames| - 1], last.0[last.1 := Arr(inner)])
  }

  /** Two key paths that part ways at some position. */
  predicate Diverge(p: seq<string>, q: seq<string>)
    decreases |p|
  {
    |p| > 0 && |q| > 0 && (p[0] != q[0] || Diverge(p[1..], q[1..]))
  }

  class Config {
    var items: map<string, Value>

    constructor()
      ensures items == map[]
    {
      items := map[];
    }

    /** `load($path)`: `loaded` is what requiring the file gave, or None when
        the file does not exist. An array is merged over the items, its
        entries winning; anything else is ignored. */
    method Load(loaded: Option<Value>)
      modifies this
      ensures loaded.Some? && loaded.value.Arr? ==> items == old(items) + loaded.value.entries
      ensures !(loaded.Some? && loaded.value.Arr?) ==> items == old(items)
    {
      if loaded.Some? && loaded.value.Arr? {
        items := items + loaded.value.entries;
      }
    }

    /** `get($key, $default)`. */
    function Get(key: string, default: Value): (r: Value)
      reads this
      ensures r == DataGet(Arr(items), key, default)
    {
      ArrayGet(items, key, default)
    }

    /** `has($key)`: `get` gives something other than null. */
    function Has(key: string): (r: bool)
      reads this
      ensures r <==> Get(key, Null) != Null
    {
      ArrayGet(items, key, Null) != Null
    }

    function All(): (r: map<string, Value>)
      reads this
      ensures r == items
    {
      items
    }

    /** `set($key, $value)`: the loop walks a reference down all but the
        last segment, replacing whatever is not an array there by an empty
        one, and then stores the value under the last segment. */
    method Set(key: string, v: Value)
      modifies this
      ensures items == SetPath(old(items), Explode(key, '.'), v)
    {
      var keys := Explode(key, '.');
      var cur := items;
      var frames: seq<(map<string, Value>, string)> := [];
      while |keys| > 1
        invariant |keys| >= 1
        invariant Plug(frames, SetPath(cur, keys, v)) == SetPath(old(items), Explode(key, '.'), v)
        decreases |keys|
      {
        var k := keys[0];
        frames := frames + [(cur, k)];
        cur := Child(cur, k);
        keys := keys[1..];
      }
      items := Plug(frames, cur[keys[0] := v]);
    }
  }

  /** A key with a dot in it splits into at least two segments, none of
      which is the whole key. */
  lemma DottedKeySplits(key: string)
    requires '.' in key
    ensures |Explode(key, '.')| >= 2
    ensures forall i :: 0 <= i < |Explode(key, '.')| ==> Explode(key, '.')[i] != key
  {
    ImplodeExplode(key, '.');
  }

  /** After `set`, the path leads to the stored value, and every proper
      prefix of it to an array. */
  lemma {:induction false} SetPathReach(m: map<string, Value>, segs: seq<string>, v: Value)
    requires |segs| >= 1
    ensures Reach(Arr(SetPath(m, segs, v)), segs) == Some(v)
    ensures forall i :: 1 <= i < |segs| ==>
      Reach(Arr(SetPath(m, segs, v)), segs[..i]).Some? && Reach(Arr(SetPath(m, segs, v)), segs[..i]).value.Arr?
    decreases |segs|
  {
    if |segs| > 1 {
      var c := Child(m, segs[0]);
      SetPathReach(c, segs[1..], v);
      forall i | 1 <= i < |segs|
        ensures Reach(Arr(SetPath(m, segs, v)), segs[..i]).Some?
             && Reach(Arr(SetPath(m, segs, v)), segs[..i]).value.Arr?
      {
        assert segs[..i][1..] == segs[1..][..i - 1];
      }
    }
  }

  /** `set` leaves alone every path that parts ways with the one it writes,
      when that path led somewhere before. */
  lemma {:induction false} SetPathKeepsOthers(m: map<string, Value>, segs: seq<string>, p: seq<string>, v: Value)
    requires |segs| >= 1 && Diverge(p, segs) && Reach(Arr(m), p).Some?
    ensures Reach(Arr(SetPath(m, segs, v)), p) == Reach(Arr(m), p)
    decreases |segs|
  {
    if p[0] != segs[0] {
    } else {
      assert |segs| > 1 by {
        if |segs| == 1 { assert Diverge(p[1..], segs[1..]); }
      }
      assert m[p[0]].Arr?;
      SetPathKeepsOthers(Child(m, segs[0]), segs[1..], p[1..], v);
    }
  }

  /** `get` after `set` on the same key gives the value stored, unless a
      literal entry under the whole dotted key shadows the path (then it
      gives that entry, which `set` did not touch). */
  lemma SetThenGet(m: map<string, Value>, key: string, v: Value, default: Value)
    ensures var after := SetPath(m, Explode(key, '.'), v);
      ArrayGet(after, key, default) == if '.' in key && key in m && m[key] != Null then m[key] else v
  {
    var segs := Explode(key, '.');
    SetPathReach(m, segs, v);
    if '.' in key {
      DottedKeySplits(key);
    } else {
      ImplodeExplode(key, '.');
      assert segs == [key];
    }
  }

  /** A non-null value just set is always reported by `has`, shadowed or
      not. */
  lemma SetThenHas(m: map<string, Value>, key: string, v: Value)
    requires v != Null
    ensures ArrayGet(SetPath(m, Explode(key, '.'), v), key, Null) != Null
  {
    SetThenGet(m, key, v, Null);
  }

  /** Setting the same key twice keeps only the second value. */
  lemma {:induction false} SetPathTwice(m: map<string, Value>, segs: seq<string>, v: Value, w: Value)
    requires |segs| >= 1
    ensures SetPath(SetPath(m, segs, v), segs, w) == SetPath(m, segs, w)
    decreases |segs|
  {
    if |segs| > 1 {
      SetPathTwice(Child(m, segs[0]), segs[1..], v, w);
    }
  }
}
