/**
 * The PHP runtime notions that every other module relies on: the `mixed`
 * value, throwables, the result of a call that may throw, the JSON body of a
 * response, and the handful of string built-ins (`explode`, `implode`,
 * `strtolower`, `trim`, `str_replace`) with the facts about them the rest of
 * the model uses.
 */
module Php {

  datatype Option<+T> = None | Some(value: T)

  /** A PHP value of type `mixed`. Arrays are modelled as maps with string
      keys; objects carry their class, an identity, their public properties
      and, when they implement Countable, their count. */
  datatype Value =
    | Null
    | Bool(b: bool)
    | Int(i: int)
    | Str(s: string)
    | Arr(entries: map<string, Value>)
    | Obj(cls: string, id: nat, props: map<string, Value>, count: Option<nat>)

  /** A thrown object: its class, the classes and interfaces it is an
      instance of, and what `getMessage`, `getStatusCode` (when the class has
      one), `getFile`, `getLine` and `getTraceAsString` answer. */
  datatype Throwable = Throwable(
    cls: string,
    ancestors: set<string>,
    message: string,
    statusCode: Option<int>,
    file: string,
    line: int,
    trace: string)
  {
    /** `$e instanceof $c`: class names are compared the way PHP looks them
        up, ignoring ASCII case and one leading backslash. */
    predicate InstanceOf(c: string) {
      SameClass(c, cls) || exists a :: a in ancestors && SameClass(a, c)
    }
  }

  /** The class name PHP looks up: one leading backslash dropped. */
  function Unqualified(name: string): string {
    if name != [] && name[0] == '\\' then name[1..] else name
  }

  /** Two class names denote the same class: once unqualified, they are equal
      up to ASCII letter case. */
  predicate SameClass(a: string, b: string) {
    SameLetters(Unqualified(a), Unqualified(b))
  }

  /** Equal up to ASCII letter case, character by character. */
  predicate SameLetters(x: string, y: string)
    decreases |x|
  {
    |x| == |y| && (x == [] || (ToLowerChar(x[0]) == ToLowerChar(y[0]) && SameLetters(x[1..], y[1..])))
  }

  /** Lower-casing one side never changes whether two names match. */
  lemma {:induction false} SameLettersLower(x: string, y: string)
    ensures SameLetters(Lower(x), y) == SameLetters(x, y)
    ensures SameLetters(y, Lower(x)) == SameLetters(y, x)
    decreases |x|
  {
    if x != [] && |y| == |x| {
      SameLettersLower(x[1..], y[1..]);
      assert Lower(x)[1..] == Lower(x[1..]);
    }
  }

  /** Every name matches itself. */
  lemma {:induction false} SameLettersRefl(x: string)
    ensures SameLetters(x, x)
    decreases |x|
  {
    if x != [] {
      SameLettersRefl(x[1..]);
    }
  }

  /** `instanceof` does not depend on how the class name is spelled: in any
      letter case, with or without a leading backslash, and an object is an
      instance of its own class. */
  lemma InstanceOfSpelling(e: Throwable, c: string)
    requires c == [] || c[0] != '\\'
    ensures e.InstanceOf(Lower(c)) == e.InstanceOf(c)
    ensures e.InstanceOf("\\" + c) == e.InstanceOf(c)
    ensures e.InstanceOf(e.cls)
  {
    assert Unqualified(Lower(c)) == Lower(c);
    assert Unqualified("\\" + c) == c;
    forall x ensures SameClass(Lower(c), x) == SameClass(c, x) && SameClass(x, Lower(c)) == SameClass(x, c) {
      SameLettersLower(c, Unqualified(x));
    }
    SameLettersRefl(Unqualified(e.cls));
  }

  /** The outcome of a PHP call: it returned a value or it threw. */
  datatype Outcome<+T> = Done(value: T) | Thrown(error: Throwable)

  /** What `new $name()` does, for each name `class_exists` accepts: the
      class of the new object when its constructor returns, or what the
      constructor throws (an `ArgumentCountError` when it needs arguments).
      A name missing from the table names no class. */
  type ClassTable = map<string, Outcome<string>>

  /** `new \ArgumentCountError($message)` */
  function NewArgumentCountError(message: string): (e: Throwable)
    ensures e.InstanceOf("Error") && !e.InstanceOf("Exception")
  {
    Throwable("ArgumentCountError", {"TypeError", "Error", "Throwable"}, message, None, "", 0, "")
  }

  /** A response body: literal text, or the `json_encode` of a value. The
      encoding itself is not interpreted. */
  datatype Body = Text(text: string) | Json(data: Value)

  /** PHP's conversion to bool: null, false, 0, "", "0" and the empty array
      are false; everything else, every object included, is true. */
  predicate Truthy(v: Value) {
    match v
    case Null => false
    case Bool(b) => b
    case Int(i) => i != 0
    case Str(s) => s != "" && s != "0"
    case Arr(m) => m != map[]
    case Obj(_, _, _, _) => true
  }

  /** `new \Error($message)` */
  function NewError(message: string): (e: Throwable)
    ensures e.InstanceOf("Error") && !e.InstanceOf("Exception")
  {
    Throwable("Error", {"Throwable"}, message, None, "", 0, "")
  }

  /** `new \TypeError($message)` */
  function NewTypeError(message: string): (e: Throwable)
    ensures e.InstanceOf("TypeError") && e.InstanceOf("Error") && !e.InstanceOf("Exception")
  {
    Throwable("TypeError", {"Error", "Throwable"}, message, None, "", 0, "")
  }

  /** `new \Exception($message)` */
  function NewException(message: string): (e: Throwable)
    ensures e.InstanceOf("Exception") && e.message == message
  {
    Throwable("Exception", {"Throwable"}, message, None, "", 0, "")
  }

  // ---------------------------------------------------------------------
  // explode / implode on a one-character separator

  /** `explode($sep, $s)`: the pieces between occurrences of `sep`. */
  function Explode(s: string, sep: char): (parts: seq<string>)
    ensures |parts| >= 1
    ensures forall i :: 0 <= i < |parts| ==> sep !in parts[i]
    decreases |s|
  {
    if s == [] then [""]
    else
      var rest := Explode(s[1..], sep);
      if s[0] == sep then [""] + rest
      else [[s[0]] + rest[0]] + rest[1..]
  }

  /** `implode($sep, $parts)` for a non-empty list. */
  function Implode(parts: seq<string>, sep: char): string
    requires |parts| >= 1
  {
    if |parts| == 1 then parts[0]
    else parts[0] + [sep] + Implode(parts[1..], sep)
  }

  lemma {:induction false} ImplodeConsHead(x: string, parts: seq<string>, sep: char)
    requires |parts| >= 1
    ensures Implode([x + parts[0]] + parts[1..], sep) == x + Implode(parts, sep)
  {
    var l := [x + parts[0]] + parts[1..];
    assert l[1..] == parts[1..];
  }

  /** Joining the pieces of `explode` with the same separator gives back the
      original string. */
  lemma {:induction false} ImplodeExplode(s: string, sep: char)
    ensures Implode(Explode(s, sep), sep) == s
    decreases |s|
  {
    if s != [] {
      var rest := Explode(s[1..], sep);
      ImplodeExplode(s[1..], sep);
      if s[0] == sep {
        assert ([""] + rest)[1..] == rest;
      } else {
        ImplodeConsHead([s[0]], rest, sep);
      }
    }
  }

  /** The first piece of `explode` is everything before the first
      separator; there is a second piece exactly when the separator occurs,
      and it starts right after that separator. */
  lemma ExplodeHead(s: string, sep: char)
    ensures var parts := Explode(s, sep);
      (|parts| == 1 <==> sep !in s)
      && (|parts| == 1 ==> parts[0] == s)
      && (|parts| > 1 ==> s == parts[0] + [sep] + Implode(parts[1..], sep) && parts[1] <= Implode(parts[1..], sep))
  {
    ImplodeExplode(s, sep);
    var parts := Explode(s, sep);
    if |parts| > 1 {
      assert s == parts[0] + [sep] + Implode(parts[1..], sep);
      assert sep in s by { assert s[|parts[0]|] == sep; }
      var rest := parts[1..];
      if |rest| > 1 {
        assert Implode(rest, sep) == rest[0] + [sep] + Implode(rest[1..], sep);
      }
    }
  }

  /** Splitting a join of separator-free pieces gives back the pieces. */
  lemma {:induction false} ExplodeImplode(parts: seq<string>, sep: char)
    requires |parts| >= 1
    requires forall i :: 0 <= i < |parts| ==> sep !in parts[i]
    ensures Explode(Implode(parts, sep), sep) == parts
    decreases |parts|, |parts[0]|
  {
    if |parts[0]| > 0 {
      var tail := [parts[0][1..]] + parts[1..];
      assert tail[1..] == parts[1..];
      ExplodeImplode(tail, sep);
      ImplodeConsHead([parts[0][0]], tail, sep);
      assert [parts[0][0]] + tail[0] == parts[0];
      assert [[parts[0][0]] + tail[0]] + tail[1..] == parts;
    } else if |parts| == 1 {
    } else {
      ExplodeImplode(parts[1..], sep);
      assert Implode(parts, sep) == [sep] + Implode(parts[1..], sep);
      assert parts == [""] + parts[1..];
    }
  }

  /** `explode($sep, $s, 2)`: split at the first separator only. */
  function SplitOnce(s: string, sep: char): (parts: seq<string>)
    ensures 1 <= |parts| <= 2
    ensures sep !in parts[0]
    ensures |parts| == 1 <==> sep !in s
    ensures |parts| == 1 ==> parts[0] == s
    ensures |parts| == 2 ==> s == parts[0] + [sep] + parts[1]
  {
    if s == [] then [""]
    else if s[0] == sep then ["", s[1..]]
    else
      var rest := SplitOnce(s[1..], sep);
      [[s[0]] + rest[0]] + rest[1..]
  }

  /** The first separator is where `SplitOnce` cuts. */
  lemma {:induction false} SplitOnceOf(a: string, sep: char, b: string)
    requires sep !in a
    ensures SplitOnce(a + [sep] + b, sep) == [a, b]
    decreases |a|
  {
    if a == [] {
      assert a + [sep] + b == [sep] + b;
    } else {
      assert (a + [sep] + b)[1..] == a[1..] + [sep] + b;
      SplitOnceOf(a[1..], sep, b);
      assert [a[0]] + a[1..] == a;
    }
  }

  // ---------------------------------------------------------------------
  // characters

  predicate IsUpper(c: char) { 'A' <= c <= 'Z' }
  predicate IsLower(c: char) { 'a' <= c <= 'z' }
  predicate IsDigit(c: char) { '0' <= c <= '9' }
  predicate IsAlnum(c: char) { IsUpper(c) || IsLower(c) || IsDigit(c) }

  /** PCRE `\w` without the Unicode flag. */
  predicate IsWordChar(c: char) { IsAlnum(c) || c == '_' }

  /** A non-empty run of `\w` characters. */
  predicate Word(w: string) {
    w != [] && forall i :: 0 <= i < |w| ==> IsWordChar(w[i])
  }

  /** PCRE `\s`: space, tab, line feed, vertical tab, form feed, carriage return. */
  predicate IsSpace(c: char) {
    c == ' ' || c == '\t' || c == '\n' || c == '\U{0B}' || c == '\U{0C}' || c == '\r'
  }

  /** The characters `trim` strips by default. */
  predicate IsTrimmed(c: char) {
    c == ' ' || c == '\t' || c == '\n' || c == '\r' || c == '\0' || c == '\U{0B}'
  }

  /** How many word characters follow position `j`: what a greedy `\w*`
      starting there consumes. */
  function WordRun(s: string, j: nat): (k: nat)
    requires j <= |s|
    ensures j + k <= |s|
    ensures forall i :: j <= i < j + k ==> IsWordChar(s[i])
    ensures j + k == |s| || !IsWordChar(s[j + k])
    decreases |s| - j
  {
    if j == |s| || !IsWordChar(s[j]) then 0 else 1 + WordRun(s, j + 1)
  }

  function ToLowerChar(c: char): (r: char)
    ensures !IsUpper(r)
    ensures IsUpper(c) ==> IsLower(r)
    ensures !IsUpper(c) ==> r == c
  {
    if IsUpper(c) then (c as int + 32) as char else c
  }

  function ToUpperChar(c: char): (r: char)
    ensures !IsLower(r)
    ensures IsLower(c) ==> IsUpper(r)
    ensures !IsLower(c) ==> r == c
  {
    if IsLower(c) then (c as int - 32) as char else c
  }

  /** `strtolower`: ASCII letters only, as PHP 8 does. */
  function Lower(s: string): (r: string)
    ensures |r| == |s|
    ensures forall i :: 0 <= i < |s| ==> r[i] == ToLowerChar(s[i])
  {
    if s == [] then [] else [ToLowerChar(s[0])] + Lower(s[1..])
  }

  lemma {:induction false} LowerAppend(a: string, b: string)
    ensures Lower(a + b) == Lower(a) + Lower(b)
  {
    var l, r := Lower(a + b), Lower(a) + Lower(b);
    assert |l| == |r|;
    forall i | 0 <= i < |l| ensures l[i] == r[i] {
      if i < |a| {
        assert r[i] == Lower(a)[i];
      } else {
        assert r[i] == Lower(b)[i - |a|];
      }
    }
    assert l == r;
  }

  // ---------------------------------------------------------------------
  // trim

  function TrimLeft(s: string): (r: string)
    ensures |r| <= |s| && r == s[|s| - |r|..]
    ensures r == [] || !IsTrimmed(r[0])
  {
    if s != [] && IsTrimmed(s[0]) then TrimLeft(s[1..]) else s
  }

  function TrimRight(s: string): (r: string)
    ensures |r| <= |s| && r == s[..|r|]
    ensures r == [] || !IsTrimmed(r[|r| - 1])
  {
    if s != [] && IsTrimmed(s[|s| - 1]) then TrimRight(s[..|s| - 1]) else s
  }

  /** `trim($s)` with the default character list. */
  function Trim(s: string): string {
    TrimRight(TrimLeft(s))
  }

  /** A string trims to nothing exactly when every character of it is one
      that `trim` strips. */
  lemma {:induction false} TrimEmptyIff(s: string)
    ensures Trim(s) == "" <==> forall i :: 0 <= i < |s| ==> IsTrimmed(s[i])
    decreases |s|
  {
    if s != [] && IsTrimmed(s[0]) {
      TrimEmptyIff(s[1..]);
      assert forall i :: 1 <= i < |s| ==> s[i] == s[1..][i - 1];
    } else if s != [] {
      assert TrimLeft(s) == s;
      TrimRightKeepsHead(s);
    }
  }

  lemma {:induction false} TrimRightKeepsHead(s: string)
    requires s != [] && !IsTrimmed(s[0])
    ensures TrimRight(s) != []
    decreases |s|
  {
    if IsTrimmed(s[|s| - 1]) {
      TrimRightKeepsHead(s[..|s| - 1]);
    }
  }

  // ---------------------------------------------------------------------
  // str_replace($needle, '', $s)

  /** `str_replace($needle, '', $s)`: every occurrence found scanning left to
      right, without overlaps, is removed. */
  function RemoveAll(s: string, needle: string): (r: string)
    requires needle != []
    ensures |r| <= |s|
    decreases |s|
  {
    if |s| < |needle| then s
    else if s[..|needle|] == needle then RemoveAll(s[|needle|..], needle)
    else [s[0]] + RemoveAll(s[1..], needle)
  }

  /** Removing occurrences only deletes characters: every character of the
      result is a character of the input. */
  lemma {:induction false} RemoveAllSubset(s: string, needle: string)
    requires needle != []
    ensures forall c :: c in RemoveAll(s, needle) ==> c in s
    decreases |s|
  {
    if |s| >= |needle| {
      if s[..|needle|] == needle {
        RemoveAllSubset(s[|needle|..], needle);
      } else {
        RemoveAllSubset(s[1..], needle);
      }
    }
  }

  // ---------------------------------------------------------------------
  // Ordered arrays with string-like keys, where insertion order is observable

  /** The keys of an association list. */
  function KeysOf<K(!new), V>(es: seq<(K, V)>): set<K> {
    set i | 0 <= i < |es| :: es[i].0
  }

  /** No key occurs twice, as in a PHP array. */
  predicate DistinctKeys<K(==,!new), V>(es: seq<(K, V)>) {
    forall i, j :: 0 <= i < j < |es| ==> es[i].0 != es[j].0
  }

  /** Where key `k` sits in an ordered array, if anywhere. */
  function IndexOfKey<K(==,!new), V>(es: seq<(K, V)>, k: K): (r: Option<nat>)
    ensures r.Some? ==> r.value < |es| && es[r.value].0 == k
    ensures r.Some? ==> forall i :: 0 <= i < r.value ==> es[i].0 != k
    ensures r.None? <==> k !in KeysOf(es)
    decreases |es|
  {
    if es == [] then None
    else if es[0].0 == k then Some(0)
    else
      match IndexOfKey(es[1..], k)
      case None =>
        assert forall i :: 1 <= i < |es| ==> es[i] == es[1..][i - 1];
        None
      case Some(i) => Some(i + 1)
  }

  /** Two ordered arrays whose keys agree position by position find every key
      at the same place. */
  lemma SameKeysSameIndex<K(!new), V>(a: seq<(K, V)>, b: seq<(K, V)>, k: K)
    requires |a| == |b| && forall i :: 0 <= i < |a| ==> a[i].0 == b[i].0
    ensures IndexOfKey(a, k) == IndexOfKey(b, k)
  {
    if IndexOfKey(a, k) != IndexOfKey(b, k) {
      assert false;
    }
  }

  /** `$array[$k] ?? null` on an ordered array. */
  function Lookup<K(==,!new), V>(es: seq<(K, V)>, k: K): Option<V>
  {
    match IndexOfKey(es, k)
    case Some(i) => Some(es[i].1)
    case None => None
  }

  /** `$array[$k] = $v` on an ordered array: an existing key keeps its
      position and gets the new value; a new key goes at the end. */
  function Put<K(==,!new), V>(es: seq<(K, V)>, k: K, v: V): seq<(K, V)>
  {
    match IndexOfKey(es, k)
    case Some(i) => es[i := (k, v)]
    case None => es + [(k, v)]
  }

  /** After a put, the key holds the new value, every other key keeps its
      value, and the keys are the old ones plus `k`, in their old order, with a
      new key last; distinct keys stay distinct. */
  lemma PutLookup<K(!new), V>(es: seq<(K, V)>, k: K, v: V)
    ensures Lookup(Put(es, k, v), k) == Some(v)
    ensures forall j :: j != k ==> Lookup(Put(es, k, v), j) == Lookup(es, j)
    ensures KeysOf(Put(es, k, v)) == KeysOf(es) + {k}
    ensures k in KeysOf(es) ==> |Put(es, k, v)| == |es| && forall i :: 0 <= i < |es| ==> Put(es, k, v)[i].0 == es[i].0
    ensures k !in KeysOf(es) ==> Put(es, k, v) == es + [(k, v)]
    ensures DistinctKeys(es) ==> DistinctKeys(Put(es, k, v))
  {
    var r := Put(es, k, v);
    match IndexOfKey(es, k)
    case Some(i) =>
      assert forall p :: 0 <= p < |es| ==> r[p].0 == es[p].0;
      forall j ensures Lookup(r, j) == (if j == k then Some(v) else Lookup(es, j)) {
        SameKeysSameIndex(r, es, j);
      }
      assert KeysOf(r) == KeysOf(es);
    case None =>
      forall j | j != k ensures Lookup(r, j) == Lookup(es, j) {
        match IndexOfKey(es, j)
        case Some(p) =>
          assert r[p] == es[p];
        case None =>
      }
      assert r[|es|].0 == k;
      assert IndexOfKey(r, k).Some?;
      forall x | x in KeysOf(r) ensures x in KeysOf(es) + {k} {
        var p :| 0 <= p < |r| && r[p].0 == x;
        if p < |es| { assert es[p].0 == x; }
      }
      forall x | x in KeysOf(es) ensures x in KeysOf(r) {
        var p :| 0 <= p < |es| && es[p].0 == x;
        assert r[p].0 == x;
      }
  }

  // ---------------------------------------------------------------------
  // Lists as PHP arrays

  function DigitChar(d: nat): char
    requires d < 10
  {
    ('0' as int + d) as char
  }

  /** The decimal spelling of a natural number, as PHP writes an integer key. */
  function NatToString(n: nat): string
    decreases n
  {
    if n < 10 then [DigitChar(n)] else NatToString(n / 10) + [DigitChar(n % 10)]
  }

  /** A PHP list: the values under the keys "0", "1", ... */
  function ListOf(xs: seq<Value>): Value
  {
    Arr(ListEntries(xs))
  }

  function ListEntries(xs: seq<Value>): map<string, Value>
    decreases |xs|
  {
    if xs == [] then map[]
    else ListEntries(xs[..|xs| - 1])[NatToString(|xs| - 1) := xs[|xs| - 1]]
  }

  /** `explode("\n", $s)` as a list of strings. */
  function Lines(s: string): Value
  {
    var parts := Explode(s, '\n');
    ListOf(seq(|parts|, i requires 0 <= i < |parts| => Str(parts[i])))
  }
}
