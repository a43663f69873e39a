/**
 * Console/Commands/MakeMigrationCommand.php: `make:migration` asks for a
 * migration name, refuses an empty one, guesses the table from the name
 * (`create_<t>_table`, then `add_<x>_to_<t>_table`, else `table_name`) and
 * derives the migration's class name from it.
 */
module MakeMigrations {
  import opened Php
  import opened Helpers
  import Commands

  // ---------------------------------------------------------------------
  // extractTableName

  /** "_table" follows a capture of `k` characters from `start`. */
  predicate TableAfter(s: string, start: nat, k: nat) {
    OccursAt(s, "_table", start + k)
  }

  /** "_to_" follows a first run of `k` characters from `q`. */
  predicate ToAfter(s: string, q: nat, k: nat) {
    OccursAt(s, "_to_", q + k)
  }

  /** `r` sits at `i` in `name`, with "_table" right after it. */
  predicate TableNameAt(name: string, i: nat, r: string) {
    i + |r| <= |name| && name[i..i + |r|] == r && OccursAt(name, "_table", i + |r|)
  }

  /** A match that found `r` captured a word that "_table" follows. */
  predicate Found(s: string, r: Option<string>) {
    r.Some? ==> Word(r.value) && exists i :: 0 <= i <= |s| && TableNameAt(s, i, r.value)
  }

  /** Backtracking of `(\w+)_table` from a greedy run of `top` word
      characters at `start`: the longest capture of at least one character
      that "_table" follows. */
  function TableAt(s: string, start: nat, top: nat): (r: Option<nat>)
    requires start + top <= |s|
    ensures r.Some? ==> 1 <= r.value <= top && TableAfter(s, start, r.value)
    ensures r.Some? ==> forall k :: r.value < k <= top ==> !TableAfter(s, start, k)
    ensures r.None? ==> forall k :: 1 <= k <= top ==> !TableAfter(s, start, k)
    decreases top
  {
    if top == 0 then None
    else if TableAfter(s, start, top) then Some(top)
    else TableAt(s, start, top - 1)
  }

  /** The capture `(\w+)` before "_table" at `start`, if any. */
  function TableCapture(s: string, start: nat): (r: Option<string>)
    requires start <= |s|
    ensures r.Some? ==> Word(r.value) && TableNameAt(s, start, r.value)
  {
    var k := TableAt(s, start, WordRun(s, start));
    if k.Some? then Some(s[start..start + k.value]) else None
  }

  /** `create_(\w+)_table` matched at position `p`. */
  function CreateAt(s: string, p: nat): (r: Option<string>)
    requires p <= |s|
    ensures r.Some? ==> OccursAt(s, "create_", p)
    ensures Found(s, r)
  {
    if OccursAt(s, "create_", p) then TableCapture(s, p + 7) else None
  }

  /** The leftmost match of `create_(\w+)_table` at or after `p`. */
  function CreateFrom(s: string, p: nat): (r: Option<string>)
    requires p <= |s|
    ensures Found(s, r)
    decreases |s| - p
  {
    var here := CreateAt(s, p);
    if here.Some? then here
    else if p == |s| then None
    else CreateFrom(s, p + 1)
  }

  /** Backtracking of `\w+_to_(\w+)_table` from a greedy run of `k1` word
      characters at `q`: the longest first run that "_to_" and a table
      capture follow. */
  function AddOuter(s: string, q: nat, k1: nat): (r: Option<string>)
    requires q + k1 <= |s|
    ensures Found(s, r)
    decreases k1
  {
    if k1 == 0 then None
    else if ToAfter(s, q, k1) && TableCapture(s, q + k1 + 4).Some? then TableCapture(s, q + k1 + 4)
    else AddOuter(s, q, k1 - 1)
  }

  /** `add_\w+_to_(\w+)_table` matched at position `p`. */
  function AddAt(s: string, p: nat): (r: Option<string>)
    requires p <= |s|
    ensures Found(s, r)
  {
    if OccursAt(s, "add_", p) then AddOuter(s, p + 4, WordRun(s, p + 4)) else None
  }

  /** The leftmost match of `add_\w+_to_(\w+)_table` at or after `p`. */
  function AddFrom(s: string, p: nat): (r: Option<string>)
    requires p <= |s|
    ensures Found(s, r)
    decreases |s| - p
  {
    var here := AddAt(s, p);
    if here.Some? then here
    else if p == |s| then None
    else AddFrom(s, p + 1)
  }

  /** The table is a run of word characters that "_table" follows somewhere
      in the name, or the placeholder `table_name`; in particular a name
      without "_table" always gives `table_name`. */
  function ExtractTableName(name: string): (r: string)
    ensures r == "table_name" || (Word(r) && exists i :: 0 <= i <= |name| && TableNameAt(name, i, r))
  {
    var created := CreateFrom(name, 0);
    if created.Some? then created.value
    else
      var added := AddFrom(name, 0);
      if added.Some? then added.value else "table_name"
  }

  /** `TableAt` settles on `k` when "_table" follows there and nowhere
      further up. */
  lemma {:induction false} TableAtIs(s: string, start: nat, top: nat, k: nat)
    requires 1 <= k <= top && start + top <= |s| && TableAfter(s, start, k)
    requires forall k1 :: k < k1 <= top ==> !TableAfter(s, start, k1)
    ensures TableAt(s, start, top) == Some(k)
    decreases top
  {
    if k < top {
      TableAtIs(s, start, top - 1, k);
    }
  }

  /** The capture after `start` when the text from there is `t` + "_table"
      up to the end. */
  lemma CaptureAtEnd(s: string, start: nat, t: string)
    requires Word(t)
    requires start + |t| + 6 == |s| && s[start..] == t + "_table"
    ensures TableCapture(s, start) == Some(t)
  {
    var tail := t + "_table";
    assert Word(tail) by {
      assert Word("_table");
    }
    assert forall i :: start <= i < start + |tail| ==> s[i] == tail[i - start];
    Commands.WordRunFrom(s, start, |tail|);
    assert s[start + |t|..start + |t| + 6] == "_table";
    TableAtIs(s, start, |tail|, |t|);
    assert s[start..start + |t|] == t;
  }

  /** No match starts before `p0`: the scan goes on from there. */
  lemma {:induction false} CreateFromSkip(s: string, p: nat, p0: nat)
    requires p <= p0 <= |s| && forall q :: p <= q < p0 ==> !OccursAt(s, "create_", q)
    ensures CreateFrom(s, p) == CreateFrom(s, p0)
    decreases p0 - p
  {
    if p < p0 {
      CreateFromSkip(s, p + 1, p0);
    }
  }

  /** `create_<t>_table` gives `<t>`, the capture running as far as it can:
      `create_user_roles_table` gives `user_roles`. */
  lemma CreateTable(t: string)
    requires Word(t)
    ensures ExtractTableName("create_" + t + "_table") == t
  {
    var s := "create_" + t + "_table";
    assert OccursAt(s, "create_", 0);
    assert s[7..] == t + "_table";
    CaptureAtEnd(s, 7, t);
  }

  lemma {:induction false} CreateFromNone(s: string, p: nat)
    requires p <= |s| && forall q :: p <= q <= |s| ==> !OccursAt(s, "create_", q)
    ensures CreateFrom(s, p) == None
    decreases |s| - p
  {
    if p < |s| {
      CreateFromNone(s, p + 1);
    }
  }

  /** Larger first runs that "_to_" does not follow are passed over. */
  lemma {:induction false} AddOuterSkip(s: string, q: nat, top: nat, k: nat)
    requires k <= top && q + top <= |s|
    requires forall k1 :: k < k1 <= top ==> !ToAfter(s, q, k1)
    ensures AddOuter(s, q, top) == AddOuter(s, q, k)
    decreases top
  {
    if k < top {
      AddOuterStep(s, q, top);
      AddOuterSkip(s, q, top - 1, k);
    }
  }

  lemma AddOuterStep(s: string, q: nat, k1: nat)
    requires 0 < k1 && q + k1 <= |s| && !ToAfter(s, q, k1)
    ensures AddOuter(s, q, k1) == AddOuter(s, q, k1 - 1)
  {
  }

  /** `add_<x>_to_<t>_table` gives `<t>` when the name holds no `create_`
      and the "_to_" after `<x>` is the last one. */
  lemma AddTable(x: string, t: string)
    requires Word(x)
    requires Word(t)
    requires var s := "add_" + x + "_to_" + t + "_table";
      forall q :: 0 <= q <= |s| ==> !OccursAt(s, "create_", q)
    requires var s := "add_" + x + "_to_" + t + "_table";
      forall i :: 4 + |x| < i <= |s| ==> !OccursAt(s, "_to_", i)
    ensures ExtractTableName("add_" + x + "_to_" + t + "_table") == t
  {
    var s := "add_" + x + "_to_" + t + "_table";
    CreateFromNone(s, 0);
    AddAtOf(x, t);
  }

  /** The add pattern matched at the start of `add_<x>_to_<t>_table`. */
  lemma AddAtOf(x: string, t: string)
    requires Word(x)
    requires Word(t)
    requires var s := "add_" + x + "_to_" + t + "_table";
      forall i :: 4 + |x| < i <= |s| ==> !OccursAt(s, "_to_", i)
    ensures AddFrom("add_" + x + "_to_" + t + "_table", 0) == Some(t)
  {
    var s := "add_" + x + "_to_" + t + "_table";
    var n := |s| - 4;
    assert OccursAt(s, "add_", 0) && n == 4 + |x| + |t| + 6 by {
      AddShape(x, t);
    }
    assert WordRun(s, 4) == n by {
      AddShape(x, t);
      Commands.WordRunFrom(s, 4, n);
    }
    assert AddOuter(s, 4, n) == AddOuter(s, 4, |x|) by {
      AddOuterSkip(s, 4, n, |x|);
    }
    assert AddOuter(s, 4, |x|) == Some(t) by {
      AddShape(x, t);
      CaptureAtEnd(s, 8 + |x|, t);
    }
  }

  /** Where the pieces of `add_<x>_to_<t>_table` sit. */
  lemma AddShape(x: string, t: string)
    requires Word(x) && Word(t)
    ensures var s := "add_" + x + "_to_" + t + "_table";
      |s| == 8 + |x| + |t| + 6 && OccursAt(s, "add_", 0) && OccursAt(s, "_to_", 4 + |x|)
      && (forall i :: 4 <= i < |s| ==> IsWordChar(s[i]))
      && s[8 + |x|..] == t + "_table"
  {
    var s := "add_" + x + "_to_" + t + "_table";
    assert Word("_to_") && Word("_table");
    assert s[..4] == "add_";
    assert s[4 + |x|..8 + |x|] == "_to_";
    assert s[8 + |x|..] == t + "_table";
  }

  /** Both patterns can match; the create pattern wins:
      `add_<x>_to_create_<t>_table` gives `<t>`, where the add pattern alone
      would give `create_<t>`. */
  lemma CreateBeatsAdd(x: string, t: string)
    requires Word(x)
    requires Word(t)
    requires var s := "add_" + x + "_to_" + ("create_" + t) + "_table";
      forall q :: 0 <= q < 8 + |x| ==> !OccursAt(s, "create_", q)
    requires var s := "add_" + x + "_to_" + ("create_" + t) + "_table";
      forall i :: 4 + |x| < i <= |s| ==> !OccursAt(s, "_to_", i)
    ensures ExtractTableName("add_" + x + "_to_" + ("create_" + t) + "_table") == t
    ensures AddFrom("add_" + x + "_to_" + ("create_" + t) + "_table", 0) == Some("create_" + t)
  {
    var s := "add_" + x + "_to_" + ("create_" + t) + "_table";
    var p := 8 + |x|;
    CreatePrefixWord(t);
    AddShape(x, "create_" + t);
    CreateFromSkip(s, 0, p);
    CreateFromAt(s, p, t);
    AddAtOf(x, "create_" + t);
  }

  lemma CreatePrefixWord(t: string)
    requires Word(t)
    ensures Word("create_" + t)
  {
    assert Word("create_");
  }

  /** A create match at `p` running to the end of the name gives `t`. */
  lemma CreateFromAt(s: string, p: nat, t: string)
    requires Word(t) && p + 7 + |t| + 6 == |s|
    requires s[p..] == "create_" + t + "_table"
    ensures CreateFrom(s, p) == Some(t)
  {
    assert s[p..p + 7] == "create_";
    assert s[p + 7..] == t + "_table";
    CaptureAtEnd(s, p + 7, t);
  }

  // ---------------------------------------------------------------------
  // Class name

  /** `ucwords` with '_' as the only delimiter, from a position where
      `up` says whether a delimiter (or the start) came just before. */
  function UcFrom(s: string, up: bool): (r: string)
    ensures |r| == |s|
    decreases |s|
  {
    if s == [] then []
    else [if up then ToUpperChar(s[0]) else s[0]] + UcFrom(s[1..], s[0] == '_')
  }

  /** Position by position: a character is upper-cased exactly when a
      delimiter (or, at position 0, `up`) comes just before it. */
  lemma {:induction false} UcFromAt(s: string, up: bool)
    ensures forall i :: 0 <= i < |s| ==>
      UcFrom(s, up)[i] == (if (if i == 0 then up else s[i - 1] == '_') then ToUpperChar(s[i]) else s[i])
    decreases |s|
  {
    if s != [] {
      var tail := s[1..];
      var rest := UcFrom(tail, s[0] == '_');
      var r := UcFrom(s, up);
      assert r == [if up then ToUpperChar(s[0]) else s[0]] + rest;
      UcFromAt(tail, s[0] == '_');
      forall i | 1 <= i < |s|
        ensures r[i] == (if s[i - 1] == '_' then ToUpperChar(s[i]) else s[i])
      {
        assert r[i] == rest[i - 1];
        assert tail[i - 1] == s[i];
        if i > 1 {
          assert tail[i - 2] == s[i - 1];
        }
      }
    }
  }

  /** `ucwords($s, '_')`: the first character and every character after an
      underscore in upper case, every other character kept. */
  function UcWords(s: string): (r: string)
    ensures |r| == |s|
    ensures forall i :: 0 <= i < |s| ==> r[i] == (if i == 0 || s[i - 1] == '_' then ToUpperChar(s[i]) else s[i])
  {
    UcFromAt(s, true);
    UcFrom(s, true)
  }

  /** `str_replace($c, '', $s)` for one character: every other character
      is kept, in order. */
  function DropChar(s: string, c: char): (r: string)
    ensures c !in r
    ensures forall d :: d != c ==> (d in r <==> d in s)
    decreases |s|
  {
    if s == [] then []
    else (if s[0] == c then [] else [s[0]]) + DropChar(s[1..], c)
  }

  /** The migration's class name; it has no underscore. */
  function ClassName(name: string): (r: string)
    ensures '_' !in r
  {
    DropChar(UcWords(name), '_')
  }

  function Capitalize(w: string): string {
    if w == [] then [] else [ToUpperChar(w[0])] + w[1..]
  }

  lemma {:induction false} UcFromAppend(a: string, b: string, up: bool)
    requires a != []
    ensures UcFrom(a + b, up) == UcFrom(a, up) + UcFrom(b, a[|a| - 1] == '_')
    decreases |a|
  {
    assert (a + b)[0] == a[0] && (a + b)[1..] == a[1..] + b;
    if |a| > 1 {
      UcFromAppend(a[1..], b, a[0] == '_');
    } else {
      assert a[1..] + b == b;
    }
  }

  /** Inside a word nothing is upper-cased. */
  lemma {:induction false} UcFromPlain(w: string)
    requires '_' !in w
    ensures UcFrom(w, false) == w
    decreases |w|
  {
    if w != [] {
      assert forall c :: c in w[1..] ==> c in w;
      UcFromPlain(w[1..]);
    }
  }

  lemma {:induction false} DropCharAppend(a: string, b: string, c: char)
    ensures DropChar(a + b, c) == DropChar(a, c) + DropChar(b, c)
    decreases |a|
  {
    if a != [] {
      assert (a + b)[0] == a[0] && (a + b)[1..] == a[1..] + b;
      DropCharAppend(a[1..], b, c);
    } else {
      assert a + b == b;
    }
  }

  lemma {:induction false} DropCharNone(s: string, c: char)
    requires c !in s
    ensures DropChar(s, c) == s
    decreases |s|
  {
    if s != [] {
      assert forall d :: d in s[1..] ==> d in s;
      DropCharNone(s[1..], c);
      assert s == [s[0]] + s[1..];
    }
  }

  /** A single word is only capitalised: `users` gives `Users`. */
  lemma ClassNameWord(w: string)
    requires '_' !in w
    ensures UcWords(w) == Capitalize(w)
    ensures ClassName(w) == Capitalize(w)
  {
    if w != [] {
      assert forall c :: c in w[1..] ==> c in w;
      UcFromPlain(w[1..]);
      assert '_' !in Capitalize(w) by {
        assert forall c :: c in w[1..] ==> c in w;
        assert w[0] in w;
      }
      DropCharNone(Capitalize(w), '_');
    }
  }

  /** The class name is built word by word: each word is capitalised and
      the underscore after it dropped, so `create_users_table` gives
      `CreateUsersTable`. */
  lemma ClassNameCons(w: string, rest: string)
    requires w != [] && '_' !in w
    ensures ClassName(w + "_" + rest) == Capitalize(w) + ClassName(rest)
  {
    UcWordsCons(w, rest);
    ClassNameWord(w);
    DropWordThenUnderscore(Capitalize(w), UcWords(rest));
  }

  lemma UcWordsCons(w: string, rest: string)
    requires w != [] && '_' !in w
    ensures UcWords(w + "_" + rest) == Capitalize(w) + "_" + UcWords(rest)
  {
    UcFromAppend(w + "_", rest, true);
    UcFromAppend(w, "_", true);
    assert (w + "_")[|w + "_"| - 1] == '_';
    ClassNameWord(w);
    assert UcFrom("_", w[|w| - 1] == '_') == "_" by {
      assert w[|w| - 1] in w;
    }
  }

  lemma DropWordThenUnderscore(c: string, u: string)
    requires '_' !in c
    ensures DropChar(c + "_" + u, '_') == c + DropChar(u, '_')
  {
    var under: string := ['_'];
    assert c + "_" + u == (c + under) + u;
    DropCharAppend(c + under, u, '_');
    DropCharAppend(c, under, '_');
    DropCharNone(c, '_');
    assert DropChar(under, '_') == [] by {
      assert under[1..] == [];
    }
    assert c + [] == c;
  }

  // ---------------------------------------------------------------------
  // handle

  /** What `handle` does once it has a name. */
  datatype Migration = NameRequired | AlreadyExists(filename: string) | Created(filename: string, className: string, table: string)

  /** `empty($name)`, the file check and the stub's names: `timestamp` is
      `date('Y_m_d_His')`, `cwd` the working directory and `present` says
      which files exist. */
  function Plan(name: string, timestamp: string, cwd: string, present: string -> bool): (r: Migration)
    ensures r.NameRequired? <==> !Truthy(Str(name))
    ensures !r.NameRequired? ==> r.filename == timestamp + "_" + name + ".php"
    ensures r.AlreadyExists? <==> Truthy(Str(name)) && present(cwd + "/database/migrations/" + r.filename)
    ensures r.Created? ==> r.className == ClassName(name) && r.table == ExtractTableName(name)
  {
    if !Truthy(Str(name)) then NameRequired
    else
      var filename := timestamp + "_" + name + ".php";
      if present(cwd + "/database/migrations/" + filename) then AlreadyExists(filename)
      else Created(filename, ClassName(name), ExtractTableName(name))
  }

  function ExitCode(m: Migration): int {
    if m.Created? then 0 else 1
  }

  /** `handle` as written: the name comes from `ask` with no default. */
  function HandleAsWritten(line: Option<string>, timestamp: string, cwd: string, present: string -> bool): Outcome<Migration> {
    var asked := Commands.AskAsWritten(line, None);
    if asked.Thrown? then Thrown(asked.error) else Done(Plan(asked.value, timestamp, cwd, present))
  }

  /** `handle` with `ask` answering "" for an empty line, so that the name
      check is reached. */
  function Handle(line: Option<string>, timestamp: string, cwd: string, present: string -> bool): Migration {
    Plan(Commands.Ask(line, None), timestamp, cwd, present)
  }

  /** As written, the empty-name branch can never be taken: an empty answer
      makes `ask` throw a TypeError before `handle` sees it. */
  lemma EmptyNameUnreachable(line: Option<string>, timestamp: string, cwd: string, present: string -> bool)
    ensures HandleAsWritten(line, timestamp, cwd, present) != Done(NameRequired)
    ensures !Truthy(Str(Commands.Answer(line))) ==>
      HandleAsWritten(line, timestamp, cwd, present).Thrown?
      && HandleAsWritten(line, timestamp, cwd, present).error.InstanceOf("TypeError")
  {
  }

  /** With `ask` returning the empty string, an empty (or "0") answer ends
      with "Migration name is required" and exit code 1, whatever the files;
      any other answer is handled exactly as the code as written handles it. */
  lemma EmptyNameFails(line: Option<string>, timestamp: string, cwd: string, present: string -> bool)
    ensures !Truthy(Str(Commands.Answer(line))) ==>
      Handle(line, timestamp, cwd, present) == NameRequired && ExitCode(Handle(line, timestamp, cwd, present)) == 1
    ensures Truthy(Str(Commands.Answer(line))) ==>
      HandleAsWritten(line, timestamp, cwd, present) == Done(Handle(line, timestamp, cwd, present))
  {
    var a := Commands.Answer(line);
    var n := Commands.Ask(line, None);
    if Truthy(Str(a)) {
      assert Commands.AskAsWritten(line, None) == Done(a);
      assert n == a;
    } else {
      FalsyPlan(n, timestamp, cwd, present);
    }
  }

  lemma FalsyPlan(name: string, timestamp: string, cwd: string, present: string -> bool)
    requires name == []
    ensures Plan(name, timestamp, cwd, present) == NameRequired
  {
  }
}
