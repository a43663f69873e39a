/**
 * Console/Commands/MakeCommandCommand.php: `make:command {name} {--force}`
 * checks the class name, derives the new command's signature from it
 * (`SendEmailCommand` gives `send:email`) and writes a stub whose own
 * signature starts with that one.
 */
module MakeCommands {
  import opened Php
  import Commands
  import Helpers

  /** The command's own signature. */
  const OwnSignature: string := "make:command {name} {--force}"

  /** What follows the derived signature in the stub's `$signature`:
      ` {argument?} {--option}`. */
  const StubPlaceholders: string := " {" + "argument" + "?}" + " {--" + "option" + "}"

  /** The part of `^[A-Z][a-zA-Z0-9]+Command$` before `$`: an uppercase
      letter, at least one letter or digit, and the suffix `Command`. */
  predicate PascalCommand(s: string) {
    |s| >= 9 && IsUpper(s[0])
    && (forall i :: 1 <= i < |s| - 7 ==> IsAlnum(s[i]))
    && s[|s| - 7..] == "Command"
  }

  /** The name check. Without the D modifier PCRE's `$` also matches before
      a final newline, so a name ending in "\n" passes too. */
  predicate ValidName(s: string) {
    PascalCommand(s) || (|s| > 0 && s[|s| - 1] == '\n' && PascalCommand(s[..|s| - 1]))
  }

  /** The argument as `preg_match` sees it: null (no name given) is the
      empty string. */
  predicate Accepted(name: Value) {
    name.Str? && ValidName(name.s)
  }

  // ---------------------------------------------------------------------
  // getCommandSignature

  /** How many characters from `i` on are not uppercase letters. */
  function NonUpperRun(s: string, i: nat): (k: nat)
    requires i <= |s|
    ensures i + k <= |s| && forall j :: i <= j < i + k ==> !IsUpper(s[j])
    ensures i + k == |s| || IsUpper(s[i + k])
    decreases |s| - i
  {
    if i == |s| || IsUpper(s[i]) then 0 else 1 + NonUpperRun(s, i + 1)
  }

  function Concat(parts: seq<string>): string
    decreases |parts|
  {
    if parts == [] then "" else parts[0] + Concat(parts[1..])
  }

  /** `preg_split('/(?=[A-Z])/', $s, -1, PREG_SPLIT_NO_EMPTY)`: cut before
      every uppercase letter and drop the empty piece a leading one leaves.
      The pieces give back the string, none is empty, only a piece's first
      character can be uppercase, and every piece after the first starts
      with one. */
  function Chunks(s: string): (parts: seq<string>)
    ensures Concat(parts) == s
    ensures forall i :: 0 <= i < |parts| ==> parts[i] != []
    ensures forall i, j :: 0 <= i < |parts| && 1 <= j < |parts[i]| ==> !IsUpper(parts[i][j])
    ensures forall i :: 1 <= i < |parts| ==> IsUpper(parts[i][0])
    ensures forall i, c :: 0 <= i < |parts| && c in parts[i] ==> c in s
    decreases |s|
  {
    if s == [] then []
    else
      var k := 1 + NonUpperRun(s, 1);
      var rest := Chunks(s[k..]);
      ChunkCons(s, k, rest);
      [s[..k]] + rest
  }

  /** The first piece, up to the next capital, in front of the pieces of
      the rest keeps every property `Chunks` promises. */
  lemma ChunkCons(s: string, k: nat, rest: seq<string>)
    requires 0 < k <= |s| && forall j :: 1 <= j < k ==> !IsUpper(s[j])
    requires k == |s| || IsUpper(s[k])
    requires Concat(rest) == s[k..]
    requires forall i :: 0 <= i < |rest| ==> rest[i] != []
    requires forall i, j :: 0 <= i < |rest| && 1 <= j < |rest[i]| ==> !IsUpper(rest[i][j])
    requires forall i :: 1 <= i < |rest| ==> IsUpper(rest[i][0])
    requires forall i, c :: 0 <= i < |rest| && c in rest[i] ==> c in s[k..]
    ensures var parts := [s[..k]] + rest;
      Concat(parts) == s
      && (forall i :: 0 <= i < |parts| ==> parts[i] != [])
      && (forall i, j :: 0 <= i < |parts| && 1 <= j < |parts[i]| ==> !IsUpper(parts[i][j]))
      && (forall i :: 1 <= i < |parts| ==> IsUpper(parts[i][0]))
      && (forall i, c :: 0 <= i < |parts| && c in parts[i] ==> c in s)
  {
    var parts := [s[..k]] + rest;
    assert parts[1..] == rest;
    assert s[..k] + s[k..] == s;
    assert forall i :: 1 <= i < |parts| ==> parts[i] == rest[i - 1];
    if rest != [] {
      assert k < |s| by {
        assert rest[0] != [] && |Concat(rest)| > 0 by {
          assert Concat(rest) == rest[0] + Concat(rest[1..]);
        }
      }
      assert rest[0][0] == s[k] by {
        assert Concat(rest) == rest[0] + Concat(rest[1..]);
      }
    }
    forall i, c | 0 <= i < |parts| && c in parts[i] ensures c in s {
      if i > 0 {
        assert c in rest[i - 1];
        assert c in s[k..];
      }
    }
  }

  /** `implode($sep, $parts)`, the empty list included. */
  function Join(parts: seq<string>, sep: char): string {
    if parts == [] then "" else Implode(parts, sep)
  }

  /** `getCommandSignature`: drop every `Command`, cut before the capitals,
      join with ':' and lowercase. The result has no uppercase letter. */
  function CommandSignature(name: string): (r: string)
    ensures forall i :: 0 <= i < |r| ==> !IsUpper(r[i])
  {
    Lower(Join(Chunks(RemoveAll(name, "Command")), ':'))
  }

  function UpperCount(s: string): nat
    decreases |s|
  {
    if s == [] then 0 else (if IsUpper(s[0]) then 1 else 0) + UpperCount(s[1..])
  }

  lemma {:induction false} UpperCountAppend(a: string, b: string)
    ensures UpperCount(a + b) == UpperCount(a) + UpperCount(b)
    decreases |a|
  {
    if a != [] {
      assert (a + b)[0] == a[0] && (a + b)[1..] == a[1..] + b;
      UpperCountAppend(a[1..], b);
    } else {
      assert a + b == b;
    }
  }

  lemma {:induction false} UpperCountNone(s: string)
    requires forall i :: 0 <= i < |s| ==> !IsUpper(s[i])
    ensures UpperCount(s) == 0
    decreases |s|
  {
    if s != [] {
      UpperCountNone(s[1..]);
    }
  }

  /** Text that starts with a capital splits into one piece per capital. */
  lemma {:induction false} ChunkCount(s: string)
    requires s == [] || IsUpper(s[0])
    ensures |Chunks(s)| == UpperCount(s)
    decreases |s|
  {
    if s != [] {
      var k := 1 + NonUpperRun(s, 1);
      ChunkCount(s[k..]);
      assert s == [s[0]] + s[1..k] + s[k..];
      UpperCountAppend([s[0]] + s[1..k], s[k..]);
      UpperCountAppend([s[0]], s[1..k]);
      UpperCountNone(s[1..k]);
    }
  }

  function LowerAll(parts: seq<string>): (r: seq<string>)
    ensures |r| == |parts| && forall i :: 0 <= i < |r| ==> r[i] == Lower(parts[i])
  {
    seq(|parts|, i requires 0 <= i < |parts| => Lower(parts[i]))
  }

  /** Lowercasing a join of pieces lowercases each piece. */
  lemma {:induction false} LowerImplode(parts: seq<string>)
    requires |parts| >= 1
    ensures Lower(Implode(parts, ':')) == Implode(LowerAll(parts), ':')
    decreases |parts|
  {
    if |parts| > 1 {
      LowerImplode(parts[1..]);
      LowerAppend(parts[0] + [':'], Implode(parts[1..], ':'));
      LowerAppend(parts[0], [':']);
      assert LowerAll(parts)[1..] == LowerAll(parts[1..]);
    }
  }

  /** With the `Command`s removed, a name that starts with a capital and has
      no ':' gives one `:`-separated part per capital letter. */
  lemma PartsPerCapital(name: string)
    requires var s := RemoveAll(name, "Command"); s != [] && IsUpper(s[0]) && ':' !in s
    ensures |Explode(CommandSignature(name), ':')| == UpperCount(RemoveAll(name, "Command"))
  {
    var s := RemoveAll(name, "Command");
    var parts := Chunks(s);
    ChunkCount(s);
    LowerImplode(parts);
    var lowered := LowerAll(parts);
    forall i, j | 0 <= i < |lowered| && 0 <= j < |lowered[i]| ensures lowered[i][j] != ':' {
      assert parts[i][j] in parts[i];
    }
    ExplodeImplode(lowered, ':');
  }

  /** A capitalised word. */
  predicate Word(w: string) {
    |w| > 0 && IsUpper(w[0]) && forall i :: 1 <= i < |w| ==> !IsUpper(w[i])
  }

  /** Two capitalised words followed by `Command`, as in `SendEmailCommand`,
      give the two words in lowercase joined by ':' (`send:email`), provided
      `Command` occurs only as the suffix. */
  lemma TwoWords(a: string, b: string)
    requires Word(a) && Word(b)
    requires forall i :: 0 <= i < |a + b| ==> !Helpers.OccursAt(a + b + "Command", "Command", i)
    ensures CommandSignature(a + b + "Command") == Lower(a) + ":" + Lower(b)
  {
    SuffixRemoved(a + b);
    JoinTwo(a, b);
  }

  lemma JoinTwo(a: string, b: string)
    requires Word(a) && Word(b)
    ensures Lower(Join(Chunks(a + b), ':')) == Lower(a) + ":" + Lower(b)
  {
    ChunksOfTwo(a, b);
    var j := Join([a, b], ':');
    assert j == a + [':'] + b by {
      assert [a, b][1..] == [b];
      assert Implode([b], ':') == b;
    }
    LowerAppend(a + [':'], b);
    LowerAppend(a, [':']);
    assert Lower([':']) == ":";
  }

  lemma SuffixRemoved(w: string)
    requires forall i :: 0 <= i < |w| ==> !Helpers.OccursAt(w + "Command", "Command", i)
    ensures RemoveAll(w + "Command", "Command") == w
  {
    RemoveAllPrefix(w, "Command", "Command", 0);
    assert RemoveAll("Command", "Command") == "";
    assert (w + "Command")[0..] == w + "Command";
    assert w[0..] == w;
  }

  lemma ChunksOfTwo(a: string, b: string)
    requires Word(a) && Word(b)
    ensures Chunks(a + b) == [a, b]
  {
    NonUpperRunExact(a + b, 1, |a| - 1);
    assert (a + b)[..|a|] == a && (a + b)[|a|..] == b;
    NonUpperRunExact(b, 1, |b| - 1);
    assert b[..|b|] == b && b[|b|..] == [];
  }

  lemma {:induction false} NonUpperRunExact(s: string, i: nat, k: nat)
    requires i + k <= |s| && forall j :: i <= j < i + k ==> !IsUpper(s[j])
    requires i + k == |s| || IsUpper(s[i + k])
    ensures NonUpperRun(s, i) == k
    decreases k
  {
    if k > 0 {
      NonUpperRunExact(s, i + 1, k - 1);
    }
  }

  /** `str_replace` keeps every character before the first place the needle
      occurs. */
  lemma {:induction false} RemoveAllPrefix(a: string, needle: string, b: string, i: nat)
    requires needle != [] && i <= |a|
    requires forall j :: i <= j < |a| ==> !Helpers.OccursAt(a + b, needle, j)
    ensures RemoveAll((a + b)[i..], needle) == a[i..] + RemoveAll(b, needle)
    decreases |a| - i
  {
    var s := (a + b)[i..];
    if i < |a| {
      assert !Helpers.OccursAt(a + b, needle, i);
      if |s| >= |needle| {
        assert s[..|needle|] == (a + b)[i..i + |needle|];
      }
      assert s[1..] == (a + b)[i + 1..];
      RemoveAllPrefix(a, needle, b, i + 1);
      assert s == [a[i]] + s[1..];
      assert a[i..] == [a[i]] + a[i + 1..];
    } else {
      assert s == b;
    }
  }

  // ---------------------------------------------------------------------
  // The stub

  /** The `$signature` the stub declares. */
  function StubSignature(name: string): (r: string)
    ensures CommandSignature(name) <= r
  {
    CommandSignature(name) + StubPlaceholders
  }

  /** For a well-formed name the generated command answers the derived
      signature from its own `getSignature`, and its only argument
      placeholder is `argument`. */
  lemma StubRoundTrip(name: string)
    requires PascalCommand(name)
    ensures CommandSignature(name) != [] ==> Commands.CommandName(StubSignature(name)) == CommandSignature(name)
    ensures CommandSignature(name) == [] ==> Commands.CommandName(StubSignature(name)) == StubSignature(name)
    ensures Commands.PlaceholderNames(StubSignature(name)) == ["argument"]
  {
    var sig := CommandSignature(name);
    SignatureChars(name);
    if sig != [] {
      Commands.CommandNameOf(sig, StubPlaceholders);
    }
    StubArgument(sig);
  }

  /** The derived signature of a well-formed name is made of lowercase
      letters, digits and ':' only. */
  lemma SignatureChars(name: string)
    requires PascalCommand(name)
    ensures forall i :: 0 <= i < |CommandSignature(name)| ==>
      Commands.NameChar(CommandSignature(name)[i]) && CommandSignature(name)[i] != '{'
  {
    var sig := CommandSignature(name);
    var s := RemoveAll(name, "Command");
    var joined := Join(Chunks(s), ':');
    NameAlnum(name);
    RemoveAllSubset(name, "Command");
    JoinChars(Chunks(s), ':');
    assert forall c :: c in joined ==> IsAlnum(c) || c == ':';
    forall i | 0 <= i < |sig| ensures Commands.NameChar(sig[i]) && sig[i] != '{' {
      assert joined[i] in joined;
    }
  }

  lemma NameAlnum(name: string)
    requires PascalCommand(name)
    ensures forall c :: c in name ==> IsAlnum(c)
  {
    forall c | c in name ensures IsAlnum(c) {
      var i :| 0 <= i < |name| && name[i] == c;
      if i >= |name| - 7 {
        assert c == name[|name| - 7..][i - (|name| - 7)];
      }
    }
  }

  lemma StubArgument(sig: string)
    requires '{' !in sig
    ensures Commands.PlaceholderNames(sig + StubPlaceholders) == ["argument"]
  {
    var arg := "argument";
    assert forall j :: 0 <= j < |arg| ==> IsWordChar(arg[j]);
    Commands.NameThenOptionPlaceholders(sig, arg, "?}", "option");
  }

  /** Every character of a join is a character of a piece or the
      separator. */
  lemma {:induction false} JoinChars(parts: seq<string>, sep: char)
    ensures forall c :: c in Join(parts, sep) ==> c == sep || exists i :: 0 <= i < |parts| && c in parts[i]
    decreases |parts|
  {
    if |parts| > 1 {
      JoinChars(parts[1..], sep);
      assert Join(parts, sep) == parts[0] + [sep] + Join(parts[1..], sep);
      forall c | c in Join(parts[1..], sep) && c != sep
        ensures exists i :: 0 <= i < |parts| && c in parts[i]
      {
        var i :| 0 <= i < |parts[1..]| && c in parts[1..][i];
        assert c in parts[i + 1];
      }
    } else if |parts| == 1 {
      assert forall c :: c in Join(parts, sep) ==> c in parts[0];
    }
  }

  /** A name with a trailing newline passes the check, since `$` also
      matches before a final newline. */
  lemma TrailingNewlineAccepted(name: string)
    requires PascalCommand(name)
    ensures ValidName(name + "\n")
  {
    assert (name + "\n")[..|name|] == name;
  }

  // ---------------------------------------------------------------------
  // handle

  datatype Made = InvalidName | AlreadyExists(path: string) | Created(path: string, signature: string)

  /** `handle`: `name` is `argument('name')`, `force` is `option('force')`,
      `cwd` is the working directory and `exists` says which files exist.
      The name is checked before any path is formed. */
  function Handle(name: Value, force: Value, cwd: string, present: string -> bool): (r: Made)
    ensures r.InvalidName? <==> !Accepted(name)
    ensures !r.InvalidName? ==> r.path == cwd + "/app/Console/Commands/" + name.s + ".php"
    ensures r.AlreadyExists? <==> Accepted(name) && present(r.path) && !Truthy(force)
    ensures r.Created? ==> r.signature == StubSignature(name.s)
  {
    if !Accepted(name) then InvalidName
    else
      var path := cwd + "/app/Console/Commands/" + name.s + ".php";
      if present(path) && !Truthy(force) then AlreadyExists(path) else Created(path, StubSignature(name.s))
  }

  function ExitCode(r: Made): int {
    if r.Created? then Commands.SUCCESS else Commands.FAILURE
  }

  /** A rejected name fails the same way whatever the files and options:
      nothing is looked at or written. */
  lemma InvalidNameFails(name: Value, force: Value, cwd: string, present: string -> bool, force': Value, cwd': string, present': string -> bool)
    requires !Accepted(name)
    ensures Handle(name, force, cwd, present) == Handle(name, force', cwd', present') == InvalidName
    ensures ExitCode(Handle(name, force, cwd, present)) == Commands.FAILURE
  {
  }

  /** With `--force` an existing file is overwritten. */
  lemma ForceOverwrites(name: string, cwd: string, present: string -> bool)
    requires PascalCommand(name)
    ensures Handle(Str(name), Bool(true), cwd, present).Created?
  {
  }

}
