/**
 * Console/Console.php: the command-line entry point. Commands are
 * registered under their signature; `run` handles the built-in options
 * first, refuses unknown names, and otherwise builds, initialises and runs
 * the command, turning anything it throws into exit code 1.
 */
module Consoles {
  import opened Php
  import Commands

  /** What the classes behind the registered names do, as far as `run`
      sees it: which classes exist, which have an `initialize` method, what
      `getDescription` answers, and what `handle` returns or throws after
      being initialised with the given argv (or not initialised at all). */
  datatype World = World(
    classes: set<string>,
    initializable: set<string>,
    describe: string -> Outcome<string>,
    handle: (string, Option<seq<string>>) -> Outcome<int>)

  /** The branch `run` takes. */
  datatype Decision = ListCommands | ShowVersion | ShowHelp | Unknown(name: string) | Execute(cls: string)

  /** `$argv[1] ?? 'list'` */
  function RequestedName(argv: seq<string>): (r: string)
    ensures |argv| >= 2 ==> r == argv[1]
    ensures |argv| < 2 ==> r == "list"
  {
    if |argv| >= 2 then argv[1] else "list"
  }

  predicate IsBuiltin(name: string) {
    name in {"list", "--list", "--version", "-v", "--help", "-h"}
  }

  /** The chain of tests in `run`. */
  function Decide(commands: seq<(string, string)>, argv: seq<string>): (d: Decision)
    ensures IsBuiltin(RequestedName(argv)) <==> d.ListCommands? || d.ShowVersion? || d.ShowHelp?
    ensures d.Unknown? <==> !IsBuiltin(RequestedName(argv)) && Lookup(commands, RequestedName(argv)).None?
    ensures d.Unknown? ==> d.name == RequestedName(argv)
    ensures d.Execute? ==> Lookup(commands, RequestedName(argv)) == Some(d.cls)
  {
    var name := RequestedName(argv);
    if name == "list" || name == "--list" then ListCommands
    else if name == "--version" || name == "-v" then ShowVersion
    else if name == "--help" || name == "-h" then ShowHelp
    else match Lookup(commands, name)
      case None => Unknown(name)
      case Some(cls) => Execute(cls)
  }

  /** `new $class()` followed by `getDescription()`: a missing class is an
      `\Error`. */
  function Describe(w: World, cls: string): (r: Outcome<string>)
    ensures cls !in w.classes ==> r.Thrown? && r.error.InstanceOf("Error") && !r.error.InstanceOf("Exception")
    ensures cls in w.classes ==> r == w.describe(cls)
  {
    if cls in w.classes then w.describe(cls)
    else Thrown(NewError("Class \"" + cls + "\" not found"))
  }

  /** The longest registered signature. */
  function MaxLen(commands: seq<(string, string)>): (m: nat)
    ensures forall i :: 0 <= i < |commands| ==> |commands[i].0| <= m
    decreases |commands|
  {
    if commands == [] then 0
    else
      var front := commands[..|commands| - 1];
      var m0 := MaxLen(front);
      assert forall i :: 0 <= i < |front| ==> commands[i] == front[i];
      Commands.Max(m0, |commands[|commands| - 1].0|)
  }

  /** One line of the listing, without its colour codes. */
  function Entry(signature: string, description: string, width: nat): string {
    "  " + Commands.Pad(signature, width + 2) + description
  }

  /** The command lines printed by `listCommands`, and what stopped it if
      something threw. */
  datatype Listed = Listed(lines: seq<string>, error: Option<Throwable>)

  function Listing(commands: seq<(string, string)>, width: nat, w: World): (l: Listed)
    ensures |l.lines| <= |commands|
    ensures l.error.None? ==> |l.lines| == |commands|
    decreases |commands|
  {
    if commands == [] then Listed([], None)
    else
      var prev := Listing(commands[..|commands| - 1], width, w);
      var last := commands[|commands| - 1];
      if prev.error.Some? then prev
      else match Describe(w, last.1)
        case Thrown(e) => Listed(prev.lines, Some(e))
        case Done(d) => Listed(prev.lines + [Entry(last.0, d, width)], None)
  }

  /** What `run` returns (or throws). */
  function RunOutcome(commands: seq<(string, string)>, argv: seq<string>, w: World): (r: Outcome<int>)
    ensures r.Thrown? ==> Decide(commands, argv).ListCommands?
    ensures Decide(commands, argv).Unknown? ==> r == Done(1)
    ensures Decide(commands, argv).ShowVersion? || Decide(commands, argv).ShowHelp? ==> r == Done(0)
  {
    match Decide(commands, argv)
    case ListCommands =>
      var l := Listing(commands, MaxLen(commands), w);
      if l.error.Some? then Thrown(l.error.value) else Done(0)
    case ShowVersion => Done(0)
    case ShowHelp => Done(0)
    case Unknown(_) => Done(1)
    case Execute(cls) =>
      if cls !in w.classes then Done(1)
      else
        match w.handle(cls, if cls in w.initializable then Some(argv) else None)
        case Thrown(_) => Done(1)
        case Done(code) => Done(code)
  }

  class Console {
    /** Signature to class, in registration order. */
    var commands: seq<(string, string)>
    var name: string
    var version: string
    /** The command lines the listing has printed. */
    var out: seq<string>

    ghost predicate Valid()
      reads this
    {
      DistinctKeys(commands)
    }

    constructor()
      ensures commands == [] && name == "alphavel" && version == "1.0.0" && out == [] && Valid()
    {
      commands, name, version, out := [], "alphavel", "1.0.0", [];
    }

    /** `register($signature, $class)`: a signature registered again keeps
        its place and gets the new class. */
    method Register(signature: string, cls: string)
      requires Valid()
      modifies this
      ensures Valid() && commands == Put(old(commands), signature, cls)
      ensures name == old(name) && version == old(version) && out == old(out)
    {
      PutLookup(commands, signature, cls);
      commands := Put(commands, signature, cls);
    }

    method SetName(n: string)
      modifies this
      ensures name == n && commands == old(commands) && version == old(version) && out == old(out)
    {
      name := n;
    }

    method SetVersion(v: string)
      modifies this
      ensures version == v && commands == old(commands) && name == old(name) && out == old(out)
    {
      version := v;
    }

    /** `listCommands`: pad every signature to the longest one plus two,
        instantiating each class in turn; the first throw escapes. */
    method ListAll(w: World) returns (err: Option<Throwable>)
      modifies this
      ensures var l := Listing(commands, MaxLen(commands), w);
        out == old(out) + l.lines && err == l.error
      ensures commands == old(commands) && name == old(name) && version == old(version)
    {
      var width := LongestSignature();
      var i := 0;
      while i < |commands|
        invariant 0 <= i <= |commands| && width == MaxLen(commands)
        invariant commands == old(commands) && name == old(name) && version == old(version)
        invariant Listing(commands[..i], width, w).error.None?
        invariant out == old(out) + Listing(commands[..i], width, w).lines
      {
        var d := Describe(w, commands[i].1);
        if d.Thrown? {
          ListingStops(commands, i, width, w);
          return Some(d.error);
        }
        ListingNext(commands, i, width, w);
        out := out + [Entry(commands[i].0, d.value, width)];
        i := i + 1;
      }
      assert commands[..i] == commands;
      err := None;
    }

    /** The padding width of the listing. */
    method LongestSignature() returns (width: nat)
      ensures width == MaxLen(commands)
    {
      width := 0;
      var i := 0;
      while i < |commands|
        invariant 0 <= i <= |commands| && width == MaxLen(commands[..i])
      {
        assert commands[..i + 1][..i] == commands[..i];
        width := Commands.Max(width, |commands[i].0|);
        i := i + 1;
      }
      assert commands[..i] == commands;
    }

    /** `run($argv)`. */
    method Run(argv: seq<string>, w: World) returns (r: Outcome<int>)
      modifies this
      ensures r == RunOutcome(commands, argv, w)
      ensures out == old(out) + (if Decide(commands, argv).ListCommands? then Listing(commands, MaxLen(commands), w).lines else [])
      ensures commands == old(commands) && name == old(name) && version == old(version)
    {
      var commandName := if |argv| >= 2 then argv[1] else "list";
      if commandName == "list" || commandName == "--list" {
        var err := ListAll(w);
        if err.Some? {
          return Thrown(err.value);
        }
        return Done(0);
      }
      if commandName == "--version" || commandName == "-v" {
        return Done(0);
      }
      if commandName == "--help" || commandName == "-h" {
        return Done(0);
      }
      var cls := Lookup(commands, commandName);
      if cls.None? {
        return Done(1);
      }
      if cls.value !in w.classes {
        return Done(1);
      }
      var initialized := if cls.value in w.initializable then Some(argv) else None;
      var code := w.handle(cls.value, initialized);
      if code.Thrown? {
        return Done(1);
      }
      r := Done(code.value);
    }
  }

  /** A failure while describing entry `i` ends the listing there. */
  lemma ListingStops(commands: seq<(string, string)>, i: nat, width: nat, w: World)
    requires i < |commands| && Listing(commands[..i], width, w).error.None?
    requires Describe(w, commands[i].1).Thrown?
    ensures Listing(commands, width, w) == Listed(Listing(commands[..i], width, w).lines, Some(Describe(w, commands[i].1).error))
  {
    var pre := commands[..i + 1];
    assert pre[..|pre| - 1] == commands[..i] && pre[|pre| - 1] == commands[i];
    assert Listing(pre, width, w) == Listed(Listing(commands[..i], width, w).lines, Some(Describe(w, commands[i].1).error));
    ListingSticks(commands, i + 1, width, w);
  }

  /** A described entry extends a listing that has not failed by its line. */
  lemma ListingNext(commands: seq<(string, string)>, i: nat, width: nat, w: World)
    requires i < |commands| && Listing(commands[..i], width, w).error.None?
    requires Describe(w, commands[i].1).Done?
    ensures Listing(commands[..i + 1], width, w)
      == Listed(Listing(commands[..i], width, w).lines + [Entry(commands[i].0, Describe(w, commands[i].1).value, width)], None)
  {
    var pre := commands[..i + 1];
    assert pre[..|pre| - 1] == commands[..i] && pre[|pre| - 1] == commands[i];
  }

  /** Once the listing has failed, later entries change nothing. */
  lemma {:induction false} ListingSticks(commands: seq<(string, string)>, k: nat, width: nat, w: World)
    requires k <= |commands| && Listing(commands[..k], width, w).error.Some?
    ensures Listing(commands, width, w) == Listing(commands[..k], width, w)
    decreases |commands| - k
  {
    if k < |commands| {
      assert commands[..k + 1][..k] == commands[..k];
      ListingSticks(commands, k + 1, width, w);
    } else {
      assert commands[..k] == commands;
    }
  }

  /** Without a command name, `run` lists the commands. */
  lemma MissingNameLists(commands: seq<(string, string)>, argv: seq<string>)
    requires |argv| < 2
    ensures Decide(commands, argv) == ListCommands
  {
  }

  /** The built-in names are handled before the registry is consulted: a
      command registered under one of them never runs, and `run` succeeds
      unless listing throws. */
  lemma BuiltinsShadow(commands: seq<(string, string)>, argv: seq<string>, w: World)
    requires IsBuiltin(RequestedName(argv))
    ensures !Decide(commands, argv).Execute?
    ensures Decide(commands, argv) == Decide([], argv)
    ensures RunOutcome(commands, argv, w).Done? ==> RunOutcome(commands, argv, w).value == 0
    ensures !Decide(commands, argv).ListCommands? ==> RunOutcome(commands, argv, w) == Done(0)
  {
  }

  /** An unregistered name gives 1 whatever the commands would do. */
  lemma UnknownRunsNothing(commands: seq<(string, string)>, argv: seq<string>, w: World, w': World)
    requires !IsBuiltin(RequestedName(argv)) && RequestedName(argv) !in KeysOf(commands)
    ensures RunOutcome(commands, argv, w) == RunOutcome(commands, argv, w') == Done(1)
  {
  }

  /** A registered command that exists is initialised with the whole argv
      when it can be, and `run` answers its exit code, or 1 if it threw:
      `run` itself never throws for it. */
  lemma ExecuteCases(commands: seq<(string, string)>, argv: seq<string>, w: World)
    requires Decide(commands, argv).Execute?
    ensures var cls := Decide(commands, argv).cls;
      var h := w.handle(cls, if cls in w.initializable then Some(argv) else None);
      RunOutcome(commands, argv, w)
      == Done(if cls in w.classes && h.Done? then h.value else 1)
  {
  }

  /** Registering a name that is not built in makes `run` execute the new
      class for it, whatever was registered before. */
  lemma RegisterThenRun(commands: seq<(string, string)>, signature: string, cls: string, argv: seq<string>)
    requires |argv| >= 2 && argv[1] == signature && !IsBuiltin(signature)
    ensures Decide(Put(commands, signature, cls), argv) == Execute(cls)
  {
    PutLookup(commands, signature, cls);
  }

  /** `line` is the padded signature of `c`, which fills the first
      `width + 4` characters, followed by its description. */
  predicate EntryAligned(c: (string, string), width: nat, w: World, line: string) {
    |line| >= width + 4 && line[..width + 4] == "  " + Commands.Pad(c.0, width + 2)
    && Describe(w, c.1) == Done(line[width + 4..])
  }

  /** Line `i` of `lines` is the aligned entry of command `i`. */
  predicate EntriesAligned(commands: seq<(string, string)>, width: nat, w: World, lines: seq<string>)
    requires |lines| <= |commands|
  {
    forall i :: 0 <= i < |lines| ==> EntryAligned(commands[i], width, w, lines[i])
  }

  /** Every listed description starts in the same column: two spaces, the
      longest signature and two more. */
  lemma ListingAligned(commands: seq<(string, string)>, w: World)
    ensures EntriesAligned(commands, MaxLen(commands), w, Listing(commands, MaxLen(commands), w).lines)
  {
    ListingEntries(commands, MaxLen(commands), w);
  }

  lemma {:induction false} ListingEntries(commands: seq<(string, string)>, width: nat, w: World)
    requires forall i :: 0 <= i < |commands| ==> |commands[i].0| <= width
    ensures EntriesAligned(commands, width, w, Listing(commands, width, w).lines)
    decreases |commands|
  {
    if commands != [] {
      var front := commands[..|commands| - 1];
      ListingEntries(front, width, w);
      var l := Listing(commands, width, w);
      var prev := Listing(front, width, w);
      var last := commands[|commands| - 1];
      forall i | 0 <= i < |l.lines| ensures EntryAligned(commands[i], width, w, l.lines[i]) {
        if i < |prev.lines| {
          assert commands[i] == front[i] && l.lines[i] == prev.lines[i];
        } else {
          assert prev.error.None? && Describe(w, last.1).Done? && i == |front|;
          var e := Entry(last.0, Describe(w, last.1).value, width);
          assert l.lines[i] == e;
          var pad := "  " + Commands.Pad(last.0, width + 2);
          assert e == pad + Describe(w, last.1).value;
          assert |pad| == width + 4;
          assert e[..width + 4] == pad && e[width + 4..] == Describe(w, last.1).value;
        }
      }
    }
  }
}
