/**
 * Console/Command.php: the base of every console command. It parses argv
 * into positional arguments and options, looks arguments up by position or
 * by their placeholder name in the signature, extracts the command name
 * from the signature, and prints tables whose columns fit their widest
 * cell.
 */
module Commands {
  import opened Php
  import opened Helpers

  const SUCCESS: int := 0
  const FAILURE: int := 1

  // ---------------------------------------------------------------------
  // argv

  /** How `parseArguments` reads one token. */
  datatype Token = LongOption(name: string, value: Value) | ShortOption(name: string) | Positional(arg: string)

  /** `--name=value` (value: everything after the first '='), `--name`
      (true), `-rest` (rest is true, never a value), anything else a
      positional argument. The token is enough to spell the argument again. */
  function Classify(arg: string): (t: Token)
    ensures t.Positional? <==> !("-" <= arg)
    ensures t.Positional? ==> t.arg == arg
    ensures t.ShortOption? ==> arg == "-" + t.name && !("-" <= t.name)
    ensures t.LongOption? ==> '=' !in t.name && (t.value == Bool(true) || t.value.Str?)
    ensures t.LongOption? ==> arg == "--" + t.name + (if t.value.Str? then "=" + t.value.s else "")
  {
    if StrStartsWith(arg, "--") then
      var parts := SplitOnce(arg[2..], '=');
      assert arg == "--" + arg[2..];
      LongOption(parts[0], if |parts| == 2 then Str(parts[1]) else Bool(true))
    else if StrStartsWith(arg, "-") then
      assert arg == "-" + arg[1..];
      ShortOption(arg[1..])
    else Positional(arg)
  }

  /** The option a token sets, and to what. */
  function OptionSet(t: Token): Option<(string, Value)> {
    match t
    case LongOption(n, v) => Some((n, v))
    case ShortOption(n) => Some((n, Bool(true)))
    case Positional(_) => None
  }

  /** The arguments and options collected so far. */
  datatype Parsed = Parsed(arguments: seq<string>, options: map<string, Value>)

  /** One pass of the loop in `parseArguments`: a token not starting with
      '-' is the next argument; any other sets an option, keeping the rest. */
  function Step(p: Parsed, arg: string): (r: Parsed)
    ensures !("-" <= arg) ==> r.arguments == p.arguments + [arg] && r.options == p.options
    ensures "-" <= arg ==> r.arguments == p.arguments && r.options.Keys == p.options.Keys + {OptionSet(Classify(arg)).value.0}
  {
    var t := Classify(arg);
    match OptionSet(t)
    case Some(o) => p.(options := p.options[o.0 := o.1])
    case None => p.(arguments := p.arguments + [arg])
  }

  /** The loop of `parseArguments` over `args`, starting from `p`. */
  function ParseAll(p: Parsed, args: seq<string>): (r: Parsed)
    ensures p.arguments <= r.arguments && |r.arguments| <= |p.arguments| + |args|
    ensures p.options.Keys <= r.options.Keys
    ensures forall i :: |p.arguments| <= i < |r.arguments| ==> r.arguments[i] in args && !("-" <= r.arguments[i])
    decreases |args|
  {
    if args == [] then p else Step(ParseAll(p, args[..|args| - 1]), args[|args| - 1])
  }

  lemma ParseAllNext(p: Parsed, args: seq<string>, i: nat)
    requires i < |args|
    ensures ParseAll(p, args[..i + 1]) == Step(ParseAll(p, args[..i]), args[i])
  {
    assert args[..i + 1][..i] == args[..i];
  }

  /** `Step` spelled as the branches of the loop in `parseArguments`. */
  lemma StepCases(p: Parsed, arg: string)
    ensures StrStartsWith(arg, "--") ==>
      var parts := SplitOnce(arg[2..], '=');
      Step(p, arg) == p.(options := p.options[parts[0] := if |parts| == 2 then Str(parts[1]) else Bool(true)])
    ensures !StrStartsWith(arg, "--") && StrStartsWith(arg, "-") ==>
      Step(p, arg) == p.(options := p.options[arg[1..] := Bool(true)])
    ensures !StrStartsWith(arg, "-") ==> Step(p, arg) == p.(arguments := p.arguments + [arg])
  {
  }

  /** `array_slice($argv, 2)`. */
  function Slice2(argv: seq<string>): (r: seq<string>)
    ensures |argv| >= 2 ==> r == argv[2..]
    ensures |argv| < 2 ==> r == []
  {
    if |argv| <= 2 then [] else argv[2..]
  }

  /** The tokens of `args` that are not options, in order. */
  function Positionals(args: seq<string>): (r: seq<string>)
    ensures forall a :: a in r ==> a in args && !("-" <= a)
    decreases |args|
  {
    if args == [] then []
    else Positionals(args[..|args| - 1]) + (if "-" <= args[|args| - 1] then [] else [args[|args| - 1]])
  }

  /** The positional arguments are exactly the tokens that do not start
      with '-', in their order. */
  lemma {:induction false} ParsePositionals(p: Parsed, args: seq<string>)
    ensures ParseAll(p, args).arguments == p.arguments + Positionals(args)
    decreases |args|
  {
    if args != [] {
      var last := args[|args| - 1];
      var q := ParseAll(p, args[..|args| - 1]);
      ParsePositionals(p, args[..|args| - 1]);
      assert Step(q, last).arguments == q.arguments + (if "-" <= last then [] else [last]);
    }
  }

  /** A repeated option keeps the value of its last occurrence. */
  lemma {:induction false} LastOptionWins(p: Parsed, pre: seq<string>, arg: string, post: seq<string>)
    requires OptionSet(Classify(arg)).Some?
    requires forall i :: 0 <= i < |post| ==>
      OptionSet(Classify(post[i])).None? || OptionSet(Classify(post[i])).value.0 != OptionSet(Classify(arg)).value.0
    ensures var o := OptionSet(Classify(arg)).value;
      o.0 in ParseAll(p, pre + [arg] + post).options && ParseAll(p, pre + [arg] + post).options[o.0] == o.1
    decreases |post|
  {
    if post == [] {
      assert pre + [arg] + post == pre + [arg];
      assert (pre + [arg])[..|pre|] == pre;
    } else {
      var front := post[..|post| - 1];
      assert pre + [arg] + post == (pre + [arg] + front) + [post[|post| - 1]];
      assert (pre + [arg] + post)[..|pre + [arg] + post| - 1] == pre + [arg] + front;
      LastOptionWins(p, pre, arg, front);
    }
  }

  /** What a token with a value looks like: `--name=value` gives the whole
      rest after the first '=', even when it holds more '='. */
  lemma LongOptionWithValue(name: string, value: string)
    requires '=' !in name
    ensures Classify("--" + name + "=" + value) == LongOption(name, Str(value))
  {
    var arg := "--" + name + "=" + value;
    assert arg[2..] == name + ['='] + value;
    SplitOnceOf(name, '=', value);
  }

  /** `-xyz` is the option `xyz` set to true, even `-x=3`. */
  lemma ShortOptionIsFlag(rest: string)
    requires !("-" <= rest)
    ensures Classify("-" + rest) == ShortOption(rest)
  {
    var arg := "-" + rest;
    assert arg[1..] == rest;
  }

  // ---------------------------------------------------------------------
  // Signature placeholders

  /** Whether `{(\w+)\??}` matches at the start of `s`, and where the
      match ends. */
  function PlaceholderAt(s: string): (r: Option<nat>)
    ensures r.Some? ==> 0 < r.value <= |s|
  {
    if 0 < |s| && s[0] == '{' then
      var k := WordRun(s, 1);
      var j := 1 + k;
      if k == 0 then None
      else if j < |s| && s[j] == '}' then Some(j + 1)
      else if j + 1 < |s| && s[j] == '?' && s[j + 1] == '}' then Some(j + 2)
      else None
    else None
  }

  /** The names `preg_match_all('/{(\w+)\??}/')` captures: scanning resumes
      after each match, or one character further when none starts here. */
  function PlaceholderNames(s: string): (r: seq<string>)
    ensures |r| <= |s|
    ensures forall i :: 0 <= i < |r| ==> Word(r[i])
    decreases |s|
  {
    if s == [] then []
    else
      var m := PlaceholderAt(s);
      if m.Some? then [s[1..1 + WordRun(s, 1)]] + PlaceholderNames(s[m.value..])
      else PlaceholderNames(s[1..])
  }

  /** Text without '{' holds no placeholder. */
  lemma {:induction false} NoBraceSkipped(p: string, r: string)
    requires '{' !in p
    ensures PlaceholderNames(p + r) == PlaceholderNames(r)
    decreases |p|
  {
    if p != [] {
      var s := p + r;
      assert s[0] == p[0] && p[0] in p;
      assert s[1..] == p[1..] + r;
      assert forall c :: c in p[1..] ==> c in p;
      NoBraceSkipped(p[1..], r);
    } else {
      assert p + r == r;
    }
  }

  /** `{name}` and `{name?}` each contribute their name. */
  lemma PlaceholderFound(name: string, close: string, r: string)
    requires close == "}" || close == "?}"
    requires |name| > 0 && forall i :: 0 <= i < |name| ==> IsWordChar(name[i])
    ensures PlaceholderNames("{" + name + close + r) == [name] + PlaceholderNames(r)
  {
    var ph := "{" + name + close;
    var s := ph + r;
    assert WordRun(s, 1) == |name| by {
      WordRunFrom(s, 1, |name|);
    }
    assert s[1..1 + |name|] == name;
    assert PlaceholderAt(s) == Some(|ph|);
    assert s[|ph|..] == r;
  }

  lemma {:induction false} WordRunFrom(s: string, j: nat, k: nat)
    requires j + k <= |s| && forall i :: j <= i < j + k ==> IsWordChar(s[i])
    requires j + k == |s| || !IsWordChar(s[j + k])
    ensures WordRun(s, j) == k
    decreases k
  {
    if k > 0 {
      WordRunFrom(s, j + 1, k - 1);
    }
  }

  /** `{--name}` is not a placeholder: it is skipped. */
  lemma OptionPlaceholderSkipped(name: string, r: string)
    requires '{' !in name
    ensures PlaceholderNames("{--" + name + "}" + r) == PlaceholderNames(r)
  {
    var s := "{--" + name + "}" + r;
    assert WordRun(s, 1) == 0;
    var tail := "--" + name + "}";
    assert s[1..] == tail + r;
    NoBraceSkipped(tail, r);
  }

  // ---------------------------------------------------------------------
  // Command name

  predicate NameChar(c: char) { !IsSpace(c) && c != '{' }

  function NameRun(s: string, i: nat): (k: nat)
    requires i <= |s|
    ensures i + k <= |s| && forall j :: i <= j < i + k ==> NameChar(s[j])
    ensures i + k == |s| || !NameChar(s[i + k])
    decreases |s| - i
  {
    if i == |s| || !NameChar(s[i]) then 0 else 1 + NameRun(s, i + 1)
  }

  /** `getSignature`: the leading run of characters that are neither
      whitespace nor '{', or the whole signature when that run is empty. */
  function CommandName(signature: string): (r: string)
    ensures signature == [] || !NameChar(signature[0]) ==> r == signature
    ensures signature != [] && NameChar(signature[0]) ==>
      r != [] && r <= signature && (forall j :: 0 <= j < |r| ==> NameChar(r[j]))
      && (|r| == |signature| || !NameChar(signature[|r|]))
  {
    var k := NameRun(signature, 0);
    if k == 0 then signature else signature[..k]
  }

  /** A name followed by a space or a placeholder is what `getSignature`
      gives back. */
  lemma CommandNameOf(name: string, rest: string)
    requires name != [] && forall j :: 0 <= j < |name| ==> NameChar(name[j])
    requires rest == [] || !NameChar(rest[0])
    ensures CommandName(name + rest) == name
  {
    var s := name + rest;
    var r := CommandName(s);
    assert NameChar(s[0]);
    assert forall j :: 0 <= j < |name| ==> NameChar(s[j]);
    assert |name| == |s| || !NameChar(s[|name|]);
    assert forall j :: 0 <= j < |r| ==> NameChar(s[j]);
    assert |r| == |name|;
    assert r == s[..|r|];
  }

  // ---------------------------------------------------------------------
  // Tables

  function Max(a: nat, b: nat): nat { if a < b then b else a }

  /** `strlen` of the i-th cell, 0 when the row has none. */
  function CellLen(cells: seq<string>, i: nat): nat {
    if i < |cells| then |cells[i]| else 0
  }

  function ColumnCount(headers: seq<string>, rows: seq<seq<string>>): (n: nat)
    ensures n >= |headers| && forall r :: 0 <= r < |rows| ==> n >= |rows[r]|
    decreases |rows|
  {
    if rows == [] then |headers|
    else Max(ColumnCount(headers, rows[..|rows| - 1]), |rows[|rows| - 1]|)
  }

  /** The widest header or cell in column `i`. */
  function ColumnWidth(headers: seq<string>, rows: seq<seq<string>>, i: nat): (w: nat)
    ensures w >= CellLen(headers, i) && forall r :: 0 <= r < |rows| ==> w >= CellLen(rows[r], i)
    ensures w == CellLen(headers, i) || exists r :: 0 <= r < |rows| && w == CellLen(rows[r], i)
    decreases |rows|
  {
    if rows == [] then CellLen(headers, i)
    else
      var front := rows[..|rows| - 1];
      var w0 := ColumnWidth(headers, front, i);
      assert forall r :: 0 <= r < |front| ==> rows[r] == front[r];
      Max(w0, CellLen(rows[|rows| - 1], i))
  }

  /** `$columnWidths` after the two width loops of `table`. */
  function Widths(headers: seq<string>, rows: seq<seq<string>>): (ws: seq<nat>)
    ensures |ws| == ColumnCount(headers, rows)
  {
    seq(ColumnCount(headers, rows), i requires 0 <= i => ColumnWidth(headers, rows, i))
  }

  lemma {:induction false} WidthBeyond(headers: seq<string>, rows: seq<seq<string>>, i: nat)
    requires i >= ColumnCount(headers, rows)
    ensures ColumnWidth(headers, rows, i) == 0
    decreases |rows|
  {
    if rows != [] {
      WidthBeyond(headers, rows[..|rows| - 1], i);
    }
  }

  /** One more cell updates the width of its own column only. */
  lemma WidthsStep(headers: seq<string>, rows: seq<seq<string>>, row: seq<string>, cell: string)
    ensures var w := Widths(headers, rows + [row]);
      |row| <= |w|
      && Widths(headers, rows + [row + [cell]])
         == if |row| < |w| then w[|row| := Max(w[|row|], |cell|)] else w + [|cell|]
  {
    var w := Widths(headers, rows + [row]);
    var w' := Widths(headers, rows + [row + [cell]]);
    assert (rows + [row])[..|rows|] == rows;
    assert (rows + [row + [cell]])[..|rows|] == rows;
    if |row| >= |w| {
      WidthBeyond(headers, rows, |row|);
    }
    var expected := if |row| < |w| then w[|row| := Max(w[|row|], |cell|)] else w + [|cell|];
    assert |w'| == |expected|;
    forall i | 0 <= i < |w'| ensures w'[i] == expected[i] {
      assert CellLen(row + [cell], i) == if i == |row| then |cell| else CellLen(row, i);
    }
  }

  /** One pass of the inner width loop of `table`. */
  lemma WidenStep(headers: seq<string>, done: seq<seq<string>>, row: seq<string>, c: nat, prev: seq<nat>)
    requires c < |row| && prev == Widths(headers, done + [row[..c]])
    ensures var w := Max(WidthAt(prev, c), |row[c]|);
      Widths(headers, done + [row[..c + 1]]) == if c < |prev| then prev[c := w] else prev + [w]
  {
    WidthsStep(headers, done, row[..c], row[c]);
    assert row[..c] + [row[c]] == row[..c + 1];
  }

  /** A row without cells changes no width. */
  lemma WidthsEmptyRow(headers: seq<string>, rows: seq<seq<string>>)
    ensures Widths(headers, rows + [[]]) == Widths(headers, rows)
  {
    assert (rows + [[]])[..|rows|] == rows;
  }

  function Repeat(c: char, n: nat): (r: string)
    ensures |r| == n && forall i :: 0 <= i < n ==> r[i] == c
  {
    seq(n, _ => c)
  }

  /** `str_pad($s, $w)`: spaces on the right up to `w`, never truncating. */
  function Pad(s: string, w: nat): (r: string)
    ensures |r| == Max(|s|, w) && s <= r
  {
    if |s| >= w then s else s + Repeat(' ', w - |s|)
  }

  /** `$widths[$i] ?? 0` */
  function WidthAt(widths: seq<nat>, i: nat): nat {
    if i < |widths| then widths[i] else 0
  }

  /** The line `printTableRow` prints. */
  function RowLine(cells: seq<string>, widths: seq<nat>): (r: string)
    ensures |r| >= 1 + 3 * |cells| && r[0] == '|'
    decreases |cells|
  {
    if cells == [] then "|"
    else
      var k := |cells| - 1;
      RowLine(cells[..k], widths) + " " + Pad(cells[k], WidthAt(widths, k)) + " |"
  }

  function Sum(ws: seq<nat>): nat
    decreases |ws|
  {
    if ws == [] then 0 else Sum(ws[..|ws| - 1]) + ws[|ws| - 1]
  }

  /** A printed row is one bar plus, per cell, its padded width and three
      characters of frame. */
  lemma {:induction false} RowLineLength(cells: seq<string>, widths: seq<nat>)
    requires |cells| <= |widths| && forall i :: 0 <= i < |cells| ==> |cells[i]| <= widths[i]
    ensures |RowLine(cells, widths)| == Sum(widths[..|cells|]) + 3 * |cells| + 1
    decreases |cells|
  {
    if cells != [] {
      var k := |cells| - 1;
      RowLineLength(cells[..k], widths);
      assert widths[..|cells|][..k] == widths[..k];
    }
  }

  lemma {:induction false} SumSplit(ws: seq<nat>, k: nat)
    requires k <= |ws|
    ensures Sum(ws) == Sum(ws[..k]) + Sum(ws[k..])
    decreases |ws|
  {
    if k < |ws| {
      var front := ws[..|ws| - 1];
      SumSplit(front, k);
      assert front[..k] == ws[..k];
      assert ws[k..][..|ws[k..]| - 1] == front[k..];
    } else {
      assert ws[..k] == ws;
    }
  }

  /** The separator `table` prints under the header. */
  function Separator(headers: seq<string>, widths: seq<nat>): (r: string)
    ensures forall i :: 0 <= i < |r| ==> r[i] == '-'
    ensures |headers| <= |widths| && (forall i :: 0 <= i < |headers| ==> |headers[i]| <= widths[i]) ==>
      |r| == |RowLine(headers, widths)| + Sum(widths[|headers|..])
  {
    var n := Sum(widths) + |headers| * 3 + 1;
    if |headers| <= |widths| && (forall i :: 0 <= i < |headers| ==> |headers[i]| <= widths[i]) then
      RowLineLength(headers, widths);
      SumSplit(widths, |headers|);
      Repeat('-', n)
    else Repeat('-', n)
  }

  function RowLines(rows: seq<seq<string>>, widths: seq<nat>): seq<string>
    decreases |rows|
  {
    if rows == [] then [] else RowLines(rows[..|rows| - 1], widths) + [RowLine(rows[|rows| - 1], widths)]
  }

  lemma AppendTwoThenMore(b: seq<string>, x: string, y: string, more: seq<string>)
    ensures b + [x] + [y] + more == b + ([x, y] + more)
  {
  }

  /** Everything `table` prints. */
  function TableLines(headers: seq<string>, rows: seq<seq<string>>): seq<string> {
    var w := Widths(headers, rows);
    [RowLine(headers, w), Separator(headers, w)] + RowLines(rows, w)
  }

  /** The separator is as long as the header line plus the widths of the
      columns only data rows have; so when no row has more cells than there
      are headers, it is exactly as long as the header line and as every
      row with that many cells. */
  lemma SeparatorLength(headers: seq<string>, rows: seq<seq<string>>)
    ensures var w := Widths(headers, rows);
      |Separator(headers, w)| == |RowLine(headers, w)| + Sum(w[|headers|..])
    ensures var w := Widths(headers, rows);
      (forall r :: 0 <= r < |rows| ==> |rows[r]| <= |headers|) ==>
        |Separator(headers, w)| == |RowLine(headers, w)|
        && forall r :: 0 <= r < |rows| && |rows[r]| == |headers| ==> |RowLine(rows[r], w)| == |Separator(headers, w)|
  {
    var w := Widths(headers, rows);
    RowLineLength(headers, w);
    SumSplit(w, |headers|);
    if forall r :: 0 <= r < |rows| ==> |rows[r]| <= |headers| {
      assert ColumnCount(headers, rows) == |headers| by {
        ColumnCountBound(headers, rows);
      }
      assert w[|headers|..] == [];
      forall r | 0 <= r < |rows| && |rows[r]| == |headers|
        ensures |RowLine(rows[r], w)| == |Separator(headers, w)|
      {
        RowLineLength(rows[r], w);
      }
    }
  }

  lemma {:induction false} ColumnCountBound(headers: seq<string>, rows: seq<seq<string>>)
    requires forall r :: 0 <= r < |rows| ==> |rows[r]| <= |headers|
    ensures ColumnCount(headers, rows) == |headers|
    decreases |rows|
  {
    if rows != [] {
      ColumnCountBound(headers, rows[..|rows| - 1]);
    }
  }

  // ---------------------------------------------------------------------
  // ask

  /** The trimmed answer: `line` is what `fgets(STDIN)` read, None at end of
      input (`trim(false)` is the empty string). */
  function Answer(line: Option<string>): string {
    Trim(if line.Some? then line.value else "")
  }

  /** `ask($question, $default)` as written: `$answer ?: $default` goes out
      through a `string` return type, so a falsy answer ("" or "0") with no
      default is a TypeError. */
  function AskAsWritten(line: Option<string>, default: Option<string>): (r: Outcome<string>)
    ensures Truthy(Str(Answer(line))) ==> r == Done(Answer(line))
    ensures !Truthy(Str(Answer(line))) && default.Some? ==> r == Done(default.value)
    ensures !Truthy(Str(Answer(line))) && default.None? ==> r.Thrown? && r.error.InstanceOf("TypeError")
  {
    var answer := Answer(line);
    if Truthy(Str(answer)) then Done(answer)
    else if default.Some? then Done(default.value)
    else Thrown(NewTypeError("Return value must be of type string, null returned"))
  }

  /** `ask` as its callers use it: a falsy answer gives the default, or the
      empty string when there is none. It never throws, and agrees with the
      code as written whenever that returns. */
  function Ask(line: Option<string>, default: Option<string>): (r: string)
    ensures AskAsWritten(line, default).Done? ==> r == AskAsWritten(line, default).value
    ensures default.None? && !Truthy(Str(Answer(line))) ==> r == ""
  {
    var answer := Answer(line);
    if Truthy(Str(answer)) then answer
    else if default.Some? then default.value
    else ""
  }

  // ---------------------------------------------------------------------
  // The command object

  class Command {
    const signature: string
    var arguments: seq<string>
    var options: map<string, Value>
    /** The lines printed so far. */
    var out: seq<string>

    constructor(signature: string)
      ensures this.signature == signature && arguments == [] && options == map[] && out == []
    {
      this.signature := signature;
      arguments, options, out := [], map[], [];
    }

    /** `initialize($argv)`: the first two entries (script and command
        name) are skipped; the rest are added to what earlier calls
        collected. */
    method Initialize(argv: seq<string>)
      modifies this
      ensures Parsed(arguments, options) == ParseAll(Parsed(old(arguments), old(options)), Slice2(argv))
      ensures out == old(out)
    {
      var args := Slice2(argv);
      var i := 0;
      while i < |args|
        invariant 0 <= i <= |args| && out == old(out)
        invariant Parsed(arguments, options) == ParseAll(Parsed(old(arguments), old(options)), args[..i])
      {
        ParseAllNext(Parsed(old(arguments), old(options)), args, i);
        ParseOne(args[i]);
        i := i + 1;
      }
      assert args[..i] == args;
    }

    /** The body of the loop in `parseArguments`, for one token. */
    method ParseOne(arg: string)
      modifies this
      ensures Parsed(arguments, options) == Step(Parsed(old(arguments), old(options)), arg)
      ensures out == old(out)
    {
      StepCases(Parsed(arguments, options), arg);
      if StrStartsWith(arg, "--") {
        var parts := SplitOnce(arg[2..], '=');
        options := options[parts[0] := if |parts| == 2 then Str(parts[1]) else Bool(true)];
      } else if StrStartsWith(arg, "-") {
        options := options[arg[1..] := Bool(true)];
      } else {
        arguments := arguments + [arg];
      }
    }

    /** `argument($i)` for an integer key. */
    function ArgumentAt(i: int, default: Value): (r: Value)
      reads this
      ensures 0 <= i < |arguments| ==> r == Str(arguments[i])
      ensures !(0 <= i < |arguments|) ==> r == default
    {
      if 0 <= i < |arguments| then Str(arguments[i]) else default
    }

    /** `argument($name)`: the positional argument at the position of the
        first `{name}` or `{name?}` among the signature's placeholders. */
    function ArgumentNamed(name: string, default: Value): (r: Value)
      reads this
      ensures name !in PlaceholderNames(signature) ==> r == default
      ensures forall k :: FirstIndex(PlaceholderNames(signature), name, k) ==> r == ArgumentAt(k, default)
    {
      var names := PlaceholderNames(signature);
      match IndexOf(names, name)
      case None => default
      case Some(k) => ArgumentAt(k, default)
    }

    /** `option($key, $default)`. */
    function Option(key: string, default: Value): (r: Value)
      reads this
      ensures key in options ==> r == options[key]
      ensures key !in options ==> r == default
    {
      if key in options then options[key] else default
    }

    /** `getSignature()`: the command's name, the signature up to its first
        space or brace. */
    function GetSignature(): (r: string)
      reads this
      ensures r == CommandName(signature)
      ensures r <= signature && (|r| == |signature| || !NameChar(signature[|r|]))
    {
      CommandName(signature)
    }

    method Line(message: string)
      modifies this
      ensures out == old(out) + [message]
      ensures arguments == old(arguments) && options == old(options)
    {
      out := out + [message];
    }

    /** `printTableRow($cells, $widths)`. */
    method PrintTableRow(cells: seq<string>, widths: seq<nat>)
      modifies this
      ensures out == old(out) + [RowLine(cells, widths)]
      ensures arguments == old(arguments) && options == old(options)
    {
      var line := "|";
      var i := 0;
      while i < |cells|
        invariant 0 <= i <= |cells| && line == RowLine(cells[..i], widths)
      {
        assert cells[..i + 1][..i] == cells[..i];
        line := line + " " + Pad(cells[i], WidthAt(widths, i)) + " |";
        i := i + 1;
      }
      assert cells[..i] == cells;
      Line(line);
    }

    /** `table($headers, $rows)`: the header row, a separator as wide as
        the columns and their frames, then every row, all padded to the
        column widths. */
    method Table(headers: seq<string>, rows: seq<seq<string>>)
      modifies this
      ensures out == old(out) + TableLines(headers, rows)
      ensures arguments == old(arguments) && options == old(options)
    {
      var widths := MeasureColumns(headers, rows);
      ghost var before := out;
      PrintTableRow(headers, widths);
      Line(Separator(headers, widths));
      ghost var top := out;
      PrintRows(rows, widths);
      assert out == before + TableLines(headers, rows) by {
        AppendTwoThenMore(before, RowLine(headers, widths), Separator(headers, widths), RowLines(rows, widths));
      }
    }

    /** The last loop of `table`. */
    method PrintRows(rows: seq<seq<string>>, widths: seq<nat>)
      modifies this
      ensures out == old(out) + RowLines(rows, widths)
      ensures arguments == old(arguments) && options == old(options)
    {
      var k := 0;
      while k < |rows|
        invariant 0 <= k <= |rows| && arguments == old(arguments) && options == old(options)
        invariant out == old(out) + RowLines(rows[..k], widths)
      {
        assert rows[..k + 1][..k] == rows[..k];
        PrintTableRow(rows[k], widths);
        k := k + 1;
      }
      assert rows[..k] == rows;
    }
  }

  /** The width loops of `table`: every header, then every cell, widens its
      column to its own length. */
  method MeasureColumns(headers: seq<string>, rows: seq<seq<string>>) returns (widths: seq<nat>)
    ensures widths == Widths(headers, rows)
  {
    widths := [];
    var i := 0;
    while i < |headers|
      invariant 0 <= i <= |headers| && |widths| == i
      invariant forall j :: 0 <= j < i ==> widths[j] == |headers[j]|
    {
      widths := widths + [|headers[i]|];
      i := i + 1;
    }
    assert widths == Widths(headers, []);
    var r := 0;
    while r < |rows|
      invariant 0 <= r <= |rows| && widths == Widths(headers, rows[..r])
    {
      widths := WidenForRow(headers, rows[..r], rows[r], widths);
      assert rows[..r] + [rows[r]] == rows[..r + 1];
      r := r + 1;
    }
    assert rows[..r] == rows;
  }

  /** The inner loop of `table` over one row's cells. */
  method WidenForRow(headers: seq<string>, done: seq<seq<string>>, row: seq<string>, w0: seq<nat>) returns (widths: seq<nat>)
    requires w0 == Widths(headers, done)
    ensures widths == Widths(headers, done + [row])
  {
    widths := w0;
    WidthsEmptyRow(headers, done);
    var c := 0;
    while c < |row|
      invariant 0 <= c <= |row| && widths == Widths(headers, done + [row[..c]])
    {
      WidenStep(headers, done, row, c, widths);
      var w := Max(WidthAt(widths, c), |row[c]|);
      if c < |widths| {
        widths := widths[c := w];
      } else {
        widths := widths + [w];
      }
      c := c + 1;
    }
    assert row[..c] == row;
  }

  /** `k` is where `x` first occurs in `xs`. */
  predicate FirstIndex(xs: seq<string>, x: string, k: int) {
    0 <= k < |xs| && xs[k] == x && x !in xs[..k]
  }

  /** The first position of `x` in `xs`. */
  function IndexOf(xs: seq<string>, x: string): (r: Option<nat>)
    ensures r.Some? ==> r.value < |xs| && xs[r.value] == x && forall j :: 0 <= j < r.value ==> xs[j] != x
    ensures r.None? <==> x !in xs
    decreases |xs|
  {
    if xs == [] then None
    else if xs[0] == x then Some(0)
    else
      var r := IndexOf(xs[1..], x);
      if r.Some? then Some(r.value + 1) else None
  }

  /** The first two entries of argv never matter. */
  lemma ScriptAndCommandIgnored(p: Parsed, a: string, b: string, c: string, d: string, rest: seq<string>)
    ensures ParseAll(p, Slice2([a, b] + rest)) == ParseAll(p, Slice2([c, d] + rest))
  {
    assert ([a, b] + rest)[2..] == rest == ([c, d] + rest)[2..];
  }

  /** In a signature shaped like `make:command {name} {--force}` (or with
      `{name?}`) the only argument placeholder is the name: the option
      placeholder does not count. */
  lemma NameThenOptionPlaceholders(cmd: string, name: string, close: string, opt: string)
    requires '{' !in cmd && '{' !in opt && (close == "}" || close == "?}")
    requires |name| > 0 && forall j :: 0 <= j < |name| ==> IsWordChar(name[j])
    ensures PlaceholderNames(cmd + (" {" + name + close + " {--" + opt + "}")) == [name]
  {
    var tail := " {--" + opt + "}";
    var x := "{" + name + close + tail;
    SignatureParts(cmd, name, close, opt);
    NoBraceSkipped(cmd + " ", x);
    PlaceholderFound(name, close, tail);
    OptionTailEmpty(opt);
    assert [name] + [] == [name];
  }

  lemma SignatureParts(cmd: string, name: string, close: string, opt: string)
    ensures cmd + (" {" + name + close + " {--" + opt + "}") == (cmd + " ") + ("{" + name + close + (" {--" + opt + "}"))
  {
  }

  /** A trailing ` {--opt}` contributes no placeholder. */
  lemma OptionTailEmpty(opt: string)
    requires '{' !in opt
    ensures PlaceholderNames(" {--" + opt + "}") == []
  {
    var o := "{--" + opt + "}";
    NoBraceSkipped(" ", o);
    assert " {--" + opt + "}" == " " + o;
    OptionPlaceholderSkipped(opt, []);
    assert o + [] == o;
  }
}
