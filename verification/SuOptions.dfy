/** The option loop of su_main (jni/su/su.c), over getopt_long with the options "+c:hlmps:Vv": short options in
    clusters, values glued or separate, long names that may be cut short.  The loop stops at the first
    argument that is no option. */
module SuOptions {
  import opened Wrappers

  const DEFAULT_SHELL := "/system/bin/sh"

  // ------------------------------------------------------------------ getopt_long

  /** Where the scan is: argument `i`, and inside a cluster its letter `j`. */
  datatype Spot = Spot(i: nat, j: nat)

  datatype Event = Given(c: char, value: Option<string>) | Wrong | NoMore

  datatype Step = Step(event: Event, next: Spot)

  predicate IsOption(a: string) { |a| >= 2 && a[0] == '-' }

  predicate TakesValue(c: char) { c == 'c' || c == 's' }

  predicate Known(c: char) { c in {'c', 'h', 'l', 'm', 'p', 's', 'V', 'v'} }

  /** The letter that a long name, or the beginning of one, stands for. */
  function LongName(name: string): Option<char> {
    if name == "" then None
    else if name <= "command" then Some('c')
    else if name <= "help" then Some('h')
    else if name <= "login" then Some('l')
    else if name <= "preserve-environment" then Some('p')
    else if name <= "shell" then Some('s')
    else if name <= "version" then Some('v')
    else None
  }

  function EqualsAt(s: string): (n: nat)
    ensures n <= |s| && '=' !in s[..n] && (n < |s| ==> s[n] == '=')
  {
    if s == "" || s[0] == '=' then 0 else 1 + EqualsAt(s[1..])
  }

  predicate InScan(args: seq<string>, p: Spot) { p.j == 0 || (p.i < |args| && p.j < |args[p.i]|) }

  /** The value is what is left of the argument, or else the next argument. */
  function TakeValue(args: seq<string>, i: nat, c: char, glued: Option<string>): Step
    requires i < |args|
  {
    if glued.Some? then Step(Given(c, glued), Spot(i + 1, 0))
    else if i + 1 < |args| then Step(Given(c, Some(args[i + 1])), Spot(i + 2, 0))
    else Step(Wrong, Spot(i + 1, 0))
  }

  function ShortOption(args: seq<string>, i: nat, j: nat): Step
    requires i < |args| && 0 < j < |args[i]|
  {
    var c, last := args[i][j], j + 1 == |args[i]|;
    if TakesValue(c) then TakeValue(args, i, c, if last then None else Some(args[i][j + 1..]))
    else Step(if Known(c) then Given(c, None) else Wrong, if last then Spot(i + 1, 0) else Spot(i, j + 1))
  }

  function LongOption(args: seq<string>, i: nat): Step
    requires i < |args| && |args[i]| > 2
  {
    var text := args[i][2..];
    var n := EqualsAt(text);
    var c, value := LongName(text[..n]), if n < |text| then Some(text[n + 1..]) else None;
    if c.None? then Step(Wrong, Spot(i + 1, 0))
    else if TakesValue(c.value) then TakeValue(args, i, c.value, value)
    else Step(if value.None? then Given(c.value, None) else Wrong, Spot(i + 1, 0))
  }

  /** One call of getopt_long; `next.i` is optind. */
  function GetOption(args: seq<string>, p: Spot): Step
    requires InScan(args, p)
  {
    if p.j > 0 then ShortOption(args, p.i, p.j)
    else if p.i >= |args| || !IsOption(args[p.i]) then Step(NoMore, p)
    else if args[p.i] == "--" then Step(NoMore, Spot(p.i + 1, 0))
    else if args[p.i][1] == '-' then LongOption(args, p.i)
    else ShortOption(args, p.i, 1)
  }

  /** Letters still to be read, roughly. */
  function Distance(args: seq<string>, p: Spot): int {
    if p.i < |args| then |args[p.i]| - p.j else 0
  }

  lemma GetOptionAdvances(args: seq<string>, p: Spot)
    requires InScan(args, p) && GetOption(args, p).event.Given?
    ensures var q := GetOption(args, p).next;
      InScan(args, q) && p.i <= q.i <= |args| && (q.i > p.i || (p.j < q.j && Distance(args, q) < Distance(args, p)))
  {}

  // ------------------------------------------------------------------ the loop

  datatype Choice = Choice(command: Option<string>, shell: Option<string>, login: bool, keepenv: bool)

  const NOTHING := Choice(None, None, false, false)

  /** The switch of the loop; None where it exits. */
  function Choose(ch: Choice, c: char, value: Option<string>): Option<Choice> {
    match c
    case 'c' => Some(ch.(shell := Some(DEFAULT_SHELL), command := value))
    case 'l' => Some(ch.(login := true))
    case 'm' => Some(ch.(keepenv := true))
    case 'p' => Some(ch.(keepenv := true))
    case 's' => Some(ch.(shell := value))
    case _ => None
  }

  /** What the options come to and optind behind them, or an exit with help, version or a complaint. */
  datatype Outcome = Chosen(choice: Choice, index: nat) | Leaves

  function ReadFrom(args: seq<string>, p: Spot, ch: Choice): Outcome
    requires InScan(args, p)
    decreases |args| - p.i, Distance(args, p)
  {
    var s := GetOption(args, p);
    match s.event
    case NoMore => Chosen(ch, s.next.i)
    case Wrong => Leaves
    case Given(c, value) =>
      GetOptionAdvances(args, p);
      var r := Choose(ch, c, value);
      if r.None? then Leaves else ReadFrom(args, s.next, r.value)
  }

  function ReadOptions(args: seq<string>): Outcome { ReadFrom(args, Spot(1, 0), NOTHING) }

  method OptionLoop(args: seq<string>) returns (r: Outcome)
    ensures r == ReadOptions(args)
  {
    var p, ch := Spot(1, 0), NOTHING;
    var s := GetOption(args, p);
    while s.event != NoMore
      invariant InScan(args, p) && s == GetOption(args, p)
      invariant ReadFrom(args, p, ch) == ReadOptions(args)
      decreases |args| - p.i, Distance(args, p)
    {
      if s.event.Wrong? { return Leaves; }
      var next := Choose(ch, s.event.c, s.event.value);
      if next.None? { return Leaves; }
      GetOptionAdvances(args, p);
      p, ch := s.next, next.value;
      s := GetOption(args, p);
    }
    r := Chosen(ch, s.next.i);
  }

  // ------------------------------------------------------------------ where the loop stops

  /** optind stays within argv, except for an empty vector, where it is 1. */
  lemma {:induction false} IndexBound(args: seq<string>, p: Spot, ch: Choice)
    requires InScan(args, p) && p.i <= |args| && ReadFrom(args, p, ch).Chosen?
    ensures p.i <= ReadFrom(args, p, ch).index <= |args|
    decreases |args| - p.i, Distance(args, p)
  {
    var s := GetOption(args, p);
    if s.event.Given? {
      GetOptionAdvances(args, p);
      IndexBound(args, s.next, Choose(ch, s.event.c, s.event.value).value);
    }
  }

  lemma OptionsIndex(args: seq<string>)
    requires ReadOptions(args).Chosen?
    ensures args != [] ==> 1 <= ReadOptions(args).index <= |args|
    ensures args == [] ==> ReadOptions(args) == Chosen(NOTHING, 1)
  {
    if args != [] { IndexBound(args, Spot(1, 0), NOTHING); }
  }

  /** The loop sets a shell whenever it sets a command. */
  lemma {:induction false} CommandNeedsShell(args: seq<string>, p: Spot, ch: Choice)
    requires InScan(args, p) && ReadFrom(args, p, ch).Chosen? && (ch.command.Some? ==> ch.shell.Some?)
    ensures var r := ReadFrom(args, p, ch).choice; r.command.Some? ==> r.shell.Some?
    decreases |args| - p.i, Distance(args, p)
  {
    var s := GetOption(args, p);
    if s.event.Given? {
      GetOptionAdvances(args, p);
      ValuesGiven(args, p);
      CommandNeedsShell(args, s.next, Choose(ch, s.event.c, s.event.value).value);
    }
  }

  lemma ValuesGiven(args: seq<string>, p: Spot)
    requires InScan(args, p) && GetOption(args, p).event.Given?
    ensures var e := GetOption(args, p).event; TakesValue(e.c) <==> e.value.Some?
  {}

  // ------------------------------------------------------------------ commands glued to their option

  /** From letter `j` on, a cluster reaches `c` with a value glued to it. */
  predicate GluesShort(a: string, j: nat)
    decreases |a| - j
  {
    j + 1 < |a| && (a[j] == 'c' || (a[j] in {'l', 'm', 'p'} && GluesShort(a, j + 1)))
  }

  /** The argument gives a command and its value by itself: `-cls`, `-lcls`, `--command=ls`, `--com=ls`. */
  predicate Glues(a: string) {
    IsOption(a) &&
      if a[1] == '-' then
        var n := EqualsAt(a[2..]);
        n < |a[2..]| && n > 0 && a[2..][..n] <= "command"
      else GluesShort(a, 1)
  }

  lemma PrefixOfCommand(name: string)
    ensures LongName(name) == Some('c') <==> name != "" && name <= "command"
  {}

  /** With a single argument, a cluster yields a command exactly if one is glued to it. */
  lemma {:induction false} OneCluster(args: seq<string>, j: nat, ch: Choice)
    requires |args| == 2 && 0 < j < |args[1]| && ch.command.None?
    ensures var r := ReadFrom(args, Spot(1, j), ch);
      GluesShort(args[1], j) <==> r.Chosen? && r.choice.command.Some?
    decreases |args[1]| - j
  {
    var s := GetOption(args, Spot(1, j));
    if s.event.Given? {
      GetOptionAdvances(args, Spot(1, j));
      var r := Choose(ch, s.event.c, s.event.value);
      if r.Some? && s.next.j > 0 { OneCluster(args, j + 1, r.value); }
    }
  }

  lemma OneLong(args: seq<string>)
    requires |args| == 2 && |args[1]| > 2 && args[1][..2] == "--"
    ensures var s, r := LongOption(args, 1), ReadOptions(args);
      r.Chosen? && r.choice.command.Some? <==> s.event.Given? && s.event.c == 'c'
  {
    var s := LongOption(args, 1);
    assert args[1][0] == args[1][..2][0] && args[1][1] == args[1][..2][1];
    assert s == GetOption(args, Spot(1, 0));
    if s.event.Given? {
      ValuesGiven(args, Spot(1, 0));
      var r := Choose(NOTHING, s.event.c, s.event.value);
      if r.Some? { assert ReadFrom(args, s.next, r.value) == Chosen(r.value, 2); }
    }
  }

  lemma OneArgument(args: seq<string>)
    requires |args| == 2
    ensures var r := ReadOptions(args);
      Glues(args[1]) <==> r.Chosen? && r.choice.command.Some?
  {
    var a, p := args[1], Spot(1, 0);
    if IsOption(a) && a != "--" {
      if a[1] == '-' {
        PrefixOfCommand(a[2..][..EqualsAt(a[2..])]);
        OneLong(args);
      } else {
        var s := GetOption(args, p);
        assert s == GetOption(args, Spot(1, 1));
        OneCluster(args, 1, NOTHING);
        assert ReadFrom(args, p, NOTHING) == ReadFrom(args, Spot(1, 1), NOTHING);
      }
    }
  }

  /** A command takes at least one argument off the line. */
  lemma CommandConsumes(args: seq<string>)
    requires ReadOptions(args).Chosen? && ReadOptions(args).choice.command.Some?
    ensures args != [] && 2 <= ReadOptions(args).index <= |args|
  {
    OptionsIndex(args);
    var s := GetOption(args, Spot(1, 0));
    if s.event.Given? {
      GetOptionAdvances(args, Spot(1, 0));
      LeavesArgument(args, s.next, Choose(NOTHING, s.event.c, s.event.value).value);
    }
  }

  /** Once inside an argument, the scan ends behind it. */
  lemma {:induction false} LeavesArgument(args: seq<string>, p: Spot, ch: Choice)
    requires InScan(args, p) && p.i <= |args| && ReadFrom(args, p, ch).Chosen?
    ensures ReadFrom(args, p, ch).index >= if p.j > 0 then p.i + 1 else p.i
    decreases |args| - p.i, Distance(args, p)
  {
    var s := GetOption(args, p);
    if s.event.Given? {
      GetOptionAdvances(args, p);
      LeavesArgument(args, s.next, Choose(ch, s.event.c, s.event.value).value);
    }
  }

  // ------------------------------------------------------------------ ways of writing an option

  /** What the user can ask for; there are two short options that keep the environment. */
  datatype Wish = WantCommand(text: string) | WantShell(text: string) | WantLogin | WantEnvironment(m: bool)

  /** Short or long, with a value glued to the option or in an argument of its own, and with a long name cut
      short after some letters or not. */
  datatype Style = Style(long: bool, glued: bool, cut: nat)

  function Granted(ch: Choice, w: Wish): Choice {
    match w
    case WantCommand(t) => ch.(command := Some(t), shell := Some("/system/bin/sh"))
    case WantShell(t) => ch.(shell := Some(t))
    case WantLogin => ch.(login := true)
    case WantEnvironment(_) => ch.(keepenv := true)
  }

  predicate HasText(w: Wish) { w.WantCommand? || w.WantShell? }

  /** The letter of the short option, and the one that the long name stands for. */
  function Letter(w: Wish, long: bool): char {
    match w
    case WantCommand(_) => 'c'
    case WantShell(_) => 's'
    case WantLogin => 'l'
    case WantEnvironment(m) => if m && !long then 'm' else 'p'
  }

  function Name(w: Wish, cut: nat): string {
    var name := match w
      case WantCommand(_) => "command"
      case WantShell(_) => "shell"
      case WantLogin => "login"
      case WantEnvironment(_) => "preserve-environment";
    if 0 < cut < |name| then name[..cut] else name
  }

  function Written(w: Wish, style: Style): seq<string> {
    var bare := if style.long then "--" + Name(w, style.cut) else "-" + [Letter(w, false)];
    if !HasText(w) then [bare]
    else if style.glued && style.long then [bare + ("=" + w.text)]
    else if style.glued && w.text != "" then [bare + w.text]
    else [bare, w.text]
  }

  function WrittenAll(ws: seq<(Wish, Style)>): seq<string> {
    if ws == [] then [] else Written(ws[0].0, ws[0].1) + WrittenAll(ws[1..])
  }

  function GrantedAll(ch: Choice, ws: seq<(Wish, Style)>): Choice
    decreases |ws|
  {
    if ws == [] then ch else GrantedAll(Granted(ch, ws[0].0), ws[1..])
  }

  lemma {:induction false} EqualsAppend(name: string, rest: string)
    requires '=' !in name && (rest == "" || rest[0] == '=')
    ensures EqualsAt(name + rest) == |name|
  {
    if name == "" {
      assert name + rest == rest;
    } else {
      TailOfSum(name, rest);
      EqualsAppend(name[1..], rest);
    }
  }

  /** A name that is the beginning of one long name and starts with its letter. */
  lemma NameIs(w: Wish, cut: nat)
    ensures var name := Name(w, cut);
      '=' !in name && name != "" && LongName(name) == Some(Letter(w, true))
  {
    var name := Name(w, cut);
    assert "command"[0] == 'c' && "help"[0] == 'h' && "login"[0] == 'l' && "preserve-environment"[0] == 'p';
    assert "shell"[0] == 's' && "version"[0] == 'v';
    NameBegins(w, cut);
  }

  lemma NameBegins(w: Wish, cut: nat)
    ensures var name := Name(w, cut);
      && name != "" && name[0] == Letter(w, true) && '=' !in name
      && (w.WantCommand? ==> name <= "command") && (w.WantShell? ==> name <= "shell")
      && (w.WantLogin? ==> name <= "login")
      && (w.WantEnvironment? ==> name <= "preserve-environment")
  {}

  lemma LongTextIs(name: string, tail: string)
    requires '=' !in name && (tail == "" || tail[0] == '=')
    ensures var a := "--" + (name + tail);
      && a[2..] == name + tail && EqualsAt(a[2..]) == |name| && a[2..][..|name|] == name
      && (tail != "" ==> a[2..][|name| + 1..] == tail[1..])
  {
    EqualsAppend(name, tail);
    assert ("--" + (name + tail))[2..] == name + tail;
  }

  lemma LongReads(args: seq<string>, i: nat, name: string, c: char, tail: string)
    requires i < |args| && args[i] == "--" + (name + tail) && name != "" && '=' !in name && LongName(name) == Some(c)
    requires tail == "" || (tail[0] == '=' && TakesValue(c))
    ensures var value := if tail == "" then None else Some(tail[1..]);
      GetOption(args, Spot(i, 0)) ==
        if TakesValue(c) then TakeValue(args, i, c, value) else Step(Given(c, None), Spot(i + 1, 0))
  {
    LongTextIs(name, tail);
    assert |args[i]| > 2 && args[i][0] == '-' && args[i][1] == '-';
    assert args[i] != "--";
    assert GetOption(args, Spot(i, 0)) == LongOption(args, i);
  }

  lemma ShortReads(args: seq<string>, i: nat, c: char, tail: string)
    requires i < |args| && args[i] == "-" + [c] + tail && c != '-' && Known(c) && (tail != "" ==> TakesValue(c))
    ensures var value := if tail == "" then None else Some(tail);
      GetOption(args, Spot(i, 0)) ==
        if TakesValue(c) then TakeValue(args, i, c, value) else Step(Given(c, None), Spot(i + 1, 0))
  {
    assert args[i][0] == '-' && args[i][1] == c && args[i][2..] == tail;
  }

  /** What getopt_long makes of an option. */
  function EventOf(w: Wish, long: bool): Event { Given(Letter(w, long), if HasText(w) then Some(w.text) else None) }

  predicate WrittenAt(args: seq<string>, i: nat, words: seq<string>) {
    i + |words| <= |args| && forall k :: 0 <= k < |words| ==> args[i + k] == words[k]
  }

  lemma LongEvent(args: seq<string>, i: nat, w: Wish, style: Style)
    requires style.long && WrittenAt(args, i, Written(w, style))
    ensures GetOption(args, Spot(i, 0)) == Step(EventOf(w, true), Spot(i + |Written(w, style)|, 0))
  {
    var words, name := Written(w, style), Name(w, style.cut);
    assert args[i + 0] == words[0] && (|words| == 2 ==> args[i + 1] == words[1]);
    var tail := if HasText(w) && style.glued then "=" + w.text else "";
    Regrouped("--", name, tail);
    Regrouped("--", name, "");
    assert "--" + name + "" == "--" + name;
    NameIs(w, style.cut);
    LongReads(args, i, name, Letter(w, true), tail);
  }

  lemma ShortEvent(args: seq<string>, i: nat, w: Wish, style: Style)
    requires !style.long && WrittenAt(args, i, Written(w, style))
    ensures GetOption(args, Spot(i, 0)) == Step(EventOf(w, false), Spot(i + |Written(w, style)|, 0))
  {
    var words, c := Written(w, style), Letter(w, false);
    assert args[i + 0] == words[0] && (|words| == 2 ==> args[i + 1] == words[1]);
    var tail := if HasText(w) && style.glued then w.text else "";
    assert "-" + [c] + "" == "-" + [c];
    ShortReads(args, i, c, tail);
  }

  lemma ChooseWish(ch: Choice, w: Wish, long: bool)
    ensures Choose(ch, EventOf(w, long).c, EventOf(w, long).value) == Some(Granted(ch, w))
  {}

  lemma ReadStep(args: seq<string>, p: Spot, ch: Choice, e: Event, q: Spot)
    requires InScan(args, p) && GetOption(args, p) == Step(e, q) && e.Given? && Choose(ch, e.c, e.value).Some?
    ensures InScan(args, q) && ReadFrom(args, p, ch) == ReadFrom(args, q, Choose(ch, e.c, e.value).value)
  {
    GetOptionAdvances(args, p);
  }

  /** An option is understood the same way in every style. */
  lemma ReadsWish(args: seq<string>, i: nat, w: Wish, style: Style, ch: Choice)
    requires WrittenAt(args, i, Written(w, style))
    ensures ReadFrom(args, Spot(i, 0), ch) == ReadFrom(args, Spot(i + |Written(w, style)|, 0), Granted(ch, w))
  {
    if style.long { LongEvent(args, i, w, style); } else { ShortEvent(args, i, w, style); }
    ChooseWish(ch, w, style.long);
    ReadStep(args, Spot(i, 0), ch, EventOf(w, style.long), Spot(i + |Written(w, style)|, 0));
  }

  /** However the options are written, they are granted in order, and the scan comes to what it comes to behind
      them. */
  lemma {:induction false} AnyStyle(args: seq<string>, i: nat, ws: seq<(Wish, Style)>, rest: seq<string>, ch: Choice,
                                    end: nat, last: Choice, r: Outcome)
    requires i <= |args| && args[i..] == WrittenAll(ws) + rest
    requires end == i + |WrittenAll(ws)| && last == GrantedAll(ch, ws) && r == ReadFrom(args, Spot(end, 0), last)
    ensures ReadFrom(args, Spot(i, 0), ch) == r
    decreases |ws|
  {
    if ws != [] {
      var w, style, more := ws[0].0, ws[0].1, ws[1..];
      var first := Written(w, style);
      Behind(args, i, first, WrittenAll(more), rest);
      var next: nat := i + |first|;
      AnyStyle(args, next, more, rest, Granted(ch, w), end, last, r);
      ReadsWishTo(args, i, w, style, ch, next, r);
    }
  }

  lemma ReadsWishTo(args: seq<string>, i: nat, w: Wish, style: Style, ch: Choice, next: nat, r: Outcome)
    requires WrittenAt(args, i, Written(w, style)) && next == i + |Written(w, style)|
    requires r == ReadFrom(args, Spot(next, 0), Granted(ch, w))
    ensures ReadFrom(args, Spot(i, 0), ch) == r
  {
    ReadsWish(args, i, w, style, ch);
  }

  lemma RestBegins(args: seq<string>, i: nat, words: seq<string>, rest: seq<string>)
    requires i <= |args| && args[i..] == words + rest
    ensures i + |words| <= |args| && args[i + |words|..] == rest
  {
    assert args[i..][|words|..] == rest;
  }

  lemma Behind(args: seq<string>, i: nat, first: seq<string>, more: seq<string>, rest: seq<string>)
    requires i <= |args| && args[i..] == first + more + rest
    ensures WrittenAt(args, i, first) && args[i + |first|..] == more + rest
  {
    assert args[i..][|first|..] == more + rest;
    forall k | 0 <= k < |first| ensures args[i + k] == first[k] { assert args[i..][k] == first[k]; }
  }

  /** Arguments that end the program: help, version, options that do not exist, and ones that lack their value. */
  ghost predicate Ends(a: string, more: seq<string>) {
    || a in {"-h", "-V", "-v", "--help", "--version"}
    || (a in {"-c", "-s", "--command", "--shell"} && more == [])
    || (|a| >= 2 && a[0] == '-' && a[1] !in {'-', 'c', 'h', 'l', 'm', 'p', 's', 'V', 'v'})
  }

  lemma EndsLeave(args: seq<string>, i: nat, ch: Choice)
    requires i < |args| && Ends(args[i], args[i + 1..])
    ensures ReadFrom(args, Spot(i, 0), ch) == Leaves
  {
    var a := args[i];
    if a == "--help" {
      LongEnds(args, i, "help", 'h', ch);
    } else if a == "--version" {
      LongEnds(args, i, "version", 'v', ch);
    } else if a == "--command" {
      LongEnds(args, i, "command", 'c', ch);
    } else if a == "--shell" {
      LongEnds(args, i, "shell", 's', ch);
    } else {
      ShortEnds(args, i, ch);
    }
  }

  lemma ShortEnds(args: seq<string>, i: nat, ch: Choice)
    requires i < |args| && |args[i]| >= 2 && args[i][0] == '-' && args[i][1] != '-'
    requires || args[i] in {"-h", "-V", "-v"} || (args[i] in {"-c", "-s"} && i + 1 == |args|)
             || args[i][1] !in {'-', 'c', 'h', 'l', 'm', 'p', 's', 'V', 'v'}
    ensures ReadFrom(args, Spot(i, 0), ch) == Leaves
  {
    assert args[i] != "--";
    assert GetOption(args, Spot(i, 0)) == ShortOption(args, i, 1);
  }

  lemma LongEnds(args: seq<string>, i: nat, name: string, c: char, ch: Choice)
    requires i < |args| && name in {"help", "version", "command", "shell"} && args[i] == "--" + name
    requires c ==
      if name == "help" then 'h' else if name == "version" then 'v' else if name == "command" then 'c' else 's'
    requires name in {"command", "shell"} ==> i + 1 == |args|
    ensures ReadFrom(args, Spot(i, 0), ch) == Leaves
  {
    FullNames(name);
    assert "--" + name == "--" + (name + "");
    LongReads(args, i, name, c, "");
  }

  lemma FullNames(name: string)
    requires name in {"help", "version", "command", "shell"}
    ensures name != "" && '=' !in name
    ensures LongName(name) ==
      Some(if name == "help" then 'h' else if name == "version" then 'v' else if name == "command" then 'c' else 's')
  {
    assert "command"[0] == 'c' && "help"[0] == 'h' && "login"[0] == 'l' && "preserve-environment"[0] == 'p';
    assert "shell"[0] == 's' && "version"[0] == 'v';
  }

  /** The whole command line of su: options in any style, and then what is no option, `--`, or something that
      ends the program. */
  lemma OptionsInAnyStyle(program: string, ws: seq<(Wish, Style)>, rest: seq<string>)
    ensures var r, n := ReadOptions([program] + (WrittenAll(ws) + rest)), 1 + |WrittenAll(ws)|;
      && (rest == [] || |rest[0]| < 2 || rest[0][0] != '-' ==> r == Chosen(GrantedAll(NOTHING, ws), n))
      && (rest != [] && rest[0] == "--" ==> r == Chosen(GrantedAll(NOTHING, ws), n + 1))
      && (rest != [] && Ends(rest[0], rest[1..]) ==> r == Leaves)
  {
    var args, n := [program] + (WrittenAll(ws) + rest), 1 + |WrittenAll(ws)|;
    SuffixOfSum([program], WrittenAll(ws) + rest);
    var last := GrantedAll(NOTHING, ws);
    AnyStyle(args, 1, ws, rest, NOTHING, n, last, ReadFrom(args, Spot(n, 0), last));
    RestBegins(args, 1, WrittenAll(ws), rest);
    if rest != [] {
      TailOfSuffix(args, n);
      if Ends(rest[0], rest[1..]) { EndsLeave(args, n, GrantedAll(NOTHING, ws)); }
    }
  }

  // ------------------------------------------------------------------ clusters

  function WithFlags(ch: Choice, flags: string): Choice {
    ch.(login := ch.login || 'l' in flags, keepenv := ch.keepenv || 'm' in flags || 'p' in flags)
  }

  /** Inside a cluster, flags count one by one, and the scan goes on behind them. */
  lemma {:induction false} Cluster(args: seq<string>, i: nat, j: nat, flags: string, ch: Choice)
    requires i < |args| && 0 < j && j + |flags| <= |args[i]| && flags == args[i][j..j + |flags|]
    requires flags != "" && forall c :: c in flags ==> c in {'l', 'm', 'p'}
    ensures ReadFrom(args, Spot(i, j), ch) ==
      ReadFrom(args, if j + |flags| < |args[i]| then Spot(i, j + |flags|) else Spot(i + 1, 0), WithFlags(ch, flags))
    decreases |flags|
  {
    var a, c := args[i], flags[0];
    assert c in flags && a[j] == c;
    var next := if j + 1 < |a| then Spot(i, j + 1) else Spot(i + 1, 0);
    assert GetOption(args, Spot(i, j)) == Step(Given(c, None), next);
    ReadStep(args, Spot(i, j), ch, Given(c, None), next);
    var tail := flags[1..];
    assert forall d :: d in flags <==> d == c || d in tail;
    if tail == "" {
      assert Choose(ch, c, None) == Some(WithFlags(ch, flags));
    } else {
      assert tail == a[j + 1..j + 1 + |tail|];
      Cluster(args, i, j + 1, tail, Choose(ch, c, None).value);
      assert WithFlags(Choose(ch, c, None).value, tail) == WithFlags(ch, flags);
    }
  }

  /** The command or the shell at the end of a cluster: what is left of the argument, or else the next one. */
  lemma ClusterValue(args: seq<string>, i: nat, j: nat, ch: Choice)
    requires i < |args| && 0 < j < |args[i]| && args[i][j] in {'c', 's'}
    ensures var glued := j + 1 < |args[i]|;
      if !glued && i + 1 == |args| then ReadFrom(args, Spot(i, j), ch) == Leaves
      else
        var text := if glued then args[i][j + 1..] else args[i + 1];
        ReadFrom(args, Spot(i, j), ch) ==
          ReadFrom(args, Spot(if glued then i + 1 else i + 2, 0),
                   Granted(ch, if args[i][j] == 'c' then WantCommand(text) else WantShell(text)))
  {
    var c, glued := args[i][j], j + 1 < |args[i]|;
    if glued || i + 1 < |args| {
      var text := if glued then args[i][j + 1..] else args[i + 1];
      ReadStep(args, Spot(i, j), ch, Given(c, Some(text)), Spot(if glued then i + 1 else i + 2, 0));
    }
  }

  /** No long name begins like this. */
  predicate NoName(name: string) {
    || name == ""
    || !(name <= "command" || name <= "help" || name <= "login" || name <= "preserve-environment" || name <= "shell"
         || name <= "version")
  }

  /** A long option that does not exist, or has a value it does not take. */
  lemma LongWrong(args: seq<string>, i: nat, name: string, tail: string, ch: Choice)
    requires i < |args| && args[i] == "--" + (name + tail) && '=' !in name && name + tail != ""
    requires tail == "" || tail[0] == '='
    requires NoName(name) || (tail != "" && !(name <= "command") && !(name <= "shell"))
    ensures ReadFrom(args, Spot(i, 0), ch) == Leaves
  {
    LongTextIs(name, tail);
    assert |args[i]| > 2 && args[i][0] == '-' && args[i][1] == '-';
    assert args[i] != "--";
    assert GetOption(args, Spot(i, 0)) == LongOption(args, i);
    LongLetters(name);
  }

  lemma LongLetters(name: string)
    ensures LongName(name) == None <==> NoName(name)
    ensures LongName(name) != None && !(name <= "command") && !(name <= "shell") ==> !TakesValue(LongName(name).value)
  {}

  /** A cluster starts at its first letter. */
  lemma ClusterStarts(args: seq<string>, i: nat, ch: Choice)
    requires i < |args| && |args[i]| >= 2 && args[i][0] == '-' && args[i][1] != '-'
    ensures ReadFrom(args, Spot(i, 0), ch) == ReadFrom(args, Spot(i, 1), ch)
  {
    assert args[i] != "--";
    assert GetOption(args, Spot(i, 0)) == GetOption(args, Spot(i, 1));
  }
}
