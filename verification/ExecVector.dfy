/** jni/su/su.c: the operands of su and the argument vector of the program it executes, which is built in
    place in su's own argv, backwards from the first unused slot. */
module ExecVector {
  import opened Wrappers
  import opened SuOptions

  type Slots = seq<Option<string>>

  /** argv as the C runtime hands it over: the arguments and a NULL. */
  function Vector(args: seq<string>): Slots {
    seq(|args|, i requires 0 <= i < |args| => Some(args[i])) + [None]
  }

  // ------------------------------------------------------------------ operands

  /** What follows the options: `-`, a user name or id, and `--`, all optional. */
  datatype Operands = Operands(login: bool, user: Option<string>, rest: seq<string>)

  /** The usage line read from left to right. */
  function ReadOperands(args: seq<string>): Operands {
    var dash := args != [] && args[0] == "-";
    var a := if dash then args[1..] else args;
    var named := a != [] && a[0] != "--";
    var b := if named then a[1..] else a;
    var c := if b != [] && b[0] == "--" then b[1..] else b;
    Operands(dash, if named then Some(a[0]) else None, c)
  }

  /** The arguments from optind on; there are none behind an empty vector. */
  function From(args: seq<string>, i: nat): seq<string> { if i <= |args| then args[i..] else [] }

  lemma SuffixStep(args: seq<string>, i: nat)
    requires i < |args|
    ensures From(args, i) == [args[i]] + From(args, i + 1)
  {}

  lemma VectorAt(args: seq<string>, i: nat)
    requires i <= |args|
    ensures Vector(args)[i] == if i < |args| then Some(args[i]) else None
  {}

  /** Moves past an argument if it is this word. */
  method SkipWord(argv: array<Option<string>>, ghost args: seq<string>, argc: nat, index: nat, word: string)
    returns (hit: bool, index': nat)
    requires argv[..] == Vector(args) && argc == |args|
    ensures hit <==> From(args, index) != [] && From(args, index)[0] == word
    ensures index <= index' && (index' <= argc || index' == index)
    ensures From(args, index') == if hit then From(args, index)[1..] else From(args, index)
  {
    hit, index' := false, index;
    if index < argc {
      VectorAt(args, index);
      SuffixStep(args, index);
      hit := argv[..][index] == Some(word);
      if hit { index' := index + 1; }
    }
  }

  /** Takes an argument as the user unless it is `--`. */
  method TakeUser(argv: array<Option<string>>, ghost args: seq<string>, argc: nat, index: nat)
    returns (user: Option<string>, index': nat)
    requires argv[..] == Vector(args) && argc == |args|
    ensures index <= index' && (index' <= argc || index' == index)
    ensures var a := From(args, index);
      if a != [] && a[0] != "--" then user == Some(a[0]) && From(args, index') == a[1..]
      else user == None && From(args, index') == a
  {
    user, index' := None, index;
    if index < argc {
      VectorAt(args, index);
      SuffixStep(args, index);
      if argv[..][index] != Some("--") {
        user := argv[..][index];
        index' := index + 1;
      }
    }
  }

  /** The operand handling of su_main; `index` is optind after the options. */
  method HandleOperands(argv: array<Option<string>>, ghost args: seq<string>, argc: nat, index: nat)
    returns (login: bool, user: Option<string>, index': nat)
    requires argv[..] == Vector(args) && argc == |args|
    ensures index <= index' && (index' <= argc || index' == index)
    ensures Operands(login, user, From(args, index')) == ReadOperands(From(args, index))
  {
    var dashes;
    login, index' := SkipWord(argv, args, argc, index, "-");
    user, index' := TakeUser(argv, args, argc, index');
    dashes, index' := SkipWord(argv, args, argc, index', "--");
  }

  /** What is written is read back: `-` for a login, a user unless it could be mistaken, `--` or a rest that cannot
      be mistaken either, and the rest. */
  lemma {:induction false} OperandsBack(login: bool, user: Option<string>, sep: bool, rest: seq<string>)
    requires user.Some? ==> user.value != "--" && (login || user.value != "-")
    requires sep || rest == [] || (user.Some? && rest[0] != "--")
    ensures var words := (if login then ["-"] else []) + ((if user.Some? then [user.value] else []) +
                         ((if sep then ["--"] else []) + rest));
      ReadOperands(words) == Operands(login, user, rest)
  {
    var c := (if sep then ["--"] else []) + rest;
    var a := (if user.Some? then [user.value] else []) + c;
    var words := (if login then ["-"] else []) + a;
    SuffixOfSum(if login then ["-"] else [], a);
    SuffixOfSum(if user.Some? then [user.value] else [], c);
    SuffixOfSum(if sep then ["--"] else [], rest);
    assert words[0..] == words && a[0..] == a && c[0..] == c;
    assert words != [] && words[0] == "-" <==> login;
    assert a != [] && a[0] != "--" <==> user.Some?;
    assert c != [] && c[0] == "--" <==> sep;
  }

  // ------------------------------------------------------------------ the new vector

  /** What follows the last slash, or everything. */
  function AfterSlash(s: string): string {
    if s == "" || s[|s| - 1] == '/' then "" else AfterSlash(s[..|s| - 1]) + [s[|s| - 1]]
  }

  lemma {:induction false} AfterSlashMeans(s: string)
    ensures var r := AfterSlash(s);
      '/' !in r && |r| <= |s| && s[|s| - |r|..] == r && (|r| < |s| ==> s[|s| - |r| - 1] == '/')
  {
    if s != "" && s[|s| - 1] != '/' { AfterSlashMeans(s[..|s| - 1]); }
  }

  function Arg0(binary: string, login: bool): string { if login then "-" + AfterSlash(binary) else AfterSlash(binary) }

  /** The program and its arguments, given what the user asked for. */
  function Program(command: Option<string>, shell: Option<string>, rest: seq<string>): string {
    if shell.Some? then shell.value else if command.None? && rest != [] then rest[0] else DEFAULT_SHELL
  }

  function Wanted(command: Option<string>, shell: Option<string>, login: bool, rest: seq<string>): seq<string> {
    [Arg0(Program(command, shell, rest), login)] + Tail(command, shell, rest)
  }

  /** Everything behind the new arg0. */
  function Tail(command: Option<string>, shell: Option<string>, rest: seq<string>): seq<string> {
    (if command.Some? then ["-c", command.value] else [])
    + (if command.None? && shell.None? && rest != [] then rest[1..] else rest)
  }

  /** What is executed, and with which arguments: a command in its shell, a shell, a program from the rest of the
      line, or the default shell.  argv[0] is the last component of the path, with a dash for a login. */
  lemma WantedIs(command: Option<string>, shell: Option<string>, login: bool, rest: seq<string>)
    requires command.Some? ==> shell.Some?
    ensures var dash, words, program :=
        if login then "-" else "", Wanted(command, shell, login, rest), Program(command, shell, rest);
      && (command.Some? ==> program == shell.value && words == [dash + AfterSlash(program), "-c", command.value] + rest)
      && (command.None? && shell.Some? ==> program == shell.value && words == [dash + AfterSlash(program)] + rest)
      && (command.None? && shell.None? && rest != [] ==>
            program == rest[0] && words == [dash + AfterSlash(program)] + rest[1..])
      && (command.None? && shell.None? && rest == [] ==>
            program == "/system/bin/sh" && words == [dash + AfterSlash(program)])
  {
    var program := Program(command, shell, rest);
    assert "" + AfterSlash(program) == AfterSlash(program);
  }

  lemma VectorCons(x: string, args: seq<string>)
    ensures Vector([x] + args) == [Some(x)] + Vector(args)
  {}

  lemma VectorSuffix(args: seq<string>, i: nat)
    requires i <= |args|
    ensures Vector(args)[i..] == Vector(args[i..])
    ensures Vector(args)[i] == if i < |args| then Some(args[i]) else None
  {}

  /** One write through argv; outside the array nothing can be said about what it does. */
  method Store(argv: array<Option<string>>, i: int, x: string) returns (inside: bool)
    modifies argv
    ensures inside <==> 0 <= i < argv.Length
    ensures argv[..] == if inside then old(argv[..])[i := Some(x)] else old(argv[..])
  {
    inside := 0 <= i < argv.Length;
    if inside { argv[i] := Some(x); }
  }

  /** The choice of the program, with its command if there is one; `argc` moves down with every write, and
      `inside` tells whether every slot that is read or written exists. */
  method PlaceCommand(argv: array<Option<string>>, ghost args: seq<string>, index: nat,
                      command: Option<string>, shell: Option<string>)
    returns (inside: bool, binary: string, argc: int)
    requires argv[..] == Vector(args) && Possible(args, index, command, shell)
    modifies argv
    ensures argc ==
      if command.Some? then index - 2 else if shell.None? && From(args, index) != [] then index + 1 else index
    ensures inside <==> 0 <= argc && index <= |args|
    ensures inside ==> binary == Program(command, shell, args[index..])
    ensures inside ==> argc < argv.Length && argv[argc..] == Vector(Tail(command, shell, args[index..]))
    ensures inside ==> forall i :: 0 <= i < argc ==> argv[i] == old(argv[i])
  {
    argc, inside := index, true;
    if command.None? && shell.None? && index >= argv.Length { return false, "", argc; }
    ghost var rest := args[index..];
    VectorSuffix(args, index);
    assert argv[index..] == argv[..][index..];
    if command.Some? {
      binary := shell.value;
      argc, inside := PlaceTwo(argv, index, command.value);
      CommandTail(command, shell, rest);
    } else if shell.Some? {
      binary := shell.value;
      assert [] + rest == Tail(command, shell, rest) == rest;
    } else if argv[argc].Some? {
      binary := argv[argc].value;
      argc := argc + 1;
      VectorSuffix(args, argc);
      assert argv[argc..] == argv[..][argc..] && args[argc..] == rest[1..] && [] + rest[1..] == rest[1..];
    } else {
      binary := DEFAULT_SHELL;
      assert rest == [] && Tail(command, shell, rest) == [];
    }
  }

  /** What the option loop can come to: a shell with every command, and an index within the vector unless the
      vector is empty. */
  predicate Possible(args: seq<string>, index: nat, command: Option<string>, shell: Option<string>) {
    (command.Some? ==> shell.Some?) && (index <= |args| || (args == [] && command.None? && shell.None?))
  }

  method PlaceTwo(argv: array<Option<string>>, index: nat, command: string) returns (argc: int, inside: bool)
    requires index < argv.Length
    modifies argv
    ensures argc == index - 2 && (inside <==> 0 <= argc)
    ensures inside ==> argv[argc..] == [Some("-c"), Some(command)] + old(argv[index..])
    ensures inside ==> forall i :: 0 <= i < argc ==> argv[i] == old(argv[i])
  {
    argc := index - 1;
    var first := Store(argv, argc, command);
    argc := argc - 1;
    var second := Store(argv, argc, "-c");
    inside := first && second;
  }

  lemma CommandTail(command: Option<string>, shell: Option<string>, rest: seq<string>)
    requires command.Some?
    ensures Vector(Tail(command, shell, rest)) == [Some("-c"), Some(command.value)] + Vector(rest)
  {
    VectorCons(command.value, rest);
    VectorCons("-c", [command.value] + rest);
    assert ["-c"] + ([command.value] + rest) == Tail(command, shell, rest);
  }

  /** allow, up to execvp: returns the program and where its argument vector starts.  Every access stays inside
      argv if and only if the first operand does, and three slots precede the operands of a command, or one
      those of a shell. */
  method BuildVector(argv: array<Option<string>>, ghost args: seq<string>, index: nat,
                     command: Option<string>, shell: Option<string>, login: bool)
    returns (inside: bool, binary: string, start: int)
    requires argv[..] == Vector(args) && Possible(args, index, command, shell)
    modifies argv
    ensures inside <==>
      && index <= |args|
      && if command.Some? then index >= 3 else index >= 1 || (shell.None? && args[index..] != [])
    ensures inside ==> binary == Program(command, shell, args[index..])
    ensures inside ==> 0 <= start < argv.Length && argv[start..] == Vector(Wanted(command, shell, login, args[index..]))
    ensures inside ==> forall i :: 0 <= i < start ==> argv[i] == old(argv[i])
  {
    var argc;
    inside, binary, argc := PlaceCommand(argv, args, index, command, shell);
    if !inside { return false, binary, argc; }
    var arg0 := AfterSlash(binary);
    if login { arg0 := "-" + arg0; }
    start, inside := PlaceFirst(argv, argc, arg0, Tail(command, shell, args[index..]));
  }

  /** The last write: the program's own name goes in front of its arguments. */
  method PlaceFirst(argv: array<Option<string>>, argc: int, arg0: string, ghost tail: seq<string>)
    returns (start: int, inside: bool)
    requires 0 <= argc ==> argc < argv.Length && argv[argc..] == Vector(tail)
    modifies argv
    ensures start == argc - 1 && (inside <==> 0 <= start)
    ensures inside ==> start < argv.Length && argv[start..] == Vector([arg0] + tail)
    ensures inside ==> forall i :: 0 <= i < start ==> argv[i] == old(argv[i])
  {
    start := argc - 1;
    inside := Store(argv, start, arg0);
    if inside {
      VectorCons(arg0, tail);
      assert argv[start..] == [Some(arg0)] + old(argv[argc..]);
    }
  }

  /** Every slot that su_main and allow touch exists. */
  predicate StaysInside(args: seq<string>, index: nat, command: Option<string>) {
    index <= |args| && (command.Some? ==> |args| - |ReadOperands(args[index..]).rest| >= 3)
  }

  /** su_main's part after the options and allow's, together: the user's remaining arguments arrive
      unchanged and in order. */
  method Exec(argv: array<Option<string>>, ghost args: seq<string>, argc: nat, index: nat,
              command: Option<string>, shell: Option<string>, login: bool)
    returns (inside: bool, binary: string, start: int)
    requires argv[..] == Vector(args) && argc == |args| && 1 <= index && Possible(args, index, command, shell)
    modifies argv
    ensures inside <==> StaysInside(args, index, command)
    ensures inside ==>
      var o := ReadOperands(args[index..]);
      && binary == Program(command, shell, o.rest)
      && 0 <= start < argv.Length
      && argv[start..] == Vector(Wanted(command, shell, login || o.login, o.rest))
  {
    var dash, user, last := HandleOperands(argv, args, argc, index);
    inside, binary, start := BuildVector(argv, args, last, command, shell, login || dash);
  }

  // ------------------------------------------------------------------ the whole command line

  /** Operands are consumed whenever there are any. */
  lemma OperandsConsume(args: seq<string>)
    ensures |ReadOperands(args).rest| <= |args| && (|ReadOperands(args).rest| == |args| <==> args == [])
  {}

  /** From argv alone: every access stays inside unless the vector is empty, or it is the program's name and one
      argument that carries a command by itself. */
  lemma InsideExactly(args: seq<string>)
    requires ReadOptions(args).Chosen?
    ensures var r := ReadOptions(args);
      StaysInside(args, r.index, r.choice.command) <==> args != [] && !(|args| == 2 && Glues(args[1]))
  {
    var r := ReadOptions(args);
    OptionsIndex(args);
    if args != [] {
      OperandsConsume(args[r.index..]);
      if |args| == 2 { OneArgument(args); }
      if r.choice.command.Some? { CommandConsumes(args); }
    }
  }

  lemma OptionsPossible(args: seq<string>)
    requires ReadOptions(args).Chosen?
    ensures var r := ReadOptions(args);
      1 <= r.index && Possible(args, r.index, r.choice.command, r.choice.shell)
  {
    OptionsIndex(args);
    CommandNeedsShell(args, SuOptions.Spot(1, 0), NOTHING);
  }

  /** su without a daemon to go to, up to execvp.  `ran` is false if it leaves in the option loop. */
  method Su(argv: array<Option<string>>, args: seq<string>)
    returns (ran: bool, inside: bool, binary: string, start: int)
    requires argv[..] == Vector(args)
    modifies argv
    ensures ran <==> ReadOptions(args).Chosen?
    ensures ran ==> (inside <==> args != [] && !(|args| == 2 && Glues(args[1])))
    ensures ran && inside ==>
      var ch, o := ReadOptions(args).choice, ReadOperands(From(args, ReadOptions(args).index));
      && binary == Program(ch.command, ch.shell, o.rest)
      && 0 <= start < argv.Length
      && argv[start..] == Vector(Wanted(ch.command, ch.shell, ch.login || o.login, o.rest))
  {
    ran, inside, binary, start := false, false, "", 0;
    var r := OptionLoop(args);
    if r.Leaves? { return; }
    OptionsPossible(args);
    InsideExactly(args);
    ran := true;
    inside, binary, start := Exec(argv, args, |args|, r.index, r.choice.command, r.choice.shell, r.choice.login);
  }

  /** `su -cls` needs a slot in front of argv, `su -cls - root` does not; an empty vector is read beyond its end. */
  lemma GluedCommand()
    ensures ReadOptions(["su", "-cls"]) == Chosen(Choice(Some("ls"), Some(DEFAULT_SHELL), false, false), 2)
    ensures !StaysInside(["su", "-cls"], 2, Some("ls"))
    ensures StaysInside(["su", "-cls", "-", "root"], 2, Some("ls"))
    ensures ReadOptions([]) == Chosen(NOTHING, 1) && !StaysInside([], 1, None)
  {
    var w: (Wish, Style) := (WantCommand("ls"), Style(false, true, 0));
    assert WrittenAll([w]) == ["-cls"] by {
      assert |[w][1..]| == 0 && "-" + ['c'] + "ls" == "-cls";
    }
    assert ["su"] + (WrittenAll([w]) + []) == ["su", "-cls"];
    assert GrantedAll(NOTHING, [w]) == Granted(NOTHING, w.0) by { assert |[w][1..]| == 0; }
    OptionsInAnyStyle("su", [w], []);
    var more := ["su", "-cls", "-", "root"];
    assert more[2..] == ["-", "root"] && more[2..][1..] == ["root"] && ["root"][1..] == [];
  }
}
