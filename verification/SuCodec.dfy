/** The request that jni/su/daemon.c sends from connect_daemon to daemon_accept: integers, strings and
    file descriptors on a byte stream whose bytes may carry a descriptor. */
module SuCodec {
  import opened Wrappers

  type Byte = b: int | 0 <= b < 256
  type Int = i: int | -0x8000_0000 <= i < 0x8000_0000
  type File = nat                                         // the open file behind a descriptor
  type Text = s: seq<Byte> | 0 !in s && |s| < 0x8000_0000 // a C string whose length is an int

  /** The control message that a byte may carry: a descriptor, or one of another size, level or type. */
  datatype Control = NoControl | Rights(file: File) | Foreign

  datatype Item = Item(byte: Byte, carries: Control)
  type Stream = seq<Item>

  const PATH_MAX := 4096
  const ARGC_MAX := 512

  /** What the client starts from.  A stream is None if it is a terminal or not open. */
  datatype Client = Client(pid: Int, slave: Text, ppid: Int, mount: bool,
                           input: Option<File>, output: Option<File>, error: Option<File>, argv: seq<Text>)

  /** What the handler works with. */
  datatype Request = Request(pid: Int, slave: Text, ppid: Int, mount: Int,
                             input: Option<File>, output: Option<File>, error: Option<File>, argv: seq<Text>)

  // ------------------------------------------------------------------ writing

  function Plain(bs: seq<Byte>): Stream { seq(|bs|, i requires 0 <= i < |bs| => Item(bs[i], NoControl)) }

  /** The four bytes of an int in memory order. */
  function IntBytes(v: Int): (r: seq<Byte>)
    ensures |r| == 4
  {
    var u := if v < 0 then v + 0x1_0000_0000 else v;
    [u % 256, u / 256 % 256, u / 65536 % 256, u / 16777216]
  }

  function PutInt(v: Int): Stream { Plain(IntBytes(v)) }
  function PutString(s: Text): Stream { PutInt(|s|) + Plain(s) }
  function Carrying(f: Option<File>): Control { if f.Some? then Rights(f.value) else NoControl }
  function PutFd(f: Option<File>): Stream { [Item(0, Carrying(f))] }

  function PutStrings(ss: seq<Text>): Stream {
    if ss == [] then [] else PutString(ss[0]) + PutStrings(ss[1..])
  }

  /** The arguments that are sent: the second one is skipped with mount_storage. */
  function SentArgs(c: Client): seq<Text> {
    if c.mount && |c.argv| >= 2 then [c.argv[0]] + c.argv[2..] else c.argv
  }

  function SentCount(c: Client): int { if c.mount then |c.argv| - 1 else |c.argv| }

  function Flag(b: bool): Int { if b then 1 else 0 }

  function PutIds(c: Client): Stream {
    PutInt(c.pid) + (PutString(c.slave) + (PutInt(c.ppid) + PutInt(Flag(c.mount))))
  }

  function PutFiles(c: Client): Stream { PutFd(c.input) + (PutFd(c.output) + PutFd(c.error)) }

  /** Everything connect_daemon writes before it waits for the acknowledgement. */
  function Sent(c: Client): Stream
    requires |c.argv| < 0x8000_0000
  {
    PutIds(c) + (PutFiles(c) + (PutInt(SentCount(c)) + PutStrings(SentArgs(c))))
  }

  // ------------------------------------------------------------------ reading

  /** A value and the unread rest, or the exit(-1) of a malformed or short message. */
  datatype Got<+T> = Got(value: T, rest: Stream) | Exit

  function Raw(s: Stream): seq<Byte> { seq(|s|, i requires 0 <= i < |s| => s[i].byte) }

  function BytesInt(b: seq<Byte>): Int
    requires |b| == 4
  {
    var b0: int, b1: int, b2: int, b3: int := b[0], b[1], b[2], b[3];
    var u := b0 + 256 * b1 + 65536 * b2 + 16777216 * b3;
    if u >= 0x8000_0000 then u - 0x1_0000_0000 else u
  }

  function TakeInt(s: Stream): Got<Int> {
    if |s| < 4 then Exit else Got(BytesInt(Raw(s[..4])), s[4..])
  }

  /** The part of a string of bytes that C sees: up to the first NUL. */
  function UpToNul(b: seq<Byte>): (r: seq<Byte>)
    ensures 0 !in r && |r| <= |b|
  {
    if b == [] || b[0] == 0 then [] else [b[0]] + UpToNul(b[1..])
  }

  function TakeString(s: Stream): Got<Text> {
    var n := TakeInt(s);
    if n.Exit? || n.value > PATH_MAX || n.value < 0 || |n.rest| < n.value then Exit
    else Got(UpToNul(Raw(n.rest[..n.value])), n.rest[n.value..])
  }

  function TakeFd(s: Stream): Got<Option<File>> {
    if s == [] then Exit
    else match s[0].carries
      case NoControl => Got(None, s[1..])
      case Rights(f) => Got(Some(f), s[1..])
      case Foreign => Exit
  }

  function TakeStrings(s: Stream, n: nat): Got<seq<Text>> {
    if n == 0 then Got([], s)
    else
      var a := TakeString(s);
      if a.Exit? then Exit
      else
        var r := TakeStrings(a.rest, n - 1);
        if r.Exit? then Exit else Got([a.value] + r.value, r.rest)
  }

  function TakeArgs(s: Stream): Got<seq<Text>> {
    var n := TakeInt(s);
    if n.Exit? || n.value < 0 || n.value > ARGC_MAX then Exit else TakeStrings(n.rest, n.value)
  }

  datatype Ids = Ids(pid: Int, slave: Text, ppid: Int, mount: Int)
  datatype Files = Files(input: Option<File>, output: Option<File>, error: Option<File>)

  function TakeIds(s: Stream): Got<Ids> {
    var pid := TakeInt(s);
    if pid.Exit? then Exit else
    var slave := TakeString(pid.rest);
    if slave.Exit? then Exit else
    var ppid := TakeInt(slave.rest);
    if ppid.Exit? then Exit else
    var mount := TakeInt(ppid.rest);
    if mount.Exit? then Exit else
    Got(Ids(pid.value, slave.value, ppid.value, mount.value), mount.rest)
  }

  function TakeFiles(s: Stream): Got<Files> {
    var input := TakeFd(s);
    if input.Exit? then Exit else
    var output := TakeFd(input.rest);
    if output.Exit? then Exit else
    var error := TakeFd(output.rest);
    if error.Exit? then Exit else
    Got(Files(input.value, output.value, error.value), error.rest)
  }

  function TakeRequest(s: Stream): Got<Request> {
    var ids := TakeIds(s);
    if ids.Exit? then Exit else
    var files := TakeFiles(ids.rest);
    if files.Exit? then Exit else
    var argv := TakeArgs(files.rest);
    if argv.Exit? then Exit else
    Got(Assemble(ids.value, files.value, argv.value), argv.rest)
  }

  function Assemble(i: Ids, f: Files, argv: seq<Text>): Request {
    Request(i.pid, i.slave, i.ppid, i.mount, f.input, f.output, f.error, argv)
  }

  // ------------------------------------------------------------------ reading back what was written

  lemma IntBytesInt(v: Int)
    ensures BytesInt(IntBytes(v)) == v
  {
    var u := if v < 0 then v + 0x1_0000_0000 else v;
    assert u == u % 256 + 256 * (u / 256);
    assert u / 256 == u / 256 % 256 + 256 * (u / 65536);
    assert u / 65536 == u / 65536 % 256 + 256 * (u / 16777216);
  }

  lemma RawPlain(bs: seq<Byte>)
    ensures Raw(Plain(bs)) == bs
  {}

  lemma TakePutInt(v: Int, rest: Stream)
    ensures TakeInt(PutInt(v) + rest) == Got(v, rest)
  {
    IntBytesInt(v);
    RawPlain(IntBytes(v));
    assert (PutInt(v) + rest)[..4] == PutInt(v);
    assert (PutInt(v) + rest)[4..] == rest;
  }

  lemma {:induction false} UpToNulPlain(s: seq<Byte>)
    requires 0 !in s
    ensures UpToNul(s) == s
  {
    if s != [] { UpToNulPlain(s[1..]); }
  }

  /** A string is read back exactly when it is within PATH_MAX. */
  lemma TakePutString(s: Text, rest: Stream)
    ensures TakeString(PutString(s) + rest) == if |s| <= 4096 then Got(s, rest) else Exit
  {
    assert PutString(s) + rest == PutInt(|s|) + (Plain(s) + rest);
    TakePutInt(|s|, Plain(s) + rest);
    RawPlain(s);
    UpToNulPlain(s);
    assert (Plain(s) + rest)[..|s|] == Plain(s);
    assert (Plain(s) + rest)[|s|..] == rest;
  }

  /** A length that is negative, too large or not backed by as many bytes ends the handler. */
  lemma BadLength(n: Int, rest: Stream)
    ensures TakeString(PutInt(n) + rest).Exit? <==> n < 0 || n > 4096 || |rest| < n
    ensures TakeArgs(PutInt(n) + rest).Exit? <== n < 0 || n > 512
  {
    TakePutInt(n, rest);
  }

  /** A byte with another control message ends the handler, one without any carries no descriptor. */
  lemma FdBytes(b: Byte, f: File, rest: Stream)
    ensures TakeFd([]) == Exit && TakeFd([Item(b, Foreign)] + rest) == Exit
    ensures TakeFd([Item(b, Rights(f))] + rest) == Got(Some(f), rest)
    ensures TakeFd([Item(b, NoControl)] + rest) == Got(None, rest)
  {}

  /** C sees a string up to its first NUL. */
  lemma {:induction false} UpToNulIs(b: seq<Byte>)
    ensures UpToNul(b) <= b && (|UpToNul(b)| < |b| ==> b[|UpToNul(b)|] == 0)
  {
    if b != [] && b[0] != 0 { UpToNulIs(b[1..]); }
  }

  predicate Short(ss: seq<Text>) { ss == [] || (|ss[0]| <= PATH_MAX && Short(ss[1..])) }

  lemma {:induction false} ShortAt(ss: seq<Text>, i: nat)
    requires Short(ss) && i < |ss|
    ensures |ss[i]| <= PATH_MAX
  {
    if i > 0 { ShortAt(ss[1..], i - 1); }
  }

  function Prepend(a: seq<Text>, g: Got<seq<Text>>): Got<seq<Text>> {
    if g.Exit? then Exit else Got(a + g.value, g.rest)
  }

  lemma TakeFirst(s: Stream, n: nat)
    requires n > 0
    ensures TakeStrings(s, n) ==
      if TakeString(s).Exit? then Exit else Prepend([TakeString(s).value], TakeStrings(TakeString(s).rest, n - 1))
  {}

  lemma {:induction false} TakePutStrings(ss: seq<Text>, rest: Stream)
    ensures TakeStrings(PutStrings(ss) + rest, |ss|) == if Short(ss) then Got(ss, rest) else Exit
  {
    if ss == [] {
      assert PutStrings(ss) + rest == rest;
    } else {
      Assoc(PutString(ss[0]), PutStrings(ss[1..]), rest);
      TakePutString(ss[0], PutStrings(ss[1..]) + rest);
      TakeFirst(PutStrings(ss) + rest, |ss|);
      TakePutStrings(ss[1..], rest);
      assert [ss[0]] + ss[1..] == ss;
    }
  }

  lemma TakePutFd(f: Option<File>, rest: Stream)
    ensures TakeFd(PutFd(f) + rest) == Got(f, rest)
  {}

  /** The request that the client means. */
  function Meant(c: Client): Request {
    Request(c.pid, c.slave, c.ppid, Flag(c.mount), c.input, c.output, c.error, SentArgs(c))
  }

  lemma TakePutIds(c: Client, tail: Stream)
    ensures TakeIds(PutIds(c) + tail) ==
      if |c.slave| > PATH_MAX then Exit else Got(Ids(c.pid, c.slave, c.ppid, Flag(c.mount)), tail)
  {
    var s3 := PutInt(Flag(c.mount)) + tail;
    var s2 := PutInt(c.ppid) + s3;
    var s1 := PutString(c.slave) + s2;
    Join4(PutInt(c.pid), PutString(c.slave), PutInt(c.ppid), PutInt(Flag(c.mount)), tail);
    TakePutInt(c.pid, s1);
    TakePutString(c.slave, s2);
    TakePutInt(c.ppid, s3);
    TakePutInt(Flag(c.mount), tail);
  }

  lemma TakePutFiles(c: Client, tail: Stream)
    ensures TakeFiles(PutFiles(c) + tail) == Got(Files(c.input, c.output, c.error), tail)
  {
    var s2 := PutFd(c.error) + tail;
    var s1 := PutFd(c.output) + s2;
    assert PutFiles(c) + tail == PutFd(c.input) + s1;
    TakePutFd(c.input, s1);
    TakePutFd(c.output, s2);
    TakePutFd(c.error, tail);
  }

  /** What precedes the arguments is read back, unless the slave path is too long. */
  lemma TakeHeader(c: Client, tail: Stream)
    ensures TakeRequest(PutIds(c) + (PutFiles(c) + tail)) ==
      if |c.slave| > PATH_MAX || TakeArgs(tail).Exit? then Exit
      else Got(Meant(c).(argv := TakeArgs(tail).value), TakeArgs(tail).rest)
  {
    TakePutIds(c, PutFiles(c) + tail);
    TakePutFiles(c, tail);
  }

  lemma {:induction false} TakeNoStrings(ss: seq<Text>, rest: Stream)
    ensures |PutStrings(ss) + rest| == |rest| ==> ss == []
  {
    if ss != [] { TakeNoStrings(ss[1..], rest); }
  }

  /** What is meant is what the client has: all arguments in order, without the second one if storage is to be
      mounted. */
  lemma MeantIs(c: Client)
    ensures var r := Meant(c);
      && r.pid == c.pid && r.slave == c.slave && r.ppid == c.ppid && (r.mount != 0 <==> c.mount)
      && r.input == c.input && r.output == c.output && r.error == c.error
      && (!c.mount ==> r.argv == c.argv)
      && (c.mount && |c.argv| >= 2 ==>
            && |r.argv| == |c.argv| - 1
            && forall i :: 0 <= i < |r.argv| ==> r.argv[i] == c.argv[if i == 0 then 0 else i + 1])
  {}

  /** The order on the wire. */
  lemma SentLayout(c: Client)
    requires |c.argv| < 0x8000_0000
    ensures Sent(c) ==
      PutInt(c.pid) + (PutString(c.slave) + (PutInt(c.ppid) + (PutInt(if c.mount then 1 else 0)
      + (PutFd(c.input) + (PutFd(c.output) + (PutFd(c.error)
      + (PutInt(|c.argv| - if c.mount then 1 else 0) + PutStrings(Meant(c).argv))))))))
  {
    var tail := PutInt(SentCount(c)) + PutStrings(SentArgs(c));
    Join4(PutInt(c.pid), PutString(c.slave), PutInt(c.ppid), PutInt(Flag(c.mount)), PutFiles(c) + tail);
    Regrouped(PutFd(c.input), PutFd(c.output) + PutFd(c.error), tail);
    Regrouped(PutFd(c.output), PutFd(c.error), tail);
  }

  /** The four bytes of an int, lowest first. */
  lemma IntBytesAre(v: Int)
    ensures var b := IntBytes(v);
      var u: int := b[0] as int + 256 * b[1] as int + 65536 * b[2] as int + 16777216 * b[3] as int;
      u == if v < 0 then v + 0x1_0000_0000 else v
  {
    var u: int := if v < 0 then v + 0x1_0000_0000 else v;
    assert u == u % 256 + 256 * (u / 256);
    assert u / 256 == u / 256 % 256 + 256 * (u / 65536);
    assert u / 65536 == u / 65536 % 256 + 256 * (u / 16777216);
  }

  /** The conditions under which the handler gets the client's request: no string longer than
      PATH_MAX, at most 512 arguments, and a second argument to drop when one is dropped. */
  predicate Transmittable(c: Client) {
    |c.slave| <= PATH_MAX && Short(SentArgs(c)) && SentCount(c) <= ARGC_MAX && (c.mount ==> |c.argv| >= 2)
  }

  /** Those conditions in numbers. */
  lemma TransmittableIs(c: Client)
    ensures Transmittable(c) <==>
      && |c.slave| <= 4096 && (forall i :: 0 <= i < |Meant(c).argv| ==> |Meant(c).argv[i]| <= 4096)
      && |c.argv| - (if c.mount then 1 else 0) <= 512 && (c.mount ==> |c.argv| >= 2)
  {
    ShortIs(SentArgs(c));
    assert Meant(c).argv == SentArgs(c);
    assert PATH_MAX == 4096 && ARGC_MAX == 512;
  }

  lemma {:induction false} ShortIs(ss: seq<Text>)
    ensures Short(ss) <==> forall i :: 0 <= i < |ss| ==> |ss[i]| <= 4096
  {
    if ss != [] {
      ShortIs(ss[1..]);
      assert forall i :: 0 < i < |ss| ==> ss[i] == ss[1..][i - 1];
    }
  }

  /** The handler decodes exactly what the client meant, with nothing left over, if and only if
      the request is transmittable. */
  lemma RequestRoundTrip(c: Client, rest: Stream)
    requires |c.argv| < 0x8000_0000
    ensures TakeRequest(Sent(c) + rest) == Got(Meant(c), rest) <==> Transmittable(c)
  {
    var args := PutStrings(SentArgs(c)) + rest;
    var tail := PutInt(SentCount(c)) + args;
    Join4(PutIds(c), PutFiles(c), PutInt(SentCount(c)), PutStrings(SentArgs(c)), rest);
    TakeHeader(c, tail);
    TakePutInt(SentCount(c), args);
    if c.mount && |c.argv| < 2 {
      if |c.argv| == 1 {
        assert TakeArgs(tail) == Got([], args);
        TakeNoStrings(SentArgs(c), rest);
      }
    } else {
      assert SentCount(c) == |SentArgs(c)|;
      TakePutStrings(SentArgs(c), rest);
    }
  }

  /** `su` alone with MOUNT_EMULATED_STORAGE set: the handler sees no arguments at all and its
      socket still holds the program name. */
  lemma LoneArgument(pid: Int, ppid: Int, name: Text)
    requires |name| <= PATH_MAX
    ensures TakeRequest(Sent(Client(pid, [], ppid, true, None, None, None, [name]))) ==
      Got(Request(pid, [], ppid, 1, None, None, None, []), PutString(name))
  {
    var c := Client(pid, [], ppid, true, None, None, None, [name]);
    var tail := PutInt(0) + PutString(name);
    assert SentArgs(c)[1..] == [] && PutStrings(SentArgs(c)) == PutString(name) + PutStrings([]) == PutString(name);
    TakeHeader(c, tail);
    TakePutInt(0, PutString(name));
  }

  lemma NothingMore(s: Stream)
    ensures s + [] == s
  {}

  /** No request is a proper prefix of another: the handler knows where a request ends. */
  lemma PrefixFree(a: Client, b: Client, more: Stream)
    requires |a.argv| < 0x8000_0000 && |b.argv| < 0x8000_0000
    requires Transmittable(a) && Transmittable(b)
    requires Sent(b) == Sent(a) + more
    ensures more == [] && Meant(a) == Meant(b)
  {
    RequestRoundTrip(a, more);
    RequestRoundTrip(b, []);
    NothingMore(Sent(b));
  }

  // ------------------------------------------------------------------ the two programs

  /** One direction of the socket. */
  class Pipe {
    var items: Stream

    constructor ()
      ensures items == []
    {
      items := [];
    }

    method WriteInt(v: Int)
      modifies this
      ensures items == old(items) + PutInt(v)
    {
      items := items + Plain(IntBytes(v));
    }

    method WriteString(s: Text)
      modifies this
      ensures items == old(items) + PutString(s)
    {
      WriteInt(|s|);
      items := items + Plain(s);
      assert items == old(items) + PutString(s);
    }

    /** send_fd: one dummy byte, which carries the descriptor if there is one. */
    method SendFd(f: Option<File>)
      modifies this
      ensures items == old(items) + PutFd(f)
    {
      items := items + [Item(0, Carrying(f))];
    }

    /** The sending half of connect_daemon. */
    method SendRequest(c: Client)
      requires |c.argv| < 0x8000_0000
      modifies this
      ensures items == old(items) + Sent(c)
    {
      SendIds(c);
      SendFiles(c);
      WriteInt(if c.mount then |c.argv| - 1 else |c.argv|);
      SendArgs(c);
      Regroup(old(items), PutIds(c), PutFiles(c), PutInt(SentCount(c)), PutStrings(SentArgs(c)));
    }

    method SendIds(c: Client)
      modifies this
      ensures items == old(items) + PutIds(c)
    {
      WriteInt(c.pid);
      WriteString(c.slave);
      WriteInt(c.ppid);
      WriteInt(Flag(c.mount));
      Regroup(old(items), PutInt(c.pid), PutString(c.slave), PutInt(c.ppid), PutInt(Flag(c.mount)));
    }

    method SendFiles(c: Client)
      modifies this
      ensures items == old(items) + PutFiles(c)
    {
      SendFd(c.input);
      SendFd(c.output);
      SendFd(c.error);
    }

    method SendArgs(c: Client)
      modifies this
      ensures items == old(items) + PutStrings(SentArgs(c))
    {
      for i := 0 to |c.argv|
        invariant items == old(items) + PutStrings(SentUpTo(c, i))
      {
        SentStep(c, i);
        if !(i == 1 && c.mount) {
          WriteString(c.argv[i]);
          PutStringsAppend(SentUpTo(c, i), c.argv[i]);
          Assoc(old(items), PutStrings(SentUpTo(c, i)), PutString(c.argv[i]));
        }
      }
      assert SentUpTo(c, |c.argv|) == SentArgs(c);
    }

    method ReadInt() returns (r: Option<Int>)
      modifies this
      ensures TakeInt(old(items)) == if r.Some? then Got(r.value, items) else Exit
    {
      if |items| < 4 { return None; }
      r := Some(BytesInt(Raw(items[..4])));
      items := items[4..];
    }

    method ReadString() returns (r: Option<Text>)
      modifies this
      ensures TakeString(old(items)) == if r.Some? then Got(r.value, items) else Exit
    {
      var n := ReadInt();
      if n.None? || n.value > PATH_MAX || n.value < 0 || |items| < n.value { return None; }
      r := Some(UpToNul(Raw(items[..n.value])));
      items := items[n.value..];
    }

    method RecvFd() returns (r: Option<Option<File>>)
      modifies this
      ensures TakeFd(old(items)) == if r.Some? then Got(r.value, items) else Exit
    {
      if items == [] { return None; }
      match items[0].carries {
        case NoControl => r := Some(None);
        case Rights(f) => r := Some(Some(f));
        case Foreign => return None;
      }
      items := items[1..];
    }

    /** The receiving half of daemon_accept, up to the acknowledgement. */
    method ReceiveRequest() returns (r: Option<Request>)
      modifies this
      ensures TakeRequest(old(items)) == if r.Some? then Got(r.value, items) else Exit
    {
      var ids := ReceiveIds();
      if ids.None? { return None; }
      var files := ReceiveFiles();
      if files.None? { return None; }
      var argv := ReadArgs();
      if argv.None? { return None; }
      r := Some(Assemble(ids.value, files.value, argv.value));
    }

    method ReceiveIds() returns (r: Option<Ids>)
      modifies this
      ensures TakeIds(old(items)) == if r.Some? then Got(r.value, items) else Exit
    {
      var pid := ReadInt();
      if pid.None? { return None; }
      var slave := ReadString();
      if slave.None? { return None; }
      var ppid := ReadInt();
      if ppid.None? { return None; }
      var mount := ReadInt();
      if mount.None? { return None; }
      r := Some(Ids(pid.value, slave.value, ppid.value, mount.value));
    }

    method ReceiveFiles() returns (r: Option<Files>)
      modifies this
      ensures TakeFiles(old(items)) == if r.Some? then Got(r.value, items) else Exit
    {
      var input := RecvFd();
      if input.None? { return None; }
      var output := RecvFd();
      if output.None? { return None; }
      var error := RecvFd();
      if error.None? { return None; }
      r := Some(Files(input.value, output.value, error.value));
    }

    method ReadArgs() returns (r: Option<seq<Text>>)
      modifies this
      ensures TakeArgs(old(items)) == if r.Some? then Got(r.value, items) else Exit
    {
      var n := ReadInt();
      if n.None? || n.value < 0 || n.value > ARGC_MAX { return None; }
      r := ReadStrings(n.value);
    }

    method ReadStrings(n: nat) returns (r: Option<seq<Text>>)
      modifies this
      ensures TakeStrings(old(items), n) == if r.Some? then Got(r.value, items) else Exit
    {
      ghost var goal := TakeStrings(items, n);
      var argv: seq<Text> := [];
      PrependNone(goal);
      for i := 0 to n
        invariant goal == Prepend(argv, TakeStrings(items, n - i))
      {
        var ok;
        ok, argv := ReadOne(goal, argv, n - i);
        if !ok { return None; }
      }
      PrependEnd(argv, items);
      r := Some(argv);
    }

    /** One round of the loop: `k` arguments are left. */
    method ReadOne(ghost goal: Got<seq<Text>>, argv: seq<Text>, ghost k: nat) returns (ok: bool, argv': seq<Text>)
      requires k > 0 && goal == Prepend(argv, TakeStrings(items, k))
      modifies this
      ensures if ok then goal == Prepend(argv', TakeStrings(items, k - 1)) else goal == Exit
    {
      ghost var before := items;
      ReadStep(goal, argv, before, k);
      var a := ReadString();
      ok, argv' := a.Some?, argv;
      if ok { argv' := argv + [a.value]; }
    }
  }

  lemma PrependEnd(argv: seq<Text>, s: Stream)
    ensures Prepend(argv, TakeStrings(s, 0)) == Got(argv, s)
  {
    assert argv + [] == argv;
  }

  /** One more argument, or the exit. */
  lemma ReadStep(goal: Got<seq<Text>>, argv: seq<Text>, s: Stream, k: nat)
    requires k > 0 && goal == Prepend(argv, TakeStrings(s, k))
    ensures var a := TakeString(s);
      goal == if a.Exit? then Exit else Prepend(argv + [a.value], TakeStrings(a.rest, k - 1))
  {
    TakeFirst(s, k);
    var a := TakeString(s);
    if a.Got? { PrependPrepend(argv, a.value, TakeStrings(a.rest, k - 1)); }
  }

  /** The arguments sent by the first `i` rounds of the loop. */
  ghost function SentUpTo(c: Client, i: nat): seq<Text>
    requires i <= |c.argv|
  {
    if c.mount && i >= 2 then [c.argv[0]] + c.argv[2..i] else c.argv[..i]
  }

  lemma SentStep(c: Client, i: nat)
    requires i < |c.argv|
    ensures SentUpTo(c, i + 1) == if i == 1 && c.mount then SentUpTo(c, i) else SentUpTo(c, i) + [c.argv[i]]
  {}

  lemma Assoc(a: Stream, b: Stream, c: Stream)
    ensures a + b + c == a + (b + c)
  {}

  lemma Regroup(s: Stream, a: Stream, b: Stream, c: Stream, d: Stream)
    ensures s + a + b + c + d == s + (a + (b + (c + d)))
  {}

  lemma Join4(a: Stream, b: Stream, c: Stream, d: Stream, e: Stream)
    ensures (a + (b + (c + d))) + e == a + (b + (c + (d + e)))
  {}

  lemma PrependNone(g: Got<seq<Text>>)
    ensures Prepend([], g) == g
  {
    if g.Got? { assert [] + g.value == g.value; }
  }

  lemma PrependPrepend(a: seq<Text>, x: Text, g: Got<seq<Text>>)
    ensures Prepend(a + [x], g) == Prepend(a, Prepend([x], g))
  {
    if g.Got? { assert a + [x] + g.value == a + ([x] + g.value); }
  }

  lemma {:induction false} PutStringsAppend(ss: seq<Text>, s: Text)
    ensures PutStrings(ss + [s]) == PutStrings(ss) + PutString(s)
  {
    if ss == [] {
      assert ss + [s] == [s] && [s][1..] == [] && PutString(s) + [] == PutString(s);
    } else {
      PutStringsAppend(ss[1..], s);
      assert (ss + [s])[1..] == ss[1..] + [s] && (ss + [s])[0] == ss[0];
      Assoc(PutString(ss[0]), PutStrings(ss[1..]), PutString(s));
    }
  }
}
