/** Client and handler of jni/su/daemon.c as two processes over a bounded socket: connect_daemon sends
    its request, reads the acknowledgement, pumps and reads the exit code; daemon_accept reads the
    request, acknowledges it, waits for its child and sends the exit code.

    A message is one write.  An empty string has no body: writing or reading zero bytes moves nothing
    on a stream socket. */
module SuHandshake {
  import opened Wrappers
  import opened SuCodec

  datatype Msg = IntMsg(v: Int) | Body(s: Text) | FdMsg(f: Option<File>)

  /** What the client transmits, value by value. */
  datatype Value = VInt(v: Int) | VStr(s: Text) | VFd(f: Option<File>)

  function Strings(ss: seq<Text>): seq<Value> { seq(|ss|, i requires 0 <= i < |ss| => VStr(ss[i])) }

  function Values(c: Client): seq<Value>
    requires |c.argv| < 0x8000_0000
  {
    [VInt(c.pid), VStr(c.slave), VInt(c.ppid), VInt(Flag(c.mount)), VFd(c.input), VFd(c.output), VFd(c.error),
     VInt(SentCount(c))] + Strings(SentArgs(c))
  }

  function Writes(v: Value): seq<Msg> {
    match v
    case VInt(n) => [IntMsg(n)]
    case VStr(s) => [IntMsg(|s|)] + if s == [] then [] else [Body(s)]
    case VFd(f) => [FdMsg(f)]
  }

  function AllWrites(vs: seq<Value>): seq<Msg> {
    if vs == [] then [] else Writes(vs[0]) + AllWrites(vs[1..])
  }

  function Bytes(m: Msg): Stream {
    match m case IntMsg(v) => PutInt(v) case Body(s) => SuCodec.Plain(s) case FdMsg(f) => PutFd(f)
  }

  function AllBytes(ms: seq<Msg>): Stream { if ms == [] then [] else Bytes(ms[0]) + AllBytes(ms[1..]) }

  lemma {:induction false} AllBytesAppend(a: seq<Msg>, b: seq<Msg>)
    ensures AllBytes(a + b) == AllBytes(a) + AllBytes(b)
  {
    if a == [] {
      assert a + b == b;
    } else {
      TailOfSum(a, b);
      AllBytesAppend(a[1..], b);
      Assoc(Bytes(a[0]), AllBytes(a[1..]), AllBytes(b));
    }
  }

  function Put(v: Value): Stream {
    match v case VInt(n) => PutInt(n) case VStr(s) => PutString(s) case VFd(f) => PutFd(f)
  }

  function PutAll(vs: seq<Value>): Stream { if vs == [] then [] else Put(vs[0]) + PutAll(vs[1..]) }

  lemma BytesOfValue(v: Value)
    ensures AllBytes(Writes(v)) == Put(v)
  {
    var ms := Writes(v);
    if v.VStr? && v.s != [] {
      assert ms[1..] == [Body(v.s)] && ms[1..][1..] == [];
      assert AllBytes(ms[1..]) == SuCodec.Plain(v.s) + AllBytes([]) == SuCodec.Plain(v.s);
    } else {
      assert ms[1..] == [] && Bytes(ms[0]) + [] == Bytes(ms[0]);
      assert v.VStr? ==> PutString(v.s) == PutInt(0) + [] == PutInt(0);
    }
  }

  lemma PutCons(v: Value, vs: seq<Value>)
    ensures PutAll([v] + vs) == Put(v) + PutAll(vs)
  {
    assert ([v] + vs)[1..] == vs;
  }

  lemma {:induction false} BytesOfValues(vs: seq<Value>)
    ensures AllBytes(AllWrites(vs)) == PutAll(vs)
  {
    if vs != [] {
      BytesOfValue(vs[0]);
      BytesOfValues(vs[1..]);
      AllBytesAppend(Writes(vs[0]), AllWrites(vs[1..]));
    }
  }

  lemma StringsTail(ss: seq<Text>)
    requires ss != []
    ensures Strings(ss) != [] && Strings(ss)[0] == VStr(ss[0]) && Strings(ss)[1..] == Strings(ss[1..])
  {}

  lemma {:induction false} PutAllStrings(ss: seq<Text>)
    ensures PutAll(Strings(ss)) == PutStrings(ss)
  {
    if ss != [] {
      PutAllStrings(ss[1..]);
      StringsTail(ss);
    }
  }

  /** The messages are the byte stream of the codec, cut where the client's writes end. */
  lemma MessagesAreSent(c: Client)
    requires |c.argv| < 0x8000_0000
    ensures AllBytes(AllWrites(Values(c))) == Sent(c)
  {
    var tail := [VInt(SentCount(c))] + Strings(SentArgs(c));
    var last := [VFd(c.input), VFd(c.output), VFd(c.error)] + tail;
    assert Values(c) == [VInt(c.pid), VStr(c.slave), VInt(c.ppid), VInt(Flag(c.mount))] + last;
    BytesOfValues(Values(c));
    PutFour(VInt(c.pid), VStr(c.slave), VInt(c.ppid), VInt(Flag(c.mount)), last);
    Join4(PutInt(c.pid), PutString(c.slave), PutInt(c.ppid), PutInt(Flag(c.mount)), PutAll(last));
    PutThree(VFd(c.input), VFd(c.output), VFd(c.error), tail);
    PutArgs(c);
  }

  lemma PutArgs(c: Client)
    requires |c.argv| < 0x8000_0000
    ensures PutAll([VInt(SentCount(c))] + Strings(SentArgs(c))) == PutInt(SentCount(c)) + PutStrings(SentArgs(c))
  {
    PutCons(VInt(SentCount(c)), Strings(SentArgs(c)));
    PutAllStrings(SentArgs(c));
  }

  lemma Pairs(a: Value, b: Value, c: Value, d: Value)
    ensures [a, b] == [a] + [b] && [a, b, c] == [a, b] + [c] && [a, b, c, d] == [a, b] + [c, d]
  {}

  lemma PutTwo(a: Value, b: Value, tail: seq<Value>)
    ensures PutAll([a, b] + tail) == Put(a) + (Put(b) + PutAll(tail))
  {
    Pairs(a, b, a, b);
    Regrouped([a], [b], tail);
    PutCons(a, [b] + tail);
    PutCons(b, tail);
  }

  lemma PutFour(a: Value, b: Value, c: Value, d: Value, tail: seq<Value>)
    ensures PutAll([a, b, c, d] + tail) == Put(a) + (Put(b) + (Put(c) + (Put(d) + PutAll(tail))))
  {
    Pairs(a, b, c, d);
    Regrouped([a, b], [c, d], tail);
    PutTwo(a, b, [c, d] + tail);
    PutTwo(c, d, tail);
  }

  lemma PutThree(a: Value, b: Value, c: Value, tail: seq<Value>)
    ensures PutAll([a, b, c] + tail) == (Put(a) + (Put(b) + Put(c))) + PutAll(tail)
  {
    Pairs(a, b, c, c);
    Regrouped([a, b], [c], tail);
    PutTwo(a, b, [c] + tail);
    PutCons(c, tail);
    Assoc(Put(a), Put(b) + Put(c), PutAll(tail));
    Assoc(Put(b), Put(c), PutAll(tail));
  }

  // ------------------------------------------------------------------ the handler's reader

  /** The reads that are still to be done, in program order. */
  datatype Want = WInt | WString | WBody(n: nat) | WFd | WArgc
  datatype Reader = Reading(wants: seq<Want>, got: seq<Value>) | Exited

  const PROGRAM: seq<Want> := [WInt, WString, WInt, WInt, WFd, WFd, WFd, WArgc]

  function Repeat(n: nat): seq<Want> { seq(n, _ => WString) }

  /** One read: the size and kind must be the expected ones, or the handler exits. */
  function Accept(r: Reader, m: Msg): Reader
    requires r.Reading? && r.wants != []
  {
    var rest := r.wants[1..];
    match (r.wants[0], m)
    case (WInt, IntMsg(v)) => Reading(rest, r.got + [VInt(v)])
    case (WString, IntMsg(n)) =>
      if n > PATH_MAX || n < 0 then Exited
      else if n == 0 then Reading(rest, r.got + [VStr([])])
      else Reading([WBody(n)] + rest, r.got)
    case (WBody(n), Body(s)) => if |s| == n then Reading(rest, r.got + [VStr(s)]) else Exited
    case (WFd, FdMsg(f)) => Reading(rest, r.got + [VFd(f)])
    case (WArgc, IntMsg(n)) => if n < 0 || n > ARGC_MAX then Exited else Reading(Repeat(n) + rest, r.got + [VInt(n)])
    case _ => Exited
  }

  /** When the handler exits: on a message of another kind, a string of more than 4096 bytes, a body of another
      length, or more than 512 arguments. */
  lemma AcceptExits(r: Reader, m: Msg)
    requires r.Reading? && r.wants != []
    ensures var w := r.wants[0];
      Accept(r, m).Reading? <==>
        || (w.WInt? && m.IntMsg?)
        || (w.WString? && m.IntMsg? && 0 <= m.v <= 4096)
        || (w.WBody? && m.Body? && |m.s| == w.n)
        || (w.WFd? && m.FdMsg?)
        || (w.WArgc? && m.IntMsg? && 0 <= m.v <= 512)
  {}

  // ------------------------------------------------------------------ the system

  datatype ClientPc = Sending(k: nat) | Pumping | Finishing | Returned(code: Int)
  datatype HandlerPc = Receiving(reader: Reader) | Waiting | Done(code: Int)
  datatype System = System(client: ClientPc, handler: HandlerPc, up: seq<Msg>, back: seq<Int>)

  const INIT: System := System(Sending(0), Receiving(Reading(PROGRAM, [])), [], [])

  predicate ClientStep(ms: seq<Msg>, cap: nat, s: System, t: System) {
    match s.client
    case Sending(k) =>
      || (k < |ms| && |s.up| < cap && t == s.(client := Sending(k + 1), up := s.up + [ms[k]]))
      || (k >= |ms| && s.back != [] && t == s.(client := Pumping, back := s.back[1..]))
    case Pumping => t == s.(client := Finishing)
    case Finishing => s.back != [] && t == s.(client := Returned(s.back[0]), back := s.back[1..])
    case Returned(_) => false
  }

  /** The exit code is whatever the child, or a failing fork or wait, makes it. */
  predicate HandlerStep(cap: nat, s: System, t: System) {
    match s.handler
    case Receiving(r) =>
      && r.Reading?
      && if r.wants == [] then |s.back| < cap && t == s.(handler := Waiting, back := s.back + [1])
         else s.up != [] && t == s.(handler := Receiving(Accept(r, s.up[0])), up := s.up[1..])
    case Waiting =>
      |s.back| < cap && t.handler.Done? && t == s.(handler := t.handler, back := s.back + [t.handler.code])
    case Done(_) => false
  }

  predicate Next(ms: seq<Msg>, cap: nat, s: System, t: System) { ClientStep(ms, cap, s, t) || HandlerStep(cap, s, t) }

  /** A run: any interleaving of the two. */
  ghost predicate IsRun(ms: seq<Msg>, cap: nat, run: seq<System>) {
    run != [] && run[0] == INIT && forall i :: 0 < i < |run| ==> Next(ms, cap, run[i - 1], run[i])
  }

  // ------------------------------------------------------------------ what the client announces

  /** What the client must respect for the handler to get through its request: short strings, and a count
      of arguments that the handler accepts. */
  predicate Announced(c: Client) {
    |c.slave| <= PATH_MAX && Short(SentArgs(c)) && 0 <= SentCount(c) <= ARGC_MAX
  }

  /** The values the handler will read. */
  function Announcement(c: Client): seq<Value>
    requires |c.argv| < 0x8000_0000 && Announced(c)
  {
    Values(c)[..8 + SentCount(c)]
  }

  /** The messages it will not read: the program name, when it is the only argument and one is dropped. */
  function Extra(c: Client): seq<Msg> { if c.mount && |c.argv| == 1 then Writes(VStr(c.argv[0])) else [] }

  /** A transmittable request is one that is announced in full. */
  lemma NothingExtra(c: Client)
    requires |c.argv| < 0x8000_0000
    ensures Transmittable(c) <==> Announced(c) && Extra(c) == []
    ensures Transmittable(c) ==> Announcement(c) == Values(c)
  {}

  /** The kinds and bounds of the values of an announcement. */
  ghost predicate Suitable(vs: seq<Value>) {
    && 8 <= |vs|
    && vs[0].VInt? && vs[2].VInt? && vs[3].VInt? && vs[7].VInt? && vs[4].VFd? && vs[5].VFd? && vs[6].VFd?
    && (forall i :: (i == 1 || 8 <= i < |vs|) ==> vs[i].VStr? && |vs[i].s| <= PATH_MAX)
    && vs[7].v == |vs| - 8 <= ARGC_MAX
  }

  lemma AnnouncementSuitable(c: Client)
    requires |c.argv| < 0x8000_0000 && Announced(c)
    ensures Suitable(Announcement(c))
  {
    var vs := Announcement(c);
    forall i | 8 <= i < |vs| ensures vs[i].VStr? && |vs[i].s| <= PATH_MAX {
      assert vs[i] == VStr(SentArgs(c)[i - 8]);
      ShortAt(SentArgs(c), i - 8);
    }
  }

  lemma {:induction false} AllWritesAppend(a: seq<Value>, b: seq<Value>)
    ensures AllWrites(a + b) == AllWrites(a) + AllWrites(b)
  {
    if a == [] {
      assert a + b == b;
    } else {
      TailOfSum(a, b);
      AllWritesAppend(a[1..], b);
      AssocMsgs(Writes(a[0]), AllWrites(a[1..]), AllWrites(b));
    }
  }

  lemma AssocMsgs(a: seq<Msg>, b: seq<Msg>, c: seq<Msg>)
    ensures a + b + c == a + (b + c)
  {}

  lemma AnnouncedThenExtra(c: Client)
    requires |c.argv| < 0x8000_0000 && Announced(c)
    ensures AllWrites(Values(c)) == AllWrites(Announcement(c)) + Extra(c)
  {
    var n := 8 + SentCount(c);
    AllWritesAppend(Values(c)[..n], Values(c)[n..]);
    assert Values(c)[..n] + Values(c)[n..] == Values(c);
    if c.mount && |c.argv| == 1 {
      var last := VStr(c.argv[0]);
      assert Values(c)[n..] == [last] && [last][1..] == [];
      assert AllWrites([last]) == Writes(last) + [] == Writes(last);
    } else {
      assert Values(c)[n..] == [];
    }
  }

  // ------------------------------------------------------------------ where the reader is

  /** The reader has `i` values, and with `mid` also the length of the next one. */
  datatype Spot = Spot(i: nat, mid: bool)

  predicate Possible(vs: seq<Value>, p: Spot) {
    8 <= |vs| && p.i <= |vs| && (p.mid ==> p.i < |vs| && vs[p.i].VStr? && vs[p.i].s != [])
  }

  function WantsFrom(n: nat, i: nat): seq<Want>
    requires 8 <= n && i <= n
  {
    if i < 8 then PROGRAM[i..] else Repeat(n - i)
  }

  function ReaderAt(vs: seq<Value>, p: Spot): Reader
    requires Possible(vs, p)
  {
    Reading(if p.mid then [WBody(|vs[p.i].s|)] + WantsFrom(|vs|, p.i + 1) else WantsFrom(|vs|, p.i), vs[..p.i])
  }

  /** The messages still to be read. */
  function TodoAt(vs: seq<Value>, p: Spot): seq<Msg>
    requires Possible(vs, p)
  {
    if p.mid then [Body(vs[p.i].s)] + AllWrites(vs[p.i + 1..]) else AllWrites(vs[p.i..])
  }

  /** The next message, and where the reader is behind it. */
  function Coming(vs: seq<Value>, p: Spot): Msg
    requires Possible(vs, p) && p.i < |vs|
  {
    if p.mid then Body(vs[p.i].s) else Writes(vs[p.i])[0]
  }

  function Onward(vs: seq<Value>, p: Spot): Spot
    requires Possible(vs, p) && p.i < |vs|
  {
    if !p.mid && vs[p.i].VStr? && vs[p.i].s != [] then Spot(p.i, true) else Spot(p.i + 1, false)
  }

  lemma AllWritesFrom(vs: seq<Value>, i: nat)
    requires i < |vs|
    ensures AllWrites(vs[i..]) == Writes(vs[i]) + AllWrites(vs[i + 1..])
  {
    TailOfSuffix(vs, i);
  }

  lemma WritesOf(v: Value)
    ensures Writes(v) == [Writes(v)[0]] + if v.VStr? && v.s != [] then [Body(v.s)] else []
  {}

  lemma TodoText(vs: seq<Value>, i: nat)
    requires i < |vs| && vs[i].VStr? && vs[i].s != []
    ensures AllWrites(vs[i..]) == [Writes(vs[i])[0]] + ([Body(vs[i].s)] + AllWrites(vs[i + 1..]))
  {
    AllWritesFrom(vs, i);
    WritesOf(vs[i]);
    AssocMsgs([Writes(vs[i])[0]], [Body(vs[i].s)], AllWrites(vs[i + 1..]));
  }

  lemma TodoOther(vs: seq<Value>, i: nat)
    requires i < |vs| && !(vs[i].VStr? && vs[i].s != [])
    ensures AllWrites(vs[i..]) == [Writes(vs[i])[0]] + AllWrites(vs[i + 1..])
  {
    AllWritesFrom(vs, i);
    WritesOf(vs[i]);
    NoMsgs([Writes(vs[i])[0]]);
  }

  lemma TodoStep(vs: seq<Value>, p: Spot)
    requires Possible(vs, p) && p.i < |vs|
    ensures TodoAt(vs, p) == [Coming(vs, p)] + TodoAt(vs, Onward(vs, p))
  {
    if !p.mid {
      if vs[p.i].VStr? && vs[p.i].s != [] { TodoText(vs, p.i); } else { TodoOther(vs, p.i); }
    }
  }

  lemma NoMsgs(ms: seq<Msg>)
    ensures ms + [] == ms
  {}

  lemma WantsFromStep(n: nat, i: nat)
    requires 8 <= n && i < n
    ensures WantsFrom(n, i) != [] && WantsFrom(n, i)[0] == if i < 8 then PROGRAM[i] else WString
    ensures i != 7 ==> WantsFrom(n, i)[1..] == WantsFrom(n, i + 1)
    ensures i == 7 ==> WantsFrom(n, i)[1..] == [] && Repeat(n - 8) + [] == WantsFrom(n, 8)
  {}

  /** What the reader expects for the value at `i`, and whether that is what the value is. */
  ghost predicate Expected(vs: seq<Value>, i: nat)
    requires 8 <= |vs| && i < |vs|
  {
    match if i < 8 then PROGRAM[i] else WString
    case WInt => vs[i].VInt? && i < 7
    case WFd => vs[i].VFd? && i < 7
    case WArgc => vs[i].VInt? && i == 7 && vs[7].v == |vs| - 8 <= ARGC_MAX
    case WString => vs[i].VStr? && |vs[i].s| <= PATH_MAX && i != 7
    case WBody(_) => false
  }

  lemma SuitableAt(vs: seq<Value>, i: nat)
    requires Suitable(vs) && i < |vs|
    ensures Expected(vs, i)
  {
    assert i < 8 ==> i in {0, 1, 2, 3, 4, 5, 6, 7};
  }

  /** Reading the first message of the value at `i`. */
  lemma AcceptValue(vs: seq<Value>, i: nat, r: Reader)
    requires 8 <= |vs| && i < |vs| && Expected(vs, i)
    requires r.Reading? && r.wants != [] && r.wants[0] == (if i < 8 then PROGRAM[i] else WString)
    ensures Accept(r, Writes(vs[i])[0]) ==
      if vs[i].VStr? && vs[i].s != [] then Reading([WBody(|vs[i].s|)] + r.wants[1..], r.got)
      else Reading((if i == 7 then Repeat(|vs| - 8) else []) + r.wants[1..], r.got + [vs[i]])
  {
    assert [] + r.wants[1..] == r.wants[1..];
  }

  lemma BodyStep(vs: seq<Value>, i: nat)
    requires Possible(vs, Spot(i, true))
    ensures Accept(ReaderAt(vs, Spot(i, true)), Body(vs[i].s)) == ReaderAt(vs, Spot(i + 1, false))
  {
    var rest := WantsFrom(|vs|, i + 1);
    assert ([WBody(|vs[i].s|)] + rest)[1..] == rest;
    assert vs[..i + 1] == vs[..i] + [vs[i]];
  }

  lemma ValueStep(vs: seq<Value>, i: nat)
    requires Suitable(vs) && i < |vs|
    ensures var p := Spot(i, false);
      ReaderAt(vs, p).wants != [] && Accept(ReaderAt(vs, p), Coming(vs, p)) == ReaderAt(vs, Onward(vs, p))
  {
    WantsFromStep(|vs|, i);
    SuitableAt(vs, i);
    AcceptValue(vs, i, ReaderAt(vs, Spot(i, false)));
    assert [] + WantsFrom(|vs|, i)[1..] == WantsFrom(|vs|, i)[1..];
    assert vs[..i + 1] == vs[..i] + [vs[i]];
  }

  /** Reading a message of a suitable announcement never fails and moves the reader on. */
  lemma ReaderStep(vs: seq<Value>, p: Spot)
    requires Suitable(vs) && Possible(vs, p) && p.i < |vs|
    ensures ReaderAt(vs, p).wants != [] && Accept(ReaderAt(vs, p), Coming(vs, p)) == ReaderAt(vs, Onward(vs, p))
  {
    if p.mid { BodyStep(vs, p.i); } else { ValueStep(vs, p.i); }
  }

  /** The reader is through exactly when it has every value, and then no message of it is left. */
  lemma ReaderEnd(vs: seq<Value>, p: Spot)
    requires Possible(vs, p)
    ensures ReaderAt(vs, p).wants == [] <==> p.i == |vs|
    ensures p.i == |vs| ==> ReaderAt(vs, p).got == vs && TodoAt(vs, p) == []
  {
    if p.i < |vs| {
      WantsFromStep(|vs|, p.i);
    } else {
      assert vs[..p.i] == vs && vs[p.i..] == [];
    }
  }

  // ------------------------------------------------------------------ the invariant

  function Unsent(ms: seq<Msg>, pc: ClientPc): seq<Msg> { if pc.Sending? && pc.k <= |ms| then ms[pc.k..] else [] }

  /** Everything that has not been read yet. */
  function Unread(ms: seq<Msg>, s: System): seq<Msg> { s.up + Unsent(ms, s.client) }

  ghost predicate At(vs: seq<Value>, xs: seq<Msg>, r: Reader, left: seq<Msg>, p: Spot) {
    Possible(vs, p) && r == ReaderAt(vs, p) && left == TodoAt(vs, p) + xs
  }

  ghost predicate Ready(vs: seq<Value>, xs: seq<Msg>, r: Reader, left: seq<Msg>) { exists p :: At(vs, xs, r, left, p) }

  /** The announcement `vs` is read; the messages `xs` behind it never are. */
  ghost predicate Inv(vs: seq<Value>, xs: seq<Msg>, ms: seq<Msg>, cap: nat, s: System) {
    && (s.client.Sending? ==> s.client.k <= |ms|)
    && |s.up| <= cap
    && match s.handler
       case Receiving(r) => s.client.Sending? && s.back == [] && Ready(vs, xs, r, Unread(ms, s))
       case Waiting => Unread(ms, s) == xs && (AckUnread(s, []) || AckRead(s, []))
       case Done(code) =>
         && Unread(ms, s) == xs
         && (AckUnread(s, [code]) || AckRead(s, [code]) || (s.client == Returned(code) && s.back == []))
  }

  /** The client has not read the acknowledgement; behind it, `codes` are on their way. */
  ghost predicate AckUnread(s: System, codes: seq<Int>) { s.client.Sending? && s.back == [1] + codes }

  ghost predicate AckRead(s: System, codes: seq<Int>) {
    (s.client.Pumping? || s.client.Finishing?) && s.back == codes
  }

  lemma InvInit(vs: seq<Value>, xs: seq<Msg>, cap: nat)
    requires Suitable(vs)
    ensures Inv(vs, xs, AllWrites(vs) + xs, cap, INIT)
  {
    var ms := AllWrites(vs) + xs;
    assert vs[0..] == vs && ms[0..] == ms && [] + ms == ms;
    assert vs[..0] == [] && PROGRAM[0..] == PROGRAM;
    assert At(vs, xs, Reading(PROGRAM, []), ms, Spot(0, false));
  }

  lemma SendKeepsUnread(up: seq<Msg>, ms: seq<Msg>, k: nat)
    requires k < |ms|
    ensures (up + [ms[k]]) + Unsent(ms, Sending(k + 1)) == up + Unsent(ms, Sending(k))
  {}

  lemma InvClientStep(vs: seq<Value>, xs: seq<Msg>, ms: seq<Msg>, cap: nat, s: System, t: System)
    requires Inv(vs, xs, ms, cap, s) && ClientStep(ms, cap, s, t)
    ensures Inv(vs, xs, ms, cap, t)
  {
    if s.client.Sending? {
      if s.client.k < |ms| {
        SendKeepsUnread(s.up, ms, s.client.k);
        assert Unread(ms, t) == Unread(ms, s);
      } else {
        assert ms[|ms|..] == [];
        var codes := if s.handler.Done? then [s.handler.code] else [];
        assert AckUnread(s, codes) && ([1] + codes)[1..] == codes;
        assert AckRead(t, codes);
      }
    }
  }

  lemma ReadyStep(vs: seq<Value>, xs: seq<Msg>, r: Reader, up: seq<Msg>, unsent: seq<Msg>)
    requires Suitable(vs) && Ready(vs, xs, r, up + unsent) && up != [] && r.Reading? && r.wants != []
    ensures Ready(vs, xs, Accept(r, up[0]), up[1..] + unsent)
  {
    var p :| At(vs, xs, r, up + unsent, p);
    ReaderEnd(vs, p);
    ReaderStep(vs, p);
    TodoStep(vs, p);
    TakeOne(up, unsent, Coming(vs, p), TodoAt(vs, Onward(vs, p)), xs);
    assert At(vs, xs, Accept(r, up[0]), up[1..] + unsent, Onward(vs, p));
  }

  lemma TakeOne(up: seq<Msg>, unsent: seq<Msg>, m: Msg, todo: seq<Msg>, xs: seq<Msg>)
    requires up != [] && up + unsent == ([m] + todo) + xs
    ensures up[0] == m && up[1..] + unsent == todo + xs
  {
    assert up[0] == (up + unsent)[0] && up[1..] + unsent == (up + unsent)[1..];
    assert (([m] + todo) + xs)[1..] == todo + xs;
  }

  lemma InvHandlerStep(vs: seq<Value>, xs: seq<Msg>, ms: seq<Msg>, cap: nat, s: System, t: System)
    requires Suitable(vs) && Inv(vs, xs, ms, cap, s) && HandlerStep(cap, s, t)
    ensures Inv(vs, xs, ms, cap, t)
  {
    match s.handler
    case Receiving(r) =>
      if r.wants == [] {
        var p :| At(vs, xs, r, Unread(ms, s), p);
        ReaderEnd(vs, p);
        assert [] + xs == xs && [] + [1] == [1] + [];
        assert AckUnread(t, []);
      } else {
        ReadyStep(vs, xs, r, s.up, Unsent(ms, s.client));
      }
    case Waiting =>
      var code := t.handler.code;
      if AckUnread(s, []) {
        assert [1] + [] + [code] == [1] + [code];
        assert AckUnread(t, [code]);
      } else {
        assert [] + [code] == [code];
        assert AckRead(t, [code]);
      }
  }

  /** Every state of every run satisfies the invariant. */
  lemma {:induction false} RunInv(vs: seq<Value>, xs: seq<Msg>, cap: nat, run: seq<System>, i: nat)
    requires Suitable(vs) && IsRun(AllWrites(vs) + xs, cap, run) && i < |run|
    ensures Inv(vs, xs, AllWrites(vs) + xs, cap, run[i])
  {
    var ms := AllWrites(vs) + xs;
    if i == 0 {
      InvInit(vs, xs, cap);
    } else {
      RunInv(vs, xs, cap, run, i - 1);
      assert Next(ms, cap, run[i - 1], run[i]);
      if ClientStep(ms, cap, run[i - 1], run[i]) {
        InvClientStep(vs, xs, ms, cap, run[i - 1], run[i]);
      } else {
        InvHandlerStep(vs, xs, ms, cap, run[i - 1], run[i]);
      }
    }
  }

  lemma ClientInv(c: Client, cap: nat, run: seq<System>, i: nat)
    requires |c.argv| < 0x8000_0000 && Announced(c)
    requires IsRun(AllWrites(Values(c)), cap, run) && i < |run|
    ensures Inv(Announcement(c), Extra(c), AllWrites(Values(c)), cap, run[i])
  {
    AnnouncementSuitable(c);
    AnnouncedThenExtra(c);
    RunInv(Announcement(c), Extra(c), cap, run, i);
  }

  // ------------------------------------------------------------------ what it gives

  /** The acknowledgement is written only after everything announced has been consumed and decoded, which
      for a transmittable request is everything, and the integer a client returns is the exit code that
      the handler sent. */
  lemma HandshakeSafety(c: Client, cap: nat, run: seq<System>, i: nat)
    requires |c.argv| < 0x8000_0000 && Announced(c)
    requires IsRun(AllWrites(Values(c)), cap, run) && i < |run|
    ensures var s := run[i];
      && (!s.handler.Receiving? || s.back != [] ==> Unread(AllWrites(Values(c)), s) == Extra(c))
      && (s.handler.Receiving? ==> s.handler.reader.Reading?)
      && (s.handler.Receiving? && s.handler.reader.wants == [] ==> s.handler.reader.got == Announcement(c))
      && (s.client.Returned? ==> s.handler == Done(s.client.code))
  {
    var s := run[i];
    ClientInv(c, cap, run, i);
    if s.handler.Receiving? {
      var p :| At(Announcement(c), Extra(c), s.handler.reader, Unread(AllWrites(Values(c)), s), p);
      ReaderEnd(Announcement(c), p);
    }
  }

  predicate Finished(s: System) { s.client.Returned? && s.handler.Done? }

  lemma ReceivingGoesOn(vs: seq<Value>, xs: seq<Msg>, ms: seq<Msg>, cap: nat, s: System) returns (t: System)
    requires Inv(vs, xs, ms, cap, s) && 1 <= cap && s.handler.Receiving?
    ensures Next(ms, cap, s, t)
  {
    var r := s.handler.reader;
    var p :| At(vs, xs, r, Unread(ms, s), p);
    ReaderEnd(vs, p);
    if r.wants == [] {
      t := s.(handler := Waiting, back := s.back + [1]);
      assert HandlerStep(cap, s, t);
    } else if s.up != [] {
      t := s.(handler := Receiving(Accept(r, s.up[0])), up := s.up[1..]);
      assert HandlerStep(cap, s, t);
    } else {
      TodoStep(vs, p);
      t := s.(client := Sending(s.client.k + 1), up := s.up + [ms[s.client.k]]);
      assert ClientStep(ms, cap, s, t);
    }
  }

  /** After the acknowledgement the client goes on as long as the socket takes what is never read. */
  lemma AckedGoesOn(vs: seq<Value>, xs: seq<Msg>, ms: seq<Msg>, cap: nat, s: System) returns (t: System)
    requires Inv(vs, xs, ms, cap, s) && 1 <= cap && |xs| <= cap && !s.handler.Receiving? && !Finished(s)
    ensures Next(ms, cap, s, t)
  {
    match s.client
    case Sending(k) =>
      t := if k < |ms| then s.(client := Sending(k + 1), up := s.up + [ms[k]])
           else s.(client := Pumping, back := s.back[1..]);
      assert k < |ms| ==> |s.up| < |xs|;
      assert ClientStep(ms, cap, s, t);
    case Pumping =>
      t := s.(client := Finishing);
      assert ClientStep(ms, cap, s, t);
    case Finishing =>
      if s.handler.Waiting? {
        t := s.(handler := Done(0), back := s.back + [0]);
        assert HandlerStep(cap, s, t);
      } else {
        t := s.(client := Returned(s.back[0]), back := s.back[1..]);
        assert ClientStep(ms, cap, s, t);
      }
  }

  ghost predicate CanGoOn(ms: seq<Msg>, cap: nat, s: System) { exists t :: Next(ms, cap, s, t) }

  /** If the socket takes what is never read, nothing for a transmittable request, then one of the two can
      always go on unless both are finished: they never both block. */
  lemma NeverBothBlock(c: Client, cap: nat, run: seq<System>, i: nat)
    requires |c.argv| < 0x8000_0000 && Announced(c) && 1 <= cap && |Extra(c)| <= cap
    requires IsRun(AllWrites(Values(c)), cap, run) && i < |run|
    ensures Finished(run[i]) || CanGoOn(AllWrites(Values(c)), cap, run[i])
  {
    var ms, s := AllWrites(Values(c)), run[i];
    ClientInv(c, cap, run, i);
    if s.handler.Receiving? {
      var t := ReceivingGoesOn(Announcement(c), Extra(c), ms, cap, s);
    } else if !Finished(s) {
      var t := AckedGoesOn(Announcement(c), Extra(c), ms, cap, s);
    }
  }

  /** Otherwise the client never gets its acknowledgement. */
  lemma NeverAcknowledged(c: Client, cap: nat, run: seq<System>, i: nat)
    requires |c.argv| < 0x8000_0000 && Announced(c) && cap < |Extra(c)|
    requires IsRun(AllWrites(Values(c)), cap, run) && i < |run|
    ensures run[i].client.Sending? && run[i].client.k < |AllWrites(Values(c))|
  {
    var s, ms := run[i], AllWrites(Values(c));
    ClientInv(c, cap, run, i);
    if s.handler.Receiving? {
      var p :| At(Announcement(c), Extra(c), s.handler.reader, Unread(ms, s), p);
      assert |Unread(ms, s)| >= |Extra(c)|;
    }
  }

  // ------------------------------------------------------------------ every run ends

  /** The steps that are left, at most. */
  function Work(ms: seq<Msg>, s: System): int {
    |s.up|
    + (match s.client
       case Sending(k) => 2 * (|ms| - k) + 3
       case Pumping => 2
       case Finishing => 1
       case Returned(_) => 0)
    + (match s.handler
       case Receiving(_) => 2
       case Waiting => 1
       case Done(_) => 0)
  }

  lemma StepUsesWork(ms: seq<Msg>, cap: nat, s: System, t: System)
    requires Next(ms, cap, s, t)
    requires s.client.Sending? ==> s.client.k <= |ms|
    ensures (t.client.Sending? ==> t.client.k <= |ms|) && 0 <= Work(ms, t) < Work(ms, s)
  {}

  /** Every step uses up work, so no run has more than twice as many steps as there are messages,
      plus five: whatever the client sends, the handshake comes to an end. */
  lemma {:induction false} RunsAreFinite(ms: seq<Msg>, cap: nat, run: seq<System>, i: nat)
    requires IsRun(ms, cap, run) && i < |run|
    ensures run[i].client.Sending? ==> run[i].client.k <= |ms|
    ensures 0 <= Work(ms, run[i]) <= 2 * |ms| + 5 - i
  {
    if i > 0 {
      RunsAreFinite(ms, cap, run, i - 1);
      StepUsesWork(ms, cap, run[i - 1], run[i]);
    }
  }

  /** Any run can be continued until neither can go on. */
  lemma {:induction false} RunToTheEnd(ms: seq<Msg>, cap: nat, run: seq<System>) returns (full: seq<System>)
    requires IsRun(ms, cap, run)
    ensures IsRun(ms, cap, full) && !CanGoOn(ms, cap, full[|full| - 1])
    decreases 2 * |ms| + 6 - |run|
  {
    var last := run[|run| - 1];
    RunsAreFinite(ms, cap, run, |run| - 1);
    if CanGoOn(ms, cap, last) {
      var t :| Next(ms, cap, last, t);
      full := RunToTheEnd(ms, cap, run + [t]);
    } else {
      full := run;
    }
  }

  /** No run of the client blocks if and only if the socket holds the messages that are never read: with
      capacity one, `su` alone with mounting blocks and every other announced request gets through. */
  lemma BlocksExactly(c: Client, cap: nat)
    requires |c.argv| < 0x8000_0000 && Announced(c) && 1 <= cap
    ensures (forall run, i :: IsRun(AllWrites(Values(c)), cap, run) && 0 <= i < |run| ==>
               Finished(run[i]) || CanGoOn(AllWrites(Values(c)), cap, run[i])) <==>
            |Extra(c)| <= cap
  {
    var ms := AllWrites(Values(c));
    if |Extra(c)| <= cap {
      forall run, i | IsRun(ms, cap, run) && 0 <= i < |run| ensures Finished(run[i]) || CanGoOn(ms, cap, run[i]) {
        NeverBothBlock(c, cap, run, i);
      }
    } else {
      var full := RunToTheEnd(ms, cap, [INIT]);
      NeverAcknowledged(c, cap, full, |full| - 1);
      assert !Finished(full[|full| - 1]);
    }
  }

  /** `su` alone with mounting, over a socket that holds one message: the run ends with the handler past its
      acknowledgement, the name unread, and both blocked. */
  lemma LoneArgumentBlocks(pid: Int, ppid: Int, name: Text) returns (c: Client, run: seq<System>)
    requires name != [] && |name| <= PATH_MAX
    ensures c == Client(pid, [], ppid, true, None, None, None, [name]) && IsRun(AllWrites(Values(c)), 1, run)
    ensures var s := run[|run| - 1];
      && !CanGoOn(AllWrites(Values(c)), 1, s) && s.client.Sending? && !s.handler.Receiving?
      && Unread(AllWrites(Values(c)), s) == [IntMsg(|name|), Body(name)]
  {
    c := Client(pid, [], ppid, true, None, None, None, [name]);
    var ms := AllWrites(Values(c));
    run := RunToTheEnd(ms, 1, [INIT]);
    var s := run[|run| - 1];
    NeverAcknowledged(c, 1, run, |run| - 1);
    ClientInv(c, 1, run, |run| - 1);
    if s.handler.Receiving? {
      var t := ReceivingGoesOn(Announcement(c), Extra(c), ms, 1, s);
    }
  }
}
