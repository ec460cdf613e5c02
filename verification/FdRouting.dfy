/** Descriptor tables: daemonize (jni/su/daemonize.c) and the way a client's streams become
    descriptors 0, 1 and 2 of the child (run_daemon, daemon_accept and run_daemon_child in
    jni/su/daemon.c).  New descriptors get the lowest free number (section 2.14 of POSIX.1-2017
    System Interfaces). */
module FdRouting {
  import opened Wrappers

  datatype File = DevNull | Listener | Connection | Terminal | ClientStream(id: nat) | Other(id: nat)

  type Table = map<nat, File>

  ghost predicate IsLowest(t: Table, n: nat) { n !in t && forall i: nat :: i < n ==> i in t }

  ghost predicate StandardOpen(t: Table) { 0 in t && 1 in t && 2 in t }

  lemma LowestAboveStandard(t: Table, n: nat)
    requires StandardOpen(t) && IsLowest(t, n)
    ensures 3 <= n
  {}

  predicate Less(i: nat, n: nat) { i < n }

  function Upto(n: nat): set<nat> { set i: nat | i < n && Less(i, n) }

  lemma {:induction false} UptoSize(n: nat)
    ensures |Upto(n)| == n
  {
    if n > 0 {
      UptoSize(n - 1);
      assert Upto(n) == Upto(n - 1) + {n - 1};
    }
  }

  lemma FullPrefix(t: Table, n: nat)
    requires forall i: nat :: i < n ==> i in t
    ensures n <= |t.Keys|
  {
    UptoSize(n);
    SubsetSize(Upto(n), t.Keys);
  }

  /** The terminal that a client proposes: none, one that opens and is the client's own, or one that does not. */
  datatype Tty = NoTty | Usable | Unusable

  /** The child gets as far as su_main. */
  predicate Serves(tty: Tty, input: Option<nat>, output: Option<nat>, error: Option<nat>) {
    tty.Usable? || (tty.NoTty? && input.Some? && output.Some? && error.Some?)
  }

  class Process {
    var fds: Table

    method Allocate(f: File) returns (n: nat)
      modifies this
      ensures IsLowest(old(fds), n) && fds == old(fds)[n := f]
    {
      n := 0;
      while n in fds
        invariant fds == old(fds)
        invariant forall i: nat :: i < n ==> i in fds
        decreases |fds.Keys| - n
      {
        FullPrefix(fds, n + 1);
        n := n + 1;
      }
      fds := fds[n := f];
    }

    method Close(n: int)
      modifies this
      ensures fds == if n >= 0 then old(fds) - {n} else old(fds)
    {
      if n >= 0 { fds := fds - {n}; }
    }

    method Dup(n: nat) returns (m: int)
      modifies this
      ensures n in old(fds) ==> m >= 0 && IsLowest(old(fds), m) && fds == old(fds)[m := old(fds)[n]]
      ensures n !in old(fds) ==> m == -1 && fds == old(fds)
    {
      if n !in fds { return -1; }
      m := Allocate(fds[n]);
    }

    method Dup2(n: int, m: nat) returns (ok: bool)
      modifies this
      ensures ok <==> n >= 0 && n in old(fds)
      ensures fds == if ok then old(fds)[m := old(fds)[n]] else old(fds)
    {
      ok := n >= 0 && n in fds;
      if ok { fds := fds[m := fds[n]]; }
    }

    /** daemonize: closes everything below the limit, then opens /dev/null three times.  It goes
        on exactly when that yields descriptors 0, 1 and 2. */
    method Daemonize(limit: nat) returns (ok: bool)
      modifies this
      ensures ok <==> forall i: nat :: i < 3 && i in old(fds) ==> i < limit
      ensures ok ==> fds == (old(fds) - Upto(limit))[0 := DevNull][1 := DevNull][2 := DevNull]
    {
      assert fds - Upto(0) == fds;
      for i := 0 to limit
        invariant fds == old(fds) - Upto(i)
      {
        Close(i);
        assert Upto(i + 1) == Upto(i) + {i};
      }
      ghost var closed := fds;
      var fd0 := Allocate(DevNull);
      var fd1 := Dup(0);
      var fd2 := Dup(0);
      ok := fd0 == 0 && fd1 == 1 && fd2 == 2;
      StandardFree(closed, old(fds), limit);
      if 0 !in closed && 1 !in closed && 2 !in closed {
        LowestIs(closed, fd0, 0);
        LowestIs(closed[0 := DevNull], fd1, 1);
        LowestIs(closed[0 := DevNull][1 := DevNull], fd2, 2);
      }
    }

    /** Accepts a connection, receives the client's streams, opens the terminal if there is one
        and moves the streams to 0, 1 and 2.  `ok` is false where the code exits before su_main. */
    method ServeChild(listener: nat, tty: Tty, input: Option<nat>, output: Option<nat>, error: Option<nat>)
      returns (ok: bool)
      requires StandardOpen(fds) && 3 <= listener && listener in fds
      modifies this
      ensures ok <==> Serves(tty, input, output, error)
      ensures ok ==> StandardOpen(fds) && fds[0] == Route(input) && fds[1] == Route(output) && fds[2] == Route(error)
      ensures ok ==> forall n: nat :: 3 <= n ==>
        if n in old(fds) && n != listener then n in fds && fds[n] == old(fds)[n]
        else n in fds ==> fds[n] == Terminal && tty.Usable? && input.Some? && output.Some? && error.Some?
    {
      ghost var base := fds - {listener};
      var infd, outfd, errfd := AcceptClient(listener, input, output, error);
      ghost var all := input.Some? && output.Some? && error.Some?;
      if tty.Unusable? { return false; }
      if tty.Usable? {
        infd, outfd, errfd := OpenTerminal(infd, outfd, errfd, base, input, output, error);
      }
      ghost var ready := fds;
      ok := RunChild(infd, outfd, errfd);
      if ok {
        assert tty.NoTty? ==> NothingElse(ready, base, {infd, outfd, errfd}, tty.Usable? && all);
        Routed(ready, fds, infd, outfd, errfd);
        LeftOver(base, ready, fds, infd, outfd, errfd, tty.Usable? && all);
      }
    }

    /** Opens the terminal and puts it where the client sent no stream. */
    method OpenTerminal(infd: int, outfd: int, errfd: int,
                        ghost base: Table, ghost input: Option<nat>, ghost output: Option<nat>,
                        ghost error: Option<nat>)
      returns (infd': int, outfd': int, errfd': int)
      requires StandardOpen(base) && Over(fds, base, {infd, outfd, errfd})
      requires Holds(fds, base, infd, input) && Holds(fds, base, outfd, output) && Holds(fds, base, errfd, error)
      modifies this
      ensures Routable(fds, base, infd', input) && Routable(fds, base, outfd', output)
      ensures Routable(fds, base, errfd', error)
      ensures NothingElse(fds, base, {infd', outfd', errfd'}, input.Some? && output.Some? && error.Some?)
    {
      ghost var received := fds;
      var ptsfd := Allocate(Terminal);
      TerminalRoutes(base, received, ptsfd, input, infd);
      TerminalRoutes(base, received, ptsfd, output, outfd);
      TerminalRoutes(base, received, ptsfd, error, errfd);
      infd' := if infd < 0 then ptsfd else infd;
      outfd' := if outfd < 0 then ptsfd else outfd;
      errfd' := if errfd < 0 then ptsfd else errfd;
    }

    /** accept and the three recv_fd: the connection and the listener are closed again. */
    method AcceptClient(listener: nat, input: Option<nat>, output: Option<nat>, error: Option<nat>)
      returns (infd: int, outfd: int, errfd: int)
      requires StandardOpen(fds) && 3 <= listener && listener in fds
      modifies this
      ensures Over(fds, old(fds) - {listener}, {infd, outfd, errfd})
      ensures var base := old(fds) - {listener};
        Holds(fds, base, infd, input) && Holds(fds, base, outfd, output) && Holds(fds, base, errfd, error)
    {
      ghost var base := fds - {listener};
      var conn := Allocate(Connection);
      Close(listener);
      infd, outfd, errfd := ReceiveAll(input, output, error, base, conn);
      Close(conn);
    }

    /** The three recv_fd calls on an open connection. */
    method ReceiveAll(input: Option<nat>, output: Option<nat>, error: Option<nat>, ghost base: Table, ghost conn: nat)
      returns (infd: int, outfd: int, errfd: int)
      requires StandardOpen(base) && conn !in base && fds == base[conn := Connection]
      modifies this
      ensures Over(fds - {conn}, base, {infd, outfd, errfd})
      ensures Holds(fds - {conn}, base, infd, input) && Holds(fds - {conn}, base, outfd, output)
      ensures Holds(fds - {conn}, base, errfd, error)
    {
      ghost var t0 := fds;
      infd := Receive(input, base, {conn});
      ghost var t1 := fds;
      outfd := Receive(output, base, {conn} + {infd});
      ghost var t2 := fds;
      errfd := Receive(error, base, {conn} + {infd} + {outfd});
      assert {conn} + {infd} + {outfd} + {errfd} == {conn} + {infd, outfd, errfd};
      Disconnected(base, fds, conn, {infd, outfd, errfd});
      HoldsOn(t0, t1, fds, base, conn, infd, input);
      HoldsOn(t1, t2, fds, base, conn, outfd, output);
      HoldsOn(t2, fds, fds, base, conn, errfd, error);
    }

    /** recv_fd: a descriptor if the message carried one, else -1. */
    method Receive(f: Option<nat>, ghost base: Table, ghost extra: set<int>) returns (n: int)
      requires StandardOpen(base) && Over(fds, base, extra)
      modifies this
      ensures Over(fds, base, extra + {n}) && Holds(fds, base, n, f) && (n in old(fds) ==> n == -1)
      ensures Within(old(fds), fds)
    {
      if f.None? { return -1; }
      n := Allocate(ClientStream(f.value));
      LowestAboveStandard(old(fds), n);
    }

    /** run_daemon_child up to su_main. */
    method RunChild(infd: int, outfd: int, errfd: int) returns (ok: bool)
      requires Movable(fds, infd) && Movable(fds, outfd) && Movable(fds, errfd)
      modifies this
      ensures ok <==> infd >= 0 && outfd >= 0 && errfd >= 0
      ensures ok ==> fds == Moved(old(fds), infd, outfd, errfd) - {infd, outfd, errfd}
    {
      ghost var t := fds;
      ok := Dup2(outfd, 1);
      if !ok { return; }
      assert fds == t[1 := t[outfd]];
      ok := Dup2(errfd, 2);
      if !ok { return; }
      assert fds == t[1 := t[outfd]][2 := t[errfd]];
      ok := Dup2(infd, 0);
      if !ok { return; }
      assert fds == Moved(t, infd, outfd, errfd);
      CloseThree(fds, infd, outfd, errfd);
      Close(infd);
      Close(outfd);
      Close(errfd);
    }

    /** The daemon from start to child: whatever was open when it was started, and however few
        descriptors daemonize closes. */
    method DaemonToChild(limit: nat, tty: Tty, input: Option<nat>, output: Option<nat>, error: Option<nat>)
      returns (ok: bool)
      modifies this
      ensures ok <==>
        && (forall i: nat :: i < 3 && i in old(fds) ==> i < limit)
        && (tty.Usable? || (tty.NoTty? && input.Some? && output.Some? && error.Some?))
      ensures ok ==> StandardOpen(fds)
      ensures ok ==> fds[0] == if input.Some? then ClientStream(input.value) else Terminal
      ensures ok ==> fds[1] == if output.Some? then ClientStream(output.value) else Terminal
      ensures ok ==> fds[2] == if error.Some? then ClientStream(error.value) else Terminal
      ensures ok ==> forall n: nat :: 3 <= n ==>
        if n in old(fds) && limit <= n then n in fds && fds[n] == old(fds)[n]
        else n in fds ==> fds[n] == Terminal && tty.Usable? && input.Some? && output.Some? && error.Some?
    {
      ok := Daemonize(limit);
      if !ok { return; }
      ghost var daemon := fds;
      var listener := Allocate(Listener);
      LowestAboveStandard(daemon, listener);
      ok := ServeChild(listener, tty, input, output, error);
    }
  }

  /** No descriptor, or an open one above the standard ones. */
  ghost predicate Movable(t: Table, n: int) { n < 0 || (3 <= n && n in t) }

  /** The three dup2 calls: output, error, then input. */
  ghost function Moved(t: Table, infd: int, outfd: int, errfd: int): Table
    requires infd >= 0 && infd in t && outfd >= 0 && outfd in t && errfd >= 0 && errfd in t
  {
    t[1 := t[outfd]][2 := t[errfd]][0 := t[infd]]
  }

  lemma CloseThree(t: Table, a: nat, b: nat, c: nat)
    ensures ((t - {a}) - {b}) - {c} == t - {a, b, c}
  {}

  /** `t` is `base` and nothing else but the `extra` descriptors. */
  ghost predicate Over(t: Table, base: Table, extra: set<int>) {
    (forall n :: n in base ==> n in t && t[n] == base[n]) && forall n :: n in t ==> n in base || n in extra
  }

  /** Everything that was open is open still, as it was. */
  ghost predicate Within(t: Table, t': Table) { forall n :: n in t ==> n in t' && t'[n] == t[n] }

  /** A stream received after the connection was opened outlives it. */
  lemma HoldsOn(before: Table, t: Table, later: Table, base: Table, conn: nat, n: int, f: Option<nat>)
    requires Holds(t, base, n, f) && (n in before ==> n == -1) && conn in before && Within(t, later)
    ensures Holds(later - {conn}, base, n, f)
  {}

  lemma Disconnected(base: Table, t: Table, conn: nat, kept: set<int>)
    requires Over(t, base, {conn} + kept) && conn !in base
    ensures Over(t - {conn}, base, kept)
  {}

  /** What a stream becomes once the terminal is open, in a table that is otherwise unchanged. */
  lemma TerminalRoutes(base: Table, received: Table, ptsfd: nat, f: Option<nat>, n: int)
    requires StandardOpen(base) && Holds(received, base, n, f) && IsLowest(received, ptsfd)
    requires forall m :: m in base ==> m in received
    ensures Routable(received[ptsfd := Terminal], base, if n < 0 then ptsfd else n, f)
  {
    LowestAboveStandard(received, ptsfd);
  }

  /** Descriptor `n` holds what the child is to see as this stream. */
  ghost predicate Routable(t: Table, base: Table, n: int, f: Option<nat>) {
    3 <= n && n !in base && n in t && t[n] == Route(f)
  }

  /** Besides `base` and the streams nothing is open, or only a terminal that is not needed. */
  ghost predicate NothingElse(t: Table, base: Table, streams: set<int>, spare: bool) {
    && (forall n :: n in base ==> n in t && t[n] == base[n])
    && (forall n :: n in t ==> n in base || n in streams || (spare && t[n] == Terminal))
  }

  lemma LeftOver(base: Table, ready: Table, t: Table, infd: int, outfd: int, errfd: int, spare: bool)
    requires NothingElse(ready, base, {infd, outfd, errfd}, spare) && infd !in base && outfd !in base && errfd !in base
    requires forall n: nat :: 3 <= n ==> (n in t <==> n in ready && n !in {infd, outfd, errfd})
    requires forall n: nat :: 3 <= n && n in t ==> t[n] == ready[n]
    ensures forall n: nat :: 3 <= n ==>
      if n in base then n in t && t[n] == base[n] else n in t ==> spare && t[n] == Terminal
  {}

  /** After the moves and closes, what is left above the standard descriptors. */
  lemma Routed(ready: Table, t: Table, infd: int, outfd: int, errfd: int)
    requires 3 <= infd && infd in ready && 3 <= outfd && outfd in ready && 3 <= errfd && errfd in ready
    requires t == Moved(ready, infd, outfd, errfd) - {infd, outfd, errfd}
    ensures StandardOpen(t) && t[0] == ready[infd] && t[1] == ready[outfd] && t[2] == ready[errfd]
    ensures forall n: nat :: 3 <= n ==> (n in t <==> n in ready && n !in {infd, outfd, errfd})
    ensures forall n: nat :: 3 <= n && n in t ==> t[n] == ready[n]
  {}

  /** Descriptor `n` is the client's stream, above the standard ones and not one of the daemon's. */
  ghost predicate Holds(t: Table, base: Table, n: int, f: Option<nat>) {
    if f.Some? then 3 <= n && n !in base && n in t && t[n] == ClientStream(f.value) else n == -1
  }

  function Route(f: Option<nat>): File { if f.Some? then ClientStream(f.value) else Terminal }

  lemma LowestIs(t: Table, n: nat, k: nat)
    requires IsLowest(t, n) && k !in t && forall i: nat :: i < k ==> i in t
    ensures n == k
  {}

  lemma StandardFree(closed: Table, before: Table, limit: nat)
    requires closed == before - Upto(limit)
    ensures (forall i: nat :: i < 3 && i in before ==> i < limit) <==> 0 !in closed && 1 !in closed && 2 !in closed
  {}
}
