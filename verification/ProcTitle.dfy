/** jni/su/setproctitle.c: the environment is moved out of the way of the process title, inside one flat
    memory that holds the argument strings, the environment strings and a heap block. */
module ProcTitle {
  import opened Wrappers
  import opened CStrings

  /** The addresses of a string, its NUL included, lie apart from [lo, hi). */
  predicate Apart(p: nat, s: string, lo: nat, hi: nat) { p + |s| < lo || hi <= p }

  function TotalSize(ss: seq<string>): nat {
    if ss == [] then 0 else TotalSize(ss[..|ss| - 1]) + |ss[|ss| - 1]| + 1
  }

  /** The end of the run of adjacent strings that starts at `start`, after looking at the first `n`. */
  function Reach(start: nat, ps: seq<nat>, ss: seq<string>, n: nat): (end: nat)
    requires n <= |ps| == |ss|
    ensures start <= end
    decreases n, 0
  {
    if n == 0 then start
    else if OnRun(start, ps, ss, n - 1) then ps[n - 1] + |ss[n - 1]| + 1
    else Reach(start, ps, ss, n - 1)
  }

  /** String `k` continues the run. */
  predicate OnRun(start: nat, ps: seq<nat>, ss: seq<string>, k: nat)
    requires k < |ps| == |ss|
    decreases k, 1
  {
    Reach(start, ps, ss, k) == ps[k]
  }

  /** Where string `k` is after the run has been moved to `heap`, string by string. */
  function NewPlace(start: nat, ps: seq<nat>, ss: seq<string>, heap: nat, k: nat): nat
    requires k < |ps| == |ss|
  {
    if OnRun(start, ps, ss, k) then heap + (Reach(start, ps, ss, k) - start) else ps[k]
  }

  /** The run starts at `start` and is exactly filled by its strings. */
  lemma {:induction false} RunIsFilled(start: nat, ps: seq<nat>, ss: seq<string>, n: nat, a: nat)
    requires n <= |ps| == |ss|
    ensures start <= a < Reach(start, ps, ss, n) <==>
      exists k :: 0 <= k < n && OnRun(start, ps, ss, k) && ps[k] <= a <= ps[k] + |ss[k]|
  {
    if n > 0 {
      RunIsFilled(start, ps, ss, n - 1, a);
      if OnRun(start, ps, ss, n - 1) {
        var r := Reach(start, ps, ss, n - 1);
        if start <= a < r {
          var k :| 0 <= k < n - 1 && OnRun(start, ps, ss, k) && ps[k] <= a <= ps[k] + |ss[k]|;
        } else if r <= a < Reach(start, ps, ss, n) {
          assert OnRun(start, ps, ss, n - 1) && ps[n - 1] <= a <= ps[n - 1] + |ss[n - 1]|;
        }
      }
    }
  }

  /** The run takes in every string that starts where it ends, whatever was passed over before, and no other. */
  lemma RunIsGreedy(start: nat, ps: seq<nat>, ss: seq<string>, k: nat)
    requires k < |ps| == |ss|
    ensures Reach(start, ps, ss, 0) == start
    ensures Reach(start, ps, ss, k + 1) ==
      Reach(start, ps, ss, k) + if ps[k] == Reach(start, ps, ss, k) then |ss[k]| + 1 else 0
  {}

  /** String after string without a gap. */
  ghost predicate Adjacent(start: nat, ps: seq<nat>, ss: seq<string>) {
    |ps| == |ss| && forall k :: 0 <= k < |ps| ==> ps[k] == start + TotalSize(ss[..k])
  }

  /** Such strings are all on the run, and are moved as they stand. */
  lemma {:induction false} AdjacentRun(start: nat, ps: seq<nat>, ss: seq<string>, heap: nat, n: nat)
    requires Adjacent(start, ps, ss) && n <= |ps|
    ensures Reach(start, ps, ss, n) == start + TotalSize(ss[..n])
    ensures n < |ps| ==> NewPlace(start, ps, ss, heap, n) == heap + TotalSize(ss[..n])
  {
    if n > 0 {
      AdjacentRun(start, ps, ss, heap, n - 1);
      assert ss[..n][..n - 1] == ss[..n - 1];
    }
  }

  ghost predicate AllStrings(mem: string, ps: seq<nat>, ss: seq<string>) {
    |ps| == |ss| && forall i :: 0 <= i < |ps| ==> CString(mem, ps[i], ss[i])
  }

  /** What the system guarantees at start: the environment strings overlap neither each other, nor
      an argument, nor the block that calloc returns. */
  ghost predicate Layout(mem: string, argv: seq<nat>, args: seq<string>, env: seq<nat>, envs: seq<string>, heap: nat) {
    && argv != [] && AllStrings(mem, argv, args) && AllStrings(mem, env, envs)
    && heap + TotalSize(envs) <= |mem|
    && (forall i, j :: 0 <= i < |env| && 0 <= j < |env| && i != j ==>
          Apart(env[i], envs[i], env[j], env[j] + |envs[j]| + 1))
    && (forall i, j :: 0 <= i < |env| && 0 <= j < |argv| ==> Apart(env[i], envs[i], argv[j], argv[j] + |args[j]| + 1))
    && (forall i :: 0 <= i < |env| ==> Apart(env[i], envs[i], heap, heap + TotalSize(envs)))
    && (forall i :: 0 <= i < |argv| ==> Apart(argv[i], args[i], heap, heap + TotalSize(envs)))
  }

  /** Every environment string is intact and outside the title block [first, last]. */
  ghost predicate Safe(mem: string, env: seq<nat>, envs: seq<string>, first: nat, last: nat) {
    AllStrings(mem, env, envs) && forall i :: 0 <= i < |env| ==> Apart(env[i], envs[i], first, last + 1)
  }

  /** cpystrn: copies a string into `n` bytes, cutting it if it does not fit. */
  method CopyString(mem: array<char>, dst: nat, src: nat, n: nat, ghost s: string) returns (end: nat)
    requires CString(mem[..], src, s) && dst + n <= mem.Length
    requires Apart(src, s, dst, dst + n)
    modifies mem
    ensures n == 0 ==> end == dst && mem[..] == old(mem[..])
    ensures n > 0 ==>
      && end == dst + (if |s| < n then |s| else n - 1)
      && CString(mem[..], dst, s[..end - dst])
    ensures forall a :: 0 <= a < mem.Length && !(dst <= a <= end && a < dst + n) ==> mem[a] == old(mem[a])
  {
    end := dst;
    if n == 0 { return; }
    var from, left := src, n - 1;
    var stopped := false;
    while left > 0 && !stopped
      invariant 0 <= left <= n - 1 && end == dst + (n - 1 - left) && from == src + (end - dst)
      invariant end - dst <= |s|
      invariant forall a :: dst <= a < end ==> mem[a] == s[a - dst]
      invariant forall a :: 0 <= a < mem.Length && !(dst <= a < end || (stopped && a == end)) ==> mem[a] == old(mem[a])
      invariant stopped ==> end == dst + |s| && mem[end] == NUL && left > 0
      decreases left, !stopped
    {
      CStringIndex(old(mem[..]), src, s, from - src);
      assert mem[from] == old(mem[from]);
      mem[end] := mem[from];
      if mem[end] == NUL {
        stopped := true;
      } else {
        end, from, left := end + 1, from + 1, left - 1;
      }
    }
    if !stopped { mem[end] := NUL; }
    assert forall i :: 0 <= i < end - dst ==> mem[..][dst + i] == s[i] && s[i] != NUL by {
      forall i | 0 <= i < end - dst ensures mem[..][dst + i] == s[i] && s[i] != NUL {
        CStringIndex(old(mem[..]), src, s, i);
      }
    }
  }

  /** The first loop of init_setproctitle: how much the copies need. */
  method Measure(mem: array<char>, env: seq<nat>, ghost envs: seq<string>) returns (size: nat)
    requires AllStrings(mem[..], env, envs)
    ensures size == TotalSize(envs)
  {
    size := 0;
    for i := 0 to |env|
      invariant size == TotalSize(envs[..i])
    {
      var n := Strlen(mem, env[i], envs[i]);
      size := size + n + 1;
      assert envs[..i + 1][..i] == envs[..i];
    }
    assert envs[..|envs|] == envs;
  }

  /** The second loop: the end of the run of adjacent argument strings. */
  method EndOfArgs(mem: array<char>, argv: seq<nat>, ghost args: seq<string>, env: seq<nat>, ghost envs: seq<string>,
                   heap: nat)
    returns (last: nat)
    requires Layout(mem[..], argv, args, env, envs, heap)
    ensures last == Reach(argv[0], argv, args, |argv|) && argv[0] + |args[0]| < last <= mem.Length
    ensures forall k :: 0 <= k < |env| ==> Apart(env[k], envs[k], argv[0], last)
    ensures heap + TotalSize(envs) <= argv[0] || last <= heap || TotalSize(envs) == 0
  {
    last := argv[0];
    for i := 0 to |argv|
      invariant last == Reach(argv[0], argv, args, i) && argv[0] <= last <= mem.Length
      invariant i > 0 ==> argv[0] + |args[0]| < last
      invariant forall k :: 0 <= k < |env| ==> Apart(env[k], envs[k], argv[0], last)
      invariant heap + TotalSize(envs) <= argv[0] || last <= heap || TotalSize(envs) == 0
    {
      if last == argv[i] {
        assert CString(mem[..], argv[i], args[i]);
        var n := Strlen(mem, argv[i], args[i]);
        assert Apart(argv[i], args[i], heap, heap + TotalSize(envs));
        last := argv[i] + n + 1;
        forall k | 0 <= k < |env| ensures Apart(env[k], envs[k], argv[0], last) {
          assert Apart(env[k], envs[k], argv[i], argv[i] + |args[i]| + 1);
        }
      }
    }
  }

  /** Where the strings may be when the third loop starts. */
  ghost predicate Spread(env: seq<nat>, envs: seq<string>, first: nat, end: nat, heap: nat) {
    && |env| == |envs|
    && (forall k :: 0 <= k < |env| ==> Apart(env[k], envs[k], first, end))
    && (forall k :: 0 <= k < |env| ==> Apart(env[k], envs[k], heap, heap + TotalSize(envs)))
    && (forall i, j :: 0 <= i < |env| && 0 <= j < |env| && i != j ==>
          Apart(env[i], envs[i], env[j], env[j] + |envs[j]| + 1))
    && (heap + TotalSize(envs) <= first || end <= heap || TotalSize(envs) == 0)
  }

  /** After `i` rounds: moved strings fill `used` bytes of the heap, the others are where they
      were, and none is inside the title block [first, last). */
  ghost predicate Placed(now: seq<nat>, env: seq<nat>, envs: seq<string>, i: nat, first: nat, last: nat, heap: nat,
                         used: nat) {
    && |now| == |env| == |envs| && i <= |env|
    && used <= TotalSize(envs[..i]) <= TotalSize(envs)
    && (heap + TotalSize(envs) <= first || last <= heap || TotalSize(envs) == 0)
    && (forall k :: 0 <= k < |now| ==> Apart(now[k], envs[k], first, last))
    && (forall k :: 0 <= k < |now| ==> now[k] == env[k] || (k < i && InBlock(now[k], envs[k], heap, used)))
  }

  lemma PlacedMove(now: seq<nat>, env: seq<nat>, envs: seq<string>, i: nat, first: nat, end: nat, last: nat,
                   heap: nat, used: nat)
    requires Spread(env, envs, first, end, heap) && Placed(now, env, envs, i, first, last, heap, used)
    requires first < end <= last && i < |env| && now[i] == last
    ensures var need := |envs[i]| + 1;
      && used + need <= TotalSize(envs)
      && (forall k :: 0 <= k < |now| ==> Apart(now[k], envs[k], heap + used, heap + used + need))
      && Placed(now[i := heap + used], env, envs, i + 1, first, last + need, heap, used + need)
  {
    var need := |envs[i]| + 1;
    TotalPrefix(envs, i);
    StillInPlace(now, env, envs, i, first, last, heap, used);
    forall k | 0 <= k < |now| ensures Apart(now[k], envs[k], heap + used, heap + used + need) {
      OffTheHeap(now, env, envs, i, first, end, last, heap, used, k);
    }
    forall k | 0 <= k < |now| ensures Apart(now[i := heap + used][k], envs[k], first, last + need) {
      if k != i {
        OffTheRun(now, env, envs, i, first, end, last, heap, used, k);
      } else {
        assert Apart(env[i], envs[i], heap, heap + TotalSize(envs));
      }
    }
  }

  /** A string that has not been looked at is where it was. */
  lemma StillInPlace(now: seq<nat>, env: seq<nat>, envs: seq<string>, i: nat, first: nat, last: nat, heap: nat,
                     used: nat)
    requires Placed(now, env, envs, i, first, last, heap, used) && i < |env|
    ensures now[i] == env[i]
  {}

  lemma OffTheHeap(now: seq<nat>, env: seq<nat>, envs: seq<string>, i: nat, first: nat, end: nat, last: nat,
                   heap: nat, used: nat, k: nat)
    requires Spread(env, envs, first, end, heap) && Placed(now, env, envs, i, first, last, heap, used)
    requires i < |env| && used + |envs[i]| + 1 <= TotalSize(envs) && k < |now|
    ensures Apart(now[k], envs[k], heap + used, heap + used + |envs[i]| + 1)
  {
    assert Apart(env[k], envs[k], heap, heap + TotalSize(envs));
    assert now[k] == env[k] || (k < i && InBlock(now[k], envs[k], heap, used));
  }

  lemma OffTheRun(now: seq<nat>, env: seq<nat>, envs: seq<string>, i: nat, first: nat, end: nat, last: nat,
                  heap: nat, used: nat, k: nat)
    requires Spread(env, envs, first, end, heap) && Placed(now, env, envs, i, first, last, heap, used)
    requires first < end <= last && i < |env| && env[i] == last && k < |now| && k != i
    ensures Apart(now[k], envs[k], first, last + |envs[i]| + 1)
  {
    assert Apart(now[k], envs[k], first, last);
    assert Apart(env[k], envs[k], env[i], env[i] + |envs[i]| + 1);
    assert Apart(env[i], envs[i], heap, heap + TotalSize(envs));
    assert now[k] == env[k] || (k < i && InBlock(now[k], envs[k], heap, used));
  }

  lemma PlacedSkip(now: seq<nat>, env: seq<nat>, envs: seq<string>, i: nat, first: nat, last: nat, heap: nat, used: nat)
    requires Placed(now, env, envs, i, first, last, heap, used) && i < |env|
    ensures Placed(now, env, envs, i + 1, first, last, heap, used)
  {
    TotalPrefix(envs, i);
  }

  /** After `i` rounds the first `i` strings are in their new places. */
  ghost predicate Settled(now: seq<nat>, env: seq<nat>, envs: seq<string>, i: nat, end: nat, heap: nat) {
    && |now| == |env| == |envs| && i <= |env|
    && forall k :: 0 <= k < |now| ==> now[k] == if k < i then NewPlace(end, env, envs, heap, k) else env[k]
  }

  /** The third loop: every environment string that continues the block is copied to the heap. */
  method Relocate(mem: array<char>, first: nat, end: nat, env: seq<nat>, ghost envs: seq<string>, heap: nat)
    returns (env': seq<nat>, last: nat)
    requires AllStrings(mem[..], env, envs) && first < end <= mem.Length && heap + TotalSize(envs) <= mem.Length
    requires Spread(env, envs, first, end, heap)
    modifies mem
    ensures first < end <= last <= mem.Length
    ensures last == Reach(end, env, envs, |env|) && Settled(env', env, envs, |env|, end, heap)
    ensures AllStrings(mem[..], env', envs)
    ensures forall k :: 0 <= k < |env'| ==> Apart(env'[k], envs[k], first, last)
    ensures forall a :: 0 <= a < mem.Length && !(heap <= a < heap + TotalSize(envs)) ==> mem[a] == old(mem[a])
  {
    env', last := env, end;
    var p := heap;
    assert TotalSize(envs[..0]) == 0;
    for i := 0 to |env|
      invariant first < end <= last <= mem.Length && Relocated(env', env, envs, i, first, end, last, heap, p)
      invariant AllStrings(mem[..], env', envs)
      invariant forall a :: 0 <= a < mem.Length && !(heap <= a < heap + TotalSize(envs)) ==> mem[a] == old(mem[a])
    {
      env', last, p := RelocateOne(mem, i, first, end, last, p, env', env, envs, heap);
    }
  }

  method RelocateOne(mem: array<char>, i: nat, ghost first: nat, ghost end: nat, last: nat, p: nat, now: seq<nat>,
                     ghost env: seq<nat>, ghost envs: seq<string>, ghost heap: nat)
    returns (now': seq<nat>, last': nat, p': nat)
    requires Spread(env, envs, first, end, heap) && first < end <= last <= mem.Length
    requires i < |env| && heap + TotalSize(envs) <= mem.Length
    requires Relocated(now, env, envs, i, first, end, last, heap, p)
    requires AllStrings(mem[..], now, envs)
    modifies mem
    ensures last <= last' <= mem.Length && Relocated(now', env, envs, i + 1, first, end, last', heap, p')
    ensures AllStrings(mem[..], now', envs)
    ensures forall a :: 0 <= a < mem.Length && !(heap <= a < heap + TotalSize(envs)) ==> mem[a] == old(mem[a])
  {
    now', last', p' := now, last, p;
    if last == now[i] {
      RelocatedMove(now, env, envs, i, first, end, last, heap, p);
      StringAt(mem[..], now, envs, i);
      last', p' := MoveOne(mem, now[i], p, i, now, envs);
      now' := now[i := p];
    } else {
      RelocatedSkip(now, env, envs, i, first, end, last, heap, p);
    }
  }

  /** After `i` rounds: how far the run reaches, how far the heap is used, and where every string is. */
  ghost predicate Relocated(now: seq<nat>, env: seq<nat>, envs: seq<string>, i: nat, first: nat, end: nat, last: nat,
                            heap: nat, p: nat)
  {
    && Settled(now, env, envs, i, end, heap) && last == Reach(end, env, envs, i) && heap <= p && last - end == p - heap
    && Placed(now, env, envs, i, first, last, heap, p - heap)
  }

  lemma RelocatedMove(now: seq<nat>, env: seq<nat>, envs: seq<string>, i: nat, first: nat, end: nat, last: nat,
                      heap: nat, p: nat)
    requires Spread(env, envs, first, end, heap) && Relocated(now, env, envs, i, first, end, last, heap, p)
    requires first < end && i < |env| && now[i] == last
    ensures var need := |envs[i]| + 1;
      && p + need <= heap + TotalSize(envs)
      && (forall k :: 0 <= k < |now| ==> Apart(now[k], envs[k], p, p + need))
      && Relocated(now[i := p], env, envs, i + 1, first, end, last + need, heap, p + need)
  {
    var used: nat := p - heap;
    assert heap + used == p;
    PlacedMove(now, env, envs, i, first, end, last, heap, used);
    SettledMove(now, env, envs, i, end, last, heap, used);
  }

  lemma SettledMove(now: seq<nat>, env: seq<nat>, envs: seq<string>, i: nat, end: nat, last: nat, heap: nat, used: nat)
    requires Settled(now, env, envs, i, end, heap) && i < |env| && now[i] == last
    requires last == Reach(end, env, envs, i) == end + used
    ensures Settled(now[i := heap + used], env, envs, i + 1, end, heap)
    ensures Reach(end, env, envs, i + 1) == last + (|envs[i]| + 1)
  {
    SettledStep(now, env, envs, i, end, heap);
  }

  lemma RelocatedSkip(now: seq<nat>, env: seq<nat>, envs: seq<string>, i: nat, first: nat, end: nat, last: nat,
                      heap: nat, p: nat)
    requires Relocated(now, env, envs, i, first, end, last, heap, p) && i < |env| && now[i] != last
    ensures Relocated(now, env, envs, i + 1, first, end, last, heap, p)
  {
    StillInPlace(now, env, envs, i, first, last, heap, p - heap);
    SettledStep(now, env, envs, i, end, heap);
    PlacedSkip(now, env, envs, i, first, last, heap, p - heap);
  }

  lemma StringAt(mem: string, ps: seq<nat>, ss: seq<string>, i: nat)
    requires AllStrings(mem, ps, ss) && i < |ps|
    ensures CString(mem, ps[i], ss[i])
  {}

  lemma SettledStep(now: seq<nat>, env: seq<nat>, envs: seq<string>, i: nat, end: nat, heap: nat)
    requires Settled(now, env, envs, i, end, heap) && i < |env|
    ensures Settled(now[i := NewPlace(end, env, envs, heap, i)], env, envs, i + 1, end, heap)
    ensures now[i := env[i]] == now
  {}

  /** One round of the third loop: copies a string to `p` and returns the ends of both. */
  method MoveOne(mem: array<char>, src: nat, p: nat, ghost i: nat, ghost env: seq<nat>, ghost envs: seq<string>)
    returns (last: nat, p': nat)
    requires AllStrings(mem[..], env, envs) && i < |env| && env[i] == src && p + |envs[i]| + 1 <= mem.Length
    requires forall k :: 0 <= k < |env| ==> Apart(env[k], envs[k], p, p + |envs[i]| + 1)
    modifies mem
    ensures last == src + |envs[i]| + 1 && p' == p + |envs[i]| + 1
    ensures AllStrings(mem[..], env[i := p], envs)
    ensures forall a :: 0 <= a < mem.Length && !(p <= a < p') ==> mem[a] == old(mem[a])
  {
    assert CString(mem[..], env[i], envs[i]);
    var n := Strlen(mem, src, envs[i]);
    var size := n + 1;
    last := src + size;
    var end := CopyString(mem, p, src, size, envs[i]);
    assert envs[i][..end - p] == envs[i];
    p' := p + size;
    forall k | 0 <= k < |env| ensures CString(mem[..], env[i := p][k], envs[k]) {
      if k != i {
        assert Apart(env[k], envs[k], p, p + |envs[i]| + 1);
        CStringFrame(old(mem[..]), mem[..], env[k], envs[k]);
      }
    }
  }

  predicate InBlock(p: nat, s: string, heap: nat, used: nat) { heap <= p && p + |s| < heap + used }

  lemma {:induction false} TotalPrefix(ss: seq<string>, i: nat)
    requires i < |ss|
    ensures TotalSize(ss[..i + 1]) == TotalSize(ss[..i]) + |ss[i]| + 1 <= TotalSize(ss)
    decreases |ss| - i
  {
    assert ss[..i + 1][..i] == ss[..i];
    if i + 1 < |ss| { TotalPrefix(ss, i + 1); } else { assert ss[..i + 1] == ss; }
  }

  /** The end of the run of arguments, continued by environment strings. */
  ghost function TitleEnd(argv: seq<nat>, args: seq<string>, env: seq<nat>, envs: seq<string>): nat
    requires argv != [] && |argv| == |args| && |env| == |envs|
  {
    Reach(Reach(argv[0], argv, args, |argv|), env, envs, |env|)
  }

  /** Arguments and environment without a gap are reclaimed entirely, and every environment string is moved. */
  lemma AllReclaimed(argv: seq<nat>, args: seq<string>, env: seq<nat>, envs: seq<string>, now: seq<nat>, heap: nat)
    requires argv != [] && Adjacent(argv[0], argv, args) && Adjacent(argv[0] + TotalSize(args), env, envs)
    requires Settled(now, env, envs, |env|, Reach(argv[0], argv, args, |argv|), heap)
    ensures TitleEnd(argv, args, env, envs) == argv[0] + TotalSize(args) + TotalSize(envs)
    ensures Adjacent(heap, now, envs)
  {
    AdjacentEnd(argv[0], argv, args);
    RunReclaimed(argv[0] + TotalSize(args), env, envs, now, heap);
  }

  lemma RunReclaimed(start: nat, ps: seq<nat>, ss: seq<string>, now: seq<nat>, heap: nat)
    requires Adjacent(start, ps, ss) && Settled(now, ps, ss, |ps|, start, heap)
    ensures Reach(start, ps, ss, |ps|) == start + TotalSize(ss) && Adjacent(heap, now, ss)
  {
    AdjacentEnd(start, ps, ss);
    AdjacentPlaces(start, ps, ss, now, heap);
  }

  lemma AdjacentEnd(start: nat, ps: seq<nat>, ss: seq<string>)
    requires Adjacent(start, ps, ss)
    ensures Reach(start, ps, ss, |ps|) == start + TotalSize(ss)
  {
    AdjacentRun(start, ps, ss, 0, |ps|);
    assert ss[..|ss|] == ss;
  }

  lemma AdjacentPlaces(start: nat, ps: seq<nat>, ss: seq<string>, now: seq<nat>, heap: nat)
    requires Adjacent(start, ps, ss) && Settled(now, ps, ss, |ps|, start, heap)
    ensures Adjacent(heap, now, ss)
  {
    forall k | 0 <= k < |now| ensures now[k] == heap + TotalSize(ss[..k]) { AdjacentRun(start, ps, ss, heap, k); }
  }

  /** init_setproctitle: every environment string keeps its content, exactly those on the run behind the
      arguments are moved, the copies fit the block that was allocated for them, and no string is left
      inside the title block. */
  method Init(mem: array<char>, argv: seq<nat>, ghost args: seq<string>, env: seq<nat>, ghost envs: seq<string>,
              heap: nat)
    returns (env': seq<nat>, last: nat)
    requires Layout(mem[..], argv, args, env, envs, heap)
    modifies mem
    ensures argv[0] + |args[0]| <= last < mem.Length
    ensures last + 1 == TitleEnd(argv, args, env, envs)
    ensures Settled(env', env, envs, |env|, Reach(argv[0], argv, args, |argv|), heap)
    ensures Safe(mem[..], env', envs, argv[0], last)
    ensures forall a :: 0 <= a < mem.Length && !(heap <= a < heap + TotalSize(envs)) ==> mem[a] == old(mem[a])
  {
    var size := Measure(mem, env, envs);
    var end := EndOfArgs(mem, argv, args, env, envs, heap);
    env', last := Relocate(mem, argv[0], end, env, envs, heap);
    last := last - 1;
  }

  /** The argument vector with its terminating NULL, whose first argument is the title block. */
  ghost predicate TitleVector(argv: seq<Option<nat>>, first: nat) { 2 <= |argv| && argv[0] == Some(first) }

  /** What the kernel keeps of a name. */
  const COMM_MAX := 15

  /** setproctitle: the second argument becomes NULL, the block gets the title, cut to fit, then NULs up to
      its end; nothing outside the block changes. */
  method SetTitle(mem: array<char>, argv: array<Option<nat>>, ghost first: nat, last: nat, title: nat,
                  ghost env: seq<nat>, ghost t: string, ghost envs: seq<string>)
    returns (comm: string)
    requires TitleVector(argv[..], first)
    requires first <= last < mem.Length && CString(mem[..], title, t) && Apart(title, t, first, last + 1)
    requires Safe(mem[..], env, envs, first, last)
    modifies mem, argv
    ensures argv[..] == old(argv[..])[1 := None] && comm == t[..if |t| < COMM_MAX then |t| else COMM_MAX]
    ensures Safe(mem[..], env, envs, first, last) && CString(mem[..], title, t)
    ensures forall a :: 0 <= a < mem.Length && !(first <= a < last) ==> mem[a] == old(mem[a])
    ensures first < last ==>
      var k := if |t| < last - first then |t| else last - first - 1;
      CString(mem[..], first, t[..k]) && forall a :: first + k <= a < last ==> mem[a] == NUL
  {
    var start := argv[0].value;
    argv[1] := None;
    var p := CopyString(mem, start, title, last - start, t);
    Fill(mem, p, last);
    if first < last {
      assert CString(mem[..], first, t[..p - first]);
    }
    CStringFrame(old(mem[..]), mem[..], title, t);
    SafeFrame(old(mem[..]), mem[..], env, envs, first, last);
    comm := KernelName(mem, title, t);
  }

  /** Writes inside the block leave the strings outside it alone. */
  lemma SafeFrame(mem: string, mem': string, ps: seq<nat>, ss: seq<string>, first: nat, last: nat)
    requires Safe(mem, ps, ss, first, last) && |mem| == |mem'|
    requires forall a :: 0 <= a < |mem| && !(first <= a < last) ==> mem'[a] == mem[a]
    ensures Safe(mem', ps, ss, first, last)
  {
    forall k | 0 <= k < |ps| ensures CString(mem', ps[k], ss[k]) {
      assert Apart(ps[k], ss[k], first, last + 1);
      CStringFrame(mem, mem', ps[k], ss[k]);
    }
  }

  /** prctl: the name as the kernel keeps it. */
  method KernelName(mem: array<char>, title: nat, ghost t: string) returns (comm: string)
    requires CString(mem[..], title, t)
    ensures comm == t[..if |t| < COMM_MAX then |t| else COMM_MAX]
  {
    comm := ReadString(mem, title, t);
    if |comm| > COMM_MAX { comm := comm[..COMM_MAX]; }
  }

  /** memset with NUL. */
  method Fill(mem: array<char>, from: nat, to: nat)
    requires from <= to <= mem.Length
    modifies mem
    ensures forall a :: from <= a < to ==> mem[a] == NUL
    ensures forall a :: 0 <= a < mem.Length && !(from <= a < to) ==> mem[a] == old(mem[a])
  {
    for i := from to to
      invariant forall a :: from <= a < i ==> mem[a] == NUL
      invariant forall a :: 0 <= a < mem.Length && !(from <= a < i) ==> mem[a] == old(mem[a])
    {
      mem[i] := NUL;
    }
  }

  /** Any number of titles, one after the other: the environment stays what it was. */
  method SetTitles(mem: array<char>, argv: array<Option<nat>>, ghost first: nat, last: nat, titles: seq<nat>,
                   ghost env: seq<nat>, ghost texts: seq<string>, ghost envs: seq<string>)
    requires TitleVector(argv[..], first)
    requires first <= last < mem.Length && Safe(mem[..], env, envs, first, last)
    requires Safe(mem[..], titles, texts, first, last)
    modifies mem, argv
    ensures argv[..] == if titles == [] then old(argv[..]) else old(argv[..])[1 := None]
    ensures Safe(mem[..], env, envs, first, last)
    ensures forall a :: 0 <= a < mem.Length && !(first <= a < last) ==> mem[a] == old(mem[a])
  {
    for i := 0 to |titles|
      invariant argv[..] == if i == 0 then old(argv[..]) else old(argv[..])[1 := None]
      invariant Safe(mem[..], env, envs, first, last)
      invariant Safe(mem[..], titles, texts, first, last)
      invariant forall a :: 0 <= a < mem.Length && !(first <= a < last) ==> mem[a] == old(mem[a])
    {
      StringAt(mem[..], titles, texts, i);
      ghost var before := mem[..];
      var _ := SetTitle(mem, argv, first, last, titles[i], env, texts[i], envs);
      SafeFrame(before, mem[..], titles, texts, first, last);
    }
  }
}
