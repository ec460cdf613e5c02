/** jni/su/pts.c: copying one descriptor to another with short reads and short writes. */
module Pump {
  type Bytes = seq<nat>

  const BUFFER := 4096

  /** What a call of read or write answers: some bytes were moved, or an error. */
  type Plan = nat -> int

  /** The byte count of a call that makes progress: between one and `max`. */
  function Clamp(n: int, max: nat): (r: int)
    requires max > 0
    ensures r == -1 || 1 <= r <= max
  {
    if n < 0 then -1 else if n == 0 then 1 else if n > max then max else n
  }

  /** write_blocking: writes `buf` behind `out`, in as many calls as it takes. */
  method WriteBlocking(out: Bytes, buf: Bytes, plan: Plan, call: nat) returns (out': Bytes, ok: bool, call': nat)
    requires buf != []
    ensures out <= out' <= out + buf
    ensures ok ==> out' == out + buf
    ensures !ok ==> call < call' && plan(call' - 1) < 0 && out' != out + buf
    ensures ok ==> forall i :: call <= i < call' ==> plan(i) >= 0
    ensures call <= call'
  {
    var written := 0;
    out', ok, call' := out, true, call;
    while ok && written < |buf|
      invariant 0 <= written <= |buf| && call <= call'
      invariant out' == out + buf[..written]
      invariant ok ==> forall i :: call <= i < call' ==> plan(i) >= 0
      invariant !ok ==> call < call' && plan(call' - 1) < 0 && written < |buf|
      decreases ok, |buf| - written
    {
      var ret := Clamp(plan(call'), |buf| - written);
      call' := call' + 1;
      if ret == -1 {
        ok := false;
      } else {
        assert buf[..written] + buf[written..written + ret] == buf[..written + ret];
        out' := out' + buf[written..written + ret];
        written := written + ret;
      }
    }
    assert buf[..|buf|] == buf;
    if !ok { assert |out'| < |out + buf|; }
  }

  /** pump_ex: until the input ends, or a read or a write fails.  The output is always a prefix of
      the input; without a failure it is all of it, and after a write failure it lacks at most one
      buffer of what has been read. */
  method PumpAll(input: Bytes, readPlan: Plan, writePlan: Plan)
    returns (out: Bytes, taken: nat, writeFailed: bool, readFailed: bool)
    ensures taken <= |input| && out <= input[..taken]
    ensures !writeFailed ==> out == input[..taken]
    ensures !writeFailed && !readFailed ==> out == input
    ensures writeFailed ==> |out| < taken <= |out| + 4096 && exists i: nat :: writePlan(i) < 0
    ensures readFailed ==> exists i: nat :: readPlan(i) < 0
  {
    out, taken, writeFailed, readFailed := [], 0, false, false;
    var rcall, wcall: nat := 0, 0;
    while taken < |input| && !writeFailed && !readFailed
      invariant taken <= |input| && out <= input[..taken]
      invariant !writeFailed ==> out == input[..taken]
      invariant writeFailed ==> |out| < taken <= |out| + BUFFER && exists i: nat :: writePlan(i) < 0
      invariant readFailed ==> exists i: nat :: readPlan(i) < 0
      decreases !writeFailed && !readFailed, |input| - taken
    {
      var room := if |input| - taken < BUFFER then |input| - taken else BUFFER;
      var len := Clamp(readPlan(rcall), room);
      if len == -1 {
        assert readPlan(rcall) < 0;
        readFailed := true;
      } else {
        var buf := input[taken..taken + len];
        assert input[..taken] + buf == input[..taken + len];
        var ok;
        out, ok, wcall := WriteBlocking(out, buf, writePlan, wcall);
        writeFailed := !ok;
        taken := taken + len;
      }
      rcall := rcall + 1;
    }
    assert input[..|input|] == input;
  }
}
