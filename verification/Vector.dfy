/** jni/utils/vector.c: the doubling vector, with the cost of its reallocations. */
module Vector {

  /** The bookkeeping of a vector: what realloc has copied so far, how many pushes there were, and
      the largest size. */
  datatype Account = Account(size: nat, cap: nat, copied: nat, pushes: nat, peak: nat)

  const FRESH := Account(0, 1, 0, 0, 0)

  datatype Op<T> = Push(x: T) | Pop

  function After<T>(a: Account, op: Op<T>): Account {
    match op
    case Pop => if a.size > 0 then a.(size := a.size - 1) else a
    case Push(_) =>
      var full := a.size == a.cap;
      Account(a.size + 1, if full then 2 * a.cap else a.cap, if full then a.copied + a.size else a.copied,
              a.pushes + 1, if a.size + 1 > a.peak then a.size + 1 else a.peak)
  }

  function AfterAll<T>(a: Account, ops: seq<Op<T>>): Account {
    if ops == [] then a else After(AfterAll(a, ops[..|ops| - 1]), ops[|ops| - 1])
  }

  function Pow2(n: nat): nat { if n == 0 then 1 else 2 * Pow2(n - 1) }

  ghost predicate Sound(a: Account) {
    && a.size <= a.peak <= a.pushes && a.size <= a.cap
    && a.copied == a.cap - 1
    && (a.cap == 1 || a.cap < 2 * a.peak)
    && exists k: nat :: a.cap == Pow2(k)
  }

  lemma SoundStep<T>(a: Account, op: Op<T>)
    requires Sound(a)
    ensures Sound(After(a, op))
  {
    var k: nat :| a.cap == Pow2(k);
    assert Pow2(k + 1) == 2 * a.cap;
  }

  lemma {:induction false} RunSound<T>(ops: seq<Op<T>>)
    ensures Sound(AfterAll(FRESH, ops))
  {
    if ops == [] {
      assert FRESH.cap == Pow2(0);
    } else {
      RunSound(ops[..|ops| - 1]);
      SoundStep(AfterAll(FRESH, ops[..|ops| - 1]), ops[|ops| - 1]);
    }
  }

  function PushCount<T>(ops: seq<Op<T>>): nat {
    if ops == [] then 0 else PushCount(ops[..|ops| - 1]) + if ops[|ops| - 1].Push? then 1 else 0
  }

  lemma {:induction false} PushesCounted<T>(ops: seq<Op<T>>)
    ensures AfterAll(FRESH, ops).pushes == PushCount(ops)
  {
    if ops != [] { PushesCounted(ops[..|ops| - 1]); }
  }

  /** Over any run, all reallocations together copy fewer than two elements per push, and the
      capacity is a power of two below twice the largest size. */
  lemma AmortisedCost<T>(ops: seq<Op<T>>)
    ensures var a := AfterAll(FRESH, ops);
      && a.copied == a.cap - 1 && (a.copied == 0 || a.copied < 2 * PushCount(ops))
      && (a.cap == 1 || a.cap < 2 * a.peak)
      && exists k: nat :: a.cap == Pow2(k)
  {
    RunSound(ops);
    PushesCounted(ops);
  }

  /** The sequence that a run of pushes and pops leaves. */
  function Left<T>(ops: seq<Op<T>>): seq<T> {
    if ops == [] then []
    else
      var s, op := Left(ops[..|ops| - 1]), ops[|ops| - 1];
      if op.Push? then s + [op.x] else if s == [] then s else s[..|s| - 1]
  }

  /** Nothing is taken from an empty vector. */
  ghost predicate Live<T>(ops: seq<Op<T>>) {
    forall i :: 0 <= i < |ops| && ops[i].Pop? ==> Left(ops[..i]) != []
  }

  class Vec<T(0)> {
    var size: nat
    var data: array<T>
    ghost var copied: nat
    ghost var pushes: nat
    ghost var peak: nat

    ghost function Tally(): Account
      reads this
    {
      Account(size, data.Length, copied, pushes, peak)
    }

    ghost predicate Valid()
      reads this
    {
      size <= data.Length && data.Length >= 1
    }

    ghost function Contents(): seq<T>
      requires Valid()
      reads this, data
    {
      data[..size]
    }

    /** vec_init. */
    constructor ()
      ensures Valid() && Contents() == [] && Tally() == FRESH && fresh(data)
    {
      size := 0;
      data := new T[1];
      copied, pushes, peak := 0, 0, 0;
    }

    /** vec_push_back. */
    method PushBack(x: T)
      requires Valid()
      modifies this, data
      ensures Valid() && (data == old(data) || fresh(data))
      ensures Contents() == old(Contents()) + [x]
      ensures Tally() == After(old(Tally()), Push(x))
    {
      if size == data.Length {
        Grow();
      }
      data[size] := x;
      size := size + 1;
      pushes := pushes + 1;
      peak := if size > peak then size else peak;
    }

    /** realloc to twice the capacity. */
    method Grow()
      requires Valid() && size == data.Length
      modifies this
      ensures Valid() && fresh(data) && data.Length == 2 * old(data.Length)
      ensures data[..size] == old(data[..]) && size == old(size)
      ensures copied == old(copied) + size && pushes == old(pushes) && peak == old(peak)
    {
      var bigger := new T[2 * data.Length];
      for i := 0 to size
        modifies bigger
        invariant bigger[..i] == data[..i]
      {
        bigger[i] := data[i];
      }
      data := bigger;
      copied := copied + size;
    }

    /** vec_pop_back. */
    method PopBack() returns (x: T)
      requires Valid() && size > 0
      modifies this
      ensures Valid() && data == old(data)
      ensures old(Contents()) == Contents() + [x]
      ensures Tally() == After<T>(old(Tally()), Pop)
    {
      x := data[size - 1];
      size := size - 1;
    }
  }

  /** A run on the heap: the vector holds what the operations leave, and its reallocations have copied
      fewer than two elements per push. */
  method RunOps<T(0)>(ops: seq<Op<T>>) returns (v: Vec<T>)
    requires Live(ops)
    ensures v.Valid() && v.Contents() == Left(ops) && v.Tally() == AfterAll(FRESH, ops)
    ensures v.copied == 0 || v.copied < 2 * PushCount(ops)
  {
    v := new Vec();
    for i := 0 to |ops|
      invariant fresh(v) && fresh(v.data) && v.Valid()
      invariant v.Contents() == Left(ops[..i]) && v.Tally() == AfterAll(FRESH, ops[..i])
    {
      assert ops[..i + 1][..i] == ops[..i];
      match ops[i] {
        case Push(x) => v.PushBack(x);
        case Pop => var _ := v.PopBack();
      }
    }
    assert ops[..|ops|] == ops;
    AmortisedCost(ops);
  }
}
