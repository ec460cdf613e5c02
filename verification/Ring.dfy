/** jni/utils/list.c: the circular doubly linked list.  A ring is described by the sequence of its
    nodes, starting at any of them. */
module Ring {

  class Node {
    var next: Node
    var prev: Node

    /** init_list_head. */
    constructor ()
      ensures next == this && prev == this && IsRing([this])
    {
      next, prev := this, this;
      new;
      assert Linked([this][0], [this][After([this], 0)]);
    }
  }

  function After(s: seq<Node>, i: nat): nat
    requires i < |s|
  {
    if i + 1 < |s| then i + 1 else 0
  }

  function Before(s: seq<Node>, i: nat): nat
    requires i < |s|
  {
    if i > 0 then i - 1 else |s| - 1
  }

  /** Distinct nodes, linked forwards and backwards all the way round. */
  ghost predicate IsRing(s: seq<Node>)
    reads set n | n in s
  {
    && s != []
    && (forall i, j :: 0 <= i < j < |s| ==> s[i] != s[j])
    && (forall i :: 0 <= i < |s| ==> Linked(s[i], s[After(s, i)]))
  }

  ghost predicate Linked(a: Node, b: Node)
    reads a, b
  {
    a.next == b && b.prev == a
  }

  lemma RingNeighbours(s: seq<Node>, k: nat)
    requires IsRing(s) && k < |s|
    ensures s[k].next == s[After(s, k)] && s[k].prev == s[Before(s, k)]
  {
    assert After(s, Before(s, k)) == k;
    assert Linked(s[k], s[After(s, k)]) && Linked(s[Before(s, k)], s[k]);
  }

  ghost function Inserted(s: seq<Node>, k: nat, node: Node): seq<Node>
    requires k < |s|
  {
    s[..k + 1] + [node] + s[k + 1..]
  }

  ghost function Removed(s: seq<Node>, k: nat): seq<Node>
    requires k < |s|
  {
    s[..k] + s[k + 1..]
  }

  lemma InsertedAt(s: seq<Node>, k: nat, node: Node, i: nat)
    requires k < |s| && i <= |s|
    ensures Inserted(s, k, node)[i] == if i <= k then s[i] else if i == k + 1 then node else s[i - 1]
  {}

  lemma RemovedAt(s: seq<Node>, k: nat, i: nat)
    requires k < |s| && i < |s| - 1
    ensures Removed(s, k)[i] == if i < k then s[i] else s[i + 1]
  {}

  /** list_insert: `node` goes in right behind `pos`. */
  method Insert(pos: Node, node: Node, ghost s: seq<Node>, ghost k: nat)
    requires IsRing(s) && k < |s| && s[k] == pos && node !in s
    modifies node, pos, pos.next
    ensures IsRing(Inserted(s, k, node))
  {
    RingNeighbours(s, k);
    node.next := pos.next;
    node.prev := pos;
    pos.next.prev := node;
    pos.next := node;
    ghost var r := Inserted(s, k, node);
    forall i, j | 0 <= i < j < |r| ensures r[i] != r[j] {
      InsertedAt(s, k, node, i);
      InsertedAt(s, k, node, j);
    }
    forall i | 0 <= i < |r| ensures Linked(r[i], r[After(r, i)]) {
      InsertedAt(s, k, node, i);
      InsertedAt(s, k, node, After(r, i));
      if i < k { assert old(Linked(s[i], s[After(s, i)])); }
      if i > k + 1 { assert old(Linked(s[i - 1], s[After(s, i - 1)])); }
    }
  }

  /** list_insert_end: `node` becomes the last one. */
  method InsertEnd(head: Node, node: Node, ghost s: seq<Node>)
    requires IsRing(s) && s[0] == head && node !in s
    modifies node, head, head.prev
    ensures IsRing(s + [node])
  {
    ghost var n := |s| - 1;
    RingNeighbours(s, 0);
    RingNeighbours(s, n);
    Insert(head.prev, node, s, n);
    assert Inserted(s, n, node) == s + [node];
  }

  /** list_pop: takes `pos` out, leaves it alone in a ring of its own, and returns its
      predecessor. */
  method Pop(pos: Node, ghost s: seq<Node>, ghost k: nat) returns (r: Node)
    requires IsRing(s) && k < |s| && s[k] == pos
    modifies pos, pos.prev, pos.next
    ensures IsRing([pos]) && r == s[Before(s, k)]
    ensures |s| > 1 ==> IsRing(Removed(s, k))
  {
    RingNeighbours(s, k);
    r := pos.prev;
    pos.prev.next := pos.next;
    pos.next.prev := pos.prev;
    pos.next := pos;
    pos.prev := pos;
    if |s| > 1 {
      ghost var rest := Removed(s, k);
      forall i, j | 0 <= i < j < |rest| ensures rest[i] != rest[j] {
        RemovedAt(s, k, i);
        RemovedAt(s, k, j);
      }
      forall i | 0 <= i < |rest| ensures Linked(rest[i], rest[After(rest, i)]) {
        RemovedAt(s, k, i);
        RemovedAt(s, k, After(rest, i));
        ghost var m := if i < k then i else i + 1;
        assert old(Linked(s[m], s[After(s, m)]));
      }
    }
    assert Linked([pos][0], [pos][After([pos], 0)]);
  }

  /** list_pop_end: takes the last node off; the bare head stays as it is. */
  method PopEnd(head: Node, ghost s: seq<Node>) returns (r: Node)
    requires IsRing(s) && s[0] == head
    modifies head, head.prev, head.prev.prev
    ensures |s| == 1 ==> r == head && IsRing(s)
    ensures |s| > 1 ==> r == s[|s| - 2] && IsRing(s[..|s| - 1]) && IsRing([s[|s| - 1]])
  {
    ghost var n := |s| - 1;
    RingNeighbours(s, 0);
    RingNeighbours(s, n);
    r := Pop(head.prev, s, n);
    assert Removed(s, n) == s[..n];
    assert |s| == 1 ==> s == [head];
  }

  /** Inserting a node anywhere and taking it out again restores the ring, link by link. */
  method InsertThenPop(pos: Node, node: Node, ghost s: seq<Node>, ghost k: nat)
    requires IsRing(s) && k < |s| && s[k] == pos && node !in s
    modifies node, pos, pos.next
    ensures IsRing(s) && IsRing([node])
  {
    RingNeighbours(s, k);
    Insert(pos, node, s, k);
    ghost var t := Inserted(s, k, node);
    assert |t| == |s| + 1;
    RingNeighbours(t, k + 1);
    InsertedAt(s, k, node, k);
    InsertedAt(s, k, node, k + 1);
    InsertedAt(s, k, node, After(t, k + 1));
    var _ := Pop(node, t, k + 1);
    assert Removed(t, k + 1) == s;
  }

  // ------------------------------------------------------------------ runs

  datatype Op = InsertAfter(pos: Node, node: Node) | InsertLast(node: Node) | PopNode(pos: Node) | PopLast

  /** Where a node stands. */
  ghost function Place(s: seq<Node>, n: Node): (i: nat)
    requires n in s
    ensures i < |s| && s[i] == n
  {
    if s[0] == n then 0 else 1 + Place(s[1..], n)
  }

  /** The list after one operation. */
  ghost function Apply(s: seq<Node>, op: Op): seq<Node>
    requires Legal(s, op)
  {
    match op
    case InsertAfter(pos, node) => Inserted(s, Place(s, pos), node)
    case InsertLast(node) => s + [node]
    case PopNode(pos) => Removed(s, Place(s, pos))
    case PopLast => if |s| == 1 then s else s[..|s| - 1]
  }

  /** Positions are in the list, new nodes are not, and the head stays. */
  ghost predicate Legal(s: seq<Node>, op: Op) {
    && s != []
    && match op
       case InsertAfter(pos, node) => pos in s && node !in s
       case InsertLast(node) => node !in s
       case PopNode(pos) => pos in s[1..]
       case PopLast => true
  }

  ghost predicate AllLegal(s: seq<Node>, ops: seq<Op>)
    decreases |ops|
  {
    ops == [] || (Legal(s, ops[0]) && AllLegal(Apply(s, ops[0]), ops[1..]))
  }

  ghost function ApplyAll(s: seq<Node>, ops: seq<Op>): seq<Node>
    requires AllLegal(s, ops)
    decreases |ops|
  {
    if ops == [] then s else ApplyAll(Apply(s, ops[0]), ops[1..])
  }

  ghost predicate Distinct(s: seq<Node>) { forall i, j :: 0 <= i < j < |s| ==> s[i] != s[j] }

  lemma PlaceIs(s: seq<Node>, i: nat)
    requires Distinct(s) && i < |s|
    ensures Place(s, s[i]) == i
  {}

  /** The position a node has after an operation. */
  ghost function Moved(s: seq<Node>, op: Op, i: nat): int
    requires Legal(s, op)
  {
    match op
    case InsertAfter(pos, _) => if i <= Place(s, pos) then i else i + 1
    case PopNode(pos) => if i < Place(s, pos) then i else i - 1
    case _ => i
  }

  lemma ApplyAt(s: seq<Node>, op: Op, m: nat)
    requires Legal(s, op) && m < |Apply(s, op)|
    ensures op.InsertAfter? ==>
      Apply(s, op)[m] ==
        if m <= Place(s, op.pos) then s[m] else if m == Place(s, op.pos) + 1 then op.node else s[m - 1]
    ensures op.InsertLast? ==> Apply(s, op)[m] == if m < |s| then s[m] else op.node
    ensures op.PopNode? ==> Apply(s, op)[m] == if m < Place(s, op.pos) then s[m] else s[m + 1]
    ensures op.PopLast? ==> Apply(s, op)[m] == s[m]
  {
    match op
    case InsertAfter(pos, node) => InsertedAt(s, Place(s, pos), node, m);
    case PopNode(pos) => RemovedAt(s, Place(s, pos), m);
    case _ =>
  }

  /** How many nodes an operation adds. */
  function Gain(op: Op, n: nat): int {
    match op
    case InsertAfter(_, _) => 1
    case InsertLast(_) => 1
    case PopNode(_) => -1
    case PopLast => if n == 1 then 0 else -1
  }

  lemma ApplyKeepsHead(s: seq<Node>, op: Op)
    requires Legal(s, op) && Distinct(s)
    ensures |Apply(s, op)| == |s| + Gain(op, |s|) && Apply(s, op) != [] && Apply(s, op)[0] == s[0]
    ensures Distinct(Apply(s, op))
  {
    PlaceIs(s, 0);
    var t := Apply(s, op);
    ApplyAt(s, op, 0);
    forall i, j | 0 <= i < j < |t| ensures t[i] != t[j] {
      ApplyAt(s, op, i);
      ApplyAt(s, op, j);
    }
  }

  /** An operation adds or removes its own node and keeps all others, in their order. */
  lemma ApplyMoves(s: seq<Node>, op: Op, i: nat)
    requires Legal(s, op) && Distinct(s) && i < |s|
    ensures s[i] !in Apply(s, op) <==> op == PopNode(s[i]) || (op.PopLast? && 0 < i == |s| - 1)
    ensures s[i] in Apply(s, op) ==>
      0 <= Moved(s, op, i) < |Apply(s, op)| && Apply(s, op)[Moved(s, op, i)] == s[i]
  {
    PlaceIs(s, i);
    var t := Apply(s, op);
    forall m | 0 <= m < |t| && op == PopNode(s[i]) ensures t[m] != s[i] { ApplyAt(s, op, m); }
    if 0 <= Moved(s, op, i) < |t| { ApplyAt(s, op, Moved(s, op, i)); }
  }

  /** A node of the list that no operation of the run takes out. */
  ghost predicate Kept(s: seq<Node>, ops: seq<Op>, n: Node)
    requires AllLegal(s, ops)
    decreases |ops|
  {
    n in s && (ops == [] || Kept(Apply(s, ops[0]), ops[1..], n))
  }

  lemma StepKeepsOrder(s: seq<Node>, op: Op, a: Node, b: Node)
    requires Legal(s, op) && Distinct(s) && a in s && b in s && Place(s, a) < Place(s, b)
    requires a in Apply(s, op) && b in Apply(s, op)
    ensures Distinct(Apply(s, op)) && Place(Apply(s, op), a) < Place(Apply(s, op), b)
  {
    ApplyKeepsHead(s, op);
    ApplyMoves(s, op, Place(s, a));
    ApplyMoves(s, op, Place(s, b));
    PlaceIs(Apply(s, op), Moved(s, op, Place(s, a)));
    PlaceIs(Apply(s, op), Moved(s, op, Place(s, b)));
  }

  /** Over any run the nodes that stay keep their order. */
  lemma {:induction false} RunKeepsOrder(s: seq<Node>, ops: seq<Op>, a: Node, b: Node)
    requires Distinct(s) && AllLegal(s, ops) && Kept(s, ops, a) && Kept(s, ops, b) && Place(s, a) < Place(s, b)
    ensures var t := ApplyAll(s, ops);
      a in t && b in t && Place(t, a) < Place(t, b)
    decreases |ops|
  {
    if ops != [] {
      assert a in Apply(s, ops[0]) && b in Apply(s, ops[0]);
      StepKeepsOrder(s, ops[0], a, b);
      RunKeepsOrder(Apply(s, ops[0]), ops[1..], a, b);
    }
  }

  /** One operation on the heap. */
  method Do(head: Node, op: Op, ghost s: seq<Node>)
    requires IsRing(s) && s[0] == head && Legal(s, op)
    modifies set n | n in s
    modifies Nodes(op)
    ensures IsRing(Apply(s, op)) && Apply(s, op)[0] == head
  {
    ApplyKeepsHead(s, op);
    RingNeighbours(s, 0);
    RingNeighbours(s, |s| - 1);
    match op
    case InsertAfter(pos, node) =>
      RingNeighbours(s, Place(s, pos));
      Insert(pos, node, s, Place(s, pos));
    case InsertLast(node) => InsertEnd(head, node, s);
    case PopNode(pos) =>
      RingNeighbours(s, Place(s, pos));
      var _ := Pop(pos, s, Place(s, pos));
    case PopLast =>
      RingNeighbours(s, Before(s, |s| - 1));
      var _ := PopEnd(head, s);
  }

  function Nodes(op: Op): set<Node> {
    match op
    case InsertAfter(pos, node) => {pos, node}
    case InsertLast(node) => {node}
    case PopNode(pos) => {pos}
    case PopLast => {}
  }

  lemma ApplyStep(s: seq<Node>, ops: seq<Op>, i: nat)
    requires i < |ops| && AllLegal(s, ops[i..])
    ensures Legal(s, ops[i]) && AllLegal(Apply(s, ops[i]), ops[i + 1..])
    ensures ApplyAll(s, ops[i..]) == ApplyAll(Apply(s, ops[i]), ops[i + 1..])
    ensures forall n :: n in Apply(s, ops[i]) ==> n in s || n in Nodes(ops[i])
  {
    assert ops[i..][0] == ops[i] && ops[i..][1..] == ops[i + 1..];
  }

  /** Any run of the four operations leaves the ring that the operations describe. */
  method RunOps(head: Node, ops: seq<Op>, ghost s: seq<Node>)
    requires IsRing(s) && s[0] == head && AllLegal(s, ops)
    modifies set n | n in s
    modifies set op, n | op in ops && n in Nodes(op) :: n
    ensures IsRing(ApplyAll(s, ops)) && ApplyAll(s, ops)[0] == head
  {
    ghost var t := s;
    for i := 0 to |ops|
      invariant IsRing(t) && t[0] == head
      invariant forall n :: n in t ==> n in s || exists op :: op in ops && n in Nodes(op)
      invariant AllLegal(t, ops[i..]) && ApplyAll(t, ops[i..]) == ApplyAll(s, ops)
    {
      assert ops[i] in ops;
      ApplyStep(t, ops, i);
      Do(head, ops[i], t);
      t := Apply(t, ops[i]);
    }
  }

  /** list_for_each: visits every node but the head, once, in order. */
  method Traverse(head: Node, ghost s: seq<Node>) returns (visited: seq<Node>)
    requires IsRing(s) && s[0] == head
    ensures visited == s[1..]
  {
    visited := [];
    RingNeighbours(s, 0);
    var cur := head.next;
    ghost var i := After(s, 0);
    while cur != head
      invariant 0 <= i < |s| && cur == s[i]
      invariant visited == if i == 0 then s[1..] else s[1..i]
      decreases if i == 0 then 0 else |s| - i
    {
      visited := visited + [cur];
      RingNeighbours(s, i);
      cur := cur.next;
      i := After(s, i);
    }
  }

  ghost function Reversed(s: seq<Node>): seq<Node> { if s == [] then [] else Reversed(s[1..]) + [s[0]] }

  lemma {:induction false} ReversedAppend(a: seq<Node>, x: Node)
    ensures Reversed(a + [x]) == [x] + Reversed(a)
  {
    if a == [] {
      assert (a + [x])[1..] == [];
    } else {
      ReversedAppend(a[1..], x);
      assert (a + [x])[1..] == a[1..] + [x];
      assert [x] + Reversed(a[1..]) + [a[0]] == [x] + (Reversed(a[1..]) + [a[0]]);
    }
  }

  lemma {:induction false} ReversedAt(s: seq<Node>, k: nat)
    requires k < |s|
    ensures |Reversed(s)| == |s| && Reversed(s)[k] == s[|s| - 1 - k]
  {
    if |s| > 1 { ReversedAt(s[1..], if k < |s| - 1 then k else 0); }
  }

  /** list_for_each_r: the same nodes in the opposite order. */
  method TraverseBack(head: Node, ghost s: seq<Node>) returns (visited: seq<Node>)
    requires IsRing(s) && s[0] == head
    ensures visited == Reversed(s[1..])
  {
    visited := [];
    RingNeighbours(s, 0);
    var cur := head.prev;
    ghost var i := Before(s, 0);
    assert s[1..i + 1] == s[1..] && [] + Reversed(s[1..]) == Reversed(s[1..]);
    while cur != head
      invariant 0 <= i < |s| && cur == s[i]
      invariant Reversed(s[1..]) == visited + Reversed(s[1..i + 1])
      decreases i
    {
      assert s[1..i + 1] == s[1..i] + [s[i]];
      ReversedAppend(s[1..i], s[i]);
      visited := visited + [cur];
      RingNeighbours(s, i);
      cur := cur.prev;
      i := Before(s, i);
    }
    assert s[1..1] == [];
  }
}
