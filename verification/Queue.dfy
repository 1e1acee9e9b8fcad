/** The linked-list queue, and the bounded, terminable queue built on it. */
module Queue {
  import opened Common

  class Node<T> {
    const data: T
    var next: Node?<T>

    constructor (data: T)
      ensures this.data == data && next == null
    {
      this.data, next := data, null;
    }
  }

  ghost function NodeAt<T>(nodes: seq<Node<T>>, i: int): Node?<T>
  {
    if 0 <= i < |nodes| then nodes[i] else null
  }

  class LinkedQueue<T> {
    var first: Node?<T>
    var last: Node?<T>
    var elemNum: nat
    // The nodes from first to last.
    ghost var nodes: seq<Node<T>>

    ghost predicate Valid()
      reads this, nodes
    {
      && elemNum == |nodes| && NoDup(nodes)
      && first == NodeAt(nodes, 0)
      && last == NodeAt(nodes, |nodes| - 1)
      && forall i :: 0 <= i < |nodes| ==> nodes[i].next == NodeAt(nodes, i + 1)
    }

    ghost function Contents(): (r: seq<T>)
      reads this
      ensures |r| == |nodes|
    {
      seq(|nodes|, i requires 0 <= i < |nodes| reads this => nodes[i].data)
    }

    constructor ()
      ensures Valid() && Contents() == [] && nodes == []
    {
      first, last, elemNum, nodes := null, null, 0, [];
    }

    method Push(element: T)
      requires Valid()
      modifies this, nodes
      ensures Valid() && Contents() == old(Contents()) + [element]
      ensures forall n :: n in nodes ==> n in old(nodes) || fresh(n)
    {
      var item := new Node(element);
      if first == null {
        first := item;
      } else {
        last.next := item;
      }
      last := item;
      elemNum := elemNum + 1;
      nodes := nodes + [item];
    }

    /** None stands for the null pointer of an empty queue. */
    method Pop() returns (r: Option<T>)
      requires Valid()
      modifies this
      ensures Valid()
      ensures old(Contents()) == [] ==> r == None && Contents() == []
      ensures old(Contents()) != [] ==> r == Some(old(Contents())[0]) && Contents() == old(Contents())[1..]
      ensures forall n :: n in nodes ==> n in old(nodes)
    {
      if elemNum == 0 {
        return None;
      }
      var item := first;
      first := item.next;
      if last == item {
        last := null;
      }
      elemNum := elemNum - 1;
      assert forall i :: 0 <= i < |nodes| - 1 ==> nodes[1..][i] == nodes[i + 1];
      nodes := nodes[1..];
      assert Contents() == old(Contents())[1..];
      return Some(item.data);
    }

    method Top() returns (r: Option<T>)
      requires Valid()
      ensures r == if Contents() == [] then None else Some(Contents()[0])
    {
      if elemNum == 0 {
        return None;
      }
      return Some(first.data);
    }

    method GetN(n: nat) returns (r: Option<T>)
      requires Valid()
      ensures r == if n < |Contents()| then Some(Contents()[n]) else None
    {
      if n >= elemNum {
        return None;
      }
      var i, item := 0, first;
      while i < n
        invariant i <= n && item == nodes[i]
      {
        item, i := item.next, i + 1;
      }
      return Some(item.data);
    }

    /** The first element that hits. */
    method Find(hit: T -> bool) returns (r: Option<T>)
      requires Valid()
      ensures r == None <==> forall x :: x in Contents() ==> !hit(x)
      ensures r.Some? ==> exists k :: 0 <= k < |Contents()| && FirstHit(Contents(), hit, k) && r == Some(Contents()[k])
    {
      ghost var k := 0;
      var item := first;
      while item != null && !hit(item.data)
        invariant k <= |nodes| && item == NodeAt(nodes, k)
        invariant forall i :: 0 <= i < k ==> !hit(Contents()[i])
        decreases |nodes| - k
      {
        item, k := item.next, k + 1;
      }
      assert item != null ==> FirstHit(Contents(), hit, k);
      r := if item == null then None else Some(item.data);
    }
  }

  /** The k-th element hits, and no earlier one. */
  ghost predicate FirstHit<T>(items: seq<T>, hit: T -> bool, k: nat)
    requires k < |items|
  {
    hit(items[k]) && forall i :: 0 <= i < k ==> !hit(items[i])
  }

  // ---------- Synchronized queue ----------

  /** A queue between two threads as a value. No more than `maxSize` items when that is positive. */
  datatype Chan<T> = Chan(items: seq<T>, term: bool, maxSize: int)
  {
    predicate Full() { maxSize > 0 && |items| >= maxSize }
  }

  datatype Pushed<T> = MustWait | Left(q: Chan<T>)

  datatype Popped<T> = Blocked | Null | Got(item: T, q: Chan<T>)

  /** One attempt to push. A push that finds the queue terminated drops the item; one that has
      already waited does not look again. */
  function TryPush<T>(q: Chan<T>, item: T, waited: bool): Pushed<T>
  {
    if q.term && !waited then Left(q)
    else if q.Full() then MustWait
    else Left(q.(items := q.items + [item]))
  }

  /** One attempt to pop. Null is returned only from a queue that is both terminated and empty. */
  function TryPop<T>(q: Chan<T>): Popped<T>
  {
    if q.items == [] then (if q.term then Null else Blocked)
    else Got(q.items[0], q.(items := q.items[1..]))
  }

  /** The lock-guarded operations; one call is one pass through the critical section, up to the
      wait or the unlock. */
  class SyncQueue<T> {
    var queue: LinkedQueue<T>
    var term: bool
    const maxSize: int
    // Everything ever accepted, and everything handed out.
    ghost var accepted: seq<T>
    ghost var handedOut: seq<T>

    ghost function View(): Chan<T>
      reads this, queue
    {
      Chan(queue.Contents(), term, maxSize)
    }

    /** First in, first out: what was handed out, then what is queued, is what was accepted. */
    ghost predicate Valid()
      reads this, queue, queue.nodes
    {
      && queue.Valid()
      && accepted == handedOut + queue.Contents()
      && (maxSize > 0 ==> |queue.Contents()| <= maxSize)
    }

    constructor (size: int)
      ensures Valid() && View() == Chan([], false, size) && accepted == [] && handedOut == []
      ensures fresh(queue)
    {
      queue := new LinkedQueue();
      term, maxSize, accepted, handedOut := false, size, [], [];
    }

    method Push(item: T, waited: bool) returns (done: bool)
      requires Valid()
      modifies this, queue, queue.nodes
      ensures Valid() && queue == old(queue) && forall n :: n in queue.nodes ==> n in old(queue.nodes) || fresh(n)
      ensures TryPush(old(View()), item, waited) == if done then Left(View()) else MustWait
      ensures !done ==> View() == old(View())
      ensures accepted == old(accepted) + if done && (waited || !term) then [item] else []
      ensures handedOut == old(handedOut)
    {
      if term && !waited {
        return true;
      }
      if maxSize > 0 && queue.elemNum >= maxSize {
        return false;
      }
      queue.Push(item);
      accepted := accepted + [item];
      return true;
    }

    /** Some(None) stands for the null pointer, None for waiting. */
    method Pop() returns (r: Option<Option<T>>)
      requires Valid()
      modifies this, queue
      ensures Valid() && queue == old(queue) && forall n :: n in queue.nodes ==> n in old(queue.nodes)
      ensures match TryPop(old(View()))
              case Blocked => r == None && View() == old(View())
              case Null => r == Some(None) && View() == old(View())
              case Got(item, q) => r == Some(Some(item)) && View() == q
      ensures handedOut == old(handedOut) + if r.Some? && r.value.Some? then [r.value.value] else []
      ensures accepted == old(accepted)
    {
      if queue.elemNum == 0 {
        return if term then Some(None) else None;
      }
      var item := queue.Pop();
      handedOut := handedOut + [item.value];
      return Some(item);
    }

    method Term()
      requires Valid()
      modifies this`term
      ensures Valid() && View() == old(View()).(term := true)
    {
      term := true;
    }
  }

  /** A producer that had to wait comes back with waited set. */
  datatype QueueOp<T> = Put(item: T, waited: bool) | Take | Close

  /** One operation on a queue; nothing happens where the caller would have to wait. */
  function Apply<T>(q: Chan<T>, op: QueueOp<T>): Chan<T>
  {
    match op
    case Put(x, waited) => (match TryPush(q, x, waited) case MustWait => q case Left(q') => q')
    case Take => (match TryPop(q) case Got(_, q') => q' case _ => q)
    case Close => q.(term := true)
  }

  /** What a run of operations hands to the consumer. */
  function Consumed<T>(q: Chan<T>, ops: seq<QueueOp<T>>): seq<T>
    decreases |ops|
  {
    if ops == [] then []
    else
      Out(q, ops[0]) + Consumed(Apply(q, ops[0]), ops[1..])
  }

  /** What a run of operations accepts from the producer. */
  function Accepted<T>(q: Chan<T>, ops: seq<QueueOp<T>>): seq<T>
    decreases |ops|
  {
    if ops == [] then []
    else
      In(q, ops[0]) + Accepted(Apply(q, ops[0]), ops[1..])
  }

  function ApplyAll<T>(q: Chan<T>, ops: seq<QueueOp<T>>): Chan<T>
    decreases |ops|
  {
    if ops == [] then q else ApplyAll(Apply(q, ops[0]), ops[1..])
  }

  /** What one operation accepts and hands out. */
  function In<T>(q: Chan<T>, op: QueueOp<T>): seq<T>
  {
    if op.Put? && (op.waited || !q.term) && !q.Full() then [op.item] else []
  }

  function Out<T>(q: Chan<T>, op: QueueOp<T>): seq<T>
  {
    if op.Take? && q.items != [] then [q.items[0]] else []
  }

  lemma OneOperation<T>(q: Chan<T>, op: QueueOp<T>)
    requires q.maxSize > 0 ==> |q.items| <= q.maxSize
    ensures q.items + In(q, op) == Out(q, op) + Apply(q, op).items
    ensures Apply(q, op).maxSize == q.maxSize && (q.maxSize > 0 ==> |Apply(q, op).items| <= q.maxSize)
    ensures Apply(q, op).term <==> q.term || op == Close
  {}

  /** Over any interleaving of pushes, also those that go on after a wait and after the
      termination, pops and terminations nothing is lost, repeated or
      reordered, and the queue never grows past its bound. */
  lemma {:induction false} FirstInFirstOut<T>(q: Chan<T>, ops: seq<QueueOp<T>>)
    requires q.maxSize > 0 ==> |q.items| <= q.maxSize
    ensures q.items + Accepted(q, ops) == Consumed(q, ops) + ApplyAll(q, ops).items
    ensures ApplyAll(q, ops).maxSize == q.maxSize
    ensures q.maxSize > 0 ==> |ApplyAll(q, ops).items| <= q.maxSize
    ensures Close in ops || q.term <==> ApplyAll(q, ops).term
    decreases |ops|
  {
    hide In, Out, Apply;
    if ops != [] {
      var q1, rest := Apply(q, ops[0]), ops[1..];
      OneOperation(q, ops[0]);
      FirstInFirstOut(q1, rest);
      assert ops == [ops[0]] + rest;
      Regroup(q.items, In(q, ops[0]), Out(q, ops[0]), q1.items, Accepted(q1, rest), Consumed(q1, rest),
              ApplyAll(q1, rest).items);
    }
  }

  lemma Regroup<T>(items: seq<T>, i: seq<T>, o: seq<T>, items1: seq<T>, ins: seq<T>, outs: seq<T>, left: seq<T>)
    requires items + i == o + items1 && items1 + ins == outs + left
    ensures items + (i + ins) == o + outs + left
  {
    assert items + (i + ins) == items + i + ins;
    assert o + items1 + ins == o + (items1 + ins);
    assert o + (outs + left) == o + outs + left;
  }
}
