/**
 ListQueue and ListNodeAllocator as linked nodes in the heap, called by one thread at a
 time: a queue of values, with a count of how much memory it ever takes.
 */
module ListQueues {

  class Node<T(0)> {
    var next: Node?<T>
    var data: T

    constructor ()
      ensures next == null
    {
      next := null;
    }
  }

  ghost predicate LinkAt<T(0)>(nodes: seq<Node<T>>, i: int)
    requires 0 <= i < |nodes|
    reads nodes
  {
    nodes[i].next == if i + 1 < |nodes| then nodes[i + 1] else null
  }

  // `nodes` are linked in this order, and the last one to nothing.
  ghost predicate Linked<T(0)>(nodes: seq<Node<T>>)
    reads nodes
  {
    nodes != [] && forall i :: 0 <= i < |nodes| ==> LinkAt(nodes, i)
  }

  ghost predicate Distinct<T(0)>(nodes: seq<Node<T>>) {
    forall i, j :: 0 <= i < j < |nodes| ==> nodes[i] != nodes[j]
  }

  ghost predicate Apart<T(0)>(xs: seq<Node<T>>, ys: seq<Node<T>>) {
    forall i, j :: 0 <= i < |xs| && 0 <= j < |ys| ==> xs[i] != ys[j]
  }

  // Behind the dummy, the nodes hold `contents`.
  ghost predicate Carries<T(0)>(nodes: seq<Node<T>>, contents: seq<T>)
    reads nodes
  {
    |nodes| == |contents| + 1 && forall i :: 0 < i < |nodes| ==> nodes[i].data == contents[i - 1]
  }

  lemma RestIsLinked<T(0)>(nodes: seq<Node<T>>, others: seq<Node<T>>)
    requires Linked(nodes) && Distinct(nodes) && Apart(nodes, others) && |nodes| > 1
    ensures Linked(nodes[1..]) && Distinct(nodes[1..]) && Apart(nodes[1..], others) && nodes[0] !in nodes[1..]
  {
    var rest := nodes[1..];
    forall i | 0 <= i < |rest|
      ensures rest[i] != nodes[0] && LinkAt(rest, i)
    {
      assert LinkAt(nodes, i + 1);
    }
  }

  lemma RestCarries<T(0)>(nodes: seq<Node<T>>, contents: seq<T>)
    requires Carries(nodes, contents) && |nodes| > 1
    ensures Carries(nodes[1..], contents[1..])
  {
  }

  // `chunks` is n / allocSize rounded up.
  ghost predicate CoversExactly(chunks: nat, n: nat, allocSize: nat) {
    n <= chunks * allocSize < n + allocSize
  }

  lemma {:induction false} MulMonotone(a: nat, b: nat, c: nat)
    requires a < b
    ensures a * c + c <= b * c
    decreases b
  {
    assert b * c == (b - 1) * c + c;
    if a < b - 1 {
      MulMonotone(a, b - 1, c);
    }
  }

  lemma CoversExactlyIsCeiling(chunks: nat, n: nat, allocSize: nat)
    requires 0 < allocSize
    ensures CoversExactly(chunks, n, allocSize) <==> chunks == (n + allocSize - 1) / allocSize
  {
    var q, r := (n + allocSize - 1) / allocSize, (n + allocSize - 1) % allocSize;
    assert n + allocSize - 1 == q * allocSize + r;
    if chunks < q {
      MulMonotone(chunks, q, allocSize);
    } else if q < chunks {
      MulMonotone(q, chunks, allocSize);
    }
  }

  // `chunks` chunks make up the nodes in use and the free ones, dummies aside, and are no
  // more than the most nodes ever in use called for.
  ghost predicate Thrifty(allocSize: nat, chunks: nat, peak: nat, used: nat, spare: nat) {
    && used + spare == chunks * allocSize + 1
    && used <= peak
    && CoversExactly(chunks, peak, allocSize)
  }

  lemma ThriftyBounds(allocSize: nat, chunks: nat, peak: nat, used: nat, spare: nat)
    requires Thrifty(allocSize, chunks, peak, used, spare)
    ensures used <= peak
  {
  }

  lemma TakeIsThrifty(allocSize: nat, chunks: nat, peak: nat, used: nat, spare: nat)
    requires Thrifty(allocSize, chunks, peak, used, spare) && 2 <= spare
    ensures Thrifty(allocSize, chunks, if peak == used then peak + 1 else peak, used + 1, spare - 1)
  {
  }

  lemma GrowIsThrifty(allocSize: nat, chunks: nat, peak: nat, used: nat)
    requires Thrifty(allocSize, chunks, peak, used, 1) && 2 <= allocSize
    ensures peak == used && Thrifty(allocSize, chunks + 1, peak + 1, used + 1, allocSize)
  {
    assert (chunks + 1) * allocSize == chunks * allocSize + allocSize;
  }

  lemma GiveBackIsThrifty(allocSize: nat, chunks: nat, peak: nat, used: nat, spare: nat)
    requires Thrifty(allocSize, chunks, peak, used, spare) && 0 < used
    ensures Thrifty(allocSize, chunks, peak, used - 1, spare + 1)
  {
  }

  class ListQueue<T(0)> {
    const allocSize: nat
    var head: Node<T>
    var tail: Node?<T>
    var freeHead: Node<T>
    var freeTail: Node?<T>
    ghost var live: seq<Node<T>>     // the dummy, then one node for each element
    ghost var spare: seq<Node<T>>    // the free list, dummy first
    ghost var contents: seq<T>
    ghost var chunks: nat
    ghost var peak: nat              // the most nodes ever in use beside the dummies

    // `lent` nodes are in the caller's hands.
    ghost predicate Holds(lent: nat)
      reads this, live, spare
    {
      && 2 <= allocSize
      && Linked(live) && Linked(spare)
      && Distinct(live) && Distinct(spare) && Apart(live, spare)
      && tail == live[0] && head == live[|live| - 1]
      && freeTail == spare[0] && freeHead == spare[|spare| - 1]
      && Carries(live, contents)
      && Thrifty(allocSize, chunks, peak, |contents| + lent, |spare|)
    }

    ghost predicate Valid()
      reads this, live, spare
    {
      Holds(0)
    }

    constructor (size: nat)
      requires 2 <= size
      ensures Valid() && contents == [] && chunks == 0 && peak == 0 && allocSize == size
      ensures fresh(live) && fresh(spare)
    {
      var first := new Node<T>();
      var second := new Node<T>();
      allocSize := size;
      head, tail, freeHead, freeTail := first, first, second, second;
      live, spare, contents, chunks, peak := [first], [second], [], 0, 0;
    }

    // The vector of default-constructed nodes.
    static method MakeNodes(n: nat) returns (nodes: seq<Node<T>>)
      ensures |nodes| == n && fresh(nodes) && Distinct(nodes)
      ensures forall i :: 0 <= i < n ==> nodes[i].next == null
    {
      nodes := [];
      while |nodes| < n
        invariant |nodes| <= n && fresh(nodes) && Distinct(nodes)
        invariant forall i :: 0 <= i < |nodes| ==> nodes[i].next == null
      {
        var node := new Node<T>();
        nodes := nodes + [node];
      }
    }

    // The chunk's free nodes, last one first.
    ghost function Backwards(nodes: seq<Node<T>>): (r: seq<Node<T>>)
      requires nodes != []
      ensures |r| == |nodes| - 1
      ensures forall i :: 0 <= i < |r| ==> r[i] == nodes[|nodes| - 1 - i]
    {
      seq(|nodes| - 1, i requires 0 <= i < |nodes| - 1 => nodes[|nodes| - 1 - i])
    }

    // The chain inside a chunk: every node from the third on points to the one before it.
    static method Chain(nodes: seq<Node<T>>)
      requires 2 <= |nodes| && Distinct(nodes)
      requires forall i :: 0 <= i < |nodes| ==> nodes[i].next == null
      modifies nodes
      ensures nodes[0].next == null && nodes[1].next == null
      ensures forall i :: 2 <= i < |nodes| ==> nodes[i].next == nodes[i - 1]
      ensures forall n :: n in nodes ==> n.data == old(n.data)
    {
      for i := 2 to |nodes|
        invariant nodes[0].next == null && nodes[1].next == null
        invariant forall k :: 2 <= k < i ==> nodes[k].next == nodes[k - 1]
        invariant forall n :: n in nodes ==> n.data == old(n.data)
      {
        nodes[i].next := nodes[i - 1];
      }
    }

    // The free list's dummy leaves and its successor becomes the dummy, unless it is alone.
    method TryDequeueFreeList() returns (node: Node?<T>)
      requires Valid()
      modifies this`freeTail, this`spare, this`peak, spare
      ensures node == null <==> |old(spare)| == 1
      ensures node == null ==> Valid() && spare == old(spare) && peak == old(peak)
      ensures node != null ==>
                && Holds(1)
                && node == old(spare[0]) && node.next == null && node !in live && node !in spare
                && spare == old(spare[1..])
                && peak == if old(peak) == |contents| then old(peak) + 1 else old(peak)
    {
      hide Thrifty;
      node := freeTail;
      freeTail := null;
      var next := node.next;
      assert LinkAt(spare, 0);
      if next == null {
        freeTail := node;
        return null;
      }
      RestIsLinked(spare, []);
      ghost var rest := spare[1..];
      freeTail := next;
      node.next := null;
      TakeIsThrifty(allocSize, chunks, peak, |contents|, |spare|);
      spare := rest;
      peak := if peak == |contents| then peak + 1 else peak;
    }

    // Chain a new chunk and hang it behind the free list; its first node is the caller's.
    method AddChunk() returns (node: Node<T>)
      requires Valid() && |spare| == 1
      modifies this`freeHead, this`spare, this`chunks, this`peak, spare
      ensures Holds(1) && node.next == null && node !in live && node !in spare
      ensures fresh(node) && fresh(set n | n in spare[1..])
      ensures spare[0] == old(spare[0]) && |spare| == allocSize
      ensures chunks == old(chunks) + 1 && old(peak) == |contents| && peak == |contents| + 1
    {
      hide Thrifty;
      var nodes := MakeNodes(allocSize);
      Chain(nodes);
      GrowIsThrifty(allocSize, chunks, peak, |contents|);
      ghost var was := spare;
      var prev := freeHead;
      freeHead := nodes[1];
      prev.next := nodes[allocSize - 1];
      spare, chunks, peak := was + Backwards(nodes), chunks + 1, peak + 1;
      forall i | 0 <= i < |spare| ensures LinkAt(spare, i) {}
      forall i | 0 <= i < |live| ensures LinkAt(live, i) {
        assert old(LinkAt(live, i)) && live[i] != was[0];
      }
      node := nodes[0];
    }

    /** A node linked to nothing and in no list: the free list's oldest, or, only when the free
        list is down to its dummy, the first of a new chunk. */
    method Alloc() returns (node: Node<T>)
      requires Valid()
      modifies this`freeHead, this`freeTail, this`spare, this`chunks, this`peak, spare
      ensures Holds(1) && node.next == null && node !in live && node !in spare
      ensures fresh(set n | n in spare && n !in old(spare))
      ensures if |old(spare)| == 1 then fresh(node) && chunks == old(chunks) + 1
              else node == old(spare[0]) && spare == old(spare[1..]) && chunks == old(chunks)
      ensures peak == if old(peak) == |contents| then old(peak) + 1 else old(peak)
    {
      hide Thrifty;
      var taken := TryDequeueFreeList();
      if taken == null {
        node := AddChunk();
      } else {
        node := taken;
      }
    }

    method Free(node: Node<T>)
      requires Holds(1) && node !in live && node !in spare
      modifies this`freeHead, this`spare, node, spare
      ensures Valid() && spare == old(spare) + [node]
    {
      hide Thrifty;
      GiveBackIsThrifty(allocSize, chunks, peak, |contents| + 1, |spare|);
      ghost var last, was := |spare| - 1, spare;
      node.next := null;
      var prev := freeHead;
      freeHead := node;
      prev.next := node;
      spare := was + [node];
      forall i | 0 <= i < |spare| ensures LinkAt(spare, i) {
        assert i < last ==> old(LinkAt(was, i)) && was[i] != was[last];
      }
      forall i | 0 <= i < |live| ensures LinkAt(live, i) {
        assert old(LinkAt(live, i)) && live[i] != was[last];
      }
    }

    // The producer's two stores: the link, and the head.
    method LinkLast(node: Node<T>)
      requires Holds(1) && node.next == null && node !in live && node !in spare
      modifies this`head, this`live, this`contents, live
      ensures Valid() && live == old(live) + [node] && contents == old(contents) + [node.data]
    {
      hide Thrifty;
      ghost var last, was := |live| - 1, live;
      head.next := node;
      head := node;
      live, contents := was + [node], contents + [node.data];
      forall i | 0 <= i < |live| ensures LinkAt(live, i) {
        assert i < last ==> old(LinkAt(was, i)) && was[i] != was[last];
      }
      forall i | 0 <= i < |spare| ensures LinkAt(spare, i) {
        assert old(LinkAt(spare, i)) && was[last] != spare[i];
      }
    }

    method EnqueueSp(input: T)
      requires Valid()
      modifies this, live, spare
      ensures Valid() && contents == old(contents) + [input]
      ensures peak == if |contents| > old(peak) then |contents| else old(peak)
    {
      hide Thrifty;
      ThriftyBounds(allocSize, chunks, peak, |contents|, |spare|);
      var node := Alloc();
      node.data := input;
      LinkLast(node);
    }

    method DequeueSc() returns (found: bool, output: T)
      requires Valid()
      modifies this, live, spare
      ensures Valid() && peak == old(peak) && chunks == old(chunks)
      ensures found <==> old(contents) != []
      ensures if found then output == old(contents[0]) && contents == old(contents[1..]) else contents == old(contents)
    {
      hide Thrifty;
      var node := tail;
      output := node.data;
      assert LinkAt(live, 0);
      var next := node.next;
      if next == null {
        return false, output;
      }
      RestIsLinked(live, spare);
      RestCarries(live, contents);
      output := next.data;
      tail := next;
      live, contents := live[1..], contents[1..];
      Free(node);
      found := true;
    }

    // With null in the tail while this thread works on it.
    method DequeueMc() returns (found: bool, output: T)
      requires Valid()
      modifies this, live, spare
      ensures Valid() && peak == old(peak) && chunks == old(chunks)
      ensures found <==> old(contents) != []
      ensures if found then output == old(contents[0]) && contents == old(contents[1..]) else contents == old(contents)
    {
      hide Thrifty;
      var node := tail;
      tail := null;
      output := node.data;
      assert LinkAt(live, 0);
      var next := node.next;
      if next == null {
        tail := node;
        return false, output;
      }
      RestIsLinked(live, spare);
      RestCarries(live, contents);
      output := next.data;
      tail := next;
      live, contents := live[1..], contents[1..];
      Free(node);
      found := true;
    }

    /** Memory follows the longest the queue has ever been, not the number of operations. */
    lemma ChunksFollowPeak()
      requires Valid()
      ensures chunks == (peak + allocSize - 1) / allocSize
      ensures |live| + |spare| == 2 + chunks * allocSize
    {
      CoversExactlyIsCeiling(chunks, peak, allocSize);
    }
  }
}
