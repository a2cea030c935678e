/**
 What the concurrent list queue and its node allocator promise, in every state that any
 interleaving of any number of threads can reach.
 */
module ListSafety {
  import opened ListProtocol

  ghost predicate Traced(threads: nat, allocSize: nat, reader: int, actions: seq<Action>, s: State)
    requires 2 <= allocSize
  {
    Run(threads, allocSize, reader, actions) == s
  }

  function Run(threads: nat, allocSize: nat, reader: int, actions: seq<Action>): (r: State)
    requires 2 <= allocSize
    ensures Sane(r)
  {
    if actions == [] then Initial(threads, allocSize, reader)
    else Step(Run(threads, allocSize, reader, actions[..|actions| - 1]), actions[|actions| - 1])
  }

  ghost predicate Reachable(s: State) {
    exists threads: nat, allocSize: nat, reader: int, actions :: 2 <= allocSize && Traced(threads, allocSize, reader, actions, s)
  }

  lemma {:induction false} RunKeepsInv(threads: nat, allocSize: nat, reader: int, actions: seq<Action>)
    requires 2 <= allocSize
    ensures Inv(Run(threads, allocSize, reader, actions))
  {
    if actions == [] {
      InitialInv(threads, allocSize, reader);
    } else {
      RunKeepsInv(threads, allocSize, reader, actions[..|actions| - 1]);
      StepKeepsInv(Run(threads, allocSize, reader, actions[..|actions| - 1]), actions[|actions| - 1]);
    }
  }

  lemma ReachableInv(s: State)
    requires Reachable(s)
    ensures Inv(s)
  {
    var threads: nat, allocSize: nat, reader: int, actions :| 2 <= allocSize && Traced(threads, allocSize, reader, actions, s);
    RunKeepsInv(threads, allocSize, reader, actions);
  }

  lemma StepReachable(s: State, a: Action)
    requires Reachable(s)
    ensures Sane(s) && Reachable(Step(s, a))
  {
    var threads: nat, allocSize: nat, reader: int, actions :| 2 <= allocSize && Traced(threads, allocSize, reader, actions, s);
    assert (actions + [a])[..|actions|] == actions;
    assert Traced(threads, allocSize, reader, actions + [a], Step(s, a));
  }

  // ------------------------------------------------------------- the queue

  // The values met on following `_next` from `node`, at most `n` of them.
  function Walk(s: State, node: int, n: nat): seq<int>
    decreases n
  {
    var next := Get(s.next, node);
    if n == 0 || next == NULL then [] else [Get(s.value, next)] + Walk(s, next, n - 1)
  }

  // The queue's dummy: in `_tail`, or with the one consumer that took it.
  function Dummy(s: State): int {
    if s.lock == NULL || !InRange(s.lock, |s.threads|) || !s.threads[s.lock].HasTail() then s.tail
    else s.threads[s.lock].node
  }

  lemma {:induction false} WalkFrom(s: State, p: nat, n: nat)
    requires Inv(s) && s.first <= p < |s.lq| && |s.lq| - 1 - p <= n
    ensures Walk(s, s.lq[p], n) == s.enqueued[p..]
    decreases n
  {
    Parts(s, p, 0, 0, 0);
    if p + 1 < |s.lq| {
      Parts(s, p + 1, 0, 0, 0);
      WalkFrom(s, p + 1, n - 1);
    }
  }

  /** FIFO.  Whatever has come out is a prefix, in order and without repetition, of what
      went in; and the links in memory, followed from the dummy, spell out the rest. */
  lemma QueueIsFifo(s: State, n: nat)
    requires Reachable(s) && |s.enqueued| <= n
    ensures s.dequeued <= s.enqueued
    ensures Walk(s, Dummy(s), n) == s.enqueued[|s.dequeued|..]
  {
    ReachableInv(s);
    Parts(s, 0, 0, 0, s.lock);
    WalkFrom(s, s.first, n);
  }

  /** The decision of a dequeue: nothing is returned exactly when everything enqueued so
      far was already taken, and otherwise it is the oldest value that comes out. */
  lemma DequeueDecides(s: State, t: nat)
    requires Reachable(s) && t < |s.threads| && s.threads[t].ReadLiveNext?
    ensures Sane(s) && (Advanced(s, t).threads[t].ReadData? <==> s.dequeued != s.enqueued)
  {
    ReachableInv(s);
    Parts(s, s.first, 0, 0, t);
    Parts(s, s.first + 1, 0, 0, t);
  }

  lemma DequeueTakesTheOldest(s: State, t: nat)
    requires Reachable(s) && t < |s.threads| && s.threads[t].AdvanceTail?
    ensures |s.dequeued| < |s.enqueued| && s.threads[t].out == s.enqueued[|s.dequeued|]
    ensures Sane(s) && Advanced(s, t).dequeued == s.dequeued + [s.enqueued[|s.dequeued|]]
  {
    ReachableInv(s);
    Parts(s, 0, 0, 0, t);
  }

  /** Null in the tail is a lock: one thread at a time is between taking a tail and putting
      one back, for the queue and for the free list alike.  (With dequeueSc there is no
      lock, and no second reader.) */
  lemma TailIsALock(s: State, t: nat, u: nat)
    requires Reachable(s) && t < |s.threads| && u < |s.threads|
    ensures s.threads[t].HasTail() && s.threads[u].HasTail() ==> t == u
    ensures s.threads[t].HasTail() && s.reader == NULL ==> s.tail == NULL
    ensures s.reader != NULL ==> s.tail != NULL
    ensures s.threads[t].HasFreeTail() ==> s.freeTail == NULL && (s.threads[u].HasFreeTail() ==> t == u)
    ensures s.tail == NULL ==> exists v: nat :: v < |s.threads| && s.threads[v].HasTail()
    ensures s.freeTail == NULL ==> exists v: nat :: v < |s.threads| && s.threads[v].HasFreeTail()
  {
    ReachableInv(s);
    Parts(s, s.first, s.ffirst, 0, t);
    Parts(s, s.first, s.ffirst, 0, u);
    assert s.tail == NULL ==> s.threads[s.lock].HasTail();
    assert s.freeTail == NULL ==> s.threads[s.flock].HasFreeTail();
  }

  // ------------------------------------------------------------- the nodes

  ghost predicate InQueue(s: State, n: int, p: int) { s.first <= p < |s.lq| && s.lq[p] == n }
  ghost predicate InFreeList(s: State, n: int, p: int) { s.ffirst <= p < |s.fl| && s.fl[p] == n }
  ghost predicate HeldBy(s: State, n: int, t: int) { 0 <= t < |s.threads| && s.threads[t].HasNode() && s.threads[t].Node() == n }

  /** Every node ever allocated is in exactly one place, once: at one place of the queue, at
      one place of the free list, or in the hands of one thread. */
  lemma NodeHasOnePlace(s: State, n: int)
    requires Reachable(s) && InRange(n, |s.next|)
    ensures (exists p :: InQueue(s, n, p)) || (exists p :: InFreeList(s, n, p)) || (exists t :: HeldBy(s, n, t))
    ensures forall p, q :: !(InQueue(s, n, p) && InFreeList(s, n, q))
    ensures forall p, t :: !(InQueue(s, n, p) && HeldBy(s, n, t))
    ensures forall p, t :: !(InFreeList(s, n, p) && HeldBy(s, n, t))
    ensures forall p, q :: InQueue(s, n, p) && InQueue(s, n, q) ==> p == q
    ensures forall p, q :: InFreeList(s, n, p) && InFreeList(s, n, q) ==> p == q
    ensures forall t, u :: HeldBy(s, n, t) && HeldBy(s, n, u) ==> t == u
  {
    ReachableInv(s);
    assert PlaceOk(s, n);
    forall p | InQueue(s, n, p) ensures s.place[n] == Live(p) { assert LiveAt(s, p); }
    forall p | InFreeList(s, n, p) ensures s.place[n] == Free(p) { assert FreeAt(s, p); }
    forall t | HeldBy(s, n, t) ensures s.place[n] == Hand(t) { assert ThreadOk(s, t); }
    match s.place[n]
    case Live(p) => assert InQueue(s, n, p);
    case Free(p) => assert InFreeList(s, n, p);
    case Hand(t) => assert HeldBy(s, n, t);
  }

  /** The node alloc hands out, recycled or new, is in nobody else's use and linked to nothing. */
  lemma AllocGivesAnUnusedNode(s: State, t: nat, u: nat)
    requires Reachable(s) && t < |s.threads| && u < |s.threads| && s.threads[t].Hold?
    ensures var n := s.threads[t].node;
            && InRange(n, |s.next|)
            && s.next[n] == NULL
            && (forall p :: !InQueue(s, n, p) && !InFreeList(s, n, p))
            && (t != u && s.threads[u].HasNode() ==> s.threads[u].Node() != n)
  {
    var n := s.threads[t].node;
    ReachableInv(s);
    Parts(s, 0, 0, 0, t);
    NodeHasOnePlace(s, n);
    assert HeldBy(s, n, t);
    assert s.threads[u].HasNode() && s.threads[u].Node() == n ==> HeldBy(s, n, u);
  }

  ghost predicate Owes(s: State, t: int, p: int) { InRange(t, |s.threads|) && s.threads[t].Links() && s.threads[t].p == p }

  // What a thread that owes a link will store.
  function Target(pc: PC): int
    requires pc.Links()
  {
    if pc.LinkChunk? then pc.first else pc.node
  }

  lemma OwerTold(s: State, t: int, p: nat)
    requires Inv(s) && Owes(s, t, p)
    ensures s.ffirst <= p < |s.fl| - 1 && s.gap[p] == t
    ensures s.threads[t].prev == s.fl[p] && Target(s.threads[t]) == s.fl[p + 1]
  {
    hide Inv;
    Parts(s, 0, 0, 0, t);
  }

  /** The free list is a chain of linked segments.  Between two neighbours the link is in
      memory and nobody owes it, or it is null and exactly one thread owes it: the one
      between its exchange and its store, which will write to the right node. */
  lemma FreeListSegments(s: State, p: nat)
    requires Reachable(s) && s.ffirst <= p < |s.fl| - 1
    ensures InRange(s.fl[p], |s.next|)
    ensures if s.next[s.fl[p]] == NULL then exists t :: Owes(s, t, p)
            else s.next[s.fl[p]] == s.fl[p + 1] && forall t :: !Owes(s, t, p)
    ensures forall t, u :: Owes(s, t, p) && Owes(s, u, p) ==> t == u
    ensures forall t | Owes(s, t, p) :: s.threads[t].prev == s.fl[p] && Target(s.threads[t]) == s.fl[p + 1]
  {
    hide Inv;
    hide LiveAt;
    hide PlaceOk;
    ReachableInv(s);
    Parts(s, 0, p, 0, 0);
    Parts(s, 0, p + 1, 0, 0);
    forall t | Owes(s, t, p)
      ensures s.gap[p] == t && s.threads[t].prev == s.fl[p] && Target(s.threads[t]) == s.fl[p + 1]
    {
      OwerTold(s, t, p);
    }
    if s.gap[p] != NULL { assert Owes(s, s.gap[p], p); }
  }

  /** alloc goes for a new chunk exactly when the free list shows it nothing: only the
      dummy is left, or the link behind the dummy is still owed. */
  lemma ChunkOnlyWhenNothingShows(s: State, t: nat)
    requires Reachable(s) && t < |s.threads| && s.threads[t].ReadFreeNext?
    ensures Sane(s)
    ensures Advanced(s, t).threads[t].PutBackFree? <==> (s.ffirst + 1 == |s.fl| || exists u :: Owes(s, u, s.ffirst))
  {
    hide Inv;
    hide LiveAt;
    hide PlaceOk;
    ReachableInv(s);
    Parts(s, 0, s.ffirst, 0, t);
    if s.ffirst + 1 < |s.fl| { FreeListSegments(s, s.ffirst); }
    forall u | Owes(s, u, s.ffirst) ensures s.ffirst + 1 < |s.fl| { OwerTold(s, u, s.ffirst); }
  }

  // The next step of a thread at `pc` reads or writes through the pointer `n`.
  ghost predicate Dereferences(s: State, pc: PC, n: int) {
    match pc
    case ReadFreeNext(node) => n == node
    case ClearNext(node) => n == node
    case LinkChunk(_, prev, _, _) => n == prev
    case Hold(node) => n == node
    case LinkLive(_, _) => n == s.head
    case ReadLiveNext(node) => n == node
    case ReadData(_, next) => n == next
    case FreeClear(node) => n == node
    case FreeLink(_, prev, _) => n == prev
    case _ => false
  }

  /** No step goes through a null pointer. */
  lemma NoNullDereference(s: State, t: nat, n: int)
    requires Reachable(s) && t < |s.threads| && Dereferences(s, s.threads[t], n)
    ensures InRange(n, |s.next|)
  {
    hide Inv;
    hide PlaceOk;
    ReachableInv(s);
    if s.threads[t].Links() {
      Parts(s, 0, s.threads[t].p, 0, t);
    } else {
      Parts(s, s.first, s.ffirst, 0, t);
      Parts(s, s.first + 1, 0, 0, t);
      Parts(s, |s.lq| - 1, 0, 0, t);
    }
  }
}
