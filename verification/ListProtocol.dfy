/**
 ListQueue and ListNodeAllocator as a transition system: one producer enqueues, any
 number of threads dequeue, and every node that leaves the queue goes through a
 second lock-free queue, the free list, back into use.  Steps are single atomic
 loads, stores and exchanges.

 `next`, `value`, `head`, `tail`, `freeHead` and `freeTail` are the C++ objects; the
 rest records history.  Threads other than the producer may also allocate and free
 nodes directly, as ObjectPool does.
 */
module ListProtocol {

  const NULL := -1

  /** A thread inside alloc, free, enqueueSp or dequeueMc.  `p` is the place in the free
      list behind which the thread still has to store a link. */
  datatype PC =
    | Idle
    // _tryDequeueFreeList and the rest of alloc
    | TakeFreeTail
    | ReadFreeNext(node: int)
    | PutBackFree(node: int)
    | AdvanceFree(node: int, next: int)
    | ClearNext(node: int)
    | NewChunk
    | LinkChunk(base: int, prev: int, first: int, p: int)
    | Hold(node: int)
    // enqueueSp
    | LinkLive(node: int, v: int)
    | MoveHead(node: int)
    // dequeueMc, dequeueMcWeak, dequeueSc
    | TakeTail(weak: bool)
    | ReadLiveNext(node: int)
    | PutBackTail(node: int)
    | ReadData(node: int, next: int)
    | AdvanceTail(node: int, next: int, out: int)
    // free
    | FreeClear(node: int)
    | FreeExchange(node: int)
    | FreeLink(node: int, prev: int, p: int)
  {
    // The thread took the tail of the queue, respectively of the free list, and owes it back.
    predicate HasTail() { ReadLiveNext? || PutBackTail? || ReadData? || AdvanceTail? }
    predicate HasFreeTail() { ReadFreeNext? || PutBackFree? || AdvanceFree? }
    // The thread has exchanged the free list's head and not linked yet.
    predicate Links() { LinkChunk? || FreeLink? }
    // The thread has a node that is in no list.
    predicate HasNode() { ClearNext? || LinkChunk? || Hold? || LinkLive? || FreeClear? || FreeExchange? }
    function Node(): int requires HasNode() { if LinkChunk? then base else node }
  }

  // Where a node is: in the queue, in the free list, or in the hands of one thread.
  datatype Place = Live(pos: nat) | Free(pos: nat) | Hand(thread: nat)

  datatype State = State(
    next: seq<int>, value: seq<int>, head: int, tail: int, freeHead: int, freeTail: int, threads: seq<PC>,
    allocSize: nat, reader: int,           // the only thread that dequeues, or NULL if any may
    lq: seq<int>, first: nat,              // nodes in the order they joined the queue; the dummy's place
    fl: seq<int>, gap: seq<int>, ffirst: nat, // the same for the free list; who owes the link behind a place
    place: seq<Place>,
    lock: int, flock: int,                 // who took the tails
    enqueued: seq<int>, dequeued: seq<int>)

  // The constructor: node 0 is the queue's dummy, node 1 the free list's.
  function Initial(threads: nat, allocSize: nat, reader: int): State {
    State([NULL, NULL], [0, 0], 0, 0, 1, 1, seq(threads, _ => Idle), allocSize, reader,
          [0], 0, [1], [NULL], 0, [Live(0), Free(0)], NULL, NULL, [], [])
  }

  datatype Action =
    | Alloc(t: nat)
    | Release(t: nat)
    | Enqueue(t: nat, v: int)
    | Dequeue(t: nat, weak: bool)
    | Advance(t: nat)

  predicate InRange(node: int, n: nat) { 0 <= node < n }

  function At(s: State, t: nat, pc: PC): State
    requires t < |s.threads|
  {
    s.(threads := s.threads[t := pc])
  }

  // The nodes of a new chunk that go on the free list, in list order.
  function ChunkOrder(base: nat, allocSize: nat): seq<int>
    requires 2 <= allocSize
  {
    seq(allocSize - 1, i => base + allocSize - 1 - i)
  }

  // A load and a store through a node pointer.
  function Get(cells: seq<int>, node: int): int { if InRange(node, |cells|) then cells[node] else NULL }
  function Set<T>(cells: seq<T>, node: int, v: T): seq<T> { if InRange(node, |cells|) then cells[node := v] else cells }

  predicate Sane(s: State) {
    && 2 <= s.allocSize
    && |s.value| == |s.next| == |s.place|
    && s.fl != [] && |s.gap| == |s.fl| && s.lq != []
  }

  // The exchange that takes the free list's tail; a null makes the loop try again.
  function TakeFree(s: State, t: nat): State
    requires t < |s.threads|
  {
    if s.freeTail == NULL then s else At(s, t, ReadFreeNext(s.freeTail)).(freeTail := NULL, flock := t)
  }

  function LoadFreeNext(s: State, t: nat, node: int): State
    requires t < |s.threads|
  {
    var next := Get(s.next, node);
    At(s, t, if next == NULL then PutBackFree(node) else AdvanceFree(node, next))
  }

  function PutFreeBack(s: State, t: nat, node: int): State
    requires t < |s.threads|
  {
    At(s, t, NewChunk).(freeTail := node, flock := NULL)
  }

  function MoveFreeTail(s: State, t: nat, node: int, next: int): State
    requires t < |s.threads|
  {
    At(s, t, ClearNext(node)).(freeTail := next, flock := NULL, ffirst := s.ffirst + 1, place := Set(s.place, node, Hand(t)))
  }

  // The private store of null into `_next`, on the way out of the free list and into it.
  function Clear(s: State, t: nat, node: int, pc: PC): State
    requires t < |s.threads|
  {
    At(s, t, pc).(next := Set(s.next, node, NULL))
  }

  // Allocate a chunk, chain its nodes, and exchange the free list's head.
  function AddChunk(s: State, t: nat): State
    requires t < |s.threads| && Sane(s)
  {
    var base, last := |s.next|, |s.fl| - 1;
    At(s, t, LinkChunk(base, s.freeHead, base + s.allocSize - 1, last)).(
      next := s.next + [NULL, NULL] + seq(s.allocSize - 2, i => base + 1 + i),
      value := s.value + seq(s.allocSize, _ => 0),
      freeHead := base + 1,
      fl := s.fl + ChunkOrder(base, s.allocSize),
      gap := s.gap[last := t] + seq(s.allocSize - 1, _ => NULL),
      place := s.place + [Hand(t)] + seq(s.allocSize - 1, i requires 0 <= i < s.allocSize - 1 => Free(|s.fl| + (s.allocSize - 2 - i))))
  }

  // The store of the link that closes a gap in the free list.
  function CloseGap(s: State, t: nat, prev: int, target: int, p: int, pc: PC): State
    requires t < |s.threads|
  {
    At(s, t, pc).(next := Set(s.next, prev, target), gap := Set(s.gap, p, NULL))
  }

  // enqueueSp's store of the data, which no other thread can see yet.
  function Fill(s: State, v: int): State
    requires 0 < |s.threads| && s.threads[0].Hold?
  {
    var node := s.threads[0].node;
    At(s, 0, LinkLive(node, v)).(value := Set(s.value, node, v))
  }

  // enqueueSp's release store: this is where the value joins the queue.
  function Append(s: State, t: nat, node: int, v: int): State
    requires t < |s.threads|
  {
    At(s, t, MoveHead(node)).(next := Set(s.next, s.head, node), lq := s.lq + [node],
                              place := Set(s.place, node, Live(|s.lq|)), enqueued := s.enqueued + [v])
  }

  function StoreHead(s: State, t: nat, node: int): State
    requires t < |s.threads|
  {
    At(s, t, Idle).(head := node)
  }

  // The exchange that takes the queue's tail: dequeueMc tries again on null, dequeueMcWeak gives up.
  function TakeLive(s: State, t: nat, weak: bool): State
    requires t < |s.threads|
  {
    if s.tail == NULL then (if weak then At(s, t, Idle) else s)
    else At(s, t, ReadLiveNext(s.tail)).(tail := NULL, lock := t)
  }

  // dequeueSc only loads the tail.
  function LoadLive(s: State, t: nat): State
    requires t < |s.threads|
  {
    At(s, t, ReadLiveNext(s.tail)).(lock := t)
  }

  // Without a successor the tail must be put back.
  function LoadLiveNext(s: State, t: nat, node: int): State
    requires t < |s.threads|
  {
    var next := Get(s.next, node);
    At(s, t, if next == NULL then PutBackTail(node) else ReadData(node, next))
  }

  // dequeueSc never took the tail, and is done.
  function LoadLiveNextSc(s: State, t: nat, node: int): State
    requires t < |s.threads|
  {
    var next := Get(s.next, node);
    if next == NULL then At(s, t, Idle).(lock := NULL) else At(s, t, ReadData(node, next))
  }

  function PutLiveBack(s: State, t: nat, node: int): State
    requires t < |s.threads|
  {
    At(s, t, Idle).(tail := node, lock := NULL)
  }

  function LoadData(s: State, t: nat, node: int, next: int): State
    requires t < |s.threads|
  {
    At(s, t, AdvanceTail(node, next, Get(s.value, next)))
  }

  function MoveTail(s: State, t: nat, node: int, next: int, out: int): State
    requires t < |s.threads|
  {
    At(s, t, FreeClear(node)).(tail := next, lock := NULL, first := s.first + 1,
                               place := Set(s.place, node, Hand(t)), dequeued := s.dequeued + [out])
  }

  // free's exchange of the free list's head.
  function JoinFree(s: State, t: nat, node: int): State
    requires t < |s.threads| && Sane(s)
  {
    var last := |s.fl| - 1;
    At(s, t, FreeLink(node, s.freeHead, last)).(
      freeHead := node, fl := s.fl + [node], gap := s.gap[last := t] + [NULL], place := Set(s.place, node, Free(|s.fl|)))
  }

  // The next atomic step of thread `t`.
  function Advanced(s: State, t: nat): (r: State)
    requires t < |s.threads| && Sane(s)
    ensures Sane(r)
  {
    match s.threads[t]
    case TakeFreeTail => TakeFree(s, t)
    case ReadFreeNext(node) => LoadFreeNext(s, t, node)
    case PutBackFree(node) => PutFreeBack(s, t, node)
    case AdvanceFree(node, next) => MoveFreeTail(s, t, node, next)
    case ClearNext(node) => Clear(s, t, node, Hold(node))
    case NewChunk => AddChunk(s, t)
    case LinkChunk(base, prev, first, p) => CloseGap(s, t, prev, first, p, Hold(base))
    case LinkLive(node, v) => Append(s, t, node, v)
    case MoveHead(node) => StoreHead(s, t, node)
    case TakeTail(weak) => if s.reader == NULL then TakeLive(s, t, weak) else LoadLive(s, t)
    case ReadLiveNext(node) => if s.reader == NULL then LoadLiveNext(s, t, node) else LoadLiveNextSc(s, t, node)
    case PutBackTail(node) => PutLiveBack(s, t, node)
    case ReadData(node, next) => LoadData(s, t, node, next)
    case AdvanceTail(node, next, out) => MoveTail(s, t, node, next, out)
    case FreeClear(node) => Clear(s, t, node, FreeExchange(node))
    case FreeExchange(node) => JoinFree(s, t, node)
    case FreeLink(node, prev, p) => CloseGap(s, t, prev, node, p, Idle)
    case _ => s
  }

  function Step(s: State, a: Action): (r: State)
    requires Sane(s)
    ensures Sane(r)
  {
    match a
    case Alloc(t) =>
      if t < |s.threads| && s.threads[t].Idle? then At(s, t, TakeFreeTail) else s
    case Release(t) =>
      if t < |s.threads| && s.threads[t].Hold? then At(s, t, FreeClear(s.threads[t].node)) else s
    case Enqueue(t, v) =>
      // the single producer, with the node alloc gave it
      if t == 0 < |s.threads| && s.threads[0].Hold? then Fill(s, v) else s
    case Dequeue(t, weak) =>
      if t < |s.threads| && s.threads[t].Idle? && (s.reader == NULL || t == s.reader) then At(s, t, TakeTail(weak)) else s
    case Advance(t) =>
      if t < |s.threads| then Advanced(s, t) else s
  }

  // -------------------------------------------------------------- invariant

  /** Place `p` of the queue: its node is nowhere else, its link is in place, and (behind
      the dummy) it holds the p-th value enqueued. */
  ghost predicate LiveAt(s: State, p: int)
    requires Sane(s)
  {
    s.first <= p < |s.lq| ==>
      && InRange(s.lq[p], |s.next|)
      && s.place[s.lq[p]] == Live(p)
      && s.next[s.lq[p]] == (if p + 1 < |s.lq| then s.lq[p + 1] else NULL)
      && (s.first < p <= |s.enqueued| ==> s.value[s.lq[p]] == s.enqueued[p - 1])
  }

  /** Place `p` of the free list: either its link is in place, or exactly the thread
      `gap[p]` still has to store it. */
  ghost predicate FreeAt(s: State, p: int)
    requires Sane(s)
  {
    s.ffirst <= p < |s.fl| ==>
      && InRange(s.fl[p], |s.next|)
      && s.place[s.fl[p]] == Free(p)
      && (s.gap[p] == NULL ==> s.next[s.fl[p]] == (if p + 1 < |s.fl| then s.fl[p + 1] else NULL))
      && (s.gap[p] != NULL ==> s.next[s.fl[p]] == NULL && InRange(s.gap[p], |s.threads|) && p + 1 < |s.fl|
                               && s.threads[s.gap[p]].Links() && s.threads[s.gap[p]].p == p)
  }

  /** A node is really where the history says it is. */
  ghost predicate PlaceOk(s: State, n: int)
    requires Sane(s)
  {
    InRange(n, |s.place|) ==>
      match s.place[n]
      case Live(p) => s.first <= p < |s.lq| && s.lq[p] == n
      case Free(p) => s.ffirst <= p < |s.fl| && s.fl[p] == n
      case Hand(t) => t < |s.threads| && s.threads[t].HasNode() && s.threads[t].Node() == n
  }

  ghost predicate ThreadOk(s: State, t: int)
    requires Sane(s)
  {
    InRange(t, |s.threads|) ==>
      var pc := s.threads[t];
      && (pc.TakeTail? || pc.HasTail() ==> s.reader == NULL || t == s.reader)
      && (pc.PutBackTail? ==> s.reader == NULL)
      && (pc.HasTail() ==> s.lock == t && s.first < |s.lq| && pc.node == s.lq[s.first])
      && (pc.ReadData? || pc.AdvanceTail? ==> s.first + 1 < |s.lq| && pc.next == s.lq[s.first + 1])
      && (pc.AdvanceTail? ==> s.first < |s.enqueued| && pc.out == s.enqueued[s.first])
      && (pc.HasFreeTail() ==> s.flock == t && s.ffirst < |s.fl| && pc.node == s.fl[s.ffirst])
      && (pc.AdvanceFree? ==> s.ffirst + 1 < |s.fl| && pc.next == s.fl[s.ffirst + 1] && s.gap[s.ffirst] == NULL)
      && (pc.Links() ==> s.ffirst <= pc.p < |s.fl| - 1 && s.gap[pc.p] == t && pc.prev == s.fl[pc.p]
                         && s.fl[pc.p + 1] == (if pc.LinkChunk? then pc.first else pc.node))
      && (pc.HasNode() ==> InRange(pc.Node(), |s.place|) && s.place[pc.Node()] == Hand(t))
      && (pc.LinkChunk? || pc.Hold? || pc.LinkLive? || pc.FreeExchange? ==> InRange(pc.Node(), |s.next|) && s.next[pc.Node()] == NULL)
      && (pc.LinkLive? || pc.MoveHead? ==> t == 0)
      && (pc.LinkLive? ==> InRange(pc.node, |s.value|) && s.value[pc.node] == pc.v)
      && (pc.MoveHead? ==> |s.lq| >= 2 && pc.node == s.lq[|s.lq| - 1])
  }

  ghost predicate EndsOk(s: State)
    requires Sane(s)
  {
    && s.first < |s.lq| == |s.enqueued| + 1
    && s.ffirst < |s.fl|
    && s.dequeued == s.enqueued[..s.first]
    && s.freeHead == s.fl[|s.fl| - 1]
    && s.gap[|s.fl| - 1] == NULL
    && s.head == s.lq[if |s.threads| > 0 && s.threads[0].MoveHead? && |s.lq| >= 2 then |s.lq| - 2 else |s.lq| - 1]
    && (if s.lock == NULL then s.tail == s.lq[s.first]
        else s.tail == (if s.reader == NULL then NULL else s.lq[s.first]) && InRange(s.lock, |s.threads|) && s.threads[s.lock].HasTail())
    && (if s.flock == NULL then s.freeTail == s.fl[s.ffirst]
        else s.freeTail == NULL && InRange(s.flock, |s.threads|) && s.threads[s.flock].HasFreeTail())
  }

  ghost predicate Inv(s: State) {
    && Sane(s)
    && EndsOk(s)
    && (forall p {:trigger LiveAt(s, p)} :: LiveAt(s, p))
    && (forall p {:trigger FreeAt(s, p)} :: FreeAt(s, p))
    && (forall n {:trigger PlaceOk(s, n)} :: PlaceOk(s, n))
    && (forall t {:trigger ThreadOk(s, t)} :: ThreadOk(s, t))
  }

  lemma InitialInv(threads: nat, allocSize: nat, reader: int)
    requires 2 <= allocSize
    ensures Inv(Initial(threads, allocSize, reader))
  {
  }

  // What the invariant says of one place, one node and one thread.
  lemma Parts(s: State, p: int, q: int, n: int, t: int)
    requires Inv(s)
    ensures Sane(s) && EndsOk(s) && LiveAt(s, p) && FreeAt(s, q) && PlaceOk(s, n) && ThreadOk(s, t)
  {
  }

  // The invariant's statements about one place of each list, one node and one thread.
  ghost predicate PartsOk(s: State, p: int, q: int, n: int, i: int) {
    Sane(s) && EndsOk(s) && LiveAt(s, p) && FreeAt(s, q) && PlaceOk(s, n) && ThreadOk(s, i)
  }

  lemma LoadFreeNextKeeps(s: State, t: nat, p: int, q: int, n: int, i: int)
    requires Inv(s) && t < |s.threads| && s.threads[t].ReadFreeNext?
    ensures var pc := s.threads[t]; PartsOk(LoadFreeNext(s, t, pc.node), p, q, n, i)
  {
    hide Inv;
    Parts(s, p, q, n, i);
    Parts(s, p, s.ffirst, n, t);
    Parts(s, p, s.ffirst + 1, n, t);
  }

  lemma LoadLiveNextKeeps(s: State, t: nat, p: int, q: int, n: int, i: int)
    requires Inv(s) && t < |s.threads| && s.threads[t].ReadLiveNext? && s.reader == NULL
    ensures var pc := s.threads[t]; PartsOk(LoadLiveNext(s, t, pc.node), p, q, n, i)
  {
    hide Inv;
    Parts(s, p, q, n, i);
    Parts(s, s.first, q, n, t);
    Parts(s, s.first + 1, q, n, t);
  }

  // dequeueSc gives up: the tail is still where it was.
  lemma LeaveTailKeeps(s: State, t: nat, p: int, q: int, n: int, i: int)
    requires Inv(s) && t < |s.threads| && s.threads[t].ReadLiveNext? && s.reader != NULL
    ensures PartsOk(At(s, t, Idle).(lock := NULL), p, q, n, i)
  {
    hide Inv;
    Parts(s, p, q, n, i);
    Parts(s, s.first, q, n, t);
  }

  lemma FindNextKeeps(s: State, t: nat, p: int, q: int, n: int, i: int)
    requires Inv(s) && t < |s.threads| && s.threads[t].ReadLiveNext? && Get(s.next, s.threads[t].node) != NULL
    ensures PartsOk(At(s, t, ReadData(s.threads[t].node, Get(s.next, s.threads[t].node))), p, q, n, i)
  {
    hide Inv;
    Parts(s, p, q, n, i);
    Parts(s, s.first, q, n, t);
    Parts(s, s.first + 1, q, n, t);
  }

  lemma LoadLiveNextScKeeps(s: State, t: nat, p: int, q: int, n: int, i: int)
    requires Inv(s) && t < |s.threads| && s.threads[t].ReadLiveNext? && s.reader != NULL
    ensures PartsOk(LoadLiveNextSc(s, t, s.threads[t].node), p, q, n, i)
  {
    hide Inv;
    hide PartsOk;
    if Get(s.next, s.threads[t].node) == NULL {
      LeaveTailKeeps(s, t, p, q, n, i);
    } else {
      FindNextKeeps(s, t, p, q, n, i);
    }
  }

  lemma LoadDataKeeps(s: State, t: nat, p: int, q: int, n: int, i: int)
    requires Inv(s) && t < |s.threads| && s.threads[t].ReadData?
    ensures var pc := s.threads[t]; PartsOk(LoadData(s, t, pc.node, pc.next), p, q, n, i)
  {
    hide Inv;
    Parts(s, p, q, n, i);
    Parts(s, s.first, q, n, t);
    Parts(s, s.first + 1, q, n, t);
  }

  lemma TakeLiveKeeps(s: State, t: nat, p: int, q: int, n: int, i: int)
    requires Inv(s) && t < |s.threads| && s.threads[t].TakeTail? && s.reader == NULL && s.tail != NULL
    ensures PartsOk(TakeLive(s, t, s.threads[t].weak), p, q, n, i)
  {
    hide Inv;
    Parts(s, p, q, n, i);
    Parts(s, s.first, q, n, t);
  }

  lemma GiveUpKeeps(s: State, t: nat, p: int, q: int, n: int, i: int)
    requires Inv(s) && t < |s.threads| && s.threads[t].TakeTail?
    ensures PartsOk(At(s, t, Idle), p, q, n, i) && PartsOk(s, p, q, n, i)
  {
    hide Inv;
    Parts(s, p, q, n, i);
    Parts(s, p, q, n, t);
  }

  // The only reader finds the tail in its place: nobody else could have taken it.
  lemma LoadLiveKeeps(s: State, t: nat, p: int, q: int, n: int, i: int)
    requires Inv(s) && t < |s.threads| && s.threads[t].TakeTail? && s.reader != NULL
    ensures PartsOk(LoadLive(s, t), p, q, n, i)
  {
    hide Inv;
    Parts(s, p, q, n, i);
    Parts(s, s.first, q, n, t);
    Parts(s, p, q, n, s.lock);
  }

  lemma PutLiveBackKeeps(s: State, t: nat, p: int, q: int, n: int, i: int)
    requires Inv(s) && t < |s.threads| && s.threads[t].PutBackTail?
    ensures var pc := s.threads[t]; PartsOk(PutLiveBack(s, t, pc.node), p, q, n, i)
  {
    hide Inv;
    Parts(s, p, q, n, i);
    Parts(s, s.first, q, n, t);
  }

  lemma TakeFreeKeeps(s: State, t: nat, p: int, q: int, n: int, i: int)
    requires Inv(s) && t < |s.threads| && s.threads[t].TakeFreeTail?
    ensures var pc := s.threads[t]; PartsOk(TakeFree(s, t), p, q, n, i)
  {
    hide Inv;
    Parts(s, p, q, n, i);
    Parts(s, p, s.ffirst, n, t);
  }

  lemma PutFreeBackKeeps(s: State, t: nat, p: int, q: int, n: int, i: int)
    requires Inv(s) && t < |s.threads| && s.threads[t].PutBackFree?
    ensures var pc := s.threads[t]; PartsOk(PutFreeBack(s, t, pc.node), p, q, n, i)
  {
    hide Inv;
    Parts(s, p, q, n, i);
    Parts(s, p, s.ffirst, n, t);
  }

  lemma MoveTailKeeps(s: State, t: nat, p: int, q: int, n: int, i: int)
    requires Inv(s) && t < |s.threads| && s.threads[t].AdvanceTail?
    ensures var pc := s.threads[t]; PartsOk(MoveTail(s, t, pc.node, pc.next, pc.out), p, q, n, i)
  {
    hide Inv;
    Parts(s, p, q, n, i);
    Parts(s, s.first, q, n, t);
    Parts(s, s.first + 1, q, n, t);
  }

  lemma MoveFreeTailKeeps(s: State, t: nat, p: int, q: int, n: int, i: int)
    requires Inv(s) && t < |s.threads| && s.threads[t].AdvanceFree?
    ensures var pc := s.threads[t]; PartsOk(MoveFreeTail(s, t, pc.node, pc.next), p, q, n, i)
  {
    hide Inv;
    Parts(s, p, q, n, i);
    Parts(s, p, s.ffirst, n, t);
    Parts(s, p, s.ffirst + 1, n, t);
  }

  lemma ClearTakenKeeps(s: State, t: nat, p: int, q: int, n: int, i: int)
    requires Inv(s) && t < |s.threads| && s.threads[t].ClearNext?
    ensures var pc := s.threads[t]; PartsOk(Clear(s, t, pc.node, Hold(pc.node)), p, q, n, i)
  {
    hide Inv;
    Parts(s, p, q, n, i);
    Parts(s, p, q, n, t);
  }

  lemma ClearFreedKeeps(s: State, t: nat, p: int, q: int, n: int, i: int)
    requires Inv(s) && t < |s.threads| && s.threads[t].FreeClear?
    ensures var pc := s.threads[t]; PartsOk(Clear(s, t, pc.node, FreeExchange(pc.node)), p, q, n, i)
  {
    hide Inv;
    Parts(s, p, q, n, i);
    Parts(s, p, q, n, t);
  }

  lemma AppendKeepsLists(s: State, t: nat, p: int, q: int)
    requires Inv(s) && t < |s.threads| && s.threads[t].LinkLive?
    ensures var r := Append(s, t, s.threads[t].node, s.threads[t].v);
            Sane(r) && EndsOk(r) && LiveAt(r, p) && FreeAt(r, q)
  {
    hide Inv;
    Parts(s, p, q, 0, t);
    Parts(s, |s.lq| - 1, q, 0, t);
  }

  lemma AppendKeepsThreads(s: State, t: nat, n: int, i: int)
    requires Inv(s) && t < |s.threads| && s.threads[t].LinkLive?
    ensures var r := Append(s, t, s.threads[t].node, s.threads[t].v);
            Sane(r) && PlaceOk(r, n) && ThreadOk(r, i)
  {
    hide Inv;
    Parts(s, |s.lq| - 1, 0, n, i);
    Parts(s, |s.lq| - 1, 0, n, t);
  }

  lemma StoreHeadKeeps(s: State, t: nat, p: int, q: int, n: int, i: int)
    requires Inv(s) && t < |s.threads| && s.threads[t].MoveHead?
    ensures var pc := s.threads[t]; PartsOk(StoreHead(s, t, pc.node), p, q, n, i)
  {
    hide Inv;
    Parts(s, p, q, n, i);
    Parts(s, |s.lq| - 1, q, n, t);
  }

  lemma AddChunkKeepsLists(s: State, t: nat, p: int, q: int)
    requires Inv(s) && t < |s.threads| && s.threads[t].NewChunk?
    ensures var r := AddChunk(s, t); Sane(r) && EndsOk(r) && LiveAt(r, p) && FreeAt(r, q)
  {
    hide Inv;
    Parts(s, p, q, 0, t);
    Parts(s, p, |s.fl| - 1, 0, t);
  }

  lemma AddChunkKeepsThreads(s: State, t: nat, n: int, i: int)
    requires Inv(s) && t < |s.threads| && s.threads[t].NewChunk?
    ensures var r := AddChunk(s, t); Sane(r) && PlaceOk(r, n) && ThreadOk(r, i)
  {
    hide Inv;
    Parts(s, 0, 0, n, i);
    Parts(s, 0, |s.fl| - 1, n, t);
  }

  lemma JoinFreeKeeps(s: State, t: nat, p: int, q: int, n: int, i: int)
    requires Inv(s) && t < |s.threads| && s.threads[t].FreeExchange?
    ensures var pc := s.threads[t]; PartsOk(JoinFree(s, t, pc.node), p, q, n, i)
  {
    hide Inv;
    Parts(s, p, q, n, i);
    Parts(s, p, |s.fl| - 1, n, t);
  }

  lemma CloseGapKeepsLists(s: State, t: nat, target: int, pc: PC, p: int, q: int)
    requires Inv(s) && t < |s.threads| && s.threads[t].Links() && !pc.MoveHead? && !s.threads[t].MoveHead?
    requires 0 <= s.threads[t].p < |s.fl| - 1 ==> target == s.fl[s.threads[t].p + 1]
    ensures var r := CloseGap(s, t, s.threads[t].prev, target, s.threads[t].p, pc);
            Sane(r) && EndsOk(r) && LiveAt(r, p) && FreeAt(r, q)
  {
    hide Inv;
    Parts(s, p, q, 0, t);
    Parts(s, p, s.threads[t].p, 0, t);
    Parts(s, p, s.threads[t].p + 1, 0, t);
  }

  lemma CloseChunkGapKeepsThreads(s: State, t: nat, n: int, i: int)
    requires Inv(s) && t < |s.threads| && s.threads[t].LinkChunk?
    ensures var pc := s.threads[t]; var r := CloseGap(s, t, pc.prev, pc.first, pc.p, Hold(pc.base));
            Sane(r) && PlaceOk(r, n) && ThreadOk(r, i)
  {
    hide Inv;
    Parts(s, 0, 0, n, i);
    Parts(s, 0, s.threads[t].p, n, t);
  }

  lemma CloseNodeGapKeepsThreads(s: State, t: nat, n: int, i: int)
    requires Inv(s) && t < |s.threads| && s.threads[t].FreeLink?
    ensures var pc := s.threads[t]; var r := CloseGap(s, t, pc.prev, pc.node, pc.p, Idle);
            Sane(r) && PlaceOk(r, n) && ThreadOk(r, i)
  {
    hide Inv;
    Parts(s, 0, 0, n, i);
    Parts(s, 0, s.threads[t].p, n, t);
  }

  lemma CloseChunkGapKeeps(s: State, t: nat, p: int, q: int, n: int, i: int)
    requires Inv(s) && t < |s.threads| && s.threads[t].LinkChunk?
    ensures var pc := s.threads[t]; PartsOk(CloseGap(s, t, pc.prev, pc.first, pc.p, Hold(pc.base)), p, q, n, i)
  {
    hide Inv;
    Parts(s, 0, 0, 0, t);
    hide EndsOk;
    hide LiveAt;
    hide FreeAt;
    hide PlaceOk;
    CloseGapKeepsLists(s, t, s.threads[t].first, Hold(s.threads[t].base), p, q);
    CloseChunkGapKeepsThreads(s, t, n, i);
  }

  lemma CloseNodeGapKeeps(s: State, t: nat, p: int, q: int, n: int, i: int)
    requires Inv(s) && t < |s.threads| && s.threads[t].FreeLink?
    ensures var pc := s.threads[t]; PartsOk(CloseGap(s, t, pc.prev, pc.node, pc.p, Idle), p, q, n, i)
  {
    hide Inv;
    Parts(s, 0, 0, 0, t);
    hide EndsOk;
    hide LiveAt;
    hide FreeAt;
    hide PlaceOk;
    CloseGapKeepsLists(s, t, s.threads[t].node, Idle, p, q);
    CloseNodeGapKeepsThreads(s, t, n, i);
  }

  lemma StartKeeps(s: State, t: nat, pc: PC, p: int, q: int, n: int, i: int)
    requires Inv(s) && t < |s.threads| && s.threads[t].Idle?
    requires pc.TakeFreeTail? || (pc.TakeTail? && (s.reader == NULL || t == s.reader))
    ensures PartsOk(At(s, t, pc), p, q, n, i)
  {
    hide Inv;
    Parts(s, p, q, n, i);
  }

  lemma ReleaseKeeps(s: State, t: nat, p: int, q: int, n: int, i: int)
    requires Inv(s) && t < |s.threads| && s.threads[t].Hold?
    ensures PartsOk(At(s, t, FreeClear(s.threads[t].node)), p, q, n, i)
  {
    hide Inv;
    Parts(s, p, q, n, i);
    Parts(s, p, q, n, t);
  }

  lemma FillKeeps(s: State, v: int, p: int, q: int, n: int, i: int)
    requires Inv(s) && 0 < |s.threads| && s.threads[0].Hold?
    ensures PartsOk(Fill(s, v), p, q, n, i)
  {
    hide Inv;
    Parts(s, p, q, n, i);
    Parts(s, p, q, n, 0);
  }

  lemma BeginKeeps(s: State, a: Action, p: int, q: int, n: int, i: int)
    requires Inv(s) && !a.Advance?
    ensures PartsOk(Step(s, a), p, q, n, i)
  {
    hide Inv;
    hide Advanced;
    Parts(s, p, q, n, i);
    hide EndsOk;
    hide LiveAt;
    hide FreeAt;
    hide PlaceOk;
    hide ThreadOk;
    if Step(s, a) != s {
      match a
      case Alloc(t) => StartKeeps(s, t, TakeFreeTail, p, q, n, i);
      case Dequeue(t, weak) => StartKeeps(s, t, TakeTail(weak), p, q, n, i);
      case Release(t) => ReleaseKeeps(s, t, p, q, n, i);
      case Enqueue(_, v) => FillKeeps(s, v, p, q, n, i);
      case Advance(_) =>
    }
  }

  lemma AdvanceKeeps(s: State, t: nat, p: int, q: int, n: int, i: int)
    requires Inv(s) && t < |s.threads|
    ensures PartsOk(Advanced(s, t), p, q, n, i)
  {
    hide Inv;
    Parts(s, p, q, n, i);
    hide EndsOk;
    hide LiveAt;
    hide FreeAt;
    hide PlaceOk;
    hide ThreadOk;
    match s.threads[t]
    case TakeFreeTail => TakeFreeKeeps(s, t, p, q, n, i);
    case ReadFreeNext(_) => LoadFreeNextKeeps(s, t, p, q, n, i);
    case PutBackFree(_) => PutFreeBackKeeps(s, t, p, q, n, i);
    case AdvanceFree(_, _) => MoveFreeTailKeeps(s, t, p, q, n, i);
    case ClearNext(_) => ClearTakenKeeps(s, t, p, q, n, i);
    case NewChunk => AddChunkKeepsLists(s, t, p, q); AddChunkKeepsThreads(s, t, n, i);
    case LinkChunk(_, _, _, _) => CloseChunkGapKeeps(s, t, p, q, n, i);
    case LinkLive(_, _) => AppendKeepsLists(s, t, p, q); AppendKeepsThreads(s, t, n, i);
    case MoveHead(_) => StoreHeadKeeps(s, t, p, q, n, i);
    case TakeTail(_) =>
      GiveUpKeeps(s, t, p, q, n, i);
      if s.reader != NULL { LoadLiveKeeps(s, t, p, q, n, i); } else if s.tail != NULL { TakeLiveKeeps(s, t, p, q, n, i); }
    case ReadLiveNext(_) =>
      if s.reader == NULL { LoadLiveNextKeeps(s, t, p, q, n, i); } else { LoadLiveNextScKeeps(s, t, p, q, n, i); }
    case PutBackTail(_) => PutLiveBackKeeps(s, t, p, q, n, i);
    case ReadData(_, _) => LoadDataKeeps(s, t, p, q, n, i);
    case AdvanceTail(_, _, _) => MoveTailKeeps(s, t, p, q, n, i);
    case FreeClear(_) => ClearFreedKeeps(s, t, p, q, n, i);
    case FreeExchange(_) => JoinFreeKeeps(s, t, p, q, n, i);
    case FreeLink(_, _, _) => CloseNodeGapKeeps(s, t, p, q, n, i);
    case _ =>
  }

  lemma StepKeepsInv(s: State, a: Action)
    requires Inv(s)
    ensures Inv(Step(s, a))
  {
    hide EndsOk;
    hide LiveAt;
    hide FreeAt;
    hide PlaceOk;
    hide ThreadOk;
    hide Advanced;
    var r := Step(s, a);
    forall p, q, n, i ensures PartsOk(r, p, q, n, i) {
      if a.Advance? && a.t < |s.threads| { AdvanceKeeps(s, a.t, p, q, n, i); }
      if !a.Advance? { BeginKeeps(s, a, p, q, n, i); }
      if a.Advance? && a.t >= |s.threads| { Parts(s, p, q, n, i); }
    }
    assert PartsOk(r, 0, 0, 0, 0);
    forall p ensures LiveAt(r, p) { assert PartsOk(r, p, 0, 0, 0); }
    forall q ensures FreeAt(r, q) { assert PartsOk(r, 0, q, 0, 0); }
    forall n ensures PlaceOk(r, n) { assert PartsOk(r, 0, 0, n, 0); }
    forall i ensures ThreadOk(r, i) { assert PartsOk(r, 0, 0, 0, i); }
  }
}
