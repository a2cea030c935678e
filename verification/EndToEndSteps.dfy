/**
 Histories of EndToEnd made of whole operations: what a poster does when nobody disturbs
 its push, and what the strategy does in a pop when nobody is pushing.
 */
module EndToEndSteps {
  import opened RingProtocol
  import opened RingInvariant
  import opened Framing
  import opened FrameStores
  import opened TaskStream
  import opened EndToEnd
  import RingLimits
  import T = TaskProtocol
  import W = WakeUp

  // `j` is the end of some history, which fits if `fit` says so.
  ghost predicate Happens(c: Config, fit: bool, j: Joint) {
    exists events :: (fit ==> FitHistory(c, events)) && j == History(c, events)
  }

  // Any event may come next.
  lemma Next(c: Config, fit: bool, j: Joint, e: Event) returns (u: Joint)
    requires Happens(c, fit, j) && (fit ==> EventFits(c, j, e))
    ensures Happens(c, fit, u) && u == React(c, j, e)
  {
    hide React;
    hide EventFits;
    var events :| (fit ==> FitHistory(c, events)) && j == History(c, events);
    u := React(c, j, e);
    assert (events + [e])[..|events|] == events;
    assert u == History(c, events + [e]);
  }

  lemma HappensInv(c: Config, j: Joint)
    requires ValidConfig(c) && Happens(c, true, j)
    ensures JointInv(c, j)
  {
    var events :| FitHistory(c, events) && j == History(c, events);
    HistoryKeepsInv(c, events);
  }

  // Both systems with another ring.
  function With(j: Joint, r: State): Joint { Joint(j.queue.(ring := r), j.wake.(ring := r)) }

  // Worker `i` exists and has nothing to announce.
  ghost predicate Poster(j: Joint, i: nat) {
    && j.wake.ring == j.queue.ring
    && i < |j.queue.ring.workers| && i < |j.queue.pushing| && i < |j.wake.posts| && j.wake.posts[i].Quiet?
  }

  // --------------------------------------------------------------- a push

  // A step of acquire that claims nothing.
  lemma Moving(c: Config, fit: bool, j: Joint, i: nat) returns (u: Joint)
    requires Happens(c, fit, j) && Poster(j, i) && !j.queue.ring.workers[i].pc.TryCas?
    ensures Happens(c, fit, u) && u == With(j, Advanced(c, j.queue.ring, i))
  {
    hide Happens;
    u := Next(c, fit, j, Producing(T.Advance(i)));
  }

  // Worker `i` calls push and loads the barrier.
  lemma Loading(c: Config, fit: bool, j: Joint, i: nat, t: Task) returns (u: Joint)
    requires Happens(c, fit, j) && Poster(j, i) && j.queue.ring.workers[i].pc.Idle? && j.queue.pushing[i].Quiet?
    requires t.operation != [] && 0 < FrameLength(t) <= c.capacity && !j.queue.ring.barrier.locked
    ensures var r := j.queue.ring; var w := r.workers[i];
            && Happens(c, fit, u)
            && u == With(j.(queue := j.queue.(pushing := j.queue.pushing[i := T.Asking(t)])),
                         Put(r, i, w.(pc := PublishSeen(FrameLength(t), r.barrier, |r.log|))))
  {
    hide Happens;
    hide FrameLength;
    var s := Next(c, fit, j, Producing(T.Push(i, t)));
    assert s.queue.ring == Put(j.queue.ring, i, j.queue.ring.workers[i].(pc := LoadNext(FrameLength(t))));
    u := Moving(c, fit, s, i);
  }

  // Worker `i` publishes its `_seen` and reads the consumer barrier.
  lemma Reading(c: Config, fit: bool, j: Joint, i: nat) returns (u: Joint)
    requires Happens(c, fit, j) && Poster(j, i) && j.queue.ring.workers[i].pc.PublishSeen?
    requires var r := j.queue.ring; GuardPasses(c, r.workers[i].pc.seen.index, r.workers[i].pc.size, r.cons)
    ensures var r := j.queue.ring; var w := r.workers[i];
            && Happens(c, fit, u)
            && u == With(j, Put(r, i, w.(pc := TryCas(w.pc.size, w.pc.seen, w.pc.at, r.cons), seen := Seen(true, w.pc.seen.index))))
  {
    hide Happens;
    hide GuardPasses;
    var s := Moving(c, fit, j, i);
    u := Moving(c, fit, s, i);
  }

  // The ring once worker `i`, about to swap, has made its claim and is out of acquire.
  function Settled(c: Config, r: State, i: nat): State
    requires i < |r.workers| && CasMatches(r, i)
  {
    var w := r.workers[i];
    var s := CasStep(c, r, i);
    Put(s, i, w.(pc := Owning(|r.log|), seen := w.seen.(locked := false))).(
      barrier := s.barrier.(locked := false),
      end := if s.barrier.locked then w.seen.offset else s.end)
  }

  // What is left of acquire after the compare-exchange.
  lemma Settles(c: Config, r: State, i: nat)
    requires i < |r.workers| && CasMatches(r, i)
    ensures var s := Advanced(c, CasStep(c, r, i), i);
            && |s.workers| == |r.workers|
            && if CasStep(c, r, i).barrier.locked then Advanced(c, Advanced(c, s, i), i) == Settled(c, r, i)
            else s == Settled(c, r, i)
    ensures Advanced(c, r, i) == CasStep(c, r, i)
    ensures |CasStep(c, r, i).workers| == |r.workers| && CasStep(c, r, i).workers[i].pc.UnlockSeen?
    ensures var s := Advanced(c, CasStep(c, r, i), i);
            CasStep(c, r, i).barrier.locked ==>
              s.workers[i].pc.StoreEnd? && |Advanced(c, s, i).workers| == |r.workers| && Advanced(c, s, i).workers[i].pc.UnlockBarrier?
  {
    hide Target;
  }

  // A poster's compare-exchange has succeeded, as far as its push goes.
  ghost function Claimed(j: Joint, i: nat, was: seq<byte>): Joint
    requires Poster(j, i) && j.queue.pushing[i].Asking?
  {
    var t := j.queue.pushing[i].task;
    j.(queue := j.queue.(tasks := j.queue.tasks + [t], pushing := j.queue.pushing[i := T.Storing(t, 0, 0, was)]))
  }

  lemma Claiming(c: Config, fit: bool, j: Joint, i: nat) returns (u: Joint)
    requires Happens(c, fit, j) && Poster(j, i) && j.queue.pushing[i].Asking?
    requires CasMatches(j.queue.ring, i) && (fit ==> CasFits(c, j.queue.ring, i))
    requires |j.queue.ring.data| == |j.queue.ring.log|
    ensures var r, t := CasStep(c, j.queue.ring, i), j.queue.pushing[i].task;
            && Happens(c, fit, u)
            && u == With(Claimed(j, i, r.data[|j.queue.ring.log|]), r)
  {
    hide Happens;
    hide GuardPasses;
    hide Target;
    u := Next(c, fit, j, Producing(T.Advance(i)));
  }

  // The compare-exchange of worker `i`, and the rest of acquire.
  lemma Swapping(c: Config, fit: bool, j: Joint, i: nat) returns (u: Joint)
    requires Happens(c, fit, j) && Poster(j, i) && j.queue.pushing[i].Asking?
    requires CasMatches(j.queue.ring, i) && (fit ==> CasFits(c, j.queue.ring, i))
    requires |j.queue.ring.data| == |j.queue.ring.log|
    ensures var r := Settled(c, j.queue.ring, i);
            && Happens(c, fit, u)
            && |r.data| == |j.queue.ring.log| + 1
            && u == With(Claimed(j, i, r.data[|j.queue.ring.log|]), r)
  {
    hide Happens;
    var r := j.queue.ring;
    Settles(c, r, i);
    assert Settled(c, r, i).data == CasStep(c, r, i).data;
    u := Claiming(c, fit, j, i);
    hide CasStep;
    hide Settled;
    hide Advanced;
    var locked := u.queue.ring.barrier.locked;
    u := Moving(c, fit, u, i);
    if locked {
      u := Moving(c, fit, u, i);
      u := Moving(c, fit, u, i);
    }
  }

  // Worker `i` is in the middle of its stores, and the buffer holds what it has stored.
  ghost predicate Stores(j: Joint, i: nat) {
    && Poster(j, i) && j.queue.pushing[i].Storing? && j.queue.ring.workers[i].pc.Owning?
    && var r, p, k := j.queue.ring, j.queue.pushing[i], j.queue.ring.workers[i].pc.k;
       && k < |r.log| == |r.data|
       && r.log[k].lo <= r.log[k].hi <= |r.buf| && r.data[k] == r.buf[r.log[k].lo..r.log[k].hi]
       && T.Progress(r.data[k], p.task, p.chunk, p.done, p.was)
  }

  // `u` is `j` but for the stores of worker `i`.
  ghost predicate ButStores(j: Joint, u: Joint, i: nat) {
    && |u.queue.ring.buf| == |j.queue.ring.buf| && |u.queue.ring.data| == |j.queue.ring.data|
    && i < |u.queue.pushing| && u.queue.pushing[i].Storing? && i < |j.queue.pushing| && j.queue.pushing[i].Storing?
    && u.queue.pushing[i].task == j.queue.pushing[i].task
    && u == With(j.(queue := j.queue.(pushing := j.queue.pushing[i := u.queue.pushing[i]])),
                 j.queue.ring.(buf := u.queue.ring.buf, data := u.queue.ring.data))
  }

  lemma ByteStays(b: seq<byte>, lo: nat, hi: nat, d: seq<byte>, offset: nat, value: byte)
    requires lo <= hi <= |b| && d == b[lo..hi] && offset < |d|
    ensures b[lo + offset := value][lo..hi] == d[offset := value]
  {
  }

  lemma ProducerReacts(c: Config, j: Joint, p: T.Event)
    requires ByProducer(p) && W.PosterMay(j.wake, p.i)
    ensures var q := T.React(c, j.queue, p); React(c, j, Producing(p)) == Joint(q, j.wake.(ring := q.ring))
  {
  }

  // The state after the next byte has been stored, and after a chunk is complete.
  ghost function ByteStored(q: T.System, i: nat, at: nat, value: byte): T.System
    requires i < |q.ring.workers| && i < |q.pushing| && q.pushing[i].Storing? && q.ring.workers[i].pc.Owning?
    requires var r, k := q.ring, q.ring.workers[i].pc.k;
             k < |r.log| == |r.data| && at < |r.data[k]| && r.log[k].lo + at < |r.buf|
  {
    var r, k := q.ring, q.ring.workers[i].pc.k;
    q.(ring := r.(buf := r.buf[r.log[k].lo + at := value], data := r.data[k := r.data[k][at := value]]),
       pushing := q.pushing[i := q.pushing[i].(done := q.pushing[i].done + 1)])
  }

  lemma QueueStoresByte(c: Config, q: T.System, i: nat, chunk: Chunk)
    requires i < |q.ring.workers| && i < |q.pushing| && q.pushing[i].Storing? && q.ring.workers[i].pc.Owning?
    requires q.pushing[i].chunk < 7 && chunk == Chunks(0, q.pushing[i].task)[q.pushing[i].chunk]
    requires q.pushing[i].done < |chunk.bytes|
    requires var r, k := q.ring, q.ring.workers[i].pc.k;
             k < |r.log| == |r.data| && chunk.at + q.pushing[i].done < |r.data[k]|
             && r.log[k].lo + chunk.at + q.pushing[i].done < |r.buf|
    ensures T.React(c, q, T.Store(i)) == ByteStored(q, i, chunk.at + q.pushing[i].done, chunk.bytes[q.pushing[i].done])
  {
    hide Chunks;
  }

  lemma StoringByte(c: Config, fit: bool, j: Joint, i: nat) returns (u: Joint)
    requires Happens(c, fit, j) && Stores(j, i) && j.queue.pushing[i].chunk < 7
    requires j.queue.pushing[i].done < |Chunks(0, j.queue.pushing[i].task)[j.queue.pushing[i].chunk].bytes|
    ensures Happens(c, fit, u) && Stores(u, i) && ButStores(j, u, i)
    ensures u.queue.pushing[i] == j.queue.pushing[i].(done := j.queue.pushing[i].done + 1)
  {
    hide Happens;
    var r, p, k := j.queue.ring, j.queue.pushing[i], j.queue.ring.workers[i].pc.k;
    var chunk := Chunks(0, p.task)[p.chunk];
    T.ProgressByte(r.data[k], p.task, p.chunk, p.done, p.was);
    ByteStays(r.buf, r.log[k].lo, r.log[k].hi, r.data[k], chunk.at + p.done, chunk.bytes[p.done]);
    QueueStoresByte(c, j.queue, i, chunk);
    ProducerReacts(c, j, T.Store(i));
    hide React;
    hide T.React;
    hide T.Progress;
    hide Chunks;
    hide FrameLength;
    u := Next(c, fit, j, Producing(T.Store(i)));
  }

  lemma QueueStoresChunk(c: Config, q: T.System, i: nat)
    requires i < |q.ring.workers| && i < |q.pushing| && q.pushing[i].Storing? && q.ring.workers[i].pc.Owning?
    requires q.pushing[i].chunk < 7 && q.pushing[i].done == |Chunks(0, q.pushing[i].task)[q.pushing[i].chunk].bytes|
    ensures T.React(c, q, T.Store(i)) ==
              q.(pushing := q.pushing[i := q.pushing[i].(chunk := q.pushing[i].chunk + 1, done := 0)])
  {
    hide Chunks;
  }

  lemma StoringChunk(c: Config, fit: bool, j: Joint, i: nat) returns (u: Joint)
    requires Happens(c, fit, j) && Stores(j, i) && j.queue.pushing[i].chunk < 7
    requires j.queue.pushing[i].done == |Chunks(0, j.queue.pushing[i].task)[j.queue.pushing[i].chunk].bytes|
    ensures Happens(c, fit, u) && Stores(u, i) && ButStores(j, u, i)
    ensures u.queue.pushing[i] == j.queue.pushing[i].(chunk := j.queue.pushing[i].chunk + 1, done := 0)
  {
    hide Happens;
    var r, p, k := j.queue.ring, j.queue.pushing[i], j.queue.ring.workers[i].pc.k;
    T.ProgressChunk(r.data[k], p.task, p.chunk, p.was);
    QueueStoresChunk(c, j.queue, i);
    ProducerReacts(c, j, T.Store(i));
    hide React;
    hide T.React;
    hide T.Progress;
    hide Chunks;
    hide FrameLength;
    u := Next(c, fit, j, Producing(T.Store(i)));
  }

  // How many bytes of its chunk worker `i` has yet to store.
  ghost function Left(j: Joint, i: nat): int {
    if i < |j.queue.pushing| && j.queue.pushing[i].Storing? && j.queue.pushing[i].chunk < 7
    then |Chunks(0, j.queue.pushing[i].task)[j.queue.pushing[i].chunk].bytes| - j.queue.pushing[i].done else 0
  }

  lemma StoresFit(j: Joint, i: nat)
    requires Stores(j, i)
    ensures i < |j.queue.pushing| && j.queue.pushing[i].Storing? && j.queue.pushing[i].chunk <= 7 && Left(j, i) >= 0
  {
    hide Chunks;
    var p := j.queue.pushing[i];
    T.ProgressLength(j.queue.ring.data[j.queue.ring.workers[i].pc.k], p.task, p.chunk, p.done, p.was);
  }

  // The next store of worker `i`.
  lemma StoringMore(c: Config, fit: bool, j: Joint, i: nat) returns (u: Joint)
    requires Happens(c, fit, j) && Stores(j, i) && j.queue.pushing[i].chunk < 7
    ensures Happens(c, fit, u) && Stores(u, i) && ButStores(j, u, i)
    ensures var p, q := j.queue.pushing[i], u.queue.pushing[i];
            q.chunk == p.chunk + 1 || (q.chunk == p.chunk && Left(u, i) < Left(j, i))
  {
    StoresFit(j, i);
    hide Happens;
    hide Stores;
    hide Chunks;
    var p := j.queue.pushing[i];
    if p.done < |Chunks(0, p.task)[p.chunk].bytes| {
      u := StoringByte(c, fit, j, i);
    } else {
      u := StoringChunk(c, fit, j, i);
    }
  }

  lemma ButStoresTwice(j: Joint, u: Joint, v: Joint, i: nat)
    requires ButStores(j, u, i) && ButStores(u, v, i)
    ensures ButStores(j, v, i)
  {
  }

  // Worker `i`, undisturbed, makes all its stores.
  lemma {:induction false} Filling(c: Config, fit: bool, j: Joint, i: nat) returns (u: Joint)
    requires Happens(c, fit, j) && Stores(j, i)
    ensures Happens(c, fit, u) && Stores(u, i) && ButStores(j, u, i) && u.queue.pushing[i].chunk == 7
    decreases 7 - (if i < |j.queue.pushing| && j.queue.pushing[i].Storing? then j.queue.pushing[i].chunk else 0) as int,
              Left(j, i)
  {
    StoresFit(j, i);
    if j.queue.pushing[i].chunk == 7 {
      u := j;
    } else {
      var s := StoringMore(c, fit, j, i);
      StoresFit(s, i);
      hide Happens;
      hide Stores;
      hide Left;
      u := Filling(c, fit, s, i);
      ButStoresTwice(j, s, u, i);
    }
  }

  // Worker `i` stores its frame, produces it and notifies the strategy, which is not asleep.
  lemma Posting(c: Config, fit: bool, j: Joint, i: nat) returns (u: Joint)
    requires Happens(c, fit, j) && Stores(j, i) && !j.wake.strategy.Sleeping?
    ensures Happens(c, fit, u)
    ensures var r, s := j.queue.ring, u.queue.ring; var k := r.workers[i].pc.k;
            && |s.buf| == |r.buf| && |s.data| == |r.data|
            && s == Put(r.(buf := s.buf, data := s.data), i, r.workers[i].(pc := Idle, seen := Seen(false, MAX_OFFSET)))
            && u.queue == j.queue.(ring := s, pushing := j.queue.pushing[i := T.Quiet])
            && u.wake == j.wake.(ring := s, notified := true)
            && r.log[k].hi <= |s.buf| && HoldsFrame(s.buf[r.log[k].lo..r.log[k].hi], j.queue.pushing[i].task)
  {
    hide Happens;
    hide HoldsFrame;
    u := Filling(c, fit, j, i);
    var p, k := u.queue.pushing[i], u.queue.ring.workers[i].pc.k;
    T.FinishedFrame(u.queue.ring.data[k], p.task, p.was, p.done);
    hide T.Progress;
    u := Finishing(c, fit, u, i);
    u := Notifying(c, fit, u, i);
  }

  lemma Finishing(c: Config, fit: bool, j: Joint, i: nat) returns (u: Joint)
    requires Happens(c, fit, j) && Poster(j, i) && j.queue.ring.workers[i].pc.Owning?
    requires j.queue.pushing[i].Storing? && j.queue.pushing[i].chunk == 7
    ensures Happens(c, fit, u)
    ensures var r := j.queue.ring; var s := Put(r, i, r.workers[i].(pc := Idle, seen := Seen(false, MAX_OFFSET)));
            && u.queue == j.queue.(ring := s, pushing := j.queue.pushing[i := T.Quiet])
            && u.wake == j.wake.(ring := s, posts := j.wake.posts[i := W.Notify(r.workers[i].pc.k)])
  {
    hide Happens;
    u := Next(c, fit, j, Finish(i));
  }

  lemma Notifying(c: Config, fit: bool, j: Joint, i: nat) returns (u: Joint)
    requires Happens(c, fit, j) && i < |j.wake.posts| && j.wake.posts[i].Notify? && !j.wake.strategy.Sleeping?
    ensures Happens(c, fit, u)
    ensures u == j.(wake := j.wake.(notified := true, posts := j.wake.posts[i := W.Quiet]))
  {
    hide Happens;
    u := Next(c, fit, j, Waking(W.SetNotified(i)));
    u := Next(c, fit, u, Waking(W.NotifyAll(i)));
  }

  // Worker `i` of `j` has pushed `t`, and nothing else has happened.
  ghost predicate Pushed(c: Config, j: Joint, t: Task, u: Joint) {
    var r, s, size := j.queue.ring, u.queue.ring, FrameLength(t);
    var target := Target(c, r.barrier, size);
    var lo := if target.locked then 0 else r.barrier.index;
    && s.workers == r.workers && s.barrier == target.(locked := false)
    && s.end == (if target.locked then r.barrier.index else r.end)
    && s.cons == r.cons && s.cpc == r.cpc && s.taken == r.taken
    && |s.log| == |s.data| == |r.log| + 1 && |s.buf| == |r.buf|
    && (r.barrier.index + size == c.capacity ==> s.cut == |s.log|)
    && u.queue == j.queue.(ring := s, tasks := j.queue.tasks + [t])
    && u.wake == j.wake.(ring := s, notified := true)
    && lo + size <= |s.buf| && HoldsFrame(s.buf[lo..lo + size], t)
  }

  // Worker `i` is registered and at rest.
  ghost predicate Rests(j: Joint, i: nat) {
    && Poster(j, i) && j.queue.pushing[i].Quiet?
    && j.queue.ring.workers[i] == Worker(Idle, true, Seen(false, MAX_OFFSET))
  }

  // Swapping, with what the claim holds.
  lemma SwappingBytes(c: Config, fit: bool, j: Joint, i: nat) returns (u: Joint)
    requires Happens(c, fit, j) && Poster(j, i) && j.queue.pushing[i].Asking?
    requires CasMatches(j.queue.ring, i) && (fit ==> CasFits(c, j.queue.ring, i))
    requires var r := j.queue.ring; var size := r.workers[i].pc.size;
             && |r.data| == |r.log| && |r.buf| == c.capacity && size <= c.capacity
             && size == FrameLength(j.queue.pushing[i].task)
    ensures var r := Settled(c, j.queue.ring, i);
            && Happens(c, fit, u)
            && |r.data| == |j.queue.ring.log| + 1
            && u == With(Claimed(j, i, r.data[|j.queue.ring.log|]), r)
            && Stores(u, i)
  {
    hide Happens;
    u := Swapping(c, fit, j, i);
    T.FreshProgress(u.queue.ring.data[|j.queue.ring.log|], j.queue.pushing[i].task);
  }

  // Worker `i` owns a new claim for `t`.
  ghost predicate Acquired(c: Config, j: Joint, i: nat, t: Task, u: Joint) {
    var r, s, size := j.queue.ring, u.queue.ring, FrameLength(t);
    var target := Target(c, r.barrier, size);
    var lo := if target.locked then 0 else r.barrier.index;
    && i < |r.workers| && i < |j.queue.pushing| && i < |u.queue.pushing|
    && s.workers == r.workers[i := Worker(Owning(|r.log|), r.workers[i].registered, Seen(false, r.barrier.index))]
    && s.barrier == target.(locked := false)
    && s.end == (if target.locked then r.barrier.index else r.end)
    && s.cons == r.cons && s.cpc == r.cpc && s.taken == r.taken && s.buf == r.buf
    && |s.log| == |s.data| == |r.log| + 1 && s.log[|r.log|].lo == lo && s.log[|r.log|].hi == lo + size
    && (r.barrier.index + size == c.capacity ==> s.cut == |s.log|)
    && u.queue.pushing[i].Storing? && u.queue.pushing[i].task == t
    && u.queue == j.queue.(ring := s, tasks := j.queue.tasks + [t], pushing := j.queue.pushing[i := u.queue.pushing[i]])
    && u.wake == j.wake.(ring := s)
  }

  lemma Acquiring(c: Config, fit: bool, j: Joint, i: nat, t: Task) returns (u: Joint)
    requires Happens(c, fit, j) && Rests(j, i)
    requires t.operation != [] && 0 < FrameLength(t) <= c.capacity && !j.queue.ring.barrier.locked
    requires GuardPasses(c, j.queue.ring.barrier.index, FrameLength(t), j.queue.ring.cons)
    requires |j.queue.ring.data| == |j.queue.ring.log| && |j.queue.ring.buf| == c.capacity
    ensures Happens(c, fit, u) && Stores(u, i) && Acquired(c, j, i, t, u)
  {
    hide Happens;
    hide FrameLength;
    hide GuardPasses;
    hide Stores;
    u := Loading(c, fit, j, i, t);
    u := Reading(c, fit, u, i);
    u := SwappingBytes(c, fit, u, i);
  }

  // Worker `i`, undisturbed, pushes `t`.
  lemma Pushing(c: Config, fit: bool, j: Joint, i: nat, t: Task) returns (u: Joint)
    requires Happens(c, fit, j) && Rests(j, i) && !j.wake.strategy.Sleeping?
    requires t.operation != [] && 0 < FrameLength(t) <= c.capacity && !j.queue.ring.barrier.locked
    requires GuardPasses(c, j.queue.ring.barrier.index, FrameLength(t), j.queue.ring.cons)
    requires |j.queue.ring.data| == |j.queue.ring.log| && |j.queue.ring.buf| == c.capacity
    ensures Happens(c, fit, u) && Pushed(c, j, t, u)
  {
    hide Happens;
    hide FrameLength;
    hide HoldsFrame;
    hide GuardPasses;
    hide Stores;
    hide Target;
    u := Acquiring(c, fit, j, i, t);
    u := Posting(c, fit, u, i);
    assert u.queue.pushing == j.queue.pushing;
    assert u.queue.ring.workers == j.queue.ring.workers;
  }

  // ---------------------------------------------------------------- a pop

  ghost predicate InConsume(j: Joint) {
    && j.wake.ring == j.queue.ring && j.wake.strategy.Popping?
    && !j.queue.ring.cpc.CHold? && !j.queue.ring.cpc.CIdle?
  }

  // A step of consume that decides nothing.
  lemma Seeking(c: Config, fit: bool, j: Joint) returns (u: Joint)
    requires Happens(c, fit, j) && InConsume(j)
    requires !RingProtocol.Scanned(c, j.queue.ring).cpc.CHold? && !RingProtocol.Scanned(c, j.queue.ring).cpc.CIdle?
    ensures Happens(c, fit, u) && u == With(j, RingProtocol.Scanned(c, j.queue.ring)) && InConsume(u)
  {
    hide Happens;
    u := Next(c, fit, j, Scanning);
    hide RingProtocol.Scanned;
  }

  // The consumer looks at the workers from `cpc.i` on and finds nobody.
  lemma {:induction false} Sweeping(c: Config, fit: bool, j: Joint) returns (u: Joint)
    requires Happens(c, fit, j) && InConsume(j) && RingLimits.NothingSeen(j.queue.ring)
    requires var r := j.queue.ring; r.cpc.CCheck? && r.cpc.i <= |r.workers| && r.cpc.ready == MAX_OFFSET
    ensures var r := j.queue.ring;
            && Happens(c, fit, u) && InConsume(u)
            && u == With(j, r.(cpc := CCheck(|r.workers|, r.cpc.next, MAX_OFFSET, r.cpc.snap, r.cpc.rk)))
    decreases |j.queue.ring.workers| - (if j.queue.ring.cpc.CCheck? then j.queue.ring.cpc.i else 0) as int
  {
    hide Happens;
    var r := j.queue.ring;
    if r.cpc.i == |r.workers| {
      u := j;
    } else {
      u := Seeking(c, fit, j);
      if u.queue.ring.cpc.CReadSeen? {
        u := Seeking(c, fit, u);
      }
      assert u == With(j, r.(cpc := CCheck(r.cpc.i + 1, r.cpc.next, MAX_OFFSET, r.cpc.snap, r.cpc.rk)));
      u := Sweeping(c, fit, u);
    }
  }

  // The consumer has looked at all workers of a ring in which nobody is in acquire or owns anything.
  function Looked(r: State): State {
    r.(cpc := CCheck(|r.workers|, r.barrier.index, MAX_OFFSET, |r.log|, 0))
  }

  lemma Looking(c: Config, fit: bool, j: Joint) returns (u: Joint)
    requires Happens(c, fit, j) && InConsume(j) && RingLimits.NothingSeen(j.queue.ring)
    requires var r := j.queue.ring; r.cpc.CLoadNext? && !r.barrier.locked && r.barrier.index != r.cons
    ensures Happens(c, fit, u) && InConsume(u) && u == With(j, Looked(j.queue.ring))
  {
    hide Happens;
    u := Seeking(c, fit, j);
    u := Sweeping(c, fit, u);
  }

  // The consumer decides for the range [cons, hi), with all claims in it.
  lemma Deciding(c: Config, fit: bool, j: Joint, hi: nat) returns (u: Joint)
    requires Happens(c, fit, j) && InConsume(j) && j.queue.ring.cpc.CCheck? && j.queue.ring.cons < hi
    requires var r := j.queue.ring;
             r.cpc.i == |r.workers| && Decided(c, r) == r.(cpc := CHold(hi, r.taken), taken := |r.log|)
    ensures Happens(c, fit, u)
    ensures var r := j.queue.ring; var s := r.(cpc := CHold(hi, r.taken), taken := |r.log|);
            && u.queue == j.queue.(ring := s, poped := r.cons, consumed := hi)
            && u.wake == j.wake.(ring := s, strategy := W.Running, left := hi - r.cons)
  {
    hide Happens;
    hide Decided;
    u := Next(c, fit, j, Scanning);
  }

  // The strategy is about to pop, with nothing of a batch left.
  ghost predicate Idles(j: Joint) {
    && j.wake.ring == j.queue.ring && j.queue.ring.cpc.CIdle?
    && j.wake.strategy.Running? && j.wake.left == 0 && j.queue.poped == j.queue.consumed
  }

  // pop asks the ring.
  lemma Calling(c: Config, fit: bool, j: Joint) returns (u: Joint)
    requires Happens(c, fit, j) && Idles(j)
    ensures Happens(c, fit, u) && InConsume(u)
    ensures u == With(j, j.queue.ring.(cpc := CLoadNext)).(wake := j.wake.(ring := j.queue.ring.(cpc := CLoadNext), strategy := W.Popping))
  {
    hide Happens;
    u := Next(c, fit, j, Pop);
  }

  // Where the consumer stands once it has gone round with the producers, and where what it finds ends.
  function Standing(c: Config, r: State): State {
    if r.barrier.index < r.cons && r.cons == (if r.end < c.capacity then r.end else c.capacity)
    then r.(end := MAX_OFFSET, cons := 0, clap := r.clap + 1) else r
  }

  function Ending(c: Config, r: State): int {
    if r.barrier.index < Standing(c, r).cons then (if r.end < c.capacity then r.end else c.capacity) else r.barrier.index
  }

  // The strategy holds a new batch.
  ghost predicate Batched(c: Config, j: Joint, u: Joint) {
    var r, s := Standing(c, j.queue.ring), u.queue.ring;
    var hi := Ending(c, j.queue.ring);
    && r.cons < hi
    && s == r.(cpc := CHold(hi, r.taken), taken := |r.log|)
    && u.queue == j.queue.(ring := s, poped := r.cons, consumed := hi)
    && u.wake == j.wake.(ring := s, strategy := W.Running, left := hi - r.cons)
  }

  // What the decision is in a ring in which nobody is in acquire or owns anything.
  lemma Decides(c: Config, r: State)
    requires r.barrier.index != r.cons && r.cons < c.capacity && r.barrier.index < c.capacity
    requires c.capacity < MAX_OFFSET && (r.end == MAX_OFFSET || r.cons <= r.end)
    requires r.barrier.index < r.cons && Standing(c, r) == r ==> r.cut == |r.log|
    ensures Standing(c, r) == r ==>
              && r.cons < Ending(c, r)
              && Decided(c, Looked(r)) == r.(cpc := CHold(Ending(c, r), r.taken), taken := |r.log|)
    ensures Standing(c, r) != r ==>
              && Decided(c, Looked(r)) == r.(cpc := if r.end != MAX_OFFSET then CClearEnd else CWrap)
              && r.barrier.index < r.cons
  {
  }

  // The consumer starts over at 0.
  lemma Wrapping(c: Config, fit: bool, j: Joint, r: State) returns (u: Joint)
    requires Happens(c, fit, j) && InConsume(j) && j.queue.ring == Looked(r)
    requires Decided(c, Looked(r)) == r.(cpc := if r.end != MAX_OFFSET then CClearEnd else CWrap)
    ensures Happens(c, fit, u) && InConsume(u)
    ensures u == With(j, r.(end := MAX_OFFSET, cons := 0, clap := r.clap + 1, cpc := CLoadNext))
  {
    hide Happens;
    hide Decided;
    u := Seeking(c, fit, j);
    if r.end != MAX_OFFSET { u := Seeking(c, fit, u); }
    u := Seeking(c, fit, u);
  }

  // The strategy, undisturbed, is handed everything up to the barrier or to the end of the lap.
  lemma Consuming(c: Config, fit: bool, j: Joint) returns (u: Joint)
    requires Happens(c, fit, j) && Idles(j) && RingLimits.NothingSeen(j.queue.ring) && ValidConfig(c)
    requires var r := j.queue.ring;
             && !r.barrier.locked && r.barrier.index != r.cons && r.cons < c.capacity && r.barrier.index < c.capacity
             && (r.end == MAX_OFFSET || r.cons <= r.end)
             && (r.barrier.index < r.cons ==> if Standing(c, r) == r then r.cut == |r.log| else 0 < r.barrier.index)
    ensures Happens(c, fit, u) && Batched(c, j, u)
  {
    hide Happens;
    var r := j.queue.ring;
    u := Calling(c, fit, j);
    u := Looking(c, fit, u);
    if Standing(c, r) == r {
      Decides(c, r);
      u := Deciding(c, fit, u, Ending(c, r));
    } else {
      Decides(c, r);
      u := Wrapping(c, fit, u, r);
      u := Looking(c, fit, u);
      Decides(c, Standing(c, r).(cpc := CLoadNext));
      u := Deciding(c, fit, u, r.barrier.index);
    }
  }

  // What the strategy finds in a batch of one record.
  lemma OneRecord(c: Config, q: T.System)
    requires T.SystemInv(c, q) && q.ring.cpc.CHold?
    requires |q.out| == q.performed && q.performed + 1 == q.ring.taken
    ensures var r := q.ring; var length := r.cpc.hi - r.cons;
            && 0 < length && q.poped == r.cons && q.consumed == r.cpc.hi && r.cons + 4 <= |r.buf|
            && Readable(r.buf, r.cons) && ReadRecord(r.buf, r.cons).length == length
            && FromU32(r.buf[r.cons..r.cons + 4]) == length
  {
    hide Inv;
    T.Parts(c, q, 0, 0);
    HeldClaim(c, q.ring, q.performed);
    BatchGoesOn(c, q.ring, q.tasks, |q.out|, q.performed, q.poped, q.consumed);
    RecordToRelease(c, q.ring, q.tasks, |q.out| + 1, q.performed, q.poped + FrameLength(q.tasks[|q.out|]), q.consumed);
  }

  // pop returns what it reads.
  lemma Returning(c: Config, fit: bool, j: Joint) returns (u: Joint)
    requires Happens(c, fit, j) && j.wake.ring == j.queue.ring && j.wake.strategy.Running?
    requires var q := j.queue;
             q.poped < q.consumed && Readable(q.ring.buf, q.poped) && j.wake.left == q.consumed - q.poped
             && 0 < ReadRecord(q.ring.buf, q.poped).length <= q.consumed - q.poped
    ensures var record := ReadRecord(j.queue.ring.buf, j.queue.poped);
            && Happens(c, fit, u)
            && u.queue == j.queue.(out := j.queue.out + [record], poped := j.queue.poped + record.length)
            && u.wake == j.wake.(left := j.wake.left - record.length)
  {
    hide Happens;
    hide Readable;
    hide ReadRecord;
    u := Next(c, fit, j, Pop);
  }

  // The one task of a batch gives its record back.
  lemma Performing(c: Config, fit: bool, j: Joint) returns (u: Joint)
    requires Happens(c, fit, j) && j.wake.ring == j.queue.ring && j.wake.strategy.Running?
    requires j.wake.left == 0 && j.queue.performed < |j.queue.out|
    requires var r := j.queue.ring;
             r.cpc.CHold? && r.cons < r.cpc.hi && r.cons + 4 <= |r.buf| && FromU32(r.buf[r.cons..r.cons + 4]) == r.cpc.hi - r.cons
    ensures var s := Taken(c, j.queue.ring);
            && Happens(c, fit, u)
            && u.queue == j.queue.(ring := s, performed := j.queue.performed + 1) && u.wake == j.wake.(ring := s)
  {
    hide Happens;
    hide FromU32;
    u := Next(c, fit, j, Perform);
  }

  // The ring once the range the consumer holds has been released.
  function Taken(c: Config, r: State): State
    requires r.cpc.CHold?
  {
    r.(cons := if r.cpc.hi == c.capacity then 0 else r.cpc.hi,
       clap := if r.cpc.hi == c.capacity then r.clap + 1 else r.clap, cpc := CIdle)
  }

  // Of a batch of one record, the strategy takes and performs that.
  lemma Taking(c: Config, j: Joint) returns (u: Joint)
    requires ValidConfig(c) && Happens(c, true, j) && j.wake.strategy.Running? && j.queue.ring.cpc.CHold?
    requires |j.queue.out| == j.queue.performed && j.queue.performed + 1 == j.queue.ring.taken
    ensures var s := Taken(c, j.queue.ring);
            && Happens(c, true, u)
            && |u.queue.out| == |j.queue.out| + 1
            && u.queue == j.queue.(ring := s, out := u.queue.out, poped := j.queue.consumed, performed := j.queue.performed + 1)
            && u.wake == j.wake.(ring := s, left := 0)
  {
    HappensInv(c, j);
    hide Happens;
    hide Inv;
    hide Readable;
    hide ReadRecord;
    hide FromU32;
    OneRecord(c, j.queue);
    hide T.SystemInv;
    hide W.SystemInv;
    u := Returning(c, true, j);
    u := Performing(c, true, u);
  }
}
