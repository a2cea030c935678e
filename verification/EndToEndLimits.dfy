/**
 What goes wrong in a ring with a counter that comes back, two workers and room for two
 frames: a poster's stale compare-exchange makes a full ring look empty, two tasks are
 left behind by a strategy that sleeps, and the next push overwrites one of them.
 */
module EndToEndLimits {
  import opened RingProtocol
  import opened RingInvariant
  import opened Framing
  import opened TaskStream
  import opened EndToEnd
  import opened EndToEndSteps
  import TaskLimits
  import RingLimits
  import T = TaskProtocol
  import W = WakeUp

  // ----------------------------------------------------------- the scenario

  /** Nothing is left to pop or to perform, nobody has anything to announce, and the barrier
      stands at `p` of lap `lap`. */
  ghost predicate Clear(c: Config, j: Joint, lap: nat, p: nat) {
    var r := j.queue.ring;
    && j.wake.ring == r && |r.workers| == |j.queue.pushing| == |j.wake.posts| == c.workers
    && (forall i {:trigger j.wake.posts[i]} | 0 <= i < |j.wake.posts| :: j.wake.posts[i].Quiet?)
    && r.barrier == Word(false, Tag(c, lap), p) && r.cons == p < c.capacity && r.end == MAX_OFFSET
    && r.cpc.CIdle? && r.taken == |r.log| && RingLimits.NothingSeen(r)
    && j.wake.strategy.Running?
  }

  // What the invariant adds.
  lemma ClearFacts(c: Config, j: Joint, lap: nat, p: nat)
    requires ValidConfig(c) && Happens(c, true, j) && Clear(c, j, lap, p)
    ensures Idles(j) && |j.queue.out| == j.queue.performed == j.queue.ring.taken == |j.queue.tasks|
    ensures |j.queue.ring.data| == |j.queue.ring.log| && |j.queue.ring.buf| == c.capacity
  {
    HappensInv(c, j);
    hide Happens;
    T.Parts(c, j.queue, 0, 0);
  }

  // The strategy has been handed `t`, which worker 1 pushed into the empty ring of `j`.
  ghost predicate Handed(c: Config, j: Joint, p: nat, t: Task, u: Joint) {
    var r, s, size := j.queue.ring, u.queue.ring, FrameLength(t);
    && u.wake.ring == s && u.wake.strategy.Running? && u.wake.posts == j.wake.posts
    && s.workers == r.workers && u.queue.pushing == j.queue.pushing && u.queue.tasks == j.queue.tasks + [t]
    && u.queue.out == j.queue.out && u.queue.performed == j.queue.performed
    && s.barrier == Target(c, r.barrier, size).(locked := false)
    && s.cons == (if p + size > c.capacity then 0 else p) && s.end == MAX_OFFSET
    && s.cpc == CHold(if p + size > c.capacity then size else p + size, r.taken)
    && s.taken == |s.log| == |r.log| + 1
  }

  lemma HandingOver(c: Config, j: Joint, lap: nat, p: nat, t: Task) returns (u: Joint)
    requires ValidConfig(c) && Happens(c, true, j) && Clear(c, j, lap, p) && Rests(j, 1)
    requires t.operation != [] && 0 < FrameLength(t) <= c.capacity && GuardPasses(c, p, FrameLength(t), p)
    ensures Happens(c, true, u) && Handed(c, j, p, t, u)
  {
    ClearFacts(c, j, lap, p);
    hide Happens;
    hide FrameLength;
    hide HoldsFrame;
    u := Pushing(c, true, j, 1, t);
    u := Consuming(c, true, u);
  }

  // Where a claim of `size` bytes at `p` of lap `lap` takes the barrier.
  function NextLap(c: Config, lap: nat, p: nat, size: nat): nat {
    if p + size < c.capacity then lap else lap + 1
  }

  function NextAt(c: Config, p: nat, size: nat): nat {
    if p + size < c.capacity then p + size else if p + size == c.capacity then 0 else size
  }

  lemma TargetIs(c: Config, lap: nat, p: nat, size: nat)
    ensures Target(c, Word(false, Tag(c, lap), p), size).(locked := false)
         == Word(false, Tag(c, NextLap(c, lap, p, size)), NextAt(c, p, size))
  {
  }

  lemma StillClear(c: Config, j: Joint, lap: nat, p: nat, t: Task, s: Joint, u: Joint)
    requires Clear(c, j, lap, p) && Handed(c, j, p, t, s) && s.queue.ring.cpc.CHold?
    requires 0 < FrameLength(t) <= c.capacity && GuardPasses(c, p, FrameLength(t), p)
    requires u.queue == s.queue.(ring := Taken(c, s.queue.ring), out := u.queue.out, poped := u.queue.poped, performed := u.queue.performed)
    requires u.wake == s.wake.(ring := Taken(c, s.queue.ring), left := 0)
    ensures Clear(c, u, NextLap(c, lap, p, FrameLength(t)), NextAt(c, p, FrameLength(t)))
  {
    hide FrameLength;
    TargetIs(c, lap, p, FrameLength(t));
    hide Tag;
    hide Target;
  }

  // Worker 1 pushes `t` into an empty ring, and the strategy performs it.
  lemma Working(c: Config, j: Joint, lap: nat, p: nat, t: Task) returns (u: Joint)
    requires ValidConfig(c) && Happens(c, true, j) && Clear(c, j, lap, p) && Rests(j, 1)
    requires t.operation != [] && 0 < FrameLength(t) <= c.capacity && GuardPasses(c, p, FrameLength(t), p)
    ensures Happens(c, true, u)
    ensures Clear(c, u, NextLap(c, lap, p, FrameLength(t)), NextAt(c, p, FrameLength(t)))
    ensures u.queue.ring.workers == j.queue.ring.workers && u.queue.pushing == j.queue.pushing && u.wake.posts == j.wake.posts
    ensures |u.queue.ring.log| == |j.queue.ring.log| + 1
  {
    hide Happens;
    hide FrameLength;
    hide Target;
    hide Tag;
    hide GuardPasses;
    var s := HandingOver(c, j, lap, p, t);
    HandedBatch(c, j, lap, p, t, s);
    u := Taking(c, s);
    StillClear(c, j, lap, p, t, s, u);
    hide Clear;
  }

  lemma HandedBatch(c: Config, j: Joint, lap: nat, p: nat, t: Task, s: Joint)
    requires ValidConfig(c) && Happens(c, true, j) && Clear(c, j, lap, p) && Handed(c, j, p, t, s)
    ensures |s.queue.out| == s.queue.performed && s.queue.performed + 1 == s.queue.ring.taken
    ensures s.wake.strategy.Running? && s.queue.ring.cpc.CHold?
  {
    ClearFacts(c, j, lap, p);
  }

  /** Two tasks that fit the ring together, but not with a second one like the first. */
  ghost predicate TwoFit(c: Config, a: Task, b: Task) {
    && a.operation != [] && b.operation != []
    && FrameLength(a) + FrameLength(b) <= c.capacity < 2 * FrameLength(a) + FrameLength(b)
    && 0 < FrameLength(a) && 0 < FrameLength(b)
  }

  // Workers from 2 on are away.
  ghost predicate OthersAway(j: Joint) {
    && RingLimits.OthersAway(j.queue.ring)
    && (forall i {:trigger j.queue.pushing[i]} | 2 <= i < |j.queue.pushing| :: j.queue.pushing[i].Quiet?)
  }

  /** Worker 0 has loaded the barrier after the first task, and is about to publish it. */
  ghost predicate Stalled(c: Config, j: Joint, lap: nat, a: Task, b: Task) {
    var r, at := j.queue.ring, FrameLength(a);
    && c.workers >= 2 && Clear(c, j, lap, at) && Rests(j, 1) && OthersAway(j)
    && r.workers[0] == Worker(PublishSeen(FrameLength(b), Word(false, 0, at), 1), true, Seen(false, MAX_OFFSET))
    && j.queue.pushing[0] == T.Asking(b)
  }

  lemma RegisteringTwice(c: Config, j: Joint, i: nat) returns (u: Joint)
    requires Happens(c, true, j) && Poster(j, i) && j.queue.ring.workers[i].pc.Detached?
    ensures Happens(c, true, u) && u == With(j, Put(j.queue.ring, i, Worker(Idle, true, Seen(false, MAX_OFFSET))))
  {
    hide Happens;
    u := Next(c, true, j, Producing(T.Register(i)));
    assert u == With(j, Put(j.queue.ring, i, j.queue.ring.workers[i].(pc := Registering, seen := Seen(false, MAX_OFFSET))));
    u := Next(c, true, u, Producing(T.Register(i)));
  }

  // Two workers have come.
  lemma Opening(c: Config) returns (u: Joint)
    requires ValidConfig(c) && 2 <= c.workers
    ensures Happens(c, true, u) && Clear(c, u, 0, 0) && Rests(u, 0) && Rests(u, 1) && OthersAway(u) && u.queue.ring.log == []
  {
    u := Start(c);
    assert u == History(c, []) && FitHistory(c, []);
    assert Happens(c, true, u);
    hide Happens;
    u := RegisteringTwice(c, u, 0);
    u := RegisteringTwice(c, u, 1);
  }

  // The first task has come and gone, and worker 0 stalls in its push.
  lemma Stalling(c: Config, a: Task, b: Task) returns (u: Joint)
    requires ValidConfig(c) && TwoFit(c, a, b) && 2 <= c.workers
    ensures Happens(c, true, u) && Stalled(c, u, 0, a, b)
  {
    hide Happens;
    hide FrameLength;
    u := Opening(c);
    u := Working(c, u, 0, 0, a);
    assert u.queue.ring.barrier == Word(false, 0, FrameLength(a));
    u := Loading(c, true, u, 0, b);
  }

  // Worker 1 and the strategy go round once, while worker 0 waits.
  lemma OneLap(c: Config, j: Joint, lap: nat, a: Task, b: Task) returns (u: Joint)
    requires ValidConfig(c) && TwoFit(c, a, b) && Happens(c, true, j) && Stalled(c, j, lap, a, b)
    ensures Happens(c, true, u) && Stalled(c, u, lap + 1, a, b)
  {
    hide Happens;
    hide FrameLength;
    u := Working(c, j, lap, FrameLength(a), b);
    if FrameLength(a) + FrameLength(b) < c.capacity {
      u := Working(c, u, lap, FrameLength(a) + FrameLength(b), a);
    } else {
      u := Working(c, u, lap + 1, 0, a);
    }
  }

  lemma {:induction false} ManyLaps(c: Config, laps: nat, a: Task, b: Task) returns (u: Joint)
    requires ValidConfig(c) && TwoFit(c, a, b) && 2 <= c.workers
    ensures Happens(c, true, u) && Stalled(c, u, laps, a, b)
  {
    hide Happens;
    hide Stalled;
    if laps == 0 {
      u := Stalling(c, a, b);
    } else {
      u := ManyLaps(c, laps - 1, a, b);
      u := OneLap(c, u, laps - 1, a, b);
    }
  }

  // What the invariant says of the sizes, whoever is doing what.
  lemma SizesAgree(c: Config, j: Joint)
    requires ValidConfig(c) && Happens(c, true, j)
    ensures |j.queue.ring.data| == |j.queue.ring.log| == |j.queue.tasks| && |j.queue.ring.buf| == c.capacity
    ensures |j.queue.out| <= |j.queue.tasks| && j.queue.out == Deliveries(j.queue.tasks, 0, |j.queue.out|)
    ensures j.queue.ring.cpc.CIdle? ==> j.queue.poped == j.queue.consumed && |j.queue.out| == j.queue.performed == j.queue.ring.taken
  {
    HappensInv(c, j);
    T.Parts(c, j.queue, 0, 0);
    T.OutOfTasks(c, j.queue);
  }

  // The workers from 1 on show nothing to the consumer.
  ghost predicate OthersUnseen(r: State) {
    forall i {:trigger r.workers[i]} | 1 <= i < |r.workers| :: r.workers[i].registered ==> r.workers[i].seen == Seen(false, MAX_OFFSET)
  }

  /** Worker 0 has read the consumer barrier while the consumer still held the second task,
      and is about to swap; meanwhile worker 1 has gone round to the word it expects. */
  ghost predicate TooLate(c: Config, j: Joint, a: Task, b: Task) {
    var r, at := j.queue.ring, FrameLength(a);
    && |r.workers| == |j.queue.pushing| == |j.wake.posts| == c.workers >= 2
    && (forall i {:trigger j.wake.posts[i]} | 0 <= i < |j.wake.posts| :: j.wake.posts[i].Quiet?)
    && Poster(j, 0) && Rests(j, 1) && OthersAway(j) && OthersUnseen(r)
    && r.workers[0] == Worker(TryCas(FrameLength(b), Word(false, 0, at), 1, at), true, Seen(true, at))
    && j.queue.pushing[0] == T.Asking(b)
    && r.barrier == Word(false, 0, at) && r.cons == NextAt(c, at, FrameLength(b)) < c.capacity && (r.end == MAX_OFFSET || r.cons <= r.end)
    && Idles(j)
  }

  // One task is waiting, `a`.
  ghost predicate OneLeft(j: Joint, a: Task) {
    var n := |j.queue.out|;
    && |j.queue.ring.data| == |j.queue.ring.log|
    && n + 1 == |j.queue.tasks| && j.queue.tasks[n] == a && j.queue.out == Deliveries(j.queue.tasks, 0, n)
  }

  lemma TagComesBack(c: Config, lap: nat)
    requires lap + 1 == c.modulus
    ensures Tag(c, lap + 1) == 0
  {
    TagShift(c, 0, lap);
  }

  /** Worker 0 has read the consumer barrier too early, and the strategy is done with the
      second task of lap `lap`. */
  ghost predicate ReadEarly(c: Config, u: Joint, lap: nat, a: Task, b: Task) {
    var r, at := u.queue.ring, FrameLength(a);
    && |r.workers| == |u.queue.pushing| == |u.wake.posts| == c.workers >= 2
    && (forall i {:trigger u.wake.posts[i]} | 0 <= i < |u.wake.posts| :: u.wake.posts[i].Quiet?)
    && Poster(u, 0) && Rests(u, 1) && OthersAway(u) && OthersUnseen(r)
    && r.workers[0] == Worker(TryCas(FrameLength(b), Word(false, 0, at), 1, at), true, Seen(true, at))
    && u.queue.pushing[0] == T.Asking(b)
    && r.barrier == Word(false, Tag(c, NextLap(c, lap, at, FrameLength(b))), NextAt(c, at, FrameLength(b)))
    && r.cons == r.barrier.index < c.capacity && r.end == MAX_OFFSET && r.cpc.CIdle?
    && u.wake.strategy.Running? && u.wake.left == 0 && r.taken == |r.log|
  }

  lemma ReadingEarly(c: Config, j: Joint, lap: nat, a: Task, b: Task) returns (u: Joint)
    requires ValidConfig(c) && TwoFit(c, a, b) && Happens(c, true, j) && Stalled(c, j, lap, a, b)
    ensures Happens(c, true, u) && ReadEarly(c, u, lap, a, b)
  {
    hide Happens;
    hide FrameLength;
    var at := FrameLength(a);
    var s := HandingOver(c, j, lap, at, b);
    HandedBatch(c, j, lap, at, b, s);
    TargetIs(c, lap, at, FrameLength(b));
    hide Target;
    hide Tag;
    u := Reading(c, true, s, 0);
    hide GuardPasses;
    u := Taking(c, u);
  }

  // The first task's frame fits behind the second one's, or in front of it.
  lemma GoesRound(c: Config, lap: nat, a: Task, b: Task)
    requires TwoFit(c, a, b)
    ensures var at, next := FrameLength(a), NextAt(c, FrameLength(a), FrameLength(b));
            && GuardPasses(c, next, at, next)
            && NextLap(c, NextLap(c, lap, at, FrameLength(b)), next, at) == lap + 1 && NextAt(c, next, at) == at
            && (next + at >= c.capacity ==> next + at > c.capacity)
  {
    hide FrameLength;
  }

  lemma Meets(c: Config, s: Joint, lap: nat, a: Task, b: Task, u: Joint)
    requires TwoFit(c, a, b) && ReadEarly(c, s, lap, a, b) && lap + 1 == c.modulus && Pushed(c, s, a, u)
    requires u.queue.poped == u.queue.consumed
    ensures TooLate(c, u, a, b)
  {
    hide FrameLength;
    hide HoldsFrame;
    GoesRound(c, lap, a, b);
    TargetIs(c, NextLap(c, lap, FrameLength(a), FrameLength(b)), NextAt(c, FrameLength(a), FrameLength(b)), FrameLength(a));
    TagComesBack(c, lap);
    hide GuardPasses;
    hide Tag;
    hide NextLap;
  }

  // Worker 1 goes on to the word that worker 0 expects.
  lemma Meeting(c: Config, a: Task, b: Task) returns (u: Joint)
    requires ValidConfig(c) && TwoFit(c, a, b) && 2 <= c.workers && 1 <= c.modulus
    ensures Happens(c, true, u) && TooLate(c, u, a, b) && OneLeft(u, a) && |u.queue.ring.buf| == c.capacity
  {
    var s := ManyLaps(c, c.modulus - 1, a, b);
    s := ReadingEarly(c, s, c.modulus - 1, a, b);
    u := GoingOn(c, s, c.modulus - 1, a, b);
  }

  lemma GoingOn(c: Config, s: Joint, lap: nat, a: Task, b: Task) returns (u: Joint)
    requires ValidConfig(c) && TwoFit(c, a, b) && lap + 1 == c.modulus
    requires Happens(c, true, s) && ReadEarly(c, s, lap, a, b)
    ensures Happens(c, true, u) && TooLate(c, u, a, b) && OneLeft(u, a) && |u.queue.ring.buf| == c.capacity
  {
    hide Happens;
    hide FrameLength;
    hide HoldsFrame;
    hide Tag;
    SizesAgree(c, s);
    GoesRound(c, lap, a, b);
    hide GuardPasses;
    u := Pushing(c, true, s, 1, a);
    SizesAgree(c, u);
    Meets(c, s, lap, a, b, u);
    hide TooLate;
    hide Target;
  }

  /** Two tasks more are pushed than popped, nobody is doing anything, and the barrier
      stands where the consumer does. */
  ghost predicate LeftBehind(c: Config, j: Joint, a: Task, b: Task) {
    var r := j.queue.ring;
    && Idles(j) && Rests(j, 0) && Rests(j, 1) && RingLimits.NothingSeen(r)
    && (forall i {:trigger j.wake.posts[i]} | 0 <= i < |j.wake.posts| :: j.wake.posts[i].Quiet?)
    && (forall i {:trigger j.queue.pushing[i]} | 0 <= i < |j.queue.pushing| :: j.queue.pushing[i].Quiet?)
    && !r.barrier.locked && r.barrier.index == r.cons == NextAt(c, FrameLength(a), FrameLength(b)) < c.capacity
    && (r.end == MAX_OFFSET || r.cons <= r.end)
    && |r.data| == |r.log| && |r.buf| == c.capacity
    && |j.queue.out| + 2 == |j.queue.tasks| && j.queue.tasks[|j.queue.out|] == a
    && j.queue.out == Deliveries(j.queue.tasks, 0, |j.queue.out|)
  }

  lemma Loosely(c: Config, j: Joint)
    requires Happens(c, true, j)
    ensures Happens(c, false, j)
  {
  }

  // The stale compare-exchange has succeeded.
  ghost predicate Swapped(c: Config, j: Joint, a: Task, b: Task, u: Joint) {
    var r, s := j.queue.ring, u.queue.ring;
    && 0 < |r.workers| && 0 < |j.queue.pushing| && 0 < |u.queue.pushing|
    && s.workers == r.workers[0 := Worker(Owning(|r.log|), true, Seen(false, FrameLength(a)))]
    && !s.barrier.locked && s.barrier.index == NextAt(c, FrameLength(a), FrameLength(b))
    && s.cons == r.cons && s.cpc == r.cpc && s.end == r.end && |s.buf| == |r.buf| && |s.data| == |s.log| == |r.log| + 1
    && u.queue.pushing[0].Storing? && u.queue.pushing[0].task == b && s.taken == r.taken
    && u.queue == j.queue.(ring := s, tasks := j.queue.tasks + [b], pushing := j.queue.pushing[0 := u.queue.pushing[0]])
    && u.wake == j.wake.(ring := s)
  }

  lemma SwappingLate(c: Config, j: Joint, a: Task, b: Task) returns (u: Joint)
    requires ValidConfig(c) && TwoFit(c, a, b) && Happens(c, false, j)
    requires TooLate(c, j, a, b) && |j.queue.ring.buf| == c.capacity && |j.queue.ring.data| == |j.queue.ring.log|
    ensures Happens(c, false, u) && Stores(u, 0) && Swapped(c, j, a, b, u)
  {
    hide Happens;
    hide FrameLength;
    u := SwappingBytes(c, false, j, 0);
    hide Stores;
  }

  lemma PostsLate(c: Config, j: Joint, a: Task, b: Task, s: Joint, u: Joint)
    requires TooLate(c, j, a, b) && OneLeft(j, a) && |j.queue.ring.buf| == c.capacity && Swapped(c, j, a, b, s)
    requires var r, t := s.queue.ring, u.queue.ring;
             && |t.buf| == |r.buf| && |t.data| == |r.data|
             && t == Put(r.(buf := t.buf, data := t.data), 0, r.workers[0].(pc := Idle, seen := Seen(false, MAX_OFFSET)))
             && u.queue == s.queue.(ring := t, pushing := s.queue.pushing[0 := T.Quiet])
             && u.wake == s.wake.(ring := t, notified := true)
    ensures LeftBehind(c, u, a, b)
  {
    hide FrameLength;
    T.DeliveriesKept(j.queue.tasks, j.queue.tasks + [b], 0, |j.queue.out|);
  }

  // Worker 0 finishes its push.
  lemma LeavingBehind(c: Config, a: Task, b: Task) returns (u: Joint)
    requires ValidConfig(c) && TwoFit(c, a, b) && 2 <= c.workers && 1 <= c.modulus
    ensures Happens(c, false, u) && LeftBehind(c, u, a, b)
  {
    var j := Meeting(c, a, b);
    Loosely(c, j);
    hide Happens;
    hide FrameLength;
    hide HoldsFrame;
    var s := SwappingLate(c, j, a, b);
    Swaps(c, j, a, b, s);
    hide Stores;
    u := Posting(c, false, s, 0);
    PostsLate(c, j, a, b, s, u);
  }

  lemma Swaps(c: Config, j: Joint, a: Task, b: Task, s: Joint)
    requires TooLate(c, j, a, b) && Swapped(c, j, a, b, s)
    ensures !s.wake.strategy.Sleeping?
  {
  }

  // -------------------------------------------------- the tasks left behind

  // A pop of a ring that looks empty, up to the test of `_notified`.
  lemma PopsNothing(c: Config, fit: bool, j: Joint) returns (u: Joint)
    requires Happens(c, fit, j) && Idles(j)
    requires !j.queue.ring.barrier.locked && j.queue.ring.barrier.index == j.queue.ring.cons
    ensures Happens(c, fit, u)
    ensures u == j.(wake := j.wake.(notified := false, strategy := if j.wake.notified then W.Running else W.Sleeping))
  {
    hide Happens;
    u := Calling(c, fit, j);
    u := Next(c, fit, u, Scanning);
    assert u == j.(wake := j.wake.(strategy := W.Suspending));
    u := Next(c, fit, u, Waking(W.Check));
  }

  // The strategy goes to sleep for good with two tasks left.
  lemma FallingAsleep(c: Config, j: Joint, a: Task, b: Task) returns (u: Joint)
    requires Happens(c, false, j) && LeftBehind(c, j, a, b)
    ensures Happens(c, false, u) && AtRest(u) && !u.wake.notified && |u.queue.out| + 2 == |u.queue.tasks|
  {
    hide Happens;
    u := PopsNothing(c, false, j);
    if u.wake.strategy.Running? {
      u := PopsNothing(c, false, u);
    }
  }

  // The next push overwrites one of the two, and is popped in its place.
  lemma Overwriting(c: Config, j: Joint, a: Task, b: Task, d: Task) returns (u: Joint)
    requires ValidConfig(c) && TwoFit(c, a, b) && Happens(c, false, j) && LeftBehind(c, j, a, b)
    requires d.operation != [] && FrameLength(d) == FrameLength(a)
    ensures Happens(c, false, u)
    ensures u.queue.out == j.queue.out + [Delivered(d)] && u.queue.tasks == j.queue.tasks + [d]
  {
    hide Happens;
    hide FrameLength;
    hide HoldsFrame;
    GoesRound(c, 0, a, b);
    u := Pushing(c, false, j, 1, d);
    OverwritesFirst(c, j, a, b, d, u);
    u := Consuming(c, false, u);
    ReadsWhatWasWritten(u.queue.ring.buf, 0, d);
    hide GuardPasses;
    hide ReadRecord;
    hide Readable;
    u := Returning(c, false, u);
  }

  // The push starts over at 0, and so will the consumer.
  lemma OverwritesFirst(c: Config, j: Joint, a: Task, b: Task, d: Task, u: Joint)
    requires ValidConfig(c) && TwoFit(c, a, b) && LeftBehind(c, j, a, b) && FrameLength(d) == FrameLength(a)
    requires Pushed(c, j, d, u)
    ensures var r := u.queue.ring;
            && Idles(u) && RingLimits.NothingSeen(r)
            && !r.barrier.locked && r.barrier.index == FrameLength(a) != r.cons && r.cons < c.capacity
            && FrameLength(a) < c.capacity && (r.end == MAX_OFFSET || r.cons <= r.end)
            && (r.barrier.index < r.cons ==> Standing(c, r) != r)
            && Standing(c, r).cons == 0
            && Ending(c, r) == FrameLength(a) <= |r.buf|
            && HoldsFrame(r.buf[0..FrameLength(d)], d)
  {
    hide FrameLength;
    hide HoldsFrame;
  }

  // ------------------------------------------------ the safe configurations

  // Some task with a frame of `size` bytes.
  function Sample(size: nat, stackSize: nat): (t: Task)
    requires 32 <= size && size % 8 == 0
    ensures t.operation != [] && t.stackSize == stackSize && FrameLength(t) == size
  {
    Task([0], stackSize, seq(size - 32, _ => 1))
  }

  // A ring with room for two frames has room for two that do not leave space for a third.
  lemma TwoTasks(c: Config) returns (a: Task, b: Task, d: Task)
    requires ValidConfig(c) && 2 * TaskLimits.SHORTEST <= c.capacity
    ensures TwoFit(c, a, b) && d.operation != [] && FrameLength(d) == FrameLength(a) && Delivered(d) != Delivered(a)
  {
    hide FrameLength;
    var size := (c.capacity - 32) / 8 * 8;
    a, b, d := Sample(32, 0), Sample(size, 0), Sample(32, 1);
    assert Delivered(a).stackSize == 0 && Delivered(d).stackSize == 1;
  }

  ghost predicate Fifo(q: T.System) {
    |q.out| <= |q.tasks| && q.out == Deliveries(q.tasks, 0, |q.out|)
  }

  lemma NotFifo(q: T.System, n: nat, d: Task)
    requires n + 1 == |q.out| && n + 1 < |q.tasks| && q.out[n] == Delivered(d) && Delivered(d) != Delivered(q.tasks[n])
    ensures !Fifo(q)
  {
    hide Delivered;
    if Fifo(q) { T.DeliveriesNext(q.tasks, 0, n); }
  }

  ghost predicate EveryHistoryFits(c: Config) {
    forall events {:trigger T.FitHistory(c, events)} :: T.FitHistory(c, events)
  }

  ghost predicate AlwaysFifo(c: Config) {
    forall events {:trigger T.History(c, events)} :: Fifo(T.History(c, events))
  }

  // A strategy that sleeps for good has left nothing undone.
  ghost predicate AlwaysDone(c: Config) {
    forall events {:trigger History(c, events)} :: AtRest(History(c, events)) ==> AllDone(c, History(c, events))
  }

  lemma {:induction false} FitsIfQueueFits(c: Config, events: seq<Event>)
    requires EveryHistoryFits(c)
    ensures FitHistory(c, events)
  {
    hide React;
    if events != [] {
      var before, e := events[..|events| - 1], events[|events| - 1];
      FitsIfQueueFits(c, before);
      if e.Producing? {
        var q := QueueHistory(c, before);
        assert T.FitHistory(c, q + [e.e]);
        assert (q + [e.e])[..|q|] == q;
      }
    }
  }

  /** With a counter that comes back, as the code's does at every wrap, two workers and room
      for two frames, there is a history at whose end the strategy sleeps for good although
      two tasks are waiting, and one in which pop does not return what was pushed. */
  lemma CounterThatComesBackLosesTasks(c: Config) returns (asleep: seq<Event>, swapped: seq<T.Event>)
    requires ValidConfig(c) && !TaskLimits.SafeQueue(c)
    ensures var j := History(c, asleep); AtRest(j) && !j.wake.notified && |j.queue.out| + 2 == |j.queue.tasks|
    ensures !Fifo(T.History(c, swapped))
  {
    var a, b, d := TwoTasks(c);
    hide FrameLength;
    var j := LeavingBehind(c, a, b);
    var u := FallingAsleep(c, j, a, b);
    asleep :| u == History(c, asleep);
    var v := Overwriting(c, j, a, b, d);
    var events :| v == History(c, events);
    swapped := QueueHistory(c, events);
    NotFifo(v.queue, |j.queue.out|, d);
  }

  /** The task queue is a FIFO queue in every history, and its strategy never sleeps on a task
      for good, if and only if the counter never comes back, or there is one worker, or the
      ring has no room for two frames. */
  lemma QueuesAreSafeExactly(c: Config)
    requires ValidConfig(c)
    ensures EveryHistoryFits(c) <==> TaskLimits.SafeQueue(c)
    ensures AlwaysFifo(c) <==> TaskLimits.SafeQueue(c)
    ensures AlwaysDone(c) <==> TaskLimits.SafeQueue(c)
  {
    hide AtRest;
    hide T.React;
    hide React;
    if TaskLimits.SafeQueue(c) {
      forall events ensures T.FitHistory(c, events) && Fifo(T.History(c, events)) {
        TaskLimits.SafeHistoriesFit(c, events);
        T.PopsAreFifo(c, events);
      }
      forall events | AtRest(History(c, events)) ensures AllDone(c, History(c, events)) {
        SafeRingsSleepOnlyWhenAllIsDone(c, events);
      }
    } else {
      var asleep, swapped := CounterThatComesBackLosesTasks(c);
      if EveryHistoryFits(c) {
        FitsIfQueueFits(c, asleep);
        SleepsOnlyWhenAllIsDone(c, asleep);
      }
    }
  }
}
