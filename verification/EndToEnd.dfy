/**
 The task queue and the wake-up handshake together: what a poster pushes is popped, in
 order, before the strategy sleeps for good.  A state is a state of each system over the
 same ring, and an event is an event of each.
 */
module EndToEnd {
  import opened RingProtocol
  import opened RingInvariant
  import opened RingSafety
  import opened Framing
  import opened TaskStream
  import FrameStores
  import TaskLimits
  import TaskCalls
  import T = TaskProtocol
  import W = WakeUp

  datatype Joint = Joint(queue: T.System, wake: W.System)

  datatype Event =
    | Producing(e: T.Event)    // registration, push, a step of acquire, a store
    | Finish(i: nat)           // produce
    | Pop
    | Scanning
    | Perform
    | Waking(w: W.Event)       // the notify after produce, and the wait of the strategy

  function Start(c: Config): Joint { Joint(T.Start(c), W.Start(c)) }

  predicate ByProducer(e: T.Event) {
    e.Register? || e.Unregister? || e.Push? || e.Retry? || e.Advance? || e.CasFails? || e.Store?
  }

  predicate InWait(e: W.Event) {
    e.SetNotified? || e.NotifyAll? || e.Check? || e.Timeout? || e.Spurious?
  }

  function React(c: Config, j: Joint, e: Event): Joint {
    match e
    case Producing(p) =>
      if ByProducer(p) && W.PosterMay(j.wake, p.i) then
        var q := T.React(c, j.queue, p);
        Joint(q, j.wake.(ring := q.ring))
      else j
    case Finish(i) =>
      if W.PosterMay(j.wake, i) && T.React(c, j.queue, T.Finish(i)) != j.queue
      then Joint(T.React(c, j.queue, T.Finish(i)), W.React(c, j.wake, W.Finish(i))) else j
    case Pop =>
      if j.wake.strategy.Running? && T.React(c, j.queue, T.Pop) != j.queue then
        var q := T.React(c, j.queue, T.Pop);
        Joint(q, W.React(c, j.wake, W.Pop(if q.poped > j.queue.poped then q.poped - j.queue.poped else 0)))
      else j
    case Scanning =>
      if j.wake.strategy.Popping?
      then Joint(T.React(c, j.queue, T.Scanning), W.React(c, j.wake, W.Scanning)) else j
    case Perform =>
      if j.wake.strategy.Running? && T.React(c, j.queue, T.Perform) != j.queue && j.queue.ring.cons + 4 <= |j.queue.ring.buf|
      then Joint(T.React(c, j.queue, T.Perform),
                 W.React(c, j.wake, W.Perform(FromU32(j.queue.ring.buf[j.queue.ring.cons..j.queue.ring.cons + 4])))) else j
    case Waking(w) => if InWait(w) then j.(wake := W.React(c, j.wake, w)) else j
  }

  // One ring, and one batch.
  ghost predicate Agree(j: Joint) {
    && j.queue.ring == j.wake.ring
    && j.queue.poped <= j.queue.consumed && j.wake.left == j.queue.consumed - j.queue.poped
  }

  ghost predicate JointInv(c: Config, j: Joint) {
    T.SystemInv(c, j.queue) && W.SystemInv(c, j.wake) && Agree(j)
  }

  ghost predicate EventFits(c: Config, j: Joint, e: Event) {
    e.Producing? ==> T.EventFits(c, j.queue, e.e)
  }

  // --------------------------------------------------------------- posters

  // What an event of a producer does to the ring.
  lemma ProducerStep(c: Config, q: T.System, p: T.Event) returns (moves: bool, a: Action)
    requires ByProducer(p)
    ensures !moves ==> T.React(c, q, p).ring == q.ring
    ensures moves ==>
              && T.React(c, q, p).ring == RingProtocol.Step(c, q.ring, a)
              && (a.Register? || a.Unregister? || a.Acquire? || a.Advance? || a.CasFails? || a.Write?)
              && a.i == p.i && (a.Advance? ==> p.Advance?)
    ensures T.React(c, q, p).poped == q.poped && T.React(c, q, p).consumed == q.consumed
  {
    hide RingProtocol.Step;
    hide FrameLength;
    hide U32;
    hide RoundUp;
    moves, a := T.React(c, q, p).ring != q.ring, Consume;
    if moves {
      match p
      case Register(i) => a := Register(i);
      case Unregister(i) => a := Unregister(i);
      case Push(i, t) => a := Acquire(i, FrameLength(t));
      case Retry(i) => a := Acquire(i, FrameLength(q.pushing[i].task));
      case Advance(i) => a := Advance(i);
      case CasFails(i) => a := CasFails(i);
      case Store(i) =>
        var s := q.pushing[i];
        var chunk := FrameStores.Chunks(0, s.task)[s.chunk];
        a := Write(i, chunk.at + s.done, chunk.bytes[s.done]);
      case _ =>
    }
  }

  lemma ProducingKeeps(c: Config, j: Joint, p: T.Event)
    requires JointInv(c, j) && EventFits(c, j, Producing(p))
    ensures JointInv(c, React(c, j, Producing(p)))
  {
    hide T.SystemInv;
    hide W.SystemInv;
    if ByProducer(p) && W.PosterMay(j.wake, p.i) {
      T.ReactKeepsInv(c, j.queue, p);
      var moves, a := ProducerStep(c, j.queue, p);
      hide T.React;
      if moves {
        hide RingProtocol.Step;
        W.PushKeeps(c, j.wake, a);
        assert React(c, j, Producing(p)).wake == W.React(c, j.wake, W.Push(a));
      } else {
        assert React(c, j, Producing(p)).wake == j.wake;
      }
    }
  }

  lemma FinishKeeps(c: Config, j: Joint, i: nat)
    requires JointInv(c, j)
    ensures JointInv(c, React(c, j, Finish(i)))
  {
    T.ReactKeepsInv(c, j.queue, T.Finish(i));
    W.FinishKeeps(c, j.wake, i);
    hide T.SystemInv;
    hide W.SystemInv;
    hide RingProtocol.Step;
  }

  // ------------------------------------------------------------- strategy

  // What a pop does to the ring and to the batch.
  lemma PopMoves(c: Config, q: T.System)
    requires T.SystemInv(c, q) && q.poped <= q.consumed
    ensures var r := T.React(c, q, T.Pop);
            && r.consumed == q.consumed
            && if q.poped < q.consumed then r.ring == q.ring && q.poped < r.poped <= r.consumed
            else r.poped == q.poped && r.ring == (if q.ring.cpc.CIdle? then RingProtocol.Step(c, q.ring, Consume) else q.ring)
                 && (!q.ring.cpc.CIdle? ==> r == q)
  {
    hide Inv;
    hide Readable;
    hide ReadRecord;
    hide RingProtocol.Step;
    T.Parts(c, q, 0, 0);
    T.ReactKeepsInv(c, q, T.Pop);
    if q.poped < q.consumed {
      BatchGoesOn(c, q.ring, q.tasks, |q.out|, q.performed, q.poped, q.consumed);
      FrameNotEmpty(q.tasks[|q.out|]);
      PopedInBatch(c, T.React(c, q, T.Pop));
    }
    hide T.SystemInv;
  }

  lemma PopKeeps(c: Config, j: Joint)
    requires JointInv(c, j)
    ensures JointInv(c, React(c, j, Pop))
  {
    hide T.SystemInv;
    hide W.SystemInv;
    hide T.React;
    hide RingProtocol.Step;
    var q := j.queue;
    T.ReactKeepsInv(c, q, T.Pop);
    PopMoves(c, q);
    if j.wake.strategy.Running? && T.React(c, q, T.Pop) != q {
      var p := T.React(c, q, T.Pop).poped;
      W.StrategyKeeps(c, j.wake, W.Pop(if p > q.poped then p - q.poped else 0));
    }
  }

  lemma PopedInBatch(c: Config, s: T.System)
    requires T.SystemInv(c, s)
    ensures s.poped <= s.consumed
  {
    hide Inv;
    T.Parts(c, s, 0, 0);
    if s.ring.cpc.CHold? && |s.out| < s.ring.taken {
      HeldClaim(c, s.ring, |s.out|);
    }
  }

  lemma ScanningKeeps(c: Config, j: Joint)
    requires JointInv(c, j)
    ensures JointInv(c, React(c, j, Scanning))
  {
    hide Inv;
    T.ReactKeepsInv(c, j.queue, T.Scanning);
    W.ScanningKeeps(c, j.wake);
    PopedInBatch(c, T.React(c, j.queue, T.Scanning));
    hide T.SystemInv;
    hide RingProtocol.Step;
  }

  lemma PerformKeeps(c: Config, j: Joint)
    requires JointInv(c, j)
    ensures JointInv(c, React(c, j, Perform))
  {
    hide Inv;
    var q := j.queue;
    T.Parts(c, q, 0, 0);
    T.ReactKeepsInv(c, q, T.Perform);
    if q.performed < |q.out| {
      RecordToRelease(c, q.ring, q.tasks, |q.out|, q.performed, q.poped, q.consumed);
      var bytes := FromU32(q.ring.buf[q.ring.cons..q.ring.cons + 4]);
      PopedInBatch(c, q);
      W.StrategyKeeps(c, j.wake, W.Perform(bytes));
      OldestIsPopped(c, q);
    }
    hide T.SystemInv;
    hide W.SystemInv;
    hide RingProtocol.Step;
  }

  // The oldest record not performed ends before the next one to pop.
  lemma OldestIsPopped(c: Config, s: T.System)
    requires T.SystemInv(c, s) && s.performed < |s.out|
    ensures s.performed < |s.ring.log| && s.ring.log[s.performed].hi <= s.poped
  {
    hide Inv;
    T.Parts(c, s, 0, 0);
    HeldClaim(c, s.ring, s.performed);
    if s.performed + 1 < s.ring.taken {
      if |s.out| < s.ring.taken { LaterHeld(c, s.ring, s.performed + 1, |s.out|); }
    }
  }

  lemma WaitFrame(c: Config, s: W.System, e: W.Event)
    requires InWait(e)
    ensures W.React(c, s, e).ring == s.ring && W.React(c, s, e).left == s.left
  {
  }

  lemma WakingKeeps(c: Config, j: Joint, e: W.Event)
    requires JointInv(c, j)
    ensures JointInv(c, React(c, j, Waking(e)))
  {
    hide T.SystemInv;
    hide W.SystemInv;
    hide W.React;
    if InWait(e) {
      W.ReactKeepsInv(c, j.wake, e);
      WaitFrame(c, j.wake, e);
    }
  }

  lemma ReactKeepsInv(c: Config, j: Joint, e: Event)
    requires JointInv(c, j) && EventFits(c, j, e)
    ensures JointInv(c, React(c, j, e))
  {
    hide JointInv;
    hide React;
    match e
    case Producing(p) => ProducingKeeps(c, j, p);
    case Finish(i) => FinishKeeps(c, j, i);
    case Pop => PopKeeps(c, j);
    case Scanning => ScanningKeeps(c, j);
    case Perform => PerformKeeps(c, j);
    case Waking(w) => WakingKeeps(c, j, w);
  }

  // ------------------------------------------------------------- every run

  function History(c: Config, events: seq<Event>): Joint {
    if events == [] then Start(c)
    else React(c, History(c, events[..|events| - 1]), events[|events| - 1])
  }

  // Every compare-exchange of the history fits, as in RingSafety.
  ghost predicate FitHistory(c: Config, events: seq<Event>) {
    events == [] ||
    (var before := events[..|events| - 1];
     FitHistory(c, before) && EventFits(c, History(c, before), events[|events| - 1]))
  }

  lemma {:induction false} HistoryKeepsInv(c: Config, events: seq<Event>)
    requires ValidConfig(c) && FitHistory(c, events)
    ensures JointInv(c, History(c, events))
  {
    hide JointInv;
    hide React;
    if events == [] {
      StartInv(c);
    } else {
      HistoryKeepsInv(c, events[..|events| - 1]);
      ReactKeepsInv(c, History(c, events[..|events| - 1]), events[|events| - 1]);
    }
  }

  lemma StartInv(c: Config)
    requires ValidConfig(c)
    ensures JointInv(c, Start(c))
  {
    InitialInv(c);
    T.StartInv(c);
  }

  // The queue's share of an event: one event, or none.
  lemma QueueStep(c: Config, j: Joint, e: Event) returns (more: seq<T.Event>)
    ensures more == [] ==> React(c, j, e).queue == j.queue
    ensures more != [] ==> |more| == 1 && React(c, j, e).queue == T.React(c, j.queue, more[0])
    ensures if e.Producing? then more == [] || more == [e.e] else more == [] || !more[0].Advance?
  {
    hide T.React;
    hide W.React;
    more := [];
    if React(c, j, e).queue != j.queue {
      match e
      case Producing(p) => more := [p];
      case Finish(i) => more := [T.Finish(i)];
      case Pop => more := [T.Pop];
      case Scanning => more := [T.Scanning];
      case Perform => more := [T.Perform];
      case _ =>
    }
  }

  lemma {:induction false} QueueHistory(c: Config, events: seq<Event>) returns (q: seq<T.Event>)
    ensures History(c, events).queue == T.History(c, q)
    ensures FitHistory(c, events) ==> T.FitHistory(c, q)
  {
    hide React;
    hide T.React;
    if events == [] {
      q := [];
    } else {
      q := QueueHistory(c, events[..|events| - 1]);
      var more := QueueStep(c, History(c, events[..|events| - 1]), events[|events| - 1]);
      if more != [] {
        assert (q + more)[..|q|] == q;
        q := q + more;
      }
    }
  }

  /** In a ring that is safe for the task queue, every history fits. */
  lemma {:induction false} SafeHistoriesFit(c: Config, events: seq<Event>)
    requires ValidConfig(c) && TaskLimits.SafeQueue(c)
    ensures FitHistory(c, events)
  {
    hide React;
    if events != [] {
      var before, e := events[..|events| - 1], events[|events| - 1];
      SafeHistoriesFit(c, before);
      if e.Producing? {
        var q := QueueHistory(c, before);
        TaskLimits.SafeHistoriesFit(c, q + [e.e]);
        assert (q + [e.e])[..|q|] == q;
      }
    }
  }

  /** The two systems together leave nothing out of either: a poster that has nothing to announce
      may do whatever the queue's can, the strategy whatever either's can when it is its turn,
      and every event of the notify and of the wait is one here. */
  lemma LeavesNothingOut(c: Config, j: Joint, p: T.Event, w: W.Event)
    ensures (p.Register? || p.Unregister? || p.Push? || p.Retry? || p.Advance? || p.CasFails? || p.Store?) && W.PosterMay(j.wake, p.i)
            ==> React(c, j, Producing(p)).queue == T.React(c, j.queue, p)
    ensures p.Finish? && W.PosterMay(j.wake, p.i) ==> React(c, j, Finish(p.i)).queue == T.React(c, j.queue, p)
    ensures j.wake.strategy.Running? ==> React(c, j, Pop).queue == T.React(c, j.queue, T.Pop)
    ensures j.wake.strategy.Running? ==> React(c, j, Perform).queue == T.React(c, j.queue, T.Perform)
    ensures j.wake.strategy.Popping? ==> React(c, j, Scanning).queue == T.React(c, j.queue, T.Scanning)
    ensures w.SetNotified? || w.NotifyAll? || w.Check? || w.Timeout? || w.Spurious?
            ==> React(c, j, Waking(w)).wake == W.React(c, j.wake, w)
  {
    PerformInside(c, j.queue);
    hide T.React;
    hide W.React;
  }

  lemma PerformInside(c: Config, q: T.System)
    ensures T.React(c, q, T.Perform) != q ==> q.ring.cons + 4 <= |q.ring.buf|
  {
    hide RingProtocol.Step;
  }

  // ----------------------------------------------------------- end to end

  /** The strategy sleeps and nobody is in a push or in the notify after it. */
  ghost predicate AtRest(j: Joint) {
    && j.wake.strategy.Sleeping?
    && (forall i {:trigger j.wake.posts[i]} | 0 <= i < |j.wake.posts| :: j.wake.posts[i].Quiet?)
    && (forall i {:trigger j.queue.pushing[i]} | 0 <= i < |j.queue.pushing| :: j.queue.pushing[i].Quiet?)
  }

  /** Every task that was ever pushed has been popped, in the order of the claims and each
      once, and has been performed; the ring is empty. */
  ghost predicate AllDone(c: Config, j: Joint) {
    && j.queue.out == Deliveries(j.queue.tasks, 0, |j.queue.tasks|)
    && |j.queue.out| == |j.queue.tasks| == |j.queue.ring.log| == j.queue.performed
    && j.queue.ring.taken == |j.queue.ring.log| && j.queue.ring.cpc.CIdle?
  }

  lemma RestingIsDone(c: Config, j: Joint)
    requires JointInv(c, j) && AtRest(j)
    ensures AllDone(c, j)
  {
    hide Inv;
    var q := j.queue;
    T.Parts(c, q, 0, 0);
    T.OutOfTasks(c, q);
    if q.ring.taken < |q.ring.log| {
      var i := W.Announcing(j.wake, q.ring.taken);
      T.Parts(c, q, i, 0);
    }
  }

  /** What is pushed is performed before the strategy sleeps for good. */
  lemma SleepsOnlyWhenAllIsDone(c: Config, events: seq<Event>)
    requires ValidConfig(c) && FitHistory(c, events) && AtRest(History(c, events))
    ensures AllDone(c, History(c, events))
  {
    HistoryKeepsInv(c, events);
    RestingIsDone(c, History(c, events));
  }

  /** In terms of the calls: at rest, what pop has returned is all that push was called with, in
      the order of the claims. */
  lemma AllInputsAreDone(c: Config, events: seq<Event>) returns (pushes: seq<T.Event>)
    requires ValidConfig(c) && FitHistory(c, events) && AtRest(History(c, events))
    ensures History(c, events).queue == T.History(c, pushes)
    ensures var s, inputs := History(c, events).queue, TaskCalls.Inputs(c, pushes);
            s.out == Deliveries(inputs, 0, |inputs|) && |s.out| == |inputs| == s.performed
  {
    hide React;
    hide T.React;
    pushes := QueueHistory(c, events);
    SleepsOnlyWhenAllIsDone(c, events);
    TaskCalls.TasksAreInputs(c, pushes);
    hide AtRest;
  }

  /** The same of every history at all, when the ring is safe for the task queue. */
  lemma SafeRingsSleepOnlyWhenAllIsDone(c: Config, events: seq<Event>)
    requires ValidConfig(c) && TaskLimits.SafeQueue(c)
    requires AtRest(History(c, events))
    ensures AllDone(c, History(c, events))
  {
    SafeHistoriesFit(c, events);
    SleepsOnlyWhenAllIsDone(c, events);
  }
}
