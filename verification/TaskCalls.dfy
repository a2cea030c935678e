/**
 What a call of push does in any interleaving: its arguments are what is popped, it does not
 come back before its record is complete, and its own steps bring it to an end.
 */
module TaskCalls {
  import opened RingProtocol
  import opened RingInvariant
  import opened RingSafety
  import opened Framing
  import opened FrameStores
  import opened TaskStream
  import opened TaskProtocol
  import RingCalls

  // ------------------------------------------------------------- arguments

  // Worker `i` calls push.
  predicate Called(s: System, e: Event, i: nat) {
    e.Push? && e.i == i && Is(s, i) && s.pushing[i].Quiet? && s.ring.workers[i].pc.Idle? && e.task.operation != []
  }

  // What worker `i` last called push with.
  function Argument(c: Config, events: seq<Event>, i: nat): Task {
    if events == [] then Task([], 0, [])
    else
      var before, e := events[..|events| - 1], events[|events| - 1];
      if Called(History(c, before), e, i) then e.task else Argument(c, before, i)
  }

  // The arguments of the calls that have claimed, in the order of the claims.
  function Inputs(c: Config, events: seq<Event>): seq<Task> {
    if events == [] then []
    else
      var before, e := events[..|events| - 1], events[|events| - 1];
      Inputs(c, before) +
      if |History(c, events).ring.log| > |History(c, before).ring.log| && e.Advance? then [Argument(c, before, e.i)] else []
  }

  // What an event does to the tasks under way and to the claims.
  lemma EventPushes(c: Config, s: System, e: Event, i: nat)
    requires i < |s.pushing|
    ensures var t := React(c, s, e);
            && |t.pushing| == |s.pushing|
            && (Called(s, e, i) ==> t.pushing[i] == Asking(e.task))
            && (!Called(s, e, i) && !t.pushing[i].Quiet? ==> !s.pushing[i].Quiet? && t.pushing[i].task == s.pushing[i].task)
  {
    hide RingProtocol.Step;
    hide FrameLength;
    hide Chunks;
    hide Readable;
    hide ReadRecord;
  }

  lemma {:induction false} PushingIsArgument(c: Config, events: seq<Event>, i: nat)
    requires i < |History(c, events).pushing|
    ensures !History(c, events).pushing[i].Quiet? ==> History(c, events).pushing[i].task == Argument(c, events, i)
  {
    hide React;
    if events != [] {
      var before, e := events[..|events| - 1], events[|events| - 1];
      assert |History(c, before).pushing| == |History(c, events).pushing| by { SameNumber(c, History(c, before), e); }
      PushingIsArgument(c, before, i);
      EventPushes(c, History(c, before), e, i);
    }
  }

  lemma SameNumber(c: Config, s: System, e: Event)
    ensures |React(c, s, e).pushing| == |s.pushing|
  {
    hide RingProtocol.Step;
    hide FrameLength;
    hide Chunks;
    hide Readable;
    hide ReadRecord;
  }

  // A claim is made by a worker in push, and takes that worker's task.
  lemma ClaimTakesTask(c: Config, s: System, e: Event)
    requires SystemInv(c, s) && EventFits(c, s, e)
    ensures var t := React(c, s, e);
            if |t.ring.log| > |s.ring.log| && e.Advance?
            then Is(s, e.i) && s.pushing[e.i].Asking? && t.tasks == s.tasks + [s.pushing[e.i].task]
            else t.tasks == s.tasks
  {
    if e.Advance? {
      AdvanceTakesTask(c, s, e.i);
    } else {
      hide SystemInv;
      hide EventFits;
      hide RingProtocol.Step;
      hide FrameLength;
      hide Chunks;
      hide Readable;
      hide ReadRecord;
    }
  }

  lemma AdvanceTakesTask(c: Config, s: System, i: nat)
    requires SystemInv(c, s) && StepFits(c, s.ring, Action.Advance(i))
    ensures var t := Moved(c, s, Action.Advance(i));
            if |t.ring.log| > |s.ring.log|
            then Is(s, i) && s.pushing[i].Asking? && t.tasks == s.tasks + [s.pushing[i].task]
            else t.tasks == s.tasks
  {
    Parts(c, s, i, 0);
    if i < |s.ring.workers| {
      MovedFrame(c, s.ring, Action.Advance(i));
      if RingProtocol.Step(c, s.ring, Action.Advance(i)).log != s.ring.log {
        ClaimedWorkers(c, s, i, 0);
        ClaimedSize(c, s.ring, i);
      }
    }
    hide SystemInv;
    hide Inv;
  }

  lemma {:induction false} TasksAreInputs(c: Config, events: seq<Event>)
    requires ValidConfig(c) && FitHistory(c, events)
    ensures History(c, events).tasks == Inputs(c, events)
  {
    hide React;
    hide SystemInv;
    hide EventFits;
    if events != [] {
      var before, e := events[..|events| - 1], events[|events| - 1];
      TasksAreInputs(c, before);
      HistoryKeepsInv(c, before);
      ClaimTakesTask(c, History(c, before), e);
      if |History(c, events).ring.log| > |History(c, before).ring.log| && e.Advance? {
        PushingIsArgument(c, before, e.i);
      }
    }
  }

  /** What pop returns is what push was called with: the arguments of the calls, in the order of
      their claims, each once. */
  lemma PopsAreInputs(c: Config, events: seq<Event>)
    requires ValidConfig(c) && FitHistory(c, events)
    ensures var s := History(c, events);
            |s.out| <= |Inputs(c, events)| && s.out == Deliveries(Inputs(c, events), 0, |s.out|)
  {
    TasksAreInputs(c, events);
    PopsAreFifo(c, events);
  }

  // ---------------------------------------------------------------- answers

  /** push comes back only when its task is among the claimed ones and its record complete,
      and what it does last is to produce it. */
  lemma PushReturnsWhenDone(c: Config, events: seq<Event>, e: Event, i: nat)
    requires ValidConfig(c) && FitHistory(c, events)
    requires i < |History(c, events).pushing| && !History(c, events).pushing[i].Quiet?
    requires i < |React(c, History(c, events), e).pushing| && React(c, History(c, events), e).pushing[i].Quiet?
    ensures var s := History(c, events); var t := React(c, s, e);
            && e == Finish(i) && i < |s.ring.workers| && s.ring.workers[i].pc.Owning?
            && var k := s.ring.workers[i].pc.k;
               && k < |s.tasks| && s.tasks[k] == Argument(c, events, i)
               && Produced(t.ring.workers, k) && Framed(t.ring, t.tasks, k)
  {
    var s := History(c, events);
    HistoryKeepsInv(c, events);
    PushingIsArgument(c, events, i);
    hide History;
    hide FitHistory;
    FinishesOnly(c, s, e, i);
    StoringWorker(c, s, i);
    ReactKeepsInv(c, s, e);
    FinishProduces(c, s, i);
    Parts(c, React(c, s, e), i, s.ring.workers[i].pc.k);
    hide SystemInv;
    hide Inv;
    hide Framed;
    hide Progress;
  }

  lemma FinishesOnly(c: Config, s: System, e: Event, i: nat)
    requires i < |s.pushing| && !s.pushing[i].Quiet? && i < |React(c, s, e).pushing| && React(c, s, e).pushing[i].Quiet?
    ensures e == Finish(i) && Is(s, i) && s.pushing[i].Storing? && s.pushing[i].chunk == 7 && s.ring.workers[i].pc.Owning?
    ensures React(c, s, e).tasks == s.tasks && React(c, s, e).ring.log == s.ring.log
    ensures React(c, s, e).ring.workers == s.ring.workers[i := s.ring.workers[i].(pc := Idle, seen := Seen(false, MAX_OFFSET))]
  {
    hide FrameLength;
    hide Chunks;
    hide Readable;
    hide ReadRecord;
  }

  lemma FinishProduces(c: Config, s: System, i: nat)
    requires SystemInv(c, s) && Is(s, i) && s.pushing[i].Storing? && s.pushing[i].chunk == 7 && s.ring.workers[i].pc.Owning?
    ensures Produced(React(c, s, Finish(i)).ring.workers, s.ring.workers[i].pc.k)
  {
    Parts(c, s, i, 0);
    hide SystemInv;
    WorkerInv(c, s.ring, i);
    forall j | 0 <= j < |s.ring.workers| && j != i && s.ring.workers[j].pc.Owns() ensures s.ring.workers[j].pc.k != s.ring.workers[i].pc.k {
      WorkerInv(c, s.ring, j);
    }
    hide Inv;
  }

  /** The queue's interleavings are all of the ring's: every step that its threads can take in
      the ring, a compare-and-swap that fails for no reason included, is an event. */
  lemma RingStepsAreEvents(c: Config, s: System, i: nat)
    requires Is(s, i) && |s.pushing| == |s.ring.workers|
    ensures React(c, s, Event.Register(i)).ring == RingProtocol.Step(c, s.ring, Action.Register(i))
    ensures s.pushing[i].Quiet? ==> React(c, s, Event.Unregister(i)).ring == RingProtocol.Step(c, s.ring, Action.Unregister(i))
    ensures React(c, s, Event.Advance(i)).ring == RingProtocol.Step(c, s.ring, Action.Advance(i))
    ensures React(c, s, Event.CasFails(i)).ring == RingProtocol.Step(c, s.ring, Action.CasFails(i))
    ensures React(c, s, Scanning).ring == RingProtocol.Step(c, s.ring, Scan)
    ensures s.poped >= s.consumed && s.ring.cpc.CIdle? ==> React(c, s, Pop).ring == RingProtocol.Step(c, s.ring, Consume)
  {
    hide RingProtocol.Step;
  }

  // --------------------------------------------------------------- progress

  // What worker `i` does next in its push.
  function NextOf(s: System, i: nat): Event
    requires Is(s, i) && !s.pushing[i].Quiet?
  {
    if s.pushing[i].Asking? then (if s.ring.workers[i].pc.Idle? then Retry(i) else Event.Advance(i))
    else if !s.ring.workers[i].pc.Owning? then Event.Advance(i)
    else if s.pushing[i].chunk < 7 then Store(i)
    else Finish(i)
  }

  // The stores left from chunk `chunk` on.
  function StoresLeft(t: Task, chunk: nat): nat
    decreases 7 - chunk as int
  {
    if chunk >= 7 then 0 else |Chunks(0, t)[chunk].bytes| + 1 + StoresLeft(t, chunk + 1)
  }

  // How many of its own steps worker `i` is at most away from the end of its push.
  function PushLeft(s: System, i: nat): int
    requires Is(s, i)
  {
    match s.pushing[i]
    case Quiet => 0
    case Asking(t) =>
      (if s.ring.workers[i].pc.Idle? then 9 else if s.ring.workers[i].pc.Fail? then 10 else RingCalls.AcquireLeft(s.ring, i))
      + StoresLeft(t, 0) + 1
    case Storing(t, chunk, done, _) => RingCalls.AcquireLeft(s.ring, i) + StoresLeft(t, chunk) - (if chunk < 7 then done else 0) + 1
  }

  // The space check is about to refuse.
  ghost predicate NoRoom(c: Config, s: System, i: nat)
    requires Is(s, i)
  {
    var pc := s.ring.workers[i].pc;
    pc.ReadWritten? && !GuardPasses(c, pc.seen.index, pc.size, s.ring.cons)
  }

  lemma RetryGoesOn(c: Config, s: System, i: nat)
    requires Is(s, i) && s.pushing[i].Asking? && s.ring.workers[i].pc.Idle? && 0 < FrameLength(s.pushing[i].task) <= c.capacity
    ensures var t := React(c, s, Retry(i)); Is(t, i) && PushLeft(t, i) < PushLeft(s, i)
  {
    hide FrameLength;
    hide StoresLeft;
  }

  // Where a step of acquire leaves the ring's worker, if it is not refused.
  lemma AcquireStays(c: Config, r: State, i: nat)
    requires i < |r.workers| && (r.workers[i].pc.LoadNext? || r.workers[i].pc.Loaded() || r.workers[i].pc.Fail?)
    requires var pc := r.workers[i].pc; pc.ReadWritten? ==> GuardPasses(c, pc.seen.index, pc.size, r.cons)
    ensures var t := RingProtocol.Step(c, r, Action.Advance(i));
            && |t.workers| == |r.workers| && !t.workers[i].pc.Fail?
            && (t.workers[i].pc.Idle? <==> r.workers[i].pc.Fail?)
            && (t.workers[i].pc.Owns() <==> |t.log| == |r.log| + 1) && (!t.workers[i].pc.Owns() ==> t.log == r.log)
  {
    hide GuardPasses;
    hide Target;
  }

  lemma AcquireInPushGoesOn(c: Config, s: System, i: nat)
    requires SystemInv(c, s) && Is(s, i) && s.pushing[i].Asking? && !s.ring.workers[i].pc.Idle?
    requires StepFits(c, s.ring, Action.Advance(i))
    requires !(s.ring.workers[i].pc.LoadNext? && s.ring.barrier.locked) && !NoRoom(c, s, i)
    ensures var t := React(c, s, Event.Advance(i)); Is(t, i) && PushLeft(t, i) < PushLeft(s, i)
  {
    hide SystemInv;
    hide Inv;
    hide FrameLength;
    hide StoresLeft;
    hide RingProtocol.Step;
    hide React;
    hide RingCalls.AcquireLeft;
    AcquiresInPush(c, s, i);
    AcquireStays(c, s.ring, i);
    AcquireHasSteps(s.ring, i);
    RingCalls.AcquireGoesOn(c, s.ring, i);
    HistoriesGrow(c, s.ring, i);
    PushMoves(c, s, i);
    if s.ring.workers[i].pc.Fail? { FailIsLast(s.ring, i); }
  }

  lemma AcquireHasSteps(r: State, i: nat)
    requires i < |r.workers| && (r.workers[i].pc.LoadNext? || r.workers[i].pc.Loaded() || r.workers[i].pc.Fail?)
    ensures RingCalls.AcquireLeft(r, i) > 0
  {
  }

  lemma FailIsLast(r: State, i: nat)
    requires i < |r.workers| && r.workers[i].pc.Fail?
    ensures RingCalls.AcquireLeft(r, i) == 1
  {
  }

  // A claim is entered in both histories.
  lemma HistoriesGrow(c: Config, r: State, i: nat)
    requires Inv(c, r) && StepFits(c, r, Action.Advance(i)) && i < |r.workers|
    ensures var t := RingProtocol.Step(c, r, Action.Advance(i)); t.log == r.log || |t.data| == |t.log| == |r.log| + 1
  {
    MovedFrame(c, r, Action.Advance(i));
    if RingProtocol.Step(c, r, Action.Advance(i)).log != r.log { ClaimedSize(c, r, i); }
    hide Inv;
  }

  lemma AcquiresInPush(c: Config, s: System, i: nat)
    requires SystemInv(c, s) && Is(s, i) && s.pushing[i].Asking? && !s.ring.workers[i].pc.Idle?
    ensures Inv(c, s.ring)
    ensures var pc := s.ring.workers[i].pc; pc.LoadNext? || pc.Loaded() || pc.Fail?
  {
    Parts(c, s, i, 0);
    hide SystemInv;
    hide Inv;
    hide BatchOk;
  }

  // A step of acquire, with the push it belongs to.
  lemma PushMoves(c: Config, s: System, i: nat)
    requires Is(s, i) && s.pushing[i].Asking? && |RingProtocol.Step(c, s.ring, Action.Advance(i)).workers| == |s.ring.workers|
    requires var r := RingProtocol.Step(c, s.ring, Action.Advance(i)); r.log == s.ring.log || |r.data| == |r.log| == |s.ring.log| + 1
    ensures var t, r := React(c, s, Event.Advance(i)), RingProtocol.Step(c, s.ring, Action.Advance(i));
            && t.ring == r && Is(t, i)
            && t.pushing[i] == if r.log == s.ring.log then s.pushing[i] else Storing(s.pushing[i].task, 0, 0, r.data[|s.ring.log|])
  {
    hide RingProtocol.Step;
  }

  lemma AskingGoesOn(c: Config, s: System, i: nat)
    requires SystemInv(c, s) && Is(s, i) && s.pushing[i].Asking? && FrameLength(s.pushing[i].task) <= c.capacity
    requires StepFits(c, s.ring, Action.Advance(i))
    requires !(s.ring.workers[i].pc.LoadNext? && s.ring.barrier.locked) && !NoRoom(c, s, i)
    ensures var t := React(c, s, NextOf(s, i)); Is(t, i) && PushLeft(t, i) < PushLeft(s, i)
  {
    FrameNotEmpty(s.pushing[i].task);
    if s.ring.workers[i].pc.Idle? {
      RetryGoesOn(c, s, i);
    } else {
      AcquireInPushGoesOn(c, s, i);
    }
    hide React;
    hide PushLeft;
    hide SystemInv;
  }

  lemma StoresInRange(c: Config, s: System, i: nat)
    requires SystemInv(c, s) && Is(s, i) && s.pushing[i].Storing? && s.ring.workers[i].pc.Owning?
    ensures var p := s.pushing[i]; p.chunk <= 7 && (p.chunk < 7 ==> p.done <= |Chunks(0, p.task)[p.chunk].bytes|)
  {
    StoringWorker(c, s, i);
    var p := s.pushing[i];
    hide SystemInv;
    hide FrameLength;
    hide Chunks;
    hide Inv;
    ProgressLength(s.ring.data[s.ring.workers[i].pc.k], p.task, p.chunk, p.done, p.was);
    hide Progress;
  }

  lemma OwningIsDone(r: State, i: nat)
    requires i < |r.workers| && r.workers[i].pc.Owning?
    ensures RingCalls.AcquireLeft(r, i) == 0
  {
  }

  lemma StoringGoesOn(c: Config, s: System, i: nat)
    requires SystemInv(c, s) && Is(s, i) && s.pushing[i].Storing? && s.ring.workers[i].pc.Owning?
    ensures var t := React(c, s, NextOf(s, i)); Is(t, i) && PushLeft(t, i) < PushLeft(s, i)
  {
    hide SystemInv;
    hide Chunks;
    hide React;
    hide RingCalls.AcquireLeft;
    StoresInRange(c, s, i);
    OwningIsDone(s.ring, i);
    if s.pushing[i].chunk < 7 {
      StoreCounts(c, s, i);
      hide StoresLeft;
    } else {
      FinishEnds(c, s, i);
    }
  }

  lemma FinishEnds(c: Config, s: System, i: nat)
    requires Is(s, i) && s.pushing[i].Storing? && s.ring.workers[i].pc.Owning? && s.pushing[i].chunk == 7
    ensures var t := React(c, s, Finish(i)); Is(t, i) && t.pushing[i].Quiet?
  {
  }

  lemma StoreCounts(c: Config, s: System, i: nat)
    requires Is(s, i) && s.pushing[i].Storing? && s.ring.workers[i].pc.Owning? && s.pushing[i].chunk < 7
    requires s.pushing[i].done <= |Chunks(0, s.pushing[i].task)[s.pushing[i].chunk].bytes|
    ensures var t := React(c, s, Store(i));
            && Is(t, i) && t.pushing[i].Storing? && t.ring.workers[i].pc.Owning? && RingCalls.AcquireLeft(t.ring, i) == 0
            && StoresLeft(t.pushing[i].task, t.pushing[i].chunk) - (if t.pushing[i].chunk < 7 then t.pushing[i].done else 0)
               == StoresLeft(s.pushing[i].task, s.pushing[i].chunk) - s.pushing[i].done - 1
  {
    hide Chunks;
  }

  lemma SettlingGoesOn(c: Config, s: System, i: nat)
    requires SystemInv(c, s) && Is(s, i) && s.pushing[i].Storing? && !s.ring.workers[i].pc.Owning?
    ensures var t := React(c, s, NextOf(s, i)); Is(t, i) && PushLeft(t, i) < PushLeft(s, i)
  {
    Parts(c, s, i, 0);
    RingCalls.AcquireGoesOn(c, s.ring, i);
    MovedFrame(c, s.ring, Action.Advance(i));
    hide SystemInv;
    hide Inv;
    hide RingProtocol.Step;
    hide StoresLeft;
    hide Progress;
  }

  /** Every push of a task that can fit goes on with each of its own steps, up to the record's
      last byte and produce, except that it waits for a locked barrier, and tries again when the
      space check fails. */
  lemma OwnStepsGoOn(c: Config, events: seq<Event>, i: nat)
    requires ValidConfig(c) && FitHistory(c, events)
    requires Is(History(c, events), i) && !History(c, events).pushing[i].Quiet?
    requires FrameLength(History(c, events).pushing[i].task) <= c.capacity
    requires StepFits(c, History(c, events).ring, Action.Advance(i))
    ensures var s := History(c, events); var t := React(c, s, NextOf(s, i)); var pc := s.ring.workers[i].pc;
            if s.pushing[i].Asking? && pc.LoadNext? && s.ring.barrier.locked then t == s
            else if s.pushing[i].Asking? && NoRoom(c, s, i) then t.pushing == s.pushing && t.ring == Put(s.ring, i, s.ring.workers[i].(pc := Fail))
            else Is(t, i) && PushLeft(t, i) < PushLeft(s, i)
  {
    var s := History(c, events);
    HistoryKeepsInv(c, events);
    hide SystemInv;
    hide History;
    hide FitHistory;
    hide FrameLength;
    hide PushLeft;
    if s.pushing[i].Storing? {
      if s.ring.workers[i].pc.Owning? { StoringGoesOn(c, s, i); } else { SettlingGoesOn(c, s, i); }
    } else if !(s.ring.workers[i].pc.LoadNext? && s.ring.barrier.locked) && !NoRoom(c, s, i) {
      AskingGoesOn(c, s, i);
    } else {
      AskingStays(c, s, i);
    }
    hide React;
  }

  lemma AskingStays(c: Config, s: System, i: nat)
    requires Is(s, i) && s.pushing[i].Asking?
    requires (s.ring.workers[i].pc.LoadNext? && s.ring.barrier.locked) || NoRoom(c, s, i)
    ensures var t := React(c, s, NextOf(s, i));
            if s.ring.workers[i].pc.LoadNext? then t == s
            else t.pushing == s.pushing && t.ring == Put(s.ring, i, s.ring.workers[i].(pc := Fail))
  {
    hide GuardPasses;
    hide CasStep;
  }
}
