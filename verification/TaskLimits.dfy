/**
 In which rings the task queue is a FIFO queue whatever its callers do.
 */
module TaskLimits {
  import opened RingProtocol
  import opened RingSafety
  import opened RingLimits
  import opened Framing
  import opened TaskStream
  import FrameStores
  import opened TaskProtocol

  /** No frame is shorter: four words of 8 bytes. */
  const SHORTEST := 32

  lemma FrameIsLong(t: Task)
    requires t.operation != []
    ensures FrameLength(t) >= SHORTEST
    ensures FrameLength(t) == SHORTEST <==> |t.operation| <= 8 && |t.description| < 8
  {
  }

  // Whatever is asked for has an operation.
  ghost predicate HasOperations(s: System) {
    forall i {:trigger s.pushing[i]} | 0 <= i < |s.pushing| :: s.pushing[i].Asking? ==> s.pushing[i].task.operation != []
  }

  lemma KeepsOperations(c: Config, s: System, e: Event)
    requires HasOperations(s)
    ensures HasOperations(React(c, s, e))
  {
    hide RingProtocol.Step;
    hide FrameLength;
    hide Readable;
    hide ReadRecord;
    hide FrameStores.Chunks;
  }

  // Nobody asks for less than the shortest frame.
  ghost predicate AsksForFrames(actions: seq<Action>) {
    forall k | 0 <= k < |actions| && actions[k].Acquire? :: actions[k].size >= SHORTEST
  }

  // The ring's share of an event: one step, or none.
  lemma ReactIsAStep(c: Config, s: System, e: Event) returns (more: seq<Action>)
    requires HasOperations(s)
    ensures more == [] ==> React(c, s, e).ring == s.ring
    ensures more != [] ==> |more| == 1 && React(c, s, e).ring == RingProtocol.Step(c, s.ring, more[0])
    ensures e.Advance? ==> more == [Action.Advance(e.i)]
    ensures AsksForFrames(more)
  {
    hide RingProtocol.Step;
    hide FrameLength;
    hide Readable;
    hide FromU32;
    hide U32;
    hide RoundUp;
    more := [];
    match e
    case Register(i) => more := [Action.Register(i)];
    case Unregister(i) => if React(c, s, e).ring != s.ring { more := [Action.Unregister(i)]; }
    case Push(i, t) => if React(c, s, e).ring != s.ring {
        FrameIsLong(t);
        more := [Acquire(i, FrameLength(t))];
      }
    case Retry(i) => if React(c, s, e).ring != s.ring {
        FrameIsLong(s.pushing[i].task);
        more := [Acquire(i, FrameLength(s.pushing[i].task))];
      }
    case Advance(i) => more := [Action.Advance(i)];
    case CasFails(i) => more := [Action.CasFails(i)];
    case Store(i) =>
      if React(c, s, e).ring != s.ring {
        var p := s.pushing[i];
        var chunk := FrameStores.Chunks(0, p.task)[p.chunk];
        more := [Write(i, chunk.at + p.done, chunk.bytes[p.done])];
      }
    case Finish(i) => if React(c, s, e).ring != s.ring { more := [Produce(i)]; }
    case Pop => if React(c, s, e).ring != s.ring { more := [Consume]; }
    case Scanning => more := [Scan];
    case Perform =>
      if React(c, s, e).ring != s.ring { more := [Release(FromU32(s.ring.buf[s.ring.cons..s.ring.cons + 4]))]; }
  }

  // A run goes on with a step, or with none.
  lemma RunGoesOn(c: Config, actions: seq<Action>, more: seq<Action>)
    requires |more| <= 1 && AsksForFrames(actions) && AsksForFrames(more)
    ensures AsksForFrames(actions + more)
    ensures Run(c, actions + more) == if more == [] then Run(c, actions) else RingProtocol.Step(c, Run(c, actions), more[0])
  {
    if more == [] {
      assert actions + more == actions;
    } else {
      RunNext(c, actions, more[0]);
      assert more == [more[0]];
    }
  }

  lemma {:induction false} HistoryIsARun(c: Config, events: seq<Event>) returns (actions: seq<Action>)
    ensures History(c, events).ring == Run(c, actions) && HasOperations(History(c, events))
    ensures AsksForFrames(actions)
  {
    hide React;
    hide RingProtocol.Step;
    if events == [] {
      actions := [];
    } else {
      var before, e := History(c, events[..|events| - 1]), events[|events| - 1];
      actions := HistoryIsARun(c, events[..|events| - 1]);
      KeepsOperations(c, before, e);
      var more := ReactIsAStep(c, before, e);
      RunGoesOn(c, actions, more);
      hide Run;
      hide HasOperations;
      hide AsksForFrames;
      actions := actions + more;
    }
  }

  /** The rings in which nothing has to be assumed of the callers: the counter never comes
      back, or there is one worker, or there is no room for two frames. */
  ghost predicate SafeQueue(c: Config) {
    c.modulus == 0 || c.workers <= 1 || c.capacity < 2 * SHORTEST
  }

  lemma SafeRunsFit(c: Config, actions: seq<Action>)
    requires ValidConfig(c) && SafeQueue(c)
    requires AsksForFrames(actions)
    ensures FitRun(c, actions)
  {
    if c.capacity < 2 * SHORTEST {
      BigRequestsFit(c, actions);
    } else {
      SafeConfigurationsFit(c, actions);
    }
  }

  /** In such a ring every history fits. */
  lemma {:induction false} SafeHistoriesFit(c: Config, events: seq<Event>)
    requires ValidConfig(c) && SafeQueue(c)
    ensures FitHistory(c, events)
  {
    hide React;
    if events != [] {
      var before, e := events[..|events| - 1], events[|events| - 1];
      SafeHistoriesFit(c, before);
      if e.Advance? {
        var actions := HistoryIsARun(c, before);
        var a := Action.Advance(e.i);
        SafeRunsFit(c, actions + [a]);
        assert (actions + [a])[..|actions|] == actions;
      }
    }
  }

  /** In such a ring the queue is a FIFO queue of whole records, in every history: what pop
      has returned is what was pushed, in claim order and each once; every produced claim is
      its task's record; and a pop within a batch returns the next task. */
  lemma SafeQueuesAreFifo(c: Config, events: seq<Event>)
    requires ValidConfig(c) && SafeQueue(c)
    ensures var s := History(c, events);
            && |s.out| <= |s.tasks| == |s.ring.log|
            && s.out == Deliveries(s.tasks, 0, |s.out|)
            && (forall k: nat | k < |s.ring.log| && Produced(s.ring.workers, k) :: Framed(s.ring, s.tasks, k))
            && (s.poped < s.consumed ==> |s.out| < |s.tasks| && React(c, s, Pop).out == s.out + [Delivered(s.tasks[|s.out|])])
  {
    hide React;
    hide History;
    hide Framed;
    hide Produced;
    SafeHistoriesFit(c, events);
    PopsAreFifo(c, events);
    var s := History(c, events);
    forall k: nat | k < |s.ring.log| && Produced(s.ring.workers, k) ensures Framed(s.ring, s.tasks, k) {
      ProducedClaimsAreRecords(c, events, k);
    }
    if s.poped < s.consumed { PopReadsTheNext(c, events); }
  }
}
