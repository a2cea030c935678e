/**
 In which rings no wake-up is ever lost.  Histories of the wake-up system and runs of the
 ring correspond both ways, so the answer is the ring's.
 */
module WakeUpLimits {
  import opened RingProtocol
  import opened RingInvariant
  import opened RingSafety
  import opened RingLimits
  import opened WakeUp

  // --------------------------------------------------- every history is a run

  // The ring's share of an event: one step, or none.
  lemma ReactIsAStep(c: Config, s: System, e: Event) returns (more: seq<Action>)
    ensures more == [] ==> React(c, s, e).ring == s.ring
    ensures more != [] ==> |more| == 1 && React(c, s, e).ring == Step(c, s.ring, more[0])
    ensures e.Push? && more != [] ==> more[0] == e.a
  {
    hide Step;
    more := [];
    if React(c, s, e).ring != s.ring {
      match e
      case Push(a) => more := [a];
      case Finish(i) => more := [Produce(i)];
      case Pop(_) => more := [Consume];
      case Scanning => more := [Scan];
      case Perform(bytes) => more := [Release(bytes)];
      case _ =>
    }
  }

  lemma {:induction false} HistoryIsARun(c: Config, events: seq<Event>) returns (actions: seq<Action>)
    ensures History(c, events).ring == Run(c, actions)
  {
    if events == [] {
      actions := [];
    } else {
      actions := HistoryIsARun(c, events[..|events| - 1]);
      var more := ReactIsAStep(c, History(c, events[..|events| - 1]), events[|events| - 1]);
      if more != [] {
        assert (actions + more)[..|actions|] == actions;
        actions := actions + more;
      }
    }
  }

  /** In a ring that is safe whatever its callers do, every history fits. */
  lemma {:induction false} SafeHistoriesFit(c: Config, events: seq<Event>)
    requires ValidConfig(c) && (c.modulus == 0 || c.workers <= 1 || c.capacity == 1)
    ensures FitHistory(c, events)
  {
    if events != [] {
      var before, e := events[..|events| - 1], events[|events| - 1];
      SafeHistoriesFit(c, before);
      if e.Push? {
        var actions := HistoryIsARun(c, before);
        SafeConfigurationsFit(c, actions + [e.a]);
        assert (actions + [e.a])[..|actions|] == actions;
      }
    }
  }

  // --------------------------------------------------- every run is a history

  ghost predicate Happens(c: Config, s: System) {
    exists events :: s == History(c, events)
  }

  lemma Next(c: Config, s: System, e: Event) returns (t: System)
    requires Happens(c, s)
    ensures Happens(c, t) && t == React(c, s, e)
  {
    var events :| s == History(c, events);
    t := React(c, s, e);
    assert (events + [e])[..|events|] == events;
    assert t == History(c, events + [e]);
  }

  // The offsets of any run, fitting or not, stay in the buffer.
  ghost predicate Bounded(c: Config, s: State) {
    && s.barrier.index <= c.capacity
    && (s.cpc.Scans() ==> s.cpc.next <= c.capacity)
    && (s.cpc.CHold? ==> s.cons < s.cpc.hi <= c.capacity)
    && (forall i {:trigger s.workers[i]} | 0 <= i < |s.workers| :: Asks(c, s.workers[i].pc))
  }

  ghost predicate Asks(c: Config, pc: PC) {
    pc.LoadNext? || pc.Loaded() ==> pc.size <= c.capacity
  }

  lemma ScanBounded(c: Config, s: State)
    requires Bounded(c, s)
    ensures Bounded(c, Scanned(c, s))
  {
    hide Asks;
  }

  lemma AdvanceBounded(c: Config, s: State, i: nat)
    requires Bounded(c, s) && i < |s.workers|
    ensures Bounded(c, Advanced(c, s, i))
  {
    hide GuardPasses;
  }

  lemma StepBounded(c: Config, s: State, a: Action)
    requires Bounded(c, s) && 0 < c.capacity
    ensures Bounded(c, Step(c, s, a))
  {
    ScanBounded(c, s);
    if a.Advance? && a.i < |s.workers| { AdvanceBounded(c, s, a.i); }
    hide Scanned;
    hide Advanced;
  }

  /** Nobody has anything to announce, and the strategy is in pop exactly while the ring's
      consumer is; it has popped of a batch what it has released. */
  ghost predicate Calm(c: Config, s: System) {
    && Bounded(c, s.ring)
    && |s.posts| == |s.ring.workers|
    && (forall i {:trigger s.posts[i]} | 0 <= i < |s.posts| :: s.posts[i].Quiet?)
    && s.strategy == (if s.ring.cpc.CHold? || s.ring.cpc.CIdle? then Running else Popping)
    && s.left == (if s.ring.cpc.CHold? then s.ring.cpc.hi - s.ring.cons else 0)
  }

  lemma MimicProducer(c: Config, s: System, a: Action) returns (t: System)
    requires Happens(c, s) && Calm(c, s) && 0 < c.capacity
    requires a.Register? || a.Unregister? || a.Acquire? || a.Advance? || a.CasFails? || a.Write?
    ensures Happens(c, t) && Calm(c, t) && t.ring == Step(c, s.ring, a)
  {
    StepBounded(c, s.ring, a);
    t := Next(c, s, Push(a));
    if a.i < |s.ring.workers| {
      PushFrame(c, s.ring, a);
    }
  }

  // produce, and the notify that comes after it.
  lemma MimicProduce(c: Config, s: System, i: nat) returns (t: System)
    requires Happens(c, s) && Calm(c, s) && 0 < c.capacity
    ensures Happens(c, t) && Calm(c, t) && t.ring == Step(c, s.ring, Produce(i))
    ensures t.strategy == s.strategy
  {
    StepBounded(c, s.ring, Produce(i));
    if i < |s.ring.workers| && s.ring.workers[i].pc.Owning? {
      var t1 := Next(c, s, Finish(i));
      var t2 := Next(c, t1, SetNotified(i));
      t := Next(c, t2, NotifyAll(i));
    } else {
      t := s;
    }
  }

  lemma MimicScan(c: Config, s: System) returns (t: System)
    requires Happens(c, s) && Calm(c, s) && 0 < c.capacity
    ensures Happens(c, t) && Calm(c, t) && t.ring == Step(c, s.ring, Scan)
  {
    StepBounded(c, s.ring, Scan);
    ScanFrame(c, s.ring);
    if s.strategy.Popping? {
      t := Next(c, s, Scanning);
      if t.strategy.Suspending? {
        t := Next(c, t, Timeout);
      }
    } else {
      t := s;
    }
  }

  lemma MimicRelease(c: Config, s: System, bytes: nat) returns (t: System)
    requires Happens(c, s) && Calm(c, s) && 0 < c.capacity
    ensures Happens(c, t) && Calm(c, t) && t.ring == Step(c, s.ring, Release(bytes))
  {
    StepBounded(c, s.ring, Release(bytes));
    if s.ring.cpc.CHold? && s.ring.cons + bytes <= s.ring.cpc.hi {
      t := s;
      if bytes > 0 {
        t := Next(c, t, Pop(bytes));
      }
      t := Next(c, t, Perform(bytes));
    } else {
      t := s;
    }
  }

  lemma Mimic(c: Config, s: System, a: Action) returns (t: System)
    requires Happens(c, s) && Calm(c, s) && 0 < c.capacity
    ensures Happens(c, t) && Calm(c, t) && t.ring == Step(c, s.ring, a)
  {
    hide Bounded;
    match a
    case Produce(i) => t := MimicProduce(c, s, i);
    case Scan => t := MimicScan(c, s);
    case Release(bytes) => t := MimicRelease(c, s, bytes);
    case Consume =>
      StepBounded(c, s.ring, a);
      t := s;
      if s.ring.cpc.CIdle? { t := Next(c, s, Pop(0)); }
    case _ => t := MimicProducer(c, s, a);
  }

  /** Whatever the ring can do happens in some history, in which every produce is announced
      at once. */
  lemma {:induction false} RunHappens(c: Config, actions: seq<Action>) returns (s: System)
    requires ValidConfig(c)
    ensures Happens(c, s) && Calm(c, s) && s.ring == Run(c, actions)
  {
    if actions == [] {
      s := Start(c);
      assert s == History(c, []);
    } else {
      s := RunHappens(c, actions[..|actions| - 1]);
      s := Mimic(c, s, actions[|actions| - 1]);
    }
  }

  // ------------------------------------------------------- the lost wake-up

  /** The strategy sleeps, no wake-up is under way, nobody is pushing, and yet there is a
      claim it has not taken. */
  ghost predicate Lost(s: System) {
    && s.strategy.Sleeping? && !s.notified
    && (forall i {:trigger s.posts[i]} | 0 <= i < |s.posts| :: s.posts[i].Quiet?)
    && (forall i {:trigger s.ring.workers[i]} | 0 <= i < |s.ring.workers| :: !s.ring.workers[i].pc.Owns())
    && s.ring.taken < |s.ring.log|
  }

  // A pop of a ring that looks empty, up to the test of `_notified`.
  lemma PopsNothing(c: Config, s: System) returns (t: System)
    requires Happens(c, s) && s.strategy.Running? && s.left == 0 && s.ring.cpc.CIdle?
    requires !s.ring.barrier.locked && s.ring.barrier.index == s.ring.cons
    ensures Happens(c, t) && t == s.(notified := false, strategy := if s.notified then Running else Sleeping)
  {
    var t1 := Next(c, s, Pop(0));
    var t2 := Next(c, t1, Scanning);
    assert t2 == s.(strategy := Suspending);
    t := Next(c, t2, Check);
  }

  // Both workers of the stale claim produce and notify.
  lemma BothProduce(c: Config) returns (s: System)
    requires ValidConfig(c) && 2 <= c.capacity && 2 <= c.workers && 1 <= c.modulus
    ensures Happens(c, s) && Calm(c, s) && s.strategy.Running? && s.left == 0
    ensures s.ring.cpc.CIdle? && !s.ring.barrier.locked && s.ring.barrier.index == s.ring.cons
    ensures s.ring.taken < |s.ring.log|
    ensures forall i {:trigger s.ring.workers[i]} | 0 <= i < |s.ring.workers| :: !s.ring.workers[i].pc.Owns()
  {
    var r := StaleClaim(c, {0, 1});
    var actions :| By(actions, {0, 1}) && r == Run(c, actions);
    var s0 := RunHappens(c, actions);
    var s1 := MimicProduce(c, s0, 0);
    s := MimicProduce(c, s1, 1);
    hide Calm;
    forall i {:trigger s.ring.workers[i]} | 0 <= i < |s.ring.workers| ensures !s.ring.workers[i].pc.Owns() {
      assert i >= 2 ==> s.ring.workers[i] == r.workers[i];
    }
  }

  /** With a counter that comes back, as the code's does at every wrap, wake-ups are lost in
      every ring of two bytes or more with two workers or more: the ring is full and looks
      empty to the strategy, which goes to sleep for good. */
  lemma CounterThatComesBackLosesWakeUps(c: Config) returns (s: System)
    requires ValidConfig(c) && 2 <= c.capacity && 2 <= c.workers && 1 <= c.modulus
    ensures Happens(c, s) && Lost(s)
  {
    var s0 := BothProduce(c);
    s := PopsNothing(c, s0);
    if s.strategy.Running? {
      s := PopsNothing(c, s);
    }
  }

  ghost predicate EveryHistoryFits(c: Config) {
    forall events {:trigger FitHistory(c, events)} :: FitHistory(c, events)
  }

  ghost predicate NothingIsLost(c: Config) {
    forall events {:trigger History(c, events)} :: !Lost(History(c, events))
  }

  // What NoLostWakeUp says of a state.
  ghost predicate SleepsRightly(s: System) {
    s.strategy.Sleeping? ==>
      if s.notified then exists i :: 0 <= i < |s.posts| && s.posts[i].Signal?
      else s.ring.taken == |s.ring.log| || Unannounced(s, s.ring.taken)
  }

  ghost predicate AlwaysSleepsRightly(c: Config) {
    forall events {:trigger History(c, events)} :: SleepsRightly(History(c, events))
  }

  lemma LostIsNotRight(s: System)
    requires Lost(s)
    ensures !SleepsRightly(s)
  {
    if Unannounced(s, s.ring.taken) {
      var i := Announcing(s, s.ring.taken);
    }
  }

  /** No wake-up is ever lost, in any history, if and only if the ring is safe whatever its
      callers do: the counter never comes back, or there is one worker, or one byte. */
  lemma WakeUpsAreSafeExactly(c: Config)
    requires ValidConfig(c)
    ensures EveryHistoryFits(c) <==> c.modulus == 0 || c.workers <= 1 || c.capacity == 1
    ensures AlwaysSleepsRightly(c) <==> c.modulus == 0 || c.workers <= 1 || c.capacity == 1
    ensures NothingIsLost(c) <==> c.modulus == 0 || c.workers <= 1 || c.capacity == 1
  {
    hide Lost;
    hide SleepsRightly;
    if c.modulus == 0 || c.workers <= 1 || c.capacity == 1 {
      forall events ensures FitHistory(c, events) && SleepsRightly(History(c, events)) && !Lost(History(c, events)) {
        SafeHistoriesFit(c, events);
        FitSleepsRightly(c, events);
        if Lost(History(c, events)) { LostIsNotRight(History(c, events)); }
      }
    } else {
      var s := CounterThatComesBackLosesWakeUps(c);
      var events :| s == History(c, events);
      LostIsNotRight(s);
      if FitHistory(c, events) { FitSleepsRightly(c, events); }
      assert !FitHistory(c, events);
    }
  }

  lemma FitSleepsRightly(c: Config, events: seq<Event>)
    requires ValidConfig(c) && FitHistory(c, events)
    ensures SleepsRightly(History(c, events))
  {
    if History(c, events).strategy.Sleeping? { NoLostWakeUp(c, events); }
  }
}
