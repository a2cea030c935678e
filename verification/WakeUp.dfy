/**
 The wake-up handshake between posting threads and the strategy thread: a poster
 pushes (acquire, write, produce) and then notifies; the strategy pops, and goes to
 sleep on a condition variable when the pop finds nothing.  The ring is the
 concurrent one of RingProtocol.
 */
module WakeUp {
  import opened RingProtocol
  import opened RingInvariant
  import opened RingSafety

  // What a poster has left to do after produce, for the claim it pushed.
  datatype Post = Quiet | Notify(k: nat) | Signal

  /** The strategy thread: outside onSuspended; inside consume; in onSuspended about to
      test `_notified`; blocked in the wait. */
  datatype Strategy = Running | Popping | Suspending | Sleeping

  // `left` is how many bytes of the last batch pop has not returned yet, `_consumed - _poped`.
  datatype System = System(ring: State, notified: bool, posts: seq<Post>, strategy: Strategy, left: nat)

  function Start(c: Config): System {
    System(Initial(c), false, seq(c.workers, _ => Quiet), Running, 0)
  }

  datatype Event =
    | Push(a: Action)          // a step of acquire, or writing the record
    | Finish(i: nat)           // produce
    | SetNotified(i: nat)      // onNotified under the mutex
    | NotifyAll(i: nat)        // the condition variable's notify_all
    | Pop(bytes: nat)          // suspend_until calls pop: the next record of the batch, or else consume
    | Scanning                 // a step of consume; in the end a new batch, or onSuspended
    | Perform(bytes: nat)      // a popped task releases its record
    | Check                    // the wait tests its predicate under the mutex
    | Timeout                  // wait_until gives up
    | Spurious                 // the condition variable wakes up without a reason

  predicate PosterMay(s: System, i: nat) {
    i < |s.ring.workers| && i < |s.posts| && s.posts[i].Quiet?
  }

  function React(c: Config, s: System, e: Event): System {
    match e
    case Push(a) =>
      if (a.Register? || a.Unregister? || a.Acquire? || a.Advance? || a.CasFails? || a.Write?) && PosterMay(s, a.i)
      then s.(ring := Step(c, s.ring, a)) else s
    case Finish(i) =>
      if PosterMay(s, i) && s.ring.workers[i].pc.Owning?
      then s.(ring := Step(c, s.ring, Produce(i)), posts := s.posts[i := Notify(s.ring.workers[i].pc.k)]) else s
    case SetNotified(i) =>
      if i < |s.posts| && s.posts[i].Notify? then s.(notified := true, posts := s.posts[i := Signal]) else s
    case NotifyAll(i) =>
      if i < |s.posts| && s.posts[i].Signal?
      then s.(posts := s.posts[i := Quiet], strategy := if s.strategy.Sleeping? then Suspending else s.strategy) else s
    case Pop(bytes) =>
      if !s.strategy.Running? then s
      else if s.left > 0 then (if 0 < bytes <= s.left then s.(left := s.left - bytes) else s)
      // a pop that reaches consume comes after everything popped was performed
      else if s.ring.cpc.CIdle? then s.(ring := Step(c, s.ring, Consume), strategy := Popping)
      else s
    case Scanning =>
      if s.strategy.Popping? then
        var ring := Step(c, s.ring, Scan);
        if ring.cpc.CHold? then s.(ring := ring, strategy := Running, left := if ring.cons <= ring.cpc.hi then ring.cpc.hi - ring.cons else 0)
        else s.(ring := ring, strategy := if ring.cpc.CIdle? then Suspending else Popping)
      else s
    case Perform(bytes) =>
      if s.strategy.Running? && s.ring.cpc.CHold? && s.ring.cons + s.left + bytes <= s.ring.cpc.hi
      then s.(ring := Step(c, s.ring, Release(bytes))) else s
    case Check =>
      if !s.strategy.Suspending? then s
      else if s.notified then s.(notified := false, strategy := Running)
      else s.(strategy := Sleeping)
    case Timeout =>
      if s.strategy.Suspending? || s.strategy.Sleeping? then s.(notified := false, strategy := Running) else s
    case Spurious =>
      if s.strategy.Sleeping? then s.(strategy := Suspending) else s
  }

  // -------------------------------------------------------------- invariant

  // Some poster has claim `k` in hand and has not set the flag for it yet.
  ghost predicate Unannounced(s: System, k: nat) {
    exists i {:trigger s.posts[i]} | 0 <= i < |s.posts| && i < |s.ring.workers| ::
      (s.ring.workers[i].pc.Owns() && s.ring.workers[i].pc.k == k) || s.posts[i] == Notify(k)
  }

  ghost predicate InStep(s: System) {
    && |s.posts| == |s.ring.workers|
    && (s.ring.cpc.CHold? ==> s.strategy.Running? && s.ring.cons + s.left <= s.ring.cpc.hi)
    && (!s.ring.cpc.CHold? ==> s.left == 0)
    && (s.strategy.Popping? <==> !s.ring.cpc.CHold? && !s.ring.cpc.CIdle?)
    && (forall i {:trigger s.posts[i]} | 0 <= i < |s.posts| :: !s.posts[i].Quiet? ==> !s.ring.workers[i].pc.Owns())
  }

  ghost predicate Awake(s: System) {
    && (!s.notified && s.strategy.Popping? && s.ring.cpc.Scans() && s.ring.cpc.ready == s.ring.cons ==>
          Unannounced(s, s.ring.taken))
    && (!s.notified && (s.strategy.Suspending? || s.strategy.Sleeping?) && s.ring.taken < |s.ring.log| ==>
          Unannounced(s, s.ring.taken))
    && (s.notified && s.strategy.Sleeping? ==> exists i {:trigger s.posts[i]} | 0 <= i < |s.posts| :: s.posts[i].Signal?)
  }

  ghost predicate SystemInv(c: Config, s: System) {
    Inv(c, s.ring) && InStep(s) && Awake(s)
  }

  lemma Announcing(s: System, k: nat) returns (i: nat)
    requires Unannounced(s, k)
    ensures i < |s.posts| && i < |s.ring.workers|
    ensures (s.ring.workers[i].pc.Owns() && s.ring.workers[i].pc.k == k) || s.posts[i] == Notify(k)
  {
    i :| 0 <= i < |s.posts| && i < |s.ring.workers| &&
         ((s.ring.workers[i].pc.Owns() && s.ring.workers[i].pc.k == k) || s.posts[i] == Notify(k));
  }

  // ------------------------------------------------------------- every step

  // What a step of a poster inside acquire leaves alone.
  lemma PushFrame(c: Config, s: State, a: Action)
    requires (a.Register? || a.Unregister? || a.Acquire? || a.Advance? || a.CasFails? || a.Write?) && a.i < |s.workers|
    ensures var t := Step(c, s, a);
            && t.cpc == s.cpc && t.taken == s.taken && t.cons == s.cons && |t.workers| == |s.workers|
            && (forall j | 0 <= j < |s.workers| && j != a.i :: t.workers[j] == s.workers[j])
            && (s.workers[a.i].pc.Owns() ==> t.workers[a.i].pc.Owns() && t.workers[a.i].pc.k == s.workers[a.i].pc.k)
            && (|t.log| == |s.log| || (|t.log| == |s.log| + 1 && t.workers[a.i].pc.Owns() && t.workers[a.i].pc.k == |s.log|))
  {
  }

  lemma PushKeeps(c: Config, s: System, a: Action)
    requires SystemInv(c, s) && StepFits(c, s.ring, a)
    requires a.Register? || a.Unregister? || a.Acquire? || a.Advance? || a.CasFails? || a.Write?
    ensures SystemInv(c, React(c, s, Push(a)))
  {
    hide Inv;
    var t := React(c, s, Push(a));
    if PosterMay(s, a.i) {
      StepKeepsInv(c, s.ring, a);
      PushFrame(c, s.ring, a);
      if Unannounced(s, s.ring.taken) {
        var i := Announcing(s, s.ring.taken);
        assert t.posts[i] == s.posts[i];
        assert Unannounced(t, t.ring.taken);
      }
      if s.ring.taken == |s.ring.log| < |t.ring.log| {
        assert t.posts[a.i].Quiet?;
        assert Unannounced(t, t.ring.taken);
      }
    }
  }

  lemma FinishKeeps(c: Config, s: System, i: nat)
    requires SystemInv(c, s)
    ensures SystemInv(c, React(c, s, Finish(i)))
  {
    hide Inv;
    var t := React(c, s, Finish(i));
    StepKeepsInv(c, s.ring, Produce(i));
    if PosterMay(s, i) && s.ring.workers[i].pc.Owning? {
      if Unannounced(s, s.ring.taken) {
        var j := Announcing(s, s.ring.taken);
        assert t.posts[j] == if j == i then Notify(s.ring.workers[i].pc.k) else s.posts[j];
        assert Unannounced(t, t.ring.taken);
      }
      if exists j {:trigger s.posts[j]} | 0 <= j < |s.posts| :: s.posts[j].Signal? {
        var j :| 0 <= j < |s.posts| && s.posts[j].Signal?;
        assert t.posts[j].Signal?;
      }
    }
  }

  lemma NotifyKeeps(c: Config, s: System, i: nat)
    requires SystemInv(c, s)
    ensures SystemInv(c, React(c, s, SetNotified(i))) && SystemInv(c, React(c, s, NotifyAll(i)))
  {
    hide Inv;
    var t, u := React(c, s, SetNotified(i)), React(c, s, NotifyAll(i));
    if i < |s.posts| && s.posts[i].Notify? {
      assert t.posts[i].Signal?;
    }
    if Unannounced(s, s.ring.taken) {
      var j := Announcing(s, s.ring.taken);
      assert u.posts[j] == if j == i && s.posts[i].Signal? then Quiet else s.posts[j];
      assert Unannounced(u, u.ring.taken);
    }
  }

  lemma ScanFrame(c: Config, s: State)
    ensures Scanned(c, s).workers == s.workers && Scanned(c, s).log == s.log
    ensures Scanned(c, s).taken == s.taken || Scanned(c, s).cpc.CHold?
  {
  }

  // When a step of the sweep finds `ready` at the consumer, the worker it looked at owns the next claim to be popped.
  lemma FoundUnfinished(c: Config, s: State)
    requires Inv(c, s) && Scanned(c, s).cpc.Scans()
    requires Scanned(c, s).cpc.ready == s.cons
    ensures s.cpc.Scans() && (s.cpc.ready == s.cons ||
              (s.cpc.i < |s.workers| && s.workers[s.cpc.i].pc.Owns() && s.workers[s.cpc.i].pc.k == s.taken))
  {
    if s.cpc.CReadSeen? && s.cpc.ready != s.cons {
      SeenMeans(c, s, s.cpc.i);
      WorkerInv(c, s, s.cpc.i);
      if s.workers[s.cpc.i].pc.Owns() { OwnerAtConsumer(c, s, s.cpc.i); }
    }
  }

  lemma StillUnannounced(s: System, t: System)
    requires t.posts == s.posts && t.ring.workers == s.ring.workers
    ensures Unannounced(s, s.ring.taken) ==> Unannounced(t, s.ring.taken)
  {
    if Unannounced(s, s.ring.taken) {
      var j := Announcing(s, s.ring.taken);
      assert t.posts[j] == s.posts[j];
    }
  }

  lemma ScanningKeeps(c: Config, s: System)
    requires SystemInv(c, s)
    ensures SystemInv(c, React(c, s, Scanning))
  {
    hide Inv;
    var r, t := s.ring, React(c, s, Scanning);
    if s.strategy.Popping? {
      ScanKeepsInv(c, r);
      ScanFrame(c, r);
      assert t.ring == Scanned(c, r) && t.posts == s.posts;
      StillUnannounced(s, t);
      if t.ring.cpc.CIdle? {
        NothingReady(c, r);
      } else if t.ring.cpc.Scans() && t.ring.cpc.ready == r.cons {
        FoundUnfinished(c, r);
        if r.cpc.ready != r.cons {
          assert t.posts[r.cpc.i] == s.posts[r.cpc.i];
          assert Unannounced(t, r.taken);
        }
      }
      hide Scanned;
      hide Unannounced;
    }
  }

  lemma StrategyKeeps(c: Config, s: System, e: Event)
    requires SystemInv(c, s) && (e.Pop? || e.Perform? || e.Check? || e.Timeout? || e.Spurious?)
    ensures SystemInv(c, React(c, s, e))
  {
    hide Inv;
    var t := React(c, s, e);
    ConsumeKeepsInv(c, s.ring);
    if e.Perform? { ReleaseKeepsInv(c, s.ring, e.bytes); }
    if t.ring == s.ring { StillUnannounced(s, t); }
  }

  // ------------------------------------------------------------ every run

  function History(c: Config, events: seq<Event>): System {
    if events == [] then Start(c)
    else React(c, History(c, events[..|events| - 1]), events[|events| - 1])
  }

  // Every compare-exchange of the history fits, as in RingSafety.
  ghost predicate FitHistory(c: Config, events: seq<Event>) {
    events == [] ||
    (var before, e := events[..|events| - 1], events[|events| - 1];
     FitHistory(c, before) && (e.Push? ==> StepFits(c, History(c, before).ring, e.a)))
  }

  lemma ReactKeepsInv(c: Config, s: System, e: Event)
    requires SystemInv(c, s)
    requires e.Push? ==> StepFits(c, s.ring, e.a)
    ensures SystemInv(c, React(c, s, e))
  {
    hide Inv;
    match e
    case Push(a) =>
      if a.Register? || a.Unregister? || a.Acquire? || a.Advance? || a.CasFails? || a.Write? { PushKeeps(c, s, a); }
    case Finish(i) => FinishKeeps(c, s, i);
    case SetNotified(i) => NotifyKeeps(c, s, i);
    case NotifyAll(i) => NotifyKeeps(c, s, i);
    case Scanning => ScanningKeeps(c, s);
    case _ => StrategyKeeps(c, s, e);
  }

  lemma {:induction false} HistoryKeepsInv(c: Config, events: seq<Event>)
    requires ValidConfig(c) && FitHistory(c, events)
    ensures SystemInv(c, History(c, events))
  {
    if events == [] {
      InitialInv(c);
    } else {
      HistoryKeepsInv(c, events[..|events| - 1]);
      ReactKeepsInv(c, History(c, events[..|events| - 1]), events[|events| - 1]);
    }
  }

  /** No wake-up is lost.  While the strategy sleeps with the flag down, the next claim
      it would pop (and behind it every later one) still waits for the poster that made
      it; while the flag is up, a notify_all is on its way.  And it never sleeps on a
      batch: no record is left to pop or to release. */
  lemma NoLostWakeUp(c: Config, events: seq<Event>)
    requires ValidConfig(c) && FitHistory(c, events)
    requires History(c, events).strategy.Sleeping?
    ensures var s := History(c, events);
            && s.left == 0 && s.ring.cpc.CIdle?
            && if s.notified then exists i :: 0 <= i < |s.posts| && s.posts[i].Signal?
            else s.ring.taken == |s.ring.log| || Unannounced(s, s.ring.taken)
  {
    HistoryKeepsInv(c, events);
  }

  // suspend_until goes on to onSuspended only with nothing of a batch left, neither to pop nor to release.
  lemma SuspendsBetweenBatches(c: Config, events: seq<Event>)
    requires ValidConfig(c) && FitHistory(c, events)
    requires History(c, events).strategy.Suspending? || History(c, events).strategy.Sleeping?
    ensures History(c, events).left == 0 && History(c, events).ring.cpc.CIdle?
  {
    HistoryKeepsInv(c, events);
  }

  // Once every poster has returned, a sleeping strategy has popped every claim ever made.
  lemma SleepsOnlyWhenDrained(c: Config, events: seq<Event>)
    requires ValidConfig(c) && FitHistory(c, events)
    requires var s := History(c, events);
             && s.strategy.Sleeping?
             && (forall i | 0 <= i < |s.posts| :: s.posts[i].Quiet?)
             && (forall i | 0 <= i < |s.ring.workers| :: !s.ring.workers[i].pc.Owns())
    ensures History(c, events).ring.taken == |History(c, events).ring.log|
  {
    HistoryKeepsInv(c, events);
    var s := History(c, events);
    if s.ring.taken != |s.ring.log| && Unannounced(s, s.ring.taken) {
      var i := Announcing(s, s.ring.taken);
    }
  }

  // ------------------------------------------------- what wakes the strategy

  predicate InOnSuspended(s: System) { s.strategy.Suspending? || s.strategy.Sleeping? }

  /** onSuspended comes back only because its time is over or because the flag is up, and
      always with the flag down. */
  lemma ReturnsWithFlagDown(c: Config, s: System, e: Event)
    requires InOnSuspended(s) && React(c, s, e).strategy.Running?
    ensures !React(c, s, e).notified && (e.Timeout? || (e.Check? && s.notified))
  {
    hide Step;
  }

  /** Nothing but the return of onSuspended takes the flag down: a notify that comes while the
      strategy is busy is kept for its next suspension. */
  lemma FlagStaysUp(c: Config, s: System, e: Event)
    requires s.notified && !React(c, s, e).notified
    ensures InOnSuspended(s) && React(c, s, e).strategy.Running? && (e.Check? || e.Timeout?)
  {
    hide Step;
  }

  /** A notify, alone, brings a sleeping strategy back, and has nothing left to do. */
  lemma NotifyAlone(c: Config, s: System, i: nat)
    requires i < |s.posts| && s.posts[i].Notify? && s.strategy.Sleeping?
    ensures React(c, React(c, React(c, s, SetNotified(i)), NotifyAll(i)), Check)
         == s.(notified := false, strategy := Running, posts := s.posts[i := Quiet])
  {
    assert React(c, s, SetNotified(i)) == s.(notified := true, posts := s.posts[i := Signal]);
  }

  // A strategy whose time is over comes back, wherever it is in onSuspended, and leaves the rest alone.
  lemma TimeOutReturns(c: Config, s: System)
    requires InOnSuspended(s)
    ensures React(c, s, Timeout) == s.(notified := false, strategy := Running)
  {
  }

  // A wake-up without a reason, with the flag down, ends in the same sleep.
  lemma SpuriousWakeUpsAreHarmless(c: Config, s: System)
    requires s.strategy.Sleeping?
    ensures React(c, s, Spurious).strategy.Suspending?
    ensures !s.notified ==> React(c, React(c, s, Spurious), Check) == s
  {
  }

  // How often the flag was raised, and how often onSuspended came back because of it.
  function Raised(c: Config, events: seq<Event>): nat {
    if events == [] then 0
    else
      var before, e := events[..|events| - 1], events[|events| - 1];
      var s := History(c, before);
      Raised(c, before) + if e.SetNotified? && e.i < |s.posts| && s.posts[e.i].Notify? then 1 else 0
  }

  function Returned(c: Config, events: seq<Event>): nat {
    if events == [] then 0
    else
      var before, e := events[..|events| - 1], events[|events| - 1];
      Returned(c, before) + if e.Check? && InOnSuspended(History(c, before)) && History(c, events).strategy.Running? then 1 else 0
  }

  lemma FlagChange(c: Config, s: System, e: Event)
    ensures var t := React(c, s, e); var raises := e.SetNotified? && e.i < |s.posts| && s.posts[e.i].Notify?;
            && (raises ==> t.notified)
            && (!raises && t.notified ==> s.notified)
            && (e.Check? && InOnSuspended(s) && t.strategy.Running? ==> s.notified && !t.notified)
  {
    hide Step;
  }

  /** Every return that is not a time-out uses up a notify of its own: the strategy is never
      woken more often than it was notified. */
  lemma {:induction false} WakeUpsWereNotified(c: Config, events: seq<Event>)
    ensures Returned(c, events) + (if History(c, events).notified then 1 else 0) <= Raised(c, events)
  {
    hide React;
    if events != [] {
      WakeUpsWereNotified(c, events[..|events| - 1]);
      FlagChange(c, History(c, events[..|events| - 1]), events[|events| - 1]);
    }
  }
}
