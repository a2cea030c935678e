/**
 Where the ring's promises end: the wrap counter that never moves, and requests
 larger than half the buffer.
 */
module RingLimits {
  import opened RingProtocol
  import opened RingInvariant
  import opened RingSafety

  // ------------------------------------------------------- the wrap counter

  // `s` is the end of some run in which only workers of `ps` acquire, whether it fits or not.
  ghost predicate Attainable(c: Config, ps: set<nat>, s: State) {
    exists actions :: By(actions, ps) && s == Run(c, actions)
  }

  // Only workers of `ps` call acquire.
  ghost predicate By(actions: seq<Action>, ps: set<nat>) {
    forall k | 0 <= k < |actions| :: actions[k].Acquire? ==> actions[k].i in ps
  }

  lemma RunNext(c: Config, actions: seq<Action>, a: Action)
    ensures Run(c, actions + [a]) == Step(c, Run(c, actions), a)
  {
    hide Step;
    assert (actions + [a])[..|actions|] == actions;
  }

  lemma Extend(c: Config, ps: set<nat>, s: State, a: Action) returns (t: State)
    requires Attainable(c, ps, s) && (a.Acquire? ==> a.i in ps)
    ensures t == Step(c, s, a) && Attainable(c, ps, t)
  {
    hide Step;
    hide Run;
    var actions :| By(actions, ps) && s == Run(c, actions);
    t := Step(c, s, a);
    RunNext(c, actions, a);
    assert By(actions + [a], ps);
  }

  lemma Advancing(c: Config, ps: set<nat>, s: State, i: nat) returns (t: State)
    requires Attainable(c, ps, s) && i < |s.workers|
    ensures t == Advanced(c, s, i) && Attainable(c, ps, t)
  {
    t := Extend(c, ps, s, Advance(i));
  }

  lemma Scanning(c: Config, ps: set<nat>, s: State) returns (t: State)
    requires Attainable(c, ps, s)
    ensures t == Scanned(c, s) && Attainable(c, ps, t)
  {
    t := Extend(c, ps, s, Scan);
  }

  lemma Loading(c: Config, ps: set<nat>, s: State, i: nat, size: nat) returns (t: State)
    requires i in ps && Attainable(c, ps, s) && i < |s.workers| && s.workers[i].pc.Idle?
    requires 0 < size <= c.capacity && !s.barrier.locked
    ensures Attainable(c, ps, t) && t == Put(s, i, s.workers[i].(pc := PublishSeen(size, s.barrier, |s.log|)))
  {
    var s1 := Extend(c, ps, s, Acquire(i, size));
    assert s1 == Put(s, i, s.workers[i].(pc := LoadNext(size)));
    t := Advancing(c, ps, s1, i);
  }

  lemma Reading(c: Config, ps: set<nat>, s: State, i: nat) returns (t: State)
    requires Attainable(c, ps, s) && i < |s.workers| && s.workers[i].pc.PublishSeen?
    requires GuardPasses(c, s.workers[i].pc.seen.index, s.workers[i].pc.size, s.cons)
    ensures var pc := s.workers[i].pc;
            && Attainable(c, ps, t)
            && t == Put(s, i, s.workers[i].(pc := TryCas(pc.size, pc.seen, pc.at, s.cons), seen := Seen(true, pc.seen.index)))
  {
    var s1 := Advancing(c, ps, s, i);
    t := Advancing(c, ps, s1, i);
  }

  // The compare-exchange of worker `i` succeeds and the claim does not start over at 0.
  lemma Claiming(c: Config, ps: set<nat>, s: State, i: nat) returns (t: State)
    requires Attainable(c, ps, s) && i < |s.workers| && CasMatches(s, i)
    requires s.barrier.index + s.workers[i].pc.size <= c.capacity
    ensures Attainable(c, ps, t)
    ensures t.workers == s.workers[i := Worker(Owning(|s.log|), s.workers[i].registered, s.workers[i].seen.(locked := false))]
    ensures t.log == s.log + [Claim(i, s.plap, s.barrier.index, s.barrier.index + s.workers[i].pc.size)]
    ensures t.barrier == Target(c, s.barrier, s.workers[i].pc.size)
    ensures t.cons == s.cons && t.cpc == s.cpc && t.end == s.end && t.taken == s.taken
  {
    var s1 := Advancing(c, ps, s, i);
    assert s1 == CasStep(c, s, i);
    t := Advancing(c, ps, s1, i);
  }

  // Worker `i`, undisturbed, claims `size` bytes.
  lemma ClaimingAlone(c: Config, ps: set<nat>, s: State, i: nat, size: nat) returns (t: State)
    requires i in ps && Attainable(c, ps, s) && i < |s.workers| && s.workers[i].pc.Idle?
    requires 0 < size <= c.capacity && !s.barrier.locked
    requires GuardPasses(c, s.barrier.index, size, s.cons) && s.barrier.index + size <= c.capacity
    ensures Attainable(c, ps, t)
    ensures t.workers == s.workers[i := Worker(Owning(|s.log|), s.workers[i].registered, Seen(false, s.barrier.index))]
    ensures t.log == s.log + [Claim(i, s.plap, s.barrier.index, s.barrier.index + size)]
    ensures t.barrier == Target(c, s.barrier, size)
    ensures t.cons == s.cons && t.cpc == s.cpc && t.end == s.end && t.taken == s.taken
  {
    var s1 := Loading(c, ps, s, i, size);
    var s2 := Reading(c, ps, s1, i);
    t := Claiming(c, ps, s2, i);
  }

  lemma RegisteringTwice(c: Config, ps: set<nat>, s: State, i: nat) returns (t: State)
    requires Attainable(c, ps, s) && i < |s.workers| && s.workers[i].pc.Detached?
    ensures Attainable(c, ps, t) && t == Put(s, i, Worker(Idle, true, Seen(false, MAX_OFFSET)))
  {
    var s1 := Extend(c, ps, s, Register(i));
    assert s1 == Put(s, i, s.workers[i].(pc := Registering, seen := Seen(false, MAX_OFFSET)));
    t := Extend(c, ps, s1, Register(i));
  }

  ghost predicate NothingSeen(s: State) {
    forall i {:trigger s.workers[i]} | 0 <= i < |s.workers| :: s.workers[i].registered ==> s.workers[i].seen == Seen(false, MAX_OFFSET)
  }

  // The consumer looks at the workers from `s.cpc.i` on and finds nobody.
  lemma {:induction false} Sweeping(c: Config, ps: set<nat>, s: State) returns (t: State)
    requires Attainable(c, ps, s) && NothingSeen(s)
    requires s.cpc.CCheck? && s.cpc.i <= |s.workers| && s.cpc.ready == MAX_OFFSET
    ensures Attainable(c, ps, t) && t == s.(cpc := CCheck(|s.workers|, s.cpc.next, MAX_OFFSET, s.cpc.snap, s.cpc.rk))
    decreases |s.workers| - s.cpc.i as int
  {
    if s.cpc.i == |s.workers| {
      t := s;
    } else {
      t := Scanning(c, ps, s);
      if t.cpc.CReadSeen? {
        t := Scanning(c, ps, t);
      }
      assert t == s.(cpc := CCheck(s.cpc.i + 1, s.cpc.next, MAX_OFFSET, s.cpc.snap, s.cpc.rk));
      t := Sweeping(c, ps, t);
    }
  }

  // The consumer, undisturbed, decides what it may take of a ring in which nobody owns anything.
  lemma ConsumingAlone(c: Config, ps: set<nat>, s: State) returns (t: State)
    requires Attainable(c, ps, s) && s.cpc.CIdle? && !s.barrier.locked && s.barrier.index != s.cons && NothingSeen(s)
    ensures Attainable(c, ps, t) && t == Decided(c, s.(cpc := CCheck(|s.workers|, s.barrier.index, MAX_OFFSET, |s.log|, 0)))
  {
    var s1 := Extend(c, ps, s, Consume);
    assert s1 == s.(cpc := CLoadNext);
    var s2 := Scanning(c, ps, s1);
    assert s2 == s.(cpc := CCheck(0, s.barrier.index, MAX_OFFSET, |s.log|, 0));
    var s3 := Sweeping(c, ps, s2);
    t := Scanning(c, ps, s3);
  }

  // Worker `i`, undisturbed, claims `size` bytes up to some place, and produces them.
  lemma ProducingAlone(c: Config, ps: set<nat>, s: State, i: nat, size: nat) returns (t: State)
    requires i in ps && Attainable(c, ps, s) && i < |s.workers| && s.workers[i] == Worker(Idle, true, Seen(false, MAX_OFFSET))
    requires 0 < size <= c.capacity && !s.barrier.locked
    requires GuardPasses(c, s.barrier.index, size, s.cons) && s.barrier.index + size <= c.capacity
    ensures Attainable(c, ps, t)
    ensures t.workers == s.workers && t.barrier == Target(c, s.barrier, size)
    ensures t.cons == s.cons && t.cpc == s.cpc && t.end == s.end && t.taken == s.taken
  {
    hide GuardPasses;
    var s1 := ClaimingAlone(c, ps, s, i, size);
    t := Extend(c, ps, s1, Produce(i));
    assert t == Put(s1, i, Worker(Idle, true, Seen(false, MAX_OFFSET)));
  }

  // ------------------------------------------------- a counter that comes back

  ghost predicate OthersAway(s: State) {
    forall i {:trigger s.workers[i]} | 2 <= i < |s.workers| :: s.workers[i].pc.Detached?
  }

  /** Worker 0 has loaded an empty barrier, before the first lap, and is about to publish
      it; everybody else is at rest at the start of lap `lap`. */
  ghost predicate Stalled(c: Config, s: State, lap: nat) {
    && |s.workers| == c.workers >= 2
    && s.workers[0] == Worker(PublishSeen(1, Word(false, 0, 0), 0), true, Seen(false, MAX_OFFSET))
    && s.workers[1] == Worker(Idle, true, Seen(false, MAX_OFFSET))
    && NothingSeen(s) && OthersAway(s)
    && s.barrier == Word(false, Tag(c, lap), 0) && s.cons == 0 && s.cpc == CIdle && s.end == MAX_OFFSET
  }

  // Worker 1 produces the first byte of the lap, and the consumer holds it.
  lemma FirstByte(c: Config, ps: set<nat>, s: State, lap: nat) returns (t: State)
    requires {0, 1} <= ps && ValidConfig(c) && 2 <= c.capacity && Attainable(c, ps, s) && Stalled(c, s, lap)
    ensures Attainable(c, ps, t) && t.workers == s.workers && t.barrier == Word(false, Tag(c, lap), 1)
    ensures t.cons == 0 && t.cpc.CHold? && t.cpc.hi == 1 && t.end == MAX_OFFSET && t.taken == |t.log|
  {
    var s1 := ProducingAlone(c, ps, s, 1, 1);
    t := ConsumingAlone(c, ps, s1);
  }

  // Worker 1 and the consumer go round once, while worker 0 waits.
  lemma OneLap(c: Config, ps: set<nat>, s: State, lap: nat) returns (t: State)
    requires {0, 1} <= ps && ValidConfig(c) && 2 <= c.capacity && Attainable(c, ps, s) && Stalled(c, s, lap)
    ensures Attainable(c, ps, t) && Stalled(c, t, lap + 1)
  {
    var s1 := FirstByte(c, ps, s, lap);
    var s2 := Extend(c, ps, s1, Release(1));
    assert s2 == s1.(cons := 1, cpc := CIdle);
    var s3 := ProducingAlone(c, ps, s2, 1, c.capacity - 1);
    var s4 := ConsumingAlone(c, ps, s3);
    t := Extend(c, ps, s4, Release(c.capacity - 1));
  }

  lemma {:induction false} ManyLaps(c: Config, ps: set<nat>, laps: nat) returns (s: State)
    requires {0, 1} <= ps && ValidConfig(c) && 2 <= c.capacity && 2 <= c.workers
    ensures Attainable(c, ps, s) && Stalled(c, s, laps)
  {
    if laps == 0 {
      var s0 := Initial(c);
      assert s0 == Run(c, []);
      var s1 := RegisteringTwice(c, ps, s0, 0);
      var s2 := RegisteringTwice(c, ps, s1, 1);
      s := Loading(c, ps, s2, 0, 1);
    } else {
      s := ManyLaps(c, ps, laps - 1);
      s := OneLap(c, ps, s, laps - 1);
    }
  }

  // Worker 0 reads the consumer barrier while the consumer still holds the first byte.
  lemma ReadsTooEarly(c: Config, ps: set<nat>, s: State, lap: nat) returns (t: State)
    requires {0, 1} <= ps && ValidConfig(c) && 2 <= c.capacity && Attainable(c, ps, s) && Stalled(c, s, lap)
    ensures Attainable(c, ps, t) && |t.workers| == c.workers
    ensures t.workers[0].pc == TryCas(1, Word(false, 0, 0), 0, 0) && t.workers[0].registered
    ensures t.workers[1] == Worker(Idle, true, Seen(false, MAX_OFFSET)) && OthersAway(t)
    ensures t.barrier == Word(false, Tag(c, lap), 1) && t.cons == 1 && t.cpc == CIdle && t.taken == |t.log|
  {
    var s1 := FirstByte(c, ps, s, lap);
    var s2 := Reading(c, ps, s1, 0);
    t := Extend(c, ps, s2, Release(1));
    assert t == s2.(cons := 1, cpc := CIdle);
  }

  lemma StaleSwap(c: Config, ps: set<nat>, s: State) returns (t: State)
    requires Attainable(c, ps, s) && |s.workers| == c.workers >= 2 && 2 <= c.capacity
    requires s.barrier == Word(false, 0, 0) && s.cons == 1
    requires s.workers[0].pc.TryCas? && s.workers[0].registered
    requires s.workers[0].pc.seen == Word(false, 0, 0) && s.workers[0].pc.size == 1
    requires Owner(s, 1) && s.workers[1].pc.Owning?
    ensures Attainable(c, ps, t) && |t.workers| == c.workers
    ensures t.workers[0].pc.Owning? && t.workers[0].registered
    ensures t.workers[1] == s.workers[1] && Owner(t, 1) && Owned(t, 1) == Owned(s, 1)
    ensures t.barrier == Word(false, 0, 1) && t.cons == 1
    ensures t.cpc == s.cpc && t.taken == s.taken && |s.log| < |t.log| && (OthersAway(s) ==> OthersAway(t))
  {
    t := Claiming(c, ps, s, 0);
    assert t.log[s.workers[1].pc.k] == s.log[s.workers[1].pc.k];
  }

  /** Worker 0's compare-exchange succeeds `modulus` laps too late, and claims the first
      byte in front of a consumer that is not past it: the ring is full and looks empty. */
  lemma StaleClaim(c: Config, ps: set<nat>) returns (s: State)
    requires {0, 1} <= ps && ValidConfig(c) && 2 <= c.capacity && 2 <= c.workers && 1 <= c.modulus
    ensures Attainable(c, ps, s) && |s.workers| == c.workers
    ensures s.workers[0].pc.Owning? && s.workers[0].registered && Owner(s, 1) && s.workers[1].pc.Owning?
    ensures Owned(s, 1).lo == 1 && Owned(s, 1).hi == c.capacity
    ensures s.barrier == Word(false, 0, 1) && s.cons == 1 && s.cpc == CIdle && s.taken < |s.log| && OthersAway(s)
  {
    hide Stalled;
    TagShift(c, 0, c.modulus - 1);
    var s0 := ManyLaps(c, ps, c.modulus - 1);
    var s1 := ReadsTooEarly(c, ps, s0, c.modulus - 1);
    var s2 := ClaimingAlone(c, ps, s1, 1, c.capacity - 1);
    s := StaleSwap(c, ps, s2);
  }

  /** A wrap counter that comes back, as the code's does at every wrap, lets two producers
      own the same bytes: in any ring of two bytes or more with two workers or more. */
  lemma CounterThatComesBackBreaksOwnership(c: Config) returns (s: State)
    requires ValidConfig(c) && 2 <= c.capacity && 2 <= c.workers && 1 <= c.modulus
    ensures Attainable(c, {0, 1}, s) && Owner(s, 0) && Owner(s, 1)
    ensures Owned(s, 0).lo == Owned(s, 1).lo == 1 && Owned(s, 0).hi == Owned(s, 1).hi == c.capacity
  {
    var s1 := StaleClaim(c, {0, 1});
    var s2 := Extend(c, {0, 1}, s1, Produce(0));
    assert s2 == Put(s1, 0, Worker(Idle, true, Seen(false, MAX_OFFSET)));
    s := ClaimingAlone(c, {0, 1}, s2, 0, c.capacity - 1);
  }

  // -------------------------------------------------- the safe configurations

  // With an unbounded counter nothing has to be assumed of the run.
  lemma UnboundedCounterIsSafe(c: Config, actions: seq<Action>)
    requires ValidConfig(c) && c.modulus == 0
    ensures Reachable(c, Run(c, actions)) && Inv(c, Run(c, actions))
  {
    UnboundedCounterIsFresh(c, actions);
    FreshRunFits(c, actions);
    RunKeepsInv(c, actions);
  }

  // Nobody ever asks for half the buffer or less.
  ghost predicate BigRequests(c: Config, actions: seq<Action>) {
    forall k | 0 <= k < |actions| :: actions[k].Acquire? && 0 < actions[k].size ==> 2 * actions[k].size > c.capacity
  }

  // Each claim but the first starts over and ends earlier than the one before.
  ghost predicate Dwindling(c: Config, log: seq<Claim>) {
    && (forall k {:trigger At(c, log, k)} | 1 <= k <= |log| :: 2 * At(c, log, k).idx > c.capacity)
    && (forall j, k {:trigger At(c, log, j), At(c, log, k)} | 1 <= j < k <= |log| :: At(c, log, k).idx < At(c, log, j).idx)
  }

  ghost predicate AsksMuch(c: Config, s: State) {
    forall i {:trigger s.workers[i]} | 0 <= i < |s.workers| ::
      s.workers[i].pc.LoadNext? || s.workers[i].pc.Loaded() ==> 2 * s.workers[i].pc.size > c.capacity
  }

  lemma DwindledFits(c: Config, s: State, i: nat)
    requires Inv(c, s) && Dwindling(c, s.log) && i < |s.workers| && CasMatches(s, i)
    ensures CasFits(c, s, i)
  {
    WorkerInv(c, s, i);
    assert s.workers[i].pc.at == |s.log|;
    FreshCasFits(c, s, i);
  }

  lemma StillDwindles(c: Config, s: State, i: nat)
    requires Inv(c, s) && Dwindling(c, s.log) && AsksMuch(c, s) && CasFits(c, s, i)
    ensures Dwindling(c, CasStep(c, s, i).log)
  {
    var t, n := CasStep(c, s, i), |s.log|;
    CasKeepsInv(c, s, i);
    CasKeepsLog(c, s, i);
    assert At(c, t.log, n + 1).idx == t.barrier.index;
    assert At(c, s.log, n).idx == s.barrier.index;
    forall k {:trigger At(c, t.log, k)} | 0 <= k <= n ensures At(c, t.log, k) == At(c, s.log, k) {
    }
  }

  // A worker asks for as much as it did before, or for nothing.
  lemma StillAsksMuch(c: Config, s: State, a: Action)
    requires AsksMuch(c, s) && (a.Acquire? && 0 < a.size ==> 2 * a.size > c.capacity)
    ensures AsksMuch(c, Step(c, s, a))
    ensures (a.Advance? && a.i < |s.workers| && CasMatches(s, a.i)) || Step(c, s, a).log == s.log
  {
    hide GuardPasses;
  }

  lemma StepDwindles(c: Config, s: State, a: Action)
    requires Inv(c, s) && Dwindling(c, s.log) && AsksMuch(c, s)
    requires a.Acquire? && 0 < a.size ==> 2 * a.size > c.capacity
    ensures StepFits(c, s, a) && Dwindling(c, Step(c, s, a).log) && AsksMuch(c, Step(c, s, a))
  {
    StillAsksMuch(c, s, a);
    hide Inv;
    hide Dwindling;
    hide AsksMuch;
    if a.Advance? && a.i < |s.workers| && CasMatches(s, a.i) {
      DwindledFits(c, s, a.i);
      StillDwindles(c, s, a.i);
    }
  }

  /** In a ring in which nobody ever asks for half of it or less, every run fits: each claim
      ends earlier than the one before, and so no word is ever seen again. */
  lemma {:induction false} BigRequestsFit(c: Config, actions: seq<Action>)
    requires ValidConfig(c) && BigRequests(c, actions)
    ensures FitRun(c, actions) && Dwindling(c, Run(c, actions).log) && AsksMuch(c, Run(c, actions))
  {
    if actions != [] {
      var before, a := actions[..|actions| - 1], actions[|actions| - 1];
      BigRequestsFit(c, before);
      RunKeepsInv(c, before);
      hide Inv;
      hide Step;
      hide StepFits;
      hide Dwindling;
      hide AsksMuch;
      StepDwindles(c, Run(c, before), a);
    }
  }

  // In a ring of one byte every request is for more than half of it, and is refused.
  lemma OneByteFits(c: Config, actions: seq<Action>)
    requires ValidConfig(c) && c.capacity == 1
    ensures FitRun(c, actions)
  {
    BigRequestsFit(c, actions);
  }

  ghost predicate EveryRunFits(c: Config) {
    forall actions {:trigger FitRun(c, actions)} :: FitRun(c, actions)
  }

  // No two producers ever own the same byte.
  ghost predicate NeverShared(c: Config) {
    forall actions, i: nat, j: nat {:trigger Shared(Run(c, actions), i, j)} :: !Shared(Run(c, actions), i, j)
  }

  ghost predicate Shared(s: State, i: nat, j: nat) {
    i != j && Owner(s, i) && Owner(s, j) && !Disjoint(Owned(s, i).lo, Owned(s, i).hi, Owned(s, j).lo, Owned(s, j).hi)
  }

  lemma FitIsNotShared(c: Config, actions: seq<Action>, i: nat, j: nat)
    requires ValidConfig(c) && FitRun(c, actions)
    ensures !Shared(Run(c, actions), i, j)
  {
    var s := Run(c, actions);
    assert Reachable(c, s);
    if i != j && Owner(s, i) && Owner(s, j) { ProducersDisjoint(c, s, i, j); }
  }

  lemma SafeConfigurationsFit(c: Config, actions: seq<Action>)
    requires ValidConfig(c) && (c.modulus == 0 || c.workers <= 1 || c.capacity == 1)
    ensures FitRun(c, actions)
  {
    if c.capacity == 1 {
      OneByteFits(c, actions);
    } else {
      if c.modulus == 0 {
        UnboundedCounterIsFresh(c, actions);
      } else {
        OneProducerIsFresh(c, actions, 0);
      }
      FreshRunFits(c, actions);
    }
  }

  lemma SharedSomewhere(c: Config) returns (actions: seq<Action>)
    requires ValidConfig(c) && 2 <= c.capacity && 2 <= c.workers && 1 <= c.modulus
    ensures Shared(Run(c, actions), 0, 1)
  {
    var s := CounterThatComesBackBreaksOwnership(c);
    actions :| By(actions, {0, 1}) && s == Run(c, actions);
  }

  /** Which rings are safe whatever their callers do: those with a counter that never comes
      back, with one worker, or of one byte.  In those every run fits, and in no other do
      producers always own different bytes. */
  lemma SafeConfigurations(c: Config)
    requires ValidConfig(c)
    ensures EveryRunFits(c) <==> c.modulus == 0 || c.workers <= 1 || c.capacity == 1
    ensures NeverShared(c) <==> c.modulus == 0 || c.workers <= 1 || c.capacity == 1
  {
    hide Shared;
    if c.modulus == 0 || c.workers <= 1 || c.capacity == 1 {
      forall actions ensures FitRun(c, actions) { SafeConfigurationsFit(c, actions); }
      forall actions, i: nat, j: nat ensures !Shared(Run(c, actions), i, j) {
        FitIsNotShared(c, actions, i, j);
      }
    } else {
      var actions := SharedSomewhere(c);
      if FitRun(c, actions) { FitIsNotShared(c, actions, 0, 1); }
      assert !FitRun(c, actions);
    }
  }

  // ----------------------------------------------------- how much may be asked

  // Every claim has been handed out and released.
  ghost predicate Drained(s: State) {
    s.taken == |s.log| && !s.cpc.CHold?
  }

  lemma DrainedMeets(c: Config, s: State)
    requires Inv(c, s) && Drained(s)
    ensures s.barrier.index == s.cons < c.capacity && !s.barrier.locked
  {
  }

  lemma FitsAnywhere(c: Config, p: nat, size: nat)
    requires p < c.capacity && 0 < size && 2 * size <= c.capacity
    ensures GuardPasses(c, p, size, p)
  {
  }

  /** The ring is empty, and worker `i`, which wants `size` bytes, is refused: the others
      do not acquire, and `i` is somewhere in an attempt that will fail. */
  ghost predicate Refused(c: Config, s: State, i: nat, size: nat) {
    && i < |s.workers| && 0 < size
    && !s.barrier.locked && s.barrier.index == s.cons
    && !GuardPasses(c, s.barrier.index, size, s.cons)
    && (s.cpc.CIdle? || s.cpc.CLoadNext?)
    && forall j {:trigger s.workers[j]} | 0 <= j < |s.workers| ::
         var pc := s.workers[j].pc;
         || pc.Detached? || pc.Registering? || pc.Idle?
         || (j == i && (pc.Fail? || (pc.LoadNext? && pc.size == size)
                        || ((pc.PublishSeen? || pc.ReadWritten?) && pc.size == size && pc.seen == s.barrier)))
  }

  lemma RefusedAgain(c: Config, s: State, i: nat, size: nat, a: Action)
    requires Refused(c, s, i, size) && (a.Acquire? ==> a == Acquire(i, size))
    ensures Refused(c, Step(c, s, a), i, size) && Step(c, s, a).log == s.log
  {
    hide GuardPasses;
  }

  function Continue(c: Config, s: State, more: seq<Action>): State {
    if more == [] then s else Step(c, Continue(c, s, more[..|more| - 1]), more[|more| - 1])
  }

  /** As long as nobody else acquires, push's loop may try again and the consumer may look
      as often as they like: no byte is ever claimed, although the ring is empty. */
  lemma {:induction false} RefusedForever(c: Config, s: State, i: nat, size: nat, more: seq<Action>)
    requires Refused(c, s, i, size)
    requires forall k | 0 <= k < |more| :: more[k].Acquire? ==> more[k] == Acquire(i, size)
    ensures Refused(c, Continue(c, s, more), i, size) && Continue(c, s, more).log == s.log
  {
    if more != [] {
      RefusedForever(c, s, i, size, more[..|more| - 1]);
      RefusedAgain(c, Continue(c, s, more[..|more| - 1]), i, size, more[|more| - 1]);
    }
  }

  // One worker produces `size` bytes from the start of the ring, and the consumer takes and releases them.
  lemma UsedOnce(c: Config, size: nat) returns (s: State)
    requires ValidConfig(c) && 1 <= c.workers && 0 < size < c.capacity
    ensures Attainable(c, {0}, s) && Drained(s) && s.cons == size && |s.workers| == c.workers && s.cpc.CIdle?
    ensures forall j {:trigger s.workers[j]} | 0 <= j < |s.workers| :: if j == 0 then s.workers[j].pc.Idle? else s.workers[j].pc.Detached?
  {
    var s0 := Initial(c);
    assert s0 == Run(c, []);
    var s1 := RegisteringTwice(c, {0}, s0, 0);
    var s2 := ProducingAlone(c, {0}, s1, 0, size);
    var s3 := ConsumingAlone(c, {0}, s2);
    s := Extend(c, {0}, s3, Release(size));
  }

  // A request for more than half the buffer is refused right behind an earlier one.
  lemma TooBigIsRefused(c: Config, size: nat) returns (s: State)
    requires ValidConfig(c) && 1 <= c.workers && 0 < size && 2 * size > c.capacity
    ensures Reachable(c, s) && Drained(s) && Refused(c, s, 0, size) && s.workers[0].pc.Idle?
  {
    if size < c.capacity {
      s := UsedOnce(c, size);
    } else {
      var s0 := Initial(c);
      assert s0 == Run(c, []);
      s := RegisteringTwice(c, {0}, s0, 0);
    }
    var actions :| By(actions, {0}) && s == Run(c, actions);
    OneProducerIsFresh(c, actions, 0);
    FreshRunFits(c, actions);
    ReachableInv(c, s);
    DrainedMeets(c, s);
  }

  /** A request is granted in every reachable state of a drained ring if and only if it is
      for at most half the buffer; a bigger one can be refused, and then for ever. */
  lemma HalfTheBufferAlwaysFits(c: Config, size: nat)
    requires ValidConfig(c) && 1 <= c.workers && 0 < size
    ensures 2 * size <= c.capacity <==>
              forall s | Reachable(c, s) && Drained(s) :: GuardPasses(c, s.barrier.index, size, s.cons)
  {
    if 2 * size <= c.capacity {
      forall s | Reachable(c, s) && Drained(s) ensures GuardPasses(c, s.barrier.index, size, s.cons) {
        ReachableInv(c, s);
        DrainedMeets(c, s);
        FitsAnywhere(c, s.cons, size);
      }
    } else {
      var s := TooBigIsRefused(c, size);
    }
  }
}
