/**
 What the concurrent ring promises over whole runs.
 */
module RingSafety {
  import opened RingProtocol
  import opened RingInvariant

  // ------------------------------------------------------------- safe runs

  /** Every compare-exchange of the run that succeeds would pass acquire's space check
      again at that moment. */
  ghost predicate FitRun(c: Config, actions: seq<Action>) {
    actions == [] ||
    (var before := actions[..|actions| - 1];
     FitRun(c, before) && StepFits(c, Run(c, before), actions[|actions| - 1]))
  }

  // A run that fits stays safe: whatever the interleaving, the number of producers, the sizes and the laps.
  lemma {:induction false} RunKeepsInv(c: Config, actions: seq<Action>)
    requires ValidConfig(c) && FitRun(c, actions)
    ensures Inv(c, Run(c, actions))
  {
    if actions == [] {
      InitialInv(c);
    } else {
      var before := actions[..|actions| - 1];
      RunKeepsInv(c, before);
      StepKeepsInv(c, Run(c, before), actions[|actions| - 1]);
    }
  }

  lemma CasIsSafeExactly(c: Config, s: State, i: nat)
    requires Inv(c, s) && i < |s.workers| && CasMatches(s, i)
    ensures Ordered(CasStep(c, s, i)) <==> GuardPasses(c, s.barrier.index, s.workers[i].pc.size, s.cons)
    ensures Ordered(CasStep(c, s, i)) ==> Inv(c, CasStep(c, s, i))
  {
    assert WorkerOk(c, s, i);
    if GuardPasses(c, s.barrier.index, s.workers[i].pc.size, s.cons) {
      CasKeepsInv(c, s, i);
    }
  }

  // After each of the first `n` steps the producers are ahead of the consumer by less than a lap.
  ghost predicate NeverOverrun(c: Config, actions: seq<Action>) {
    forall n {:trigger actions[..n]} | 0 <= n <= |actions| :: Ordered(Run(c, actions[..n]))
  }

  /** Exactly the runs that fit are the runs in which the producers never overrun the
      consumer, for every wrap counter. */
  lemma {:induction false} SafeExactlyWhenFit(c: Config, actions: seq<Action>)
    requires ValidConfig(c)
    ensures FitRun(c, actions) <==> NeverOverrun(c, actions)
  {
    assert actions[..|actions|] == actions;
    if actions == [] {
      InitialInv(c);
    } else {
      var before, a := actions[..|actions| - 1], actions[|actions| - 1];
      SafeExactlyWhenFit(c, before);
      assert forall n | 0 <= n < |actions| :: before[..n] == actions[..n];
      if FitRun(c, actions) {
        RunKeepsInv(c, actions);
        forall n | 0 <= n <= |actions| ensures Ordered(Run(c, actions[..n])) {
          if n < |actions| { assert before[..n] == actions[..n]; }
        }
      }
      if NeverOverrun(c, actions) {
        forall n | 0 <= n <= |before| ensures Ordered(Run(c, before[..n])) {
          assert before[..n] == actions[..n];
        }
        RunKeepsInv(c, before);
        LastStepFits(c, Run(c, before), a);
      }
    }
  }

  lemma LastStepFits(c: Config, s: State, a: Action)
    requires Inv(c, s) && Ordered(Step(c, s, a))
    ensures StepFits(c, s, a)
  {
    if a.Advance? && a.i < |s.workers| && CasMatches(s, a.i) {
      assert Step(c, s, a) == CasStep(c, s, a.i);
      CasIsSafeExactly(c, s, a.i);
    }
  }

  // `s` is the end of some run that fits.
  ghost predicate Reachable(c: Config, s: State) {
    ValidConfig(c) && exists actions :: FitRun(c, actions) && s == Run(c, actions)
  }

  lemma ReachableInv(c: Config, s: State)
    requires Reachable(c, s)
    ensures Inv(c, s)
  {
    var actions :| FitRun(c, actions) && s == Run(c, actions);
    RunKeepsInv(c, actions);
  }

  // ---------------------------------------------------------- stale reads

  /** A value of the consumer barrier that errs on the safe side goes on doing so, whatever
      anybody does, until the next claim. */
  lemma ReadStaysConservative(c: Config, s: State, a: Action, written: nat)
    requires Inv(c, s) && StepFits(c, s, a) && Conservative(s, s.barrier.index, written)
    requires Step(c, s, a).log == s.log
    ensures var t := Step(c, s, a); t.barrier.index == s.barrier.index && Conservative(t, t.barrier.index, written)
  {
    StepKeepsInv(c, s, a);
    hide GuardPasses;
    hide Decided;
    hide WorkersOk;
    hide ConsumerOk;
    hide DataOk;
    if a.Scan? { DecidedFrame(c, s); }
  }

  lemma DecidedFrame(c: Config, s: State)
    ensures s.cpc.CCheck? ==> var t := Decided(c, s); t.cons == s.cons && t.clap == s.clap && t.plap == s.plap && t.barrier == s.barrier
  {
  }

  /** Acting on such a value cannot overrun the consumer: what passes the space check with
      it passes with the consumer barrier as it is. */
  lemma StaleReadIsSafe(c: Config, s: State, size: nat, written: nat)
    requires Inv(c, s) && 0 < size <= c.capacity && written < c.capacity
    requires Conservative(s, s.barrier.index, written) && GuardPasses(c, s.barrier.index, size, written)
    ensures GuardPasses(c, s.barrier.index, size, s.cons)
  {
  }

  // ------------------------------------------------------------ fresh runs

  // A compare-exchange in this step comes fewer than `modulus` wraps after the load it relies on.
  ghost predicate FreshStep(c: Config, s: State, a: Action) {
    a.Advance? && a.i < |s.workers| && CasMatches(s, a.i) ==> Fresh(c, s, a.i)
  }

  /** Every compare-exchange of the run is fresh.  It always is when the counter is
      unbounded; with the counter as the code is written it means that the barrier did
      not wrap at all in between. */
  ghost predicate FreshRun(c: Config, actions: seq<Action>) {
    actions == [] ||
    (var before := actions[..|actions| - 1];
     FreshRun(c, before) && FreshStep(c, Run(c, before), actions[|actions| - 1]))
  }

  lemma FreshStepFits(c: Config, s: State, a: Action)
    requires Inv(c, s) && FreshStep(c, s, a)
    ensures StepFits(c, s, a)
  {
    if a.Advance? && a.i < |s.workers| && CasMatches(s, a.i) {
      FreshCasFits(c, s, a.i);
    }
  }

  /** A run whose compare-exchanges are all fresh fits. */
  lemma {:induction false} FreshRunFits(c: Config, actions: seq<Action>)
    requires ValidConfig(c) && FreshRun(c, actions)
    ensures FitRun(c, actions)
  {
    if actions != [] {
      var before := actions[..|actions| - 1];
      FreshRunFits(c, before);
      RunKeepsInv(c, before);
      FreshStepFits(c, Run(c, before), actions[|actions| - 1]);
    }
  }

  // With an unbounded wrap counter every run is fresh.
  lemma {:induction false} UnboundedCounterIsFresh(c: Config, actions: seq<Action>)
    requires c.modulus == 0
    ensures FreshRun(c, actions)
  {
    if actions != [] {
      UnboundedCounterIsFresh(c, actions[..|actions| - 1]);
    }
  }

  // Worker `p` alone calls acquire.
  ghost predicate OneProducer(c: Config, actions: seq<Action>, p: nat) {
    forall k | 0 <= k < |actions| :: actions[k].Acquire? && actions[k].i < c.workers ==> actions[k].i == p
  }

  // Only worker `p` is inside acquire, and what it loaded is what there is.
  ghost predicate Undisturbed(s: State, p: nat) {
    forall i {:trigger s.workers[i]} | 0 <= i < |s.workers| ::
      var pc := s.workers[i].pc;
      && (pc.Detached? || pc.Registering? || pc.Idle? || i == p)
      && (pc.Loaded() ==> pc.at == |s.log|)
  }

  lemma StepUndisturbed(c: Config, s: State, a: Action, p: nat)
    requires Undisturbed(s, p) && (a.Acquire? && a.i < |s.workers| ==> a.i == p)
    ensures Undisturbed(Step(c, s, a), p)
  {
    hide GuardPasses;
    hide Target;
  }

  /** With one producer every run is fresh, whatever the counter does. */
  lemma {:induction false} OneProducerIsFresh(c: Config, actions: seq<Action>, p: nat)
    requires ValidConfig(c) && OneProducer(c, actions, p)
    ensures FreshRun(c, actions) && Undisturbed(Run(c, actions), p)
  {
    if actions != [] {
      var before, a := actions[..|actions| - 1], actions[|actions| - 1];
      OneProducerIsFresh(c, before, p);
      FreshRunFits(c, before);
      RunKeepsInv(c, before);
      var s := Run(c, before);
      assert |s.workers| == c.workers;
      StepUndisturbed(c, s, a, p);
      hide Inv;
      if a.Advance? && a.i < |s.workers| && CasMatches(s, a.i) {
        NothingClaimedIsFresh(c, s, a.i);
      }
    }
  }

  lemma NothingClaimedIsFresh(c: Config, s: State, i: nat)
    requires Inv(c, s) && i < |s.workers| && s.workers[i].pc.Loaded() && s.workers[i].pc.at == |s.log|
    ensures Fresh(c, s, i)
  {
  }

  // -------------------------------------------------------- ranges

  ghost predicate Disjoint(lo1: int, hi1: int, lo2: int, hi2: int) {
    hi1 <= lo2 || hi2 <= lo1
  }

  // The claim worker `i` owns: between its compare-exchange and produce.
  ghost predicate Owner(s: State, i: nat) {
    i < |s.workers| && s.workers[i].pc.Owns() && s.workers[i].pc.k < |s.log|
  }

  ghost function Owned(s: State, i: nat): Claim
    requires Owner(s, i)
  {
    s.log[s.workers[i].pc.k]
  }

  /** In every reachable state the ranges of different producers are inside the
      buffer and share no byte. */
  lemma ProducersDisjoint(c: Config, s: State, i: nat, j: nat)
    requires Reachable(c, s) && i != j && Owner(s, i) && Owner(s, j)
    ensures && Owned(s, i).lo < Owned(s, i).hi <= c.capacity
            && Disjoint(Owned(s, i).lo, Owned(s, i).hi, Owned(s, j).lo, Owned(s, j).hi)
  {
    ReachableInv(c, s);
    OwnedIsUnreleased(c, s, i);
    OwnedIsUnreleased(c, s, j);
    assert ClaimOk(c, s.log, s.workers[i].pc.k);
    UnreleasedDisjoint(c, s, s.workers[i].pc.k, s.workers[j].pc.k);
  }

  lemma OwnerAvoidsHeld(c: Config, s: State, i: nat)
    requires Inv(c, s) && Owner(s, i) && s.cpc.CHold?
    ensures Disjoint(Owned(s, i).lo, Owned(s, i).hi, s.cons, s.cpc.hi)
  {
    var k := s.workers[i].pc.k;
    HeldFacts(c, s);
    OwnedIsUnreleased(c, s, i);
    LogOrder(c, s.log, s.taken - 1, k);
    LogOrder(c, s.log, k, |s.log|);
  }

  // In every reachable state no producer owns a byte of what the consumer holds.
  lemma HeldRangeDisjoint(c: Config, s: State, i: nat)
    requires Reachable(c, s) && Owner(s, i) && s.cpc.CHold?
    ensures && s.cons < s.cpc.hi <= c.capacity
            && Disjoint(Owned(s, i).lo, Owned(s, i).hi, s.cons, s.cpc.hi)
  {
    ReachableInv(c, s);
    HeldFacts(c, s);
    OwnerAvoidsHeld(c, s, i);
  }

  // --------------------------------------------------- what consume returns

  // Claims [from, to) lie next to each other on one lap and fill [lo, hi).
  ghost predicate Tiles(log: seq<Claim>, from: nat, to: nat, lo: nat, hi: nat)
    requires from < to <= |log|
  {
    && log[from].lo == lo
    && log[to - 1].hi == hi
    && (forall k {:trigger log[k]} | from <= k < to :: log[k].lap == log[from].lap)
    && (forall k {:trigger log[k]} | from < k < to :: log[k].lo == log[k - 1].hi)
  }

  lemma SameLapTiles(c: Config, log: seq<Claim>, from: nat, to: nat)
    requires LogOk(c, log) && from < to <= |log| && log[from].lap == log[to - 1].lap
    ensures Tiles(log, from, to, log[from].lo, log[to - 1].hi)
  {
    forall k {:trigger log[k]} | from <= k < to
      ensures log[k].lap == log[from].lap && (from < k ==> log[k].lo == log[k - 1].hi)
    {
      assert ClaimOk(c, log, k);
      if from < k { LogOrder(c, log, from, k); }
      if k < to - 1 { LogOrder(c, log, k, to - 1); }
      if from < k - 1 { LogOrder(c, log, from, k - 1); }
    }
  }

  // Nobody still owns claim `k`.
  ghost predicate Produced(workers: seq<Worker>, k: nat) {
    forall i {:trigger workers[i]} | 0 <= i < |workers| && workers[i].pc.Owns() :: workers[i].pc.k != k
  }

  lemma HoldsAfterDecision(c: Config, s: State)
    requires !s.cpc.CHold? && Step(c, s, Scan).cpc.CHold?
    ensures s.cpc.CCheck? && s.cpc.i >= |s.workers| && Step(c, s, Scan) == Decided(c, s)
  {
  }

  // What the consumer holds ends with the last of the claims [from, taken); all claims below `taken` are produced.
  lemma HeldClaims(c: Config, s: State)
    requires Inv(c, s) && s.cpc.CHold?
    ensures s.cpc.from < s.taken <= |s.log|
    ensures Tiles(s.log, s.cpc.from, s.taken, s.log[s.cpc.from].lo, s.cpc.hi)
    ensures forall k | 0 <= k < s.taken :: Produced(s.workers, k)
  {
    SameLapTiles(c, s.log, s.cpc.from, s.taken);
    AllOwnersAbove(c, s);
  }

  /** When consume hands out a range, it is what the next claims fill, in claim order
      and without a gap, every one of them produced; claims are handed out once. */
  lemma ConsumeGivesProducedPrefix(c: Config, s: State, t: State)
    requires Reachable(c, s) && !s.cpc.CHold? && t == Step(c, s, Scan) && t.cpc.CHold?
    ensures t.log == s.log && t.cpc.from == s.taken
    ensures s.taken < t.taken <= |t.log|
    ensures Tiles(t.log, s.taken, t.taken, t.cons, t.cpc.hi)
    ensures forall k | 0 <= k < t.taken :: Produced(t.workers, k)
  {
    ReachableInv(c, s);
    HoldsAfterDecision(c, s);
    DecisionStarts(c, s);
    HeldClaims(c, t);
  }

  lemma DecisionStarts(c: Config, s: State)
    requires Inv(c, s) && s.cpc.CCheck? && s.cpc.i >= |s.workers| && Decided(c, s).cpc.CHold?
    ensures var t := Decided(c, s);
            Inv(c, t) && t.log == s.log && t.cpc.from == s.taken && s.taken < |s.log| && t.cons == s.log[s.taken].lo
  {
    HoldDecisionKeepsInv(c, s);
  }

  /** Every byte handed out is the one its producer wrote last: what the consumer may
      read of an unreleased claim is the payload recorded for it. */
  lemma UnreleasedBytesArePayload(c: Config, s: State, k: nat)
    requires Reachable(c, s) && Unreleased(s, k)
    ensures Intact(s.log, s.buf, s.data, k)
  {
    ReachableInv(c, s);
  }

  lemma OnlyWritesChangeBytes(c: Config, s: State, a: Action)
    ensures Step(c, s, a).buf == s.buf || (a.Write? && a.i < |s.workers| && s.workers[a.i].pc.Owning?)
  {
  }

  // While the consumer holds a range no step of anybody changes a byte of it.
  lemma HeldBytesAreStable(c: Config, s: State, a: Action, p: nat)
    requires Reachable(c, s) && s.cpc.CHold? && s.cons <= p < s.cpc.hi
    ensures p < |s.buf| == |Step(c, s, a).buf| && Step(c, s, a).buf[p] == s.buf[p]
  {
    ReachableInv(c, s);
    HeldFacts(c, s);
    OnlyWritesChangeBytes(c, s, a);
    if a.Write? && a.i < |s.workers| && s.workers[a.i].pc.Owning? {
      OwnedIsUnreleased(c, s, a.i);
      OwnerAvoidsHeld(c, s, a.i);
    }
  }

  // --------------------------------------------- what an empty consume means

  // A worker that is seen to start where the consumer stands owns the next claim to be popped.
  lemma OwnerAtConsumer(c: Config, s: State, i: nat)
    requires Inv(c, s) && !s.cpc.CHold? && i < |s.workers| && s.workers[i].pc.Owns()
    requires s.workers[i].seen.offset == s.cons
    ensures s.workers[i].pc.k == s.taken
  {
    assert WorkerOk(c, s, i);
    var k := s.workers[i].pc.k;
    assert ClaimOk(c, s.log, s.taken);
    if s.taken < k { LogOrder(c, s.log, s.taken, k); }
  }

  // After the sweep consume hands out nothing only if `ready` is at the consumer.
  lemma NothingAhead(c: Config, s: State)
    requires Inv(c, s) && s.cpc.CCheck? && Decided(c, s).cpc.CIdle?
    ensures s.cpc.ready == s.cons
  {
    hide WorkersOk;
    hide DataOk;
    hide Swept;
    if s.cpc.next < s.cons {
      WrapBound(c, s);
      if s.cpc.rk < s.cut && s.cpc.rk < |s.log| { LogOrder(c, s.log, s.cpc.rk, s.cut); }
      assert ClaimOk(c, s.log, s.cut - 1);
    }
  }

  // consume returns nothing only if there is no claim to pop or the next one was unfinished when it was looked at.
  lemma NothingReady(c: Config, s: State)
    requires Inv(c, s) && Scanned(c, s).cpc.CIdle? && !s.cpc.CIdle?
    ensures Scanned(c, s) == s.(cpc := CIdle)
    ensures s.taken < |s.log| ==> s.cpc.Scans() && s.cpc.ready == s.cons
  {
    hide WorkersOk;
    hide DataOk;
    hide EndOk;
    hide Swept;
    if s.cpc.CLoadNext? {
      if s.taken < |s.log| {
        assert ClaimOk(c, s.log, s.taken);
        LogOrder(c, s.log, s.taken, |s.log|);
      }
    } else {
      NothingAhead(c, s);
    }
  }

  // ------------------------------------------------------- the wrap protocol

  // The index in the `target` with which a producer claimed, which it still has at the end of acquire.
  ghost function TargetIndex(c: Config, claim: Claim): nat {
    if claim.hi == c.capacity then 0 else claim.hi
  }

  lemma ClaimedWithTarget(c: Config, s: State, i: nat)
    requires Inv(c, s) && CasFits(c, s, i)
    ensures var t := CasStep(c, s, i);
            t.log[|s.log|].worker == i && TargetIndex(c, t.log[|s.log|]) == Target(c, s.barrier, s.workers[i].pc.size).index
  {
    WorkerInv(c, s, i);
  }

  /** The assertions of MpscRingBuffer.cpp, each at the step that evaluates it. */
  ghost predicate AssertionsHold(c: Config, s: State) {
    && s.barrier.index < c.capacity
    && s.cons <= c.capacity
    && (forall i {:trigger s.workers[i]} | 0 <= i < |s.workers| ::
          var w := s.workers[i];
          && (w.pc.Idle? ==> w.seen == Seen(false, MAX_OFFSET))
          && (w.pc.Loaded() ==> w.pc.seen.index < c.capacity)
          && (w.pc.StoreEnd? ==> s.cons <= w.seen.offset && s.end == MAX_OFFSET)
          && (w.pc.Owning? ==> w.registered && w.seen.offset != MAX_OFFSET)
          && (w.pc.Owning? ==> w.pc.k < |s.log| && TargetIndex(c, s.log[w.pc.k]) <= c.capacity))
    && (s.cpc.Scans() ==>
          && s.cpc.ready >= s.cons
          && (s.cpc.CCheck? && s.cpc.next < s.cons && s.cpc.i == |s.workers| && !Decided(c, s).cpc.CClearEnd? && !Decided(c, s).cpc.CWrap? ==>
                s.cpc.ready > s.cpc.next && s.cons <= (if s.end < c.capacity then s.end else c.capacity)))
    && (s.cpc.CHold? ==> s.cons <= s.cpc.hi <= c.capacity && s.cons <= s.end)
  }

  lemma EveryAssertionHolds(c: Config, s: State)
    requires Reachable(c, s)
    ensures AssertionsHold(c, s)
  {
    ReachableInv(c, s);
    forall i {:trigger s.workers[i]} | 0 <= i < |s.workers|
      ensures var w := s.workers[i];
              && (w.pc.Idle? ==> w.seen == Seen(false, MAX_OFFSET))
              && (w.pc.Loaded() ==> w.pc.seen.index < c.capacity)
              && (w.pc.StoreEnd? ==> s.cons <= w.seen.offset && s.end == MAX_OFFSET)
              && (w.pc.Owning? ==> w.registered && w.seen.offset != MAX_OFFSET)
              && (w.pc.Owning? ==> w.pc.k < |s.log| && TargetIndex(c, s.log[w.pc.k]) <= c.capacity)
    {
      assert WorkerOk(c, s, i);
      if s.workers[i].pc.Owns() {
        assert ClaimOk(c, s.log, s.workers[i].pc.k);
      }
    }
    if s.cpc.Scans() && s.cpc.next < s.cons { WrapBound(c, s); }
    if s.cpc.CHold? {
      HeldFacts(c, s);
      if s.plap == s.clap + 1 && s.barrier.locked {
        assert WorkerOk(c, s, s.log[s.cut].worker);
      }
    }
  }

  /** `_end` holds no cut-off while producers and consumer are on the same lap, the
      producers are never more than one lap ahead, and only one producer at a time is
      between wrapping the barrier and unlocking it. */
  lemma OneCutOffAtMost(c: Config, s: State, i: nat, j: nat)
    requires Reachable(c, s)
    ensures s.plap == s.clap || s.plap == s.clap + 1
    ensures s.plap == s.clap ==> s.end == MAX_OFFSET && !s.barrier.locked
    ensures i < |s.workers| && j < |s.workers| && s.workers[i].pc.Locks() && s.workers[j].pc.Locks() ==> i == j
  {
    ReachableInv(c, s);
    assert i < |s.workers| ==> WorkerOk(c, s, i);
    assert j < |s.workers| ==> WorkerOk(c, s, j);
  }

  // The consumer goes back to 0 only when the claims of the lap it leaves are produced, the one that wrapped included.
  lemma WrapsAfterProduced(c: Config, s: State)
    requires Reachable(c, s) && (s.cpc.CClearEnd? || s.cpc.CWrap?)
    ensures forall k | 0 <= k < s.taken :: Produced(s.workers, k)
    ensures s.taken < |s.log| && s.log[s.taken].lap == s.clap + 1 && At(c, s.log, s.taken).lap == s.clap ==> Produced(s.workers, s.taken)
    ensures s.taken == s.cut && forall k | s.taken <= k < |s.log| :: s.log[k].lap == s.clap + 1
  {
    ReachableInv(c, s);
    AllOwnersAbove(c, s);
    forall i {:trigger s.workers[i]} | 0 <= i < |s.workers| && s.workers[i].pc.Owns()
      ensures s.workers[i].pc.k < |s.log|
    {
      assert WorkerOk(c, s, i);
    }
  }
}
