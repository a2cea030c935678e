/**
 What a call of acquire or consume does: what it answers, that its own steps bring it to an
 end, and what an acquire comes to when nobody disturbs it.
 */
module RingCalls {
  import opened RingProtocol
  import opened RingInvariant
  import opened RingSafety
  import opened RingBuffer

  // ------------------------------------------------------ acquire's answers

  predicate Acquiring(pc: PC) { pc.LoadNext? || pc.Loaded() || pc.Fail? }

  // What the call has been asked for, up to where it is refused.
  predicate Asks(pc: PC, size: nat) { (pc.LoadNext? || pc.Loaded()) ==> pc.size == size }

  predicate Called(c: Config, s: State, a: Action, i: nat) {
    a.Acquire? && a.i == i && i < |s.workers| && s.workers[i].pc.Idle? && 0 < a.size <= c.capacity
  }

  // The size that worker `i` last called acquire for.
  function Asked(c: Config, actions: seq<Action>, i: nat): nat {
    if actions == [] then 0
    else
      var before, a := actions[..|actions| - 1], actions[|actions| - 1];
      if Called(c, Run(c, before), a, i) then a.size else Asked(c, before, i)
  }

  // How many claims there were when worker `i` last called acquire.
  function ClaimsAtCall(c: Config, actions: seq<Action>, i: nat): nat {
    if actions == [] then 0
    else
      var before, a := actions[..|actions| - 1], actions[|actions| - 1];
      if Called(c, Run(c, before), a, i) then |Run(c, before).log| else ClaimsAtCall(c, before, i)
  }

  // Whose step it is; the consumer's are nobody's.
  predicate By(a: Action, i: nat) { !a.Consume? && !a.Scan? && !a.Release? && a.i == i }

  // Nobody moves another worker.
  lemma OthersStay(c: Config, s: State, a: Action, i: nat)
    requires i < |s.workers| && !By(a, i)
    ensures |Step(c, s, a).workers| == |s.workers| && Step(c, s, a).workers[i] == s.workers[i] && |s.log| <= |Step(c, s, a).log|
  {
    hide GuardPasses;
    hide Target;
  }

  // How a worker moves through acquire, whoever acts.
  lemma StepOfAcquire(c: Config, s: State, a: Action, i: nat)
    requires i < |s.workers|
    ensures var pc, t := s.workers[i].pc, Step(c, s, a);
            && |t.workers| == |s.workers| && |s.log| <= |t.log|
            && (!Called(c, s, a, i) && (t.workers[i].pc.LoadNext? || t.workers[i].pc.Loaded()) ==>
                  (pc.LoadNext? || pc.Loaded()) && pc.size == t.workers[i].pc.size)
            && (Called(c, s, a, i) ==> t.workers[i].pc == LoadNext(a.size) && t.log == s.log)
            && (t.workers[i].pc.Loaded() ==> if pc.Loaded() then t.workers[i].pc.at == pc.at else t.workers[i].pc.at == |s.log|)
  {
    hide GuardPasses;
    hide Target;
    if !By(a, i) {
      OthersStay(c, s, a, i);
      hide Step;
    }
  }

  lemma {:induction false} AsksAsCalled(c: Config, actions: seq<Action>, i: nat)
    requires i < |Run(c, actions).workers|
    ensures var s := Run(c, actions); var pc := s.workers[i].pc;
            && Asks(pc, Asked(c, actions, i))
            && ClaimsAtCall(c, actions, i) <= |s.log|
            && (pc.Loaded() ==> ClaimsAtCall(c, actions, i) <= pc.at)
  {
    hide Step;
    if actions != [] {
      var before, a := actions[..|actions| - 1], actions[|actions| - 1];
      SameNumber(c, Run(c, before), a);
      AsksAsCalled(c, before, i);
      StepOfAcquire(c, Run(c, before), a, i);
    }
  }

  lemma SameNumber(c: Config, s: State, a: Action)
    ensures |Step(c, s, a).workers| == |s.workers|
  {
  }

  // The only step that refuses.
  lemma RefusedOnlyForSpace(c: Config, s: State, a: Action, i: nat)
    requires i < |s.workers| && !s.workers[i].pc.Fail? && i < |Step(c, s, a).workers| && Step(c, s, a).workers[i].pc.Fail?
    ensures var pc := s.workers[i].pc;
            a == Advance(i) && pc.ReadWritten? && !GuardPasses(c, pc.seen.index, pc.size, s.cons)
  {
    hide GuardPasses;
  }

  // How acquire goes on, or ends.
  lemma AcquireEnds(c: Config, s: State, a: Action, i: nat)
    requires i < |s.workers| && Acquiring(s.workers[i].pc)
    ensures var t, pc := Step(c, s, a), s.workers[i].pc;
            && |t.workers| == |s.workers|
            && (Acquiring(t.workers[i].pc) || a == Advance(i))
            && (t.workers[i].pc.Owns() ==> a == Advance(i) && CasMatches(s, i) && t == CasStep(c, s, i))
            && (t.workers[i].pc.Idle? ==> pc.Fail? && t == Put(s, i, s.workers[i].(pc := Idle, seen := Seen(false, MAX_OFFSET))))
  {
    hide GuardPasses;
    hide Target;
    if !By(a, i) {
      OthersStay(c, s, a, i);
      hide Step;
    }
  }

  lemma ClaimMade(c: Config, s: State, i: nat)
    requires i < |s.workers| && CasMatches(s, i)
    ensures var t, size := CasStep(c, s, i), s.workers[i].pc.size;
            && |t.workers| == |s.workers| && t.workers[i].pc.Owns()
            && |t.log| == |s.log| + 1 && t.workers[i].pc.k == |s.log|
            && t.log[|s.log|] == if s.barrier.index + size <= c.capacity
                                 then Claim(i, s.plap, s.barrier.index, s.barrier.index + size)
                                 else Claim(i, s.plap + 1, 0, size)
  {
  }

  /** What acquire answers.  While the call lasts it asks for what it was called with.  It ends
      with a claim of exactly that many bytes, which starts over at 0 only if they do not fit
      behind the last one; or else with a space check that fails, for that size, against the
      consumer as it is then and a barrier that was there during the call. */
  lemma AcquireAnswers(c: Config, actions: seq<Action>, a: Action, i: nat)
    requires ValidConfig(c) && FitRun(c, actions)
    requires i < |Run(c, actions).workers| && Acquiring(Run(c, actions).workers[i].pc)
    ensures var s := Run(c, actions); var t := Step(c, s, a); var pc := s.workers[i].pc; var size := Asked(c, actions, i);
            && |t.workers| == |s.workers|
            && (Acquiring(t.workers[i].pc) || a == Advance(i))
            && (t.workers[i].pc.Owns() ==>
                  && |t.log| == |s.log| + 1 && t.workers[i].pc.k == |s.log|
                  && t.log[|s.log|] == if s.barrier.index + size <= c.capacity
                                       then Claim(i, s.plap, s.barrier.index, s.barrier.index + size)
                                       else Claim(i, s.plap + 1, 0, size))
            && (t.workers[i].pc.Fail? && !pc.Fail? ==>
                  && pc.ReadWritten? && !GuardPasses(c, pc.seen.index, size, s.cons)
                  && ClaimsAtCall(c, actions, i) <= pc.at <= |s.log| && pc.seen.index == At(c, s.log, pc.at).idx)
            && (t.workers[i].pc.Idle? ==> pc.Fail? && t == Put(s, i, s.workers[i].(pc := Idle, seen := Seen(false, MAX_OFFSET))))
  {
    var s := Run(c, actions);
    AsksAsCalled(c, actions, i);
    RunKeepsInv(c, actions);
    WorkerInv(c, s, i);
    AcquireEnds(c, s, a, i);
    if CasMatches(s, i) { ClaimMade(c, s, i); }
    hide Run;
    hide Inv;
    hide GuardPasses;
    hide CasStep;
    hide Step;
    hide Conservative;
    if i < |Step(c, s, a).workers| && Step(c, s, a).workers[i].pc.Fail? && !s.workers[i].pc.Fail? {
      RefusedOnlyForSpace(c, s, a, i);
    }
  }

  // ----------------------------------------------------- acquire's progress

  // How many of its own steps worker `i` is at most away from the end of acquire.
  function AcquireLeft(s: State, i: nat): nat
    requires i < |s.workers|
  {
    var pc := s.workers[i].pc;
    match pc
    case LoadNext(_) => 8
    case PublishSeen(_, seen, _) => if seen == s.barrier then 7 else 11
    case ReadWritten(_, seen, _) => if seen == s.barrier then 6 else 10
    case TryCas(_, seen, _, _) => if seen == s.barrier then 5 else 9
    case UnlockSeen(_, wraps) => if wraps then 3 else 1
    case StoreEnd(_) => 2
    case UnlockBarrier(_) => 1
    case Fail => 1
    case _ => 0
  }

  lemma AcquireGoesOn(c: Config, s: State, i: nat)
    requires i < |s.workers| && AcquireLeft(s, i) > 0
    ensures var t := Step(c, s, Advance(i));
            |t.workers| == |s.workers| &&
            if s.workers[i].pc.LoadNext? && s.barrier.locked then t == s else AcquireLeft(t, i) < AcquireLeft(s, i)
  {
    hide GuardPasses;
    hide Target;
  }

  /** The only wait of acquire is for a locked barrier, and then some other worker holds the
      lock and has at most three steps to its end; any other step of its own brings acquire
      closer to its end, unless somebody claims in between. */
  lemma OwnStepsGoOn(c: Config, s: State, i: nat)
    requires Reachable(c, s) && i < |s.workers| && AcquireLeft(s, i) > 0
    ensures var t := Step(c, s, Advance(i));
            |t.workers| == |s.workers| &&
            if s.workers[i].pc.LoadNext? && s.barrier.locked then
              t == s && exists u: nat :: u < |s.workers| && u != i && s.workers[u].pc.Locks() && 0 < AcquireLeft(s, u) <= 3
            else AcquireLeft(t, i) < AcquireLeft(s, i)
  {
    AcquireGoesOn(c, s, i);
    ReachableInv(c, s);
    if s.workers[i].pc.LoadNext? && s.barrier.locked {
      var u := s.log[s.cut].worker;
      assert s.workers[u].pc.Locks() && 0 < AcquireLeft(s, u) <= 3;
    }
  }

  /** A compare-and-swap that fails, other than for no reason, has lost to another claim. */
  lemma LostToAClaim(c: Config, s: State, i: nat)
    requires Reachable(c, s) && i < |s.workers| && s.workers[i].pc.TryCas? && !CasMatches(s, i)
    ensures Step(c, s, Advance(i)) == Put(s, i, s.workers[i].(pc := LoadNext(s.workers[i].pc.size)))
    ensures s.barrier.locked || s.workers[i].pc.at < |s.log|
  {
    ReachableInv(c, s);
    WorkerInv(c, s, i);
  }

  // Worker `i` takes `n` steps, and nobody else does anything.
  function Alone(c: Config, s: State, i: nat, n: nat): State
    decreases n
  {
    if n == 0 then s else Alone(c, Step(c, s, Advance(i)), i, n - 1)
  }

  lemma {:induction false} AloneOn(c: Config, s: State, i: nat, m: nat, n: nat)
    ensures Alone(c, s, i, m + n) == Alone(c, Alone(c, s, i, m), i, n)
    decreases m
  {
    hide Step;
    if m > 0 { AloneOn(c, Step(c, s, Advance(i)), i, m - 1, n); }
  }

  lemma Thrice(c: Config, s: State, i: nat)
    ensures Alone(c, s, i, 3) == Step(c, Step(c, Step(c, s, Advance(i)), Advance(i)), Advance(i))
  {
    hide Step;
    var s2 := Step(c, Step(c, s, Advance(i)), Advance(i));
    assert Alone(c, s2, i, 1) == Alone(c, Step(c, s2, Advance(i)), i, 0);
  }

  // The loads, and the space check.
  lemma LooksAlone(c: Config, s: State, i: nat, size: nat)
    requires i < |s.workers| && s.workers[i].pc.Idle? && !s.barrier.locked && 0 < size <= c.capacity
    ensures var w := s.workers[i];
            Alone(c, Step(c, s, Acquire(i, size)), i, 3) ==
              Put(s, i, w.(pc := if GuardPasses(c, s.barrier.index, size, s.cons) then TryCas(size, s.barrier, |s.log|, s.cons) else Fail,
                           seen := Seen(true, s.barrier.index)))
  {
    hide GuardPasses;
    var s0, w := Step(c, s, Acquire(i, size)), s.workers[i];
    var s1 := Put(s, i, w.(pc := PublishSeen(size, s.barrier, |s.log|)));
    assert Step(c, s0, Advance(i)) == s1;
    var s2 := Put(s, i, w.(pc := ReadWritten(size, s.barrier, |s.log|), seen := Seen(true, s.barrier.index)));
    assert Step(c, s1, Advance(i)) == s2;
    Thrice(c, s0, i);
    hide Alone;
  }

  // The compare-and-swap and what follows.
  lemma ClaimsAlone(c: Config, s: State, i: nat)
    requires i < |s.workers| && CasMatches(s, i) && !s.barrier.locked && s.workers[i].seen == Seen(true, s.barrier.index)
    ensures var t, k := CasStep(c, s, i), |s.log|;
            Alone(c, s, i, if t.barrier.locked then 4 else 2) ==
              t.(workers := s.workers[i := Worker(Owning(k), s.workers[i].registered, Seen(false, s.barrier.index))],
                 end := if t.barrier.locked then s.barrier.index else s.end,
                 barrier := t.barrier.(locked := false))
  {
    var t := CasStep(c, s, i);
    assert Step(c, s, Advance(i)) == t && t.workers[i].pc.UnlockSeen?;
    hide CasStep;
    hide Target;
    Thrice(c, t, i);
    assert Alone(c, s, i, 4) == Alone(c, t, i, 3);
    assert Alone(c, s, i, 2) == Alone(c, t, i, 1) == Step(c, t, Advance(i)) by {
      assert Alone(c, Step(c, t, Advance(i)), i, 0) == Step(c, t, Advance(i));
    }
    hide Alone;
    CasFields(c, s, i);
  }

  lemma CasFields(c: Config, s: State, i: nat)
    requires i < |s.workers| && CasMatches(s, i)
    ensures var t := CasStep(c, s, i);
            && t.workers == s.workers[i := s.workers[i].(pc := UnlockSeen(|s.log|, t.barrier.locked))] && t.end == s.end
  {
  }

  lemma GrantedAlone(c: Config, s: State, s3: State, i: nat, size: nat)
    requires i < |s.workers| && GuardPasses(c, s.barrier.index, size, s.cons) && !s.barrier.locked
    requires s3 == Put(s, i, s.workers[i].(pc := TryCas(size, s.barrier, |s.log|, s.cons), seen := Seen(true, s.barrier.index)))
    ensures Alone(c, s3, i, if s.barrier.index + size > c.capacity then 4 else 2) == Acquired(c, s, i, size)
  {
    ClaimsAlone(c, s3, i);
    hide Alone;
    hide GuardPasses;
  }

  /** An acquire that nobody disturbs takes at most eight steps, and comes to what the object's
      does: the claim if the space check passes, and otherwise nothing. */
  lemma AcquireAlone(c: Config, s: State, i: nat, size: nat)
    requires Reachable(c, s) && i < |s.workers| && s.workers[i].pc.Idle? && !s.barrier.locked && 0 < size <= c.capacity
    ensures var fits := GuardPasses(c, s.barrier.index, size, s.cons);
            Alone(c, Step(c, s, Acquire(i, size)), i,
                  if !fits then 4 else if s.barrier.index + size > c.capacity then 7 else 5) == Acquired(c, s, i, size)
  {
    hide Inv;
    hide Reachable;
    hide Alone;
    hide Step;
    hide Acquired;
    IdleIsClean(c, s, i);
    var s0 := Step(c, s, Acquire(i, size));
    LooksAlone(c, s, i, size);
    var s3 := Alone(c, s0, i, 3);
    if GuardPasses(c, s.barrier.index, size, s.cons) {
      GrantedAlone(c, s, s3, i, size);
      AloneOn(c, s0, i, 3, if s.barrier.index + size > c.capacity then 4 else 2);
    } else {
      AloneOn(c, s0, i, 3, 1);
      RefusedAlone(c, s, s3, i);
      RefusedIsSame(c, s, i, size);
    }
  }

  lemma RefusedIsSame(c: Config, s: State, i: nat, size: nat)
    requires i < |s.workers| && !GuardPasses(c, s.barrier.index, size, s.cons)
    ensures Acquired(c, s, i, size) == s
  {
  }

  lemma IdleIsClean(c: Config, s: State, i: nat)
    requires Reachable(c, s) && i < |s.workers| && s.workers[i].pc.Idle?
    ensures s.workers[i].seen == Seen(false, MAX_OFFSET)
  {
    ReachableInv(c, s);
    WorkerInv(c, s, i);
  }

  lemma RefusedAlone(c: Config, s: State, s3: State, i: nat)
    requires i < |s.workers| && s.workers[i].pc.Idle? && s.workers[i].seen == Seen(false, MAX_OFFSET)
    requires s3 == Put(s, i, s.workers[i].(pc := Fail, seen := Seen(true, s.barrier.index)))
    ensures Alone(c, s3, i, 1) == s
  {
    assert Alone(c, Step(c, s3, Advance(i)), i, 0) == Step(c, s3, Advance(i));
    assert s.workers[i := s3.workers[i]][i := s.workers[i]] == s.workers;
  }

  /** A writer that goes is no longer registered, and one that comes with its number is idle
      again, with nothing seen. */
  lemma UnregisterAndRegister(c: Config, s: State, i: nat)
    requires Reachable(c, s) && i < |s.workers| && s.workers[i].pc.Idle?
    ensures var t := Step(c, s, Unregister(i));
            && |t.workers| == |s.workers| && t.workers[i].pc.Detached? && !t.workers[i].registered
            && Step(c, Step(c, t, Register(i)), Register(i)) == s
  {
    ReachableInv(c, s);
    WorkerInv(c, s, i);
    hide Inv;
    var t, w := Step(c, s, Unregister(i)), s.workers[i];
    var u := Step(c, t, Register(i));
    assert u == Put(s, i, Worker(Registering, false, Seen(false, MAX_OFFSET)));
    assert s.workers[i := u.workers[i]][i := w] == s.workers;
  }

  // ----------------------------------------------------- consume's progress

  // The consumer can only look again: at a barrier, or at a `_seen`, that is locked.
  ghost predicate Waits(s: State) {
    || (s.cpc.CLoadNext? && s.barrier.locked)
    || (s.cpc.CReadSeen? && s.cpc.i < |s.workers| && s.workers[s.cpc.i].seen.locked)
  }

  // How many of its own steps consume is at most away from its end, if nobody claims meanwhile.
  function ConsumeLeft(s: State): int {
    var n := |s.workers|;
    (if s.clap < s.plap then 2 * n + 5 else 0) +
    match s.cpc
    case CLoadNext => 2 * n + 4
    case CCheck(i, _, _, _, _) => 2 * (n - i) + 3
    case CReadSeen(i, _, _, _, _) => 2 * (n - i) + 2
    case CClearEnd => 2
    case CWrap => 1
    case _ => 0
  }

  // What the consumer's progress depends on.
  lemma ConsumerStands(c: Config, s: State)
    requires Inv(c, s)
    ensures s.clap <= s.plap <= s.clap + 1
    ensures s.cpc.Scans() ==> s.cpc.i <= |s.workers|
    ensures s.cpc.CReadSeen? ==> s.cpc.i < |s.workers|
    ensures s.cpc.CWrap? ==> s.plap == s.clap + 1
  {
  }

  lemma ScanGoesOn(c: Config, s: State)
    requires !s.cpc.CIdle? && !s.cpc.CHold? && !Waits(s)
    requires s.clap <= s.plap <= s.clap + 1
    requires s.cpc.Scans() ==> s.cpc.i <= |s.workers|
    requires s.cpc.CReadSeen? ==> s.cpc.i < |s.workers|
    requires s.cpc.CWrap? ==> s.plap == s.clap + 1
    ensures 0 <= ConsumeLeft(Scanned(c, s)) < ConsumeLeft(s)
  {
  }

  // Somebody is inside acquire and does not wait.
  ghost predicate SomebodyGoesOn(s: State) {
    exists u: nat {:trigger s.workers[u]} :: u < |s.workers| && 0 < AcquireLeft(s, u) && !(s.workers[u].pc.LoadNext? && s.barrier.locked)
  }

  lemma LockIsHeld(c: Config, s: State)
    requires Inv(c, s) && s.barrier.locked
    ensures SomebodyGoesOn(s)
  {
    var u := s.log[s.cut].worker;
    assert s.workers[u].pc.Locks();
  }

  lemma SeenIsHeld(c: Config, s: State, u: nat)
    requires Inv(c, s) && u < |s.workers| && s.workers[u].seen.locked && (s.workers[u].pc.Detached? ==> !s.workers[u].seen.locked)
    ensures SomebodyGoesOn(s)
  {
    WorkerInv(c, s, u);
    if s.barrier.locked { LockIsHeld(c, s); }
    hide Inv;
    assert s.workers[u].pc.LoadNext? || s.workers[u].pc.Loaded() || s.workers[u].pc.Fail? || s.workers[u].pc.UnlockSeen?;
  }

  /** consume waits only for a locked word, and then somebody is inside acquire and does not
      wait; any other step of its own brings it closer to its end. */
  lemma ConsumeGoesOn(c: Config, s: State)
    requires Reachable(c, s) && !s.cpc.CIdle? && !s.cpc.CHold?
    ensures if Waits(s) then Step(c, s, Scan) == s && SomebodyGoesOn(s)
            else 0 <= ConsumeLeft(Step(c, s, Scan)) < ConsumeLeft(s)
  {
    ReachableInv(c, s);
    hide Reachable;
    ConsumerStands(c, s);
    if s.cpc.CLoadNext? && s.barrier.locked {
      LockIsHeld(c, s);
      hide Inv;
    } else if Waits(s) {
      SeenIsHeld(c, s, s.cpc.i);
      hide Inv;
    } else {
      hide Inv;
      ScanGoesOn(c, s);
      hide Scanned;
      hide ConsumeLeft;
    }
  }
}
