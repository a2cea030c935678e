/**
 BasicSemaphore: a count split between an atomic and a variable under a mutex.  A step is
 one atomic operation, or one critical section with its wait on the condition variable.
 */
module Semaphore {

  /** A thread that has not returned from wait, waitUntil or notify.  A waiter on the slow
      path is about to test `_count > 0`, or asleep on the condition variable; `timed` is
      for waitUntil.  A notifier still has to increment `_count`, or to call notify_one. */
  datatype PC = Idle | Testing(timed: bool) | Asleep(timed: bool) | Posting | Signalling

  datatype State = State(
    atomic: int, count: int, threads: seq<PC>,
    // history since the start or the last reset
    initial: int, notifies: nat, waits: nat, passes: nat, timeouts: nat)

  datatype Action =
    | Notify(t: nat)
    | Wait(t: nat, timed: bool)
    | Test(t: nat)
    | TimeOut(t: nat)
    | WakeSpuriously(t: nat)
    | Post(t: nat)
    | Signal(t: nat, woken: nat)
    | Reset

  function Initial(count: int, threads: nat): State {
    State(0, count, seq(threads, _ => Idle), count, 0, 0, 0, 0)
  }

  // How many threads are at `pc`.
  function Num(threads: seq<PC>, pc: PC): nat { multiset(threads)[pc] }
  function TestingNow(threads: seq<PC>): nat { Num(threads, Testing(true)) + Num(threads, Testing(false)) }
  function AsleepNow(threads: seq<PC>): nat { Num(threads, Asleep(true)) + Num(threads, Asleep(false)) }
  function Slow(threads: seq<PC>): nat { TestingNow(threads) + AsleepNow(threads) }
  function Positive(x: int): nat { if x > 0 then x else 0 }

  predicate At(s: State, t: nat, pc: PC) { t < |s.threads| && s.threads[t] == pc }

  predicate NobodyInFlight(s: State) { forall i :: 0 <= i < |s.threads| ==> s.threads[i].Idle? }

  // reset, called with nobody in flight: `_count` is cleared only below zero.
  function ResetOf(s: State): State {
    var count := if s.atomic < 0 then 0 else s.count;
    State(0, count, s.threads, count, 0, 0, 0, 0)
  }

  function Step(s: State, a: Action): State {
    match a
    case Notify(t) =>
      if !At(s, t, Idle) then s
      else s.(atomic := s.atomic + 1, notifies := s.notifies + 1,
              threads := s.threads[t := if s.atomic < 0 then Posting else Idle])
    case Wait(t, timed) =>
      if !At(s, t, Idle) then s
      else if s.atomic < 1 then s.(atomic := s.atomic - 1, waits := s.waits + 1, threads := s.threads[t := Testing(timed)])
      else s.(atomic := s.atomic - 1, waits := s.waits + 1, passes := s.passes + 1)
    case Test(t) =>
      if t >= |s.threads| || !s.threads[t].Testing? then s
      else if s.count > 0 then s.(count := s.count - 1, passes := s.passes + 1, threads := s.threads[t := Idle])
      else s.(threads := s.threads[t := Asleep(s.threads[t].timed)])
    case TimeOut(t) =>
      // wait_until returns the value of the predicate, and `_count` goes down either way
      if !At(s, t, Asleep(true)) then s
      else if s.count > 0 then s.(count := s.count - 1, passes := s.passes + 1, threads := s.threads[t := Idle])
      else s.(count := s.count - 1, timeouts := s.timeouts + 1, threads := s.threads[t := Idle])
    case WakeSpuriously(t) =>
      if t < |s.threads| && s.threads[t].Asleep? then s.(threads := s.threads[t := Testing(s.threads[t].timed)]) else s
    case Post(t) =>
      if !At(s, t, Posting) then s
      else s.(count := s.count + 1, threads := s.threads[t := Signalling])
    case Signal(t, woken) =>
      // notify_one wakes some sleeper, if there is one
      if !At(s, t, Signalling) then s
      else if woken < |s.threads| && s.threads[woken].Asleep?
      then s.(threads := s.threads[t := Idle][woken := Testing(s.threads[woken].timed)])
      else if AsleepNow(s.threads) == 0 then s.(threads := s.threads[t := Idle])
      else s
    case Reset =>
      if NobodyInFlight(s) then ResetOf(s) else s
  }

  ghost predicate Inv(s: State) {
    && 0 <= s.initial
    && Slow(s.threads) + s.initial == s.count + Num(s.threads, Posting) + Positive(-s.atomic)
    && s.atomic == s.notifies - s.waits
    && s.waits == s.passes + s.timeouts + Slow(s.threads)
    && s.count + s.timeouts >= 0
    && (AsleepNow(s.threads) > 0 ==> s.count <= TestingNow(s.threads) + Num(s.threads, Signalling))
  }

  // One thread moving changes two counts by one.
  lemma Moved(threads: seq<PC>, t: nat, pc: PC, q: PC)
    requires t < |threads|
    ensures multiset(threads[t := pc])[q] ==
              multiset(threads)[q] - (if threads[t] == q then 1 else 0) + (if pc == q then 1 else 0)
  {
    assert threads[t] in multiset(threads);
  }

  lemma Counts(threads: seq<PC>, t: nat, pc: PC)
    requires t < |threads|
    ensures var r := threads[t := pc];
            && TestingNow(r) == TestingNow(threads) - (if threads[t].Testing? then 1 else 0) + (if pc.Testing? then 1 else 0)
            && AsleepNow(r) == AsleepNow(threads) - (if threads[t].Asleep? then 1 else 0) + (if pc.Asleep? then 1 else 0)
            && Num(r, Posting) == Num(threads, Posting) - (if threads[t].Posting? then 1 else 0) + (if pc.Posting? then 1 else 0)
            && Num(r, Signalling) == Num(threads, Signalling) - (if threads[t].Signalling? then 1 else 0) + (if pc.Signalling? then 1 else 0)
  {
    Moved(threads, t, pc, Testing(true));
    Moved(threads, t, pc, Testing(false));
    Moved(threads, t, pc, Asleep(true));
    Moved(threads, t, pc, Asleep(false));
    Moved(threads, t, pc, Posting);
    Moved(threads, t, pc, Signalling);
  }

  lemma InitialInv(count: nat, threads: nat)
    ensures Inv(Initial(count, threads))
  {
  }

  lemma ResetKeepsInv(s: State)
    requires Inv(s) && NobodyInFlight(s)
    ensures Slow(s.threads) == 0 && Num(s.threads, Posting) == 0 && Inv(ResetOf(s))
  {
  }

  lemma SignalKeepsInv(s: State, t: nat, woken: nat)
    requires Inv(s) && At(s, t, Signalling)
    ensures Inv(Step(s, Signal(t, woken)))
  {
    hide Num;
    hide TestingNow;
    hide AsleepNow;
    Counts(s.threads, t, Idle);
    if woken < |s.threads| && s.threads[woken].Asleep? {
      Counts(s.threads[t := Idle], woken, Testing(s.threads[woken].timed));
    }
  }

  lemma StepKeepsInv(s: State, a: Action)
    requires Inv(s)
    ensures Inv(Step(s, a))
  {
    hide Num;
    hide TestingNow;
    hide AsleepNow;
    match a
    case Signal(t, woken) => if At(s, t, Signalling) { SignalKeepsInv(s, t, woken); }
    case Reset => if NobodyInFlight(s) { ResetKeepsInv(s); }
    case _ =>
      var r := Step(s, a);
      if r != s {
        Counts(s.threads, a.t, r.threads[a.t]);
        assert r.threads == s.threads[a.t := r.threads[a.t]];
      }
  }

  // ---------------------------------------------------------------- runs

  function Run(count: int, threads: nat, actions: seq<Action>): State {
    if actions == [] then Initial(count, threads)
    else Step(Run(count, threads, actions[..|actions| - 1]), actions[|actions| - 1])
  }

  ghost predicate Reachable(s: State) {
    exists count: nat, threads: nat, actions :: s == Run(count, threads, actions)
  }

  lemma {:induction false} RunKeepsInv(count: nat, threads: nat, actions: seq<Action>)
    ensures Inv(Run(count, threads, actions))
  {
    if actions == [] {
      InitialInv(count, threads);
    } else {
      RunKeepsInv(count, threads, actions[..|actions| - 1]);
      StepKeepsInv(Run(count, threads, actions[..|actions| - 1]), actions[|actions| - 1]);
    }
  }

  lemma ReachableInv(s: State)
    requires Reachable(s)
    ensures Inv(s)
  {
    var count: nat, threads: nat, actions :| s == Run(count, threads, actions);
    RunKeepsInv(count, threads, actions);
  }

  /** Conservation, in every interleaving: the slow waiters and the permits at the start are
      `_count`, the notifiers about to increment it, and what the atomic is below zero. */
  lemma Conservation(s: State)
    requires Reachable(s)
    ensures Slow(s.threads) + s.initial == s.count + Num(s.threads, Posting) + Positive(-s.atomic)
  {
    ReachableInv(s);
  }

  /** Every permit is accounted for: it let a wait pass, was spent by a wait that timed out,
      or is still in `_count`, in a notifier's hands or in the atomic.  So no more waits
      return true than there were permits. */
  lemma PermitsAreAccountedFor(s: State)
    requires Reachable(s)
    ensures s.passes + s.timeouts + s.count + Num(s.threads, Posting) + Positive(s.atomic) == s.initial + s.notifies
    ensures s.passes <= s.initial + s.notifies
  {
    ReachableInv(s);
  }

  // What a wait answers with this step, if it comes back at all: by the atomic, by the
  // predicate, or because its time is over.
  datatype Answer = Nothing | Passed | TimedOut

  function Answered(s: State, a: Action): Answer {
    match a
    case Wait(t, _) => if At(s, t, Idle) && s.atomic > 0 then Passed else Nothing
    case Test(t) => if t < |s.threads| && s.threads[t].Testing? && s.count > 0 then Passed else Nothing
    case TimeOut(t) => if At(s, t, Asleep(true)) then (if s.count > 0 then Passed else TimedOut) else Nothing
    case _ => Nothing
  }

  // The thread has called wait or waitUntil and has not come back.
  predicate Inside(s: State, t: nat) { t < |s.threads| && (s.threads[t].Testing? || s.threads[t].Asleep?) }

  /** A wait comes back only with an answer, and the answer is whether there was a permit: a
      wait whose time is over still takes one that has come in the meantime. */
  lemma AnswersAreRight(s: State, a: Action)
    requires Reachable(s)
    ensures var r := Step(s, a);
            && r.passes == (if a.Reset? && NobodyInFlight(s) then 0 else s.passes + if Answered(s, a).Passed? then 1 else 0)
            && r.timeouts == (if a.Reset? && NobodyInFlight(s) then 0 else s.timeouts + if Answered(s, a).TimedOut? then 1 else 0)
            && (forall t | Inside(s, t) :: Inside(r, t) <==> !(a.Test? || a.TimeOut?) || a.t != t || Answered(s, a).Nothing?)
  {
    hide AsleepNow;
  }

  ghost predicate Counted(answers: seq<Answer>, passes: nat, timeouts: nat) {
    multiset(answers)[Passed] == passes && multiset(answers)[TimedOut] == timeouts
  }

  // The answers of a run without reset, in order.
  function Answers(count: nat, threads: nat, actions: seq<Action>): seq<Answer> {
    if actions == [] then []
    else Answers(count, threads, actions[..|actions| - 1]) +
         [Answered(Run(count, threads, actions[..|actions| - 1]), actions[|actions| - 1])]
  }

  /** Over a run without reset, `passes` and `timeouts` count the answers given. */
  lemma {:induction false} AnswersAreCounted(count: nat, threads: nat, actions: seq<Action>)
    requires forall k :: 0 <= k < |actions| ==> !actions[k].Reset?
    ensures Counted(Answers(count, threads, actions), Run(count, threads, actions).passes, Run(count, threads, actions).timeouts)
  {
    if actions != [] {
      var before, a := actions[..|actions| - 1], actions[|actions| - 1];
      AnswersAreCounted(count, threads, before);
      assert Reachable(Run(count, threads, before));
      AnswersAreRight(Run(count, threads, before), a);
      hide Step;
      hide Answered;
    }
  }

  /** A sleeper that wakes up for no reason tests again, and goes back to sleep unless there
      is a permit. */
  lemma SpuriousWakeUpsAreHarmless(s: State, t: nat)
    requires t < |s.threads| && s.threads[t].Asleep?
    ensures var r := Step(s, WakeSpuriously(t));
            r.threads[t] == Testing(s.threads[t].timed) && (s.count <= 0 ==> Step(r, Test(t)) == s)
  {
    assert s.threads[t := Testing(s.threads[t].timed)][t := s.threads[t]] == s.threads;
  }

  predicate AtRest(s: State) { forall i :: 0 <= i < |s.threads| ==> s.threads[i].Idle? || s.threads[i].Asleep? }

  // How many permits the callers are short of: waits that are neither passed over nor
  // given up, against the permits there were.
  function Shortage(s: State): nat { Positive(s.waits - s.timeouts - s.notifies - s.initial) }

  // The permits a wait could still take.
  function Available(s: State): nat { Positive(s.count) + Positive(s.atomic) }

  lemma AtRestNobodyMoves(s: State)
    requires AtRest(s)
    ensures TestingNow(s.threads) == 0 && Num(s.threads, Posting) == 0 && Num(s.threads, Signalling) == 0
  {
    assert Num(s.threads, Testing(true)) == 0 && Num(s.threads, Testing(false)) == 0;
  }

  /** No fewer threads sleep at rest than the shortage of permits.  More do exactly when
      somebody sleeps and permits were swallowed: `_count` + timeouts of them, by waits
      that had timed out.  Where no wait times out, the sleepers are the shortage. */
  lemma BlockedAtRest(s: State)
    requires Reachable(s) && AtRest(s)
    ensures AsleepNow(s.threads) >= Shortage(s) && s.count + s.timeouts >= 0
    ensures AsleepNow(s.threads) > 0 ==>
              AsleepNow(s.threads) - (s.waits - s.timeouts - s.notifies - s.initial) == s.count + s.timeouts
    ensures AsleepNow(s.threads) == Shortage(s) <==> AsleepNow(s.threads) == 0 || s.count + s.timeouts == 0
    ensures s.timeouts == 0 ==> AsleepNow(s.threads) == Shortage(s)
  {
    ReachableInv(s);
    AtRestNobodyMoves(s);
  }

  /** Which permits are swallowed: a notify at rest makes one more permit available if and
      only if no wait that timed out is still owed one, that is, `_count` is not negative. */
  lemma NotifyAtRest(s: State, t: nat)
    requires Reachable(s) && AtRest(s) && At(s, t, Idle)
    ensures var r := Step(Step(s, Notify(t)), Post(t));
            Available(r) == Available(s) + (if s.count >= 0 then 1 else 0)
  {
    ReachableInv(s);
    AtRestNobodyMoves(s);
  }

  // What makes it negative is a wait that gives up without having had a permit.
  lemma TimeOutGoesIntoDebt(s: State, t: nat)
    requires Reachable(s) && At(s, t, Asleep(true)) && s.count <= 0
    ensures var r := Step(s, TimeOut(t));
            Positive(-r.count) == Positive(-s.count) + 1 && Available(r) == Available(s)
  {
    ReachableInv(s);
  }

  ghost predicate Untimed(s: State) {
    s.timeouts == 0 && forall i :: 0 <= i < |s.threads| ==> s.threads[i] != Testing(true) && s.threads[i] != Asleep(true)
  }

  lemma StepKeepsUntimed(s: State, a: Action)
    requires Untimed(s) && !(a.Wait? && a.timed)
    ensures Untimed(Step(s, a))
  {
    hide AsleepNow;
  }

  lemma {:induction false} NothingTimesOut(count: nat, threads: nat, actions: seq<Action>)
    requires forall k :: 0 <= k < |actions| ==> !(actions[k].Wait? && actions[k].timed)
    ensures Untimed(Run(count, threads, actions))
  {
    hide Step;
    if actions != [] {
      NothingTimesOut(count, threads, actions[..|actions| - 1]);
      StepKeepsUntimed(Run(count, threads, actions[..|actions| - 1]), actions[|actions| - 1]);
    }
  }

  /** When every wait of the run is `wait`, nothing times out, and at rest the sleepers are
      exactly the shortage. */
  lemma WithoutDeadlines(count: nat, threads: nat, actions: seq<Action>)
    requires forall k :: 0 <= k < |actions| ==> !(actions[k].Wait? && actions[k].timed)
    requires AtRest(Run(count, threads, actions))
    ensures var s := Run(count, threads, actions);
            s.timeouts == 0 && AsleepNow(s.threads) == Positive(s.waits - s.notifies - s.initial)
  {
    hide Step;
    NothingTimesOut(count, threads, actions);
    var s := Run(count, threads, actions);
    assert Reachable(s);
    BlockedAtRest(s);
  }

  /** A permit in `_count` does not go unnoticed: somebody is about to test it, or about to
      wake a sleeper that will. */
  lemma NoLostPermit(s: State, t: nat)
    requires Reachable(s) && t < |s.threads| && s.threads[t].Asleep? && s.count > 0
    ensures exists u :: 0 <= u < |s.threads| && (s.threads[u].Testing? || s.threads[u].Signalling?)
  {
    ReachableInv(s);
    assert s.threads[t] in multiset(s.threads);
    assert AsleepNow(s.threads) > 0;
    var pc :| pc in {Testing(true), Testing(false), Signalling} && Num(s.threads, pc) > 0;
    assert pc in multiset(s.threads);
    var u :| 0 <= u < |s.threads| && s.threads[u] == pc;
  }

  lemma StepReachable(s: State, a: Action)
    requires Reachable(s)
    ensures Reachable(Step(s, a))
  {
    var count: nat, threads: nat, actions :| s == Run(count, threads, actions);
    assert (actions + [a])[..|actions|] == actions;
    assert Step(s, a) == Run(count, threads, actions + [a]);
  }

  lemma NobodyAsleep(threads: seq<PC>)
    requires forall i :: 0 <= i < |threads| ==> !threads[i].Asleep?
    ensures AsleepNow(threads) == 0
  {
  }

  lemma TimedOutWaitLeavesDebt()
    ensures Reachable(State(-1, -1, [Idle], 0, 0, 1, 0, 1))
  {
    hide Reachable;
    hide AsleepNow;
    var s0 := State(0, 0, [Idle], 0, 0, 0, 0, 0);
    FreshIsReachable(s0);
    StepReachable(s0, Wait(0, true));
    var s1 := State(-1, 0, [Testing(true)], 0, 0, 1, 0, 0);
    assert Step(s0, Wait(0, true)) == s1;
    StepReachable(s1, Test(0));
    var s2 := State(-1, 0, [Asleep(true)], 0, 0, 1, 0, 0);
    assert Step(s1, Test(0)) == s2;
    StepReachable(s2, TimeOut(0));
    assert Step(s2, TimeOut(0)) == State(-1, -1, [Idle], 0, 0, 1, 0, 1);
  }

  lemma NotifyPaysTheDebt()
    ensures Reachable(State(0, 0, [Idle], 0, 1, 1, 0, 1))
  {
    hide Reachable;
    hide AsleepNow;
    TimedOutWaitLeavesDebt();
    var s3 := State(-1, -1, [Idle], 0, 0, 1, 0, 1);
    StepReachable(s3, Notify(0));
    var s4 := State(0, -1, [Posting], 0, 1, 1, 0, 1);
    assert Step(s3, Notify(0)) == s4;
    StepReachable(s4, Post(0));
    var s5 := State(0, 0, [Signalling], 0, 1, 1, 0, 1);
    assert Step(s4, Post(0)) == s5;
    StepReachable(s5, Signal(0, 0));
    NobodyAsleep(s5.threads);
    assert Step(s5, Signal(0, 0)) == State(0, 0, [Idle], 0, 1, 1, 0, 1);
  }

  /** The debt is real: after a wait that times out and then a notify, the next wait goes to
      sleep, although a permit was given and no wait has passed. */
  lemma TimedOutWaitSpendsANotify()
    ensures Reachable(State(-1, 0, [Asleep(false)], 0, 1, 2, 0, 1))
  {
    hide Reachable;
    hide AsleepNow;
    NotifyPaysTheDebt();
    var s6 := State(0, 0, [Idle], 0, 1, 1, 0, 1);
    StepReachable(s6, Wait(0, false));
    var s7 := State(-1, 0, [Testing(false)], 0, 1, 2, 0, 1);
    assert Step(s6, Wait(0, false)) == s7;
    StepReachable(s7, Test(0));
    assert Step(s7, Test(0)) == State(-1, 0, [Asleep(false)], 0, 1, 2, 0, 1);
  }

  lemma FreshIsReachable(s: State)
    requires s == Initial(0, |s.threads|)
    ensures Reachable(s)
  {
    assert s == Run(0, |s.threads|, []);
  }

  /** reset, with nobody in flight, restores a fresh semaphore exactly when it started from
      zero or the waits have not outrun the notifies. */
  lemma ResetRestores(s: State)
    requires Reachable(s) && NobodyInFlight(s)
    ensures ResetOf(s) == Initial(s.initial, |s.threads|) <==> s.initial == 0 || s.atomic >= 0
  {
    ReachableInv(s);
    ResetKeepsInv(s);
    assert s.threads == seq(|s.threads|, _ => Idle);
  }

  // --------------------------------------------------------------- class

  /** The object, with each atomic operation and each critical section as one method. */
  class BasicSemaphore {
    var atomicCount: int
    var count: int
    ghost var model: State

    ghost predicate Valid()
      reads this
    {
      Inv(model) && atomicCount == model.atomic && count == model.count
    }

    constructor (initial: nat, ghost threads: nat)
      ensures Valid() && model == Initial(initial, threads)
    {
      atomicCount, count := 0, initial;
      model := Initial(initial, threads);
      InitialInv(initial, threads);
    }

    // notify's fetch_add; `slow` sends it on to Post.
    method NotifyAtomic(ghost t: nat) returns (slow: bool)
      requires Valid() && At(model, t, Idle)
      modifies this
      ensures Valid() && model == Step(old(model), Notify(t)) && slow == At(model, t, Posting)
      ensures slow <==> old(atomicCount) < 0
    {
      StepKeepsInv(model, Notify(t));
      var was := atomicCount;
      atomicCount := was + 1;
      slow := was < 0;
      model := Step(model, Notify(t));
    }

    method PostUnderLock(ghost t: nat)
      requires Valid() && At(model, t, Posting)
      modifies this
      ensures Valid() && model == Step(old(model), Post(t))
    {
      StepKeepsInv(model, Post(t));
      count := count + 1;
      model := Step(model, Post(t));
    }

    // wait's fetch_sub; `slow` sends it on to the mutex.
    method WaitAtomic(ghost t: nat, ghost timed: bool) returns (slow: bool)
      requires Valid() && At(model, t, Idle)
      modifies this
      ensures Valid() && model == Step(old(model), Wait(t, timed)) && slow == At(model, t, Testing(timed))
      ensures slow <==> old(atomicCount) < 1
    {
      StepKeepsInv(model, Wait(t, timed));
      var was := atomicCount;
      atomicCount := was - 1;
      slow := was < 1;
      model := Step(model, Wait(t, timed));
    }

    // The predicate of the wait, and the decrement if it holds.
    method TestUnderLock(ghost t: nat) returns (passed: bool)
      requires Valid() && t < |model.threads| && model.threads[t].Testing?
      modifies this
      ensures Valid() && model == Step(old(model), Test(t)) && passed == At(model, t, Idle)
      ensures passed <==> old(count) > 0
    {
      StepKeepsInv(model, Test(t));
      passed := count > 0;
      if passed {
        count := count - 1;
      }
      model := Step(model, Test(t));
    }

    // The end of a wait_until whose time is over.
    method TimeOutUnderLock(ghost t: nat) returns (passed: bool)
      requires Valid() && At(model, t, Asleep(true))
      modifies this
      ensures Valid() && model == Step(old(model), TimeOut(t))
      ensures passed <==> old(count) > 0
      ensures model.passes == old(model).passes + (if passed then 1 else 0)
      ensures model.timeouts == old(model).timeouts + (if passed then 0 else 1)
    {
      StepKeepsInv(model, TimeOut(t));
      passed := count > 0;
      count := count - 1;
      model := Step(model, TimeOut(t));
    }

    method ResetAtRest()
      requires Valid() && NobodyInFlight(model)
      modifies this
      ensures Valid() && model == ResetOf(old(model))
    {
      StepKeepsInv(model, Reset);
      var was := atomicCount;
      atomicCount := 0;
      if was < 0 {
        count := 0;
      }
      model := ResetOf(model);
    }
  }
}
