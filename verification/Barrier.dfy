/**
 BasicBarrier: a barrier used again and again, by any number of threads.  A step is one
 stretch under the mutex.
 */
module Barrier {

  // A thread in wait, past its arrival, remembers the generation it arrived in.
  datatype PC = Outside | Waiting(generation: nat)

  datatype State = State(
    threshold: nat, count: int, generation: nat, threads: seq<PC>,
    asleep: set<nat>,        // the threads blocked on the condition variable
    // history, one entry for each generation: arrivals, returns of true, returns of false
    arrived: seq<nat>, leaders: seq<nat>, left: seq<nat>)

  datatype Action = Arrive(t: nat) | Test(t: nat) | WakeSpuriously(t: nat)

  function Initial(threshold: nat, threads: nat): State {
    State(threshold, threshold, 0, seq(threads, _ => Outside), {}, [0], [0], [0])
  }

  function Num(threads: seq<PC>, pc: PC): nat { multiset(threads)[pc] }

  predicate Sane(s: State) { |s.arrived| == |s.leaders| == |s.left| == s.generation + 1 }

  function Bump(counts: seq<nat>, g: nat): seq<nat>
    requires g < |counts|
  {
    counts[g := counts[g] + 1]
  }

  // The last arrival of a generation.
  function Complete(s: State): State
    requires Sane(s)
  {
    s.(generation := s.generation + 1, count := s.threshold, asleep := {},
       arrived := Bump(s.arrived, s.generation) + [0], leaders := Bump(s.leaders, s.generation) + [0], left := s.left + [0])
  }

  function Step(s: State, a: Action): (r: State)
    requires Sane(s)
    ensures Sane(r)
  {
    match a
    case Arrive(t) =>
      if t >= |s.threads| || !s.threads[t].Outside? then s
      else if s.count - 1 == 0 then Complete(s)
      else s.(count := s.count - 1, threads := s.threads[t := Waiting(s.generation)], arrived := Bump(s.arrived, s.generation))
    case Test(t) =>
      if t >= |s.threads| || !s.threads[t].Waiting? || t in s.asleep then s
      else if s.threads[t].generation == s.generation then s.(asleep := s.asleep + {t})
      else if s.threads[t].generation > s.generation then s
      else s.(threads := s.threads[t := Outside], left := Bump(s.left, s.threads[t].generation))
    case WakeSpuriously(t) =>
      s.(asleep := s.asleep - {t})
  }

  ghost predicate GenerationOk(s: State, g: int)
    requires Sane(s)
  {
    0 <= g <= s.generation ==>
      && s.arrived[g] == (if g < s.generation then s.threshold else s.threshold - s.count)
      && s.leaders[g] == (if g < s.generation then 1 else 0)
      && (g == s.generation ==> s.left[g] == 0)
      && Num(s.threads, Waiting(g)) + s.leaders[g] + s.left[g] == s.arrived[g]
  }

  ghost predicate ThreadOk(s: State, t: int) {
    && (0 <= t < |s.threads| && s.threads[t].Waiting? ==> s.threads[t].generation <= s.generation)
    && (t >= 0 && t in s.asleep ==> t < |s.threads| && s.threads[t] == Waiting(s.generation))
  }

  ghost predicate Inv(s: State) {
    && Sane(s)
    && 0 < s.count <= s.threshold
    && (forall g {:trigger GenerationOk(s, g)} :: GenerationOk(s, g))
    && (forall t {:trigger ThreadOk(s, t)} :: ThreadOk(s, t))
  }

  lemma InitialInv(threshold: nat, threads: nat)
    requires 0 < threshold
    ensures Inv(Initial(threshold, threads))
  {
  }

  lemma Moved(threads: seq<PC>, t: nat, pc: PC, q: PC)
    requires t < |threads|
    ensures Num(threads[t := pc], q) == Num(threads, q) - (if threads[t] == q then 1 else 0) + (if pc == q then 1 else 0)
  {
    assert threads[t] in multiset(threads);
  }

  lemma NobodyAhead(s: State, g: nat)
    requires Inv(s) && s.generation < g
    ensures Num(s.threads, Waiting(g)) == 0
  {
    forall t | 0 <= t < |s.threads| ensures s.threads[t] != Waiting(g) {
      assert ThreadOk(s, t);
    }
  }

  lemma StepKeepsInv(s: State, a: Action)
    requires Inv(s)
    ensures Inv(Step(s, a))
  {
    hide Num;
    var r := Step(s, a);
    NobodyAhead(s, s.generation + 1);
    assert GenerationOk(s, s.generation) && ThreadOk(s, a.t);
    forall g ensures GenerationOk(r, g) {
      assert GenerationOk(s, g);
      if 0 <= g && a.t < |s.threads| { Moved(s.threads, a.t, r.threads[a.t], Waiting(g)); }
      assert a.t < |s.threads| ==> r.threads == s.threads[a.t := r.threads[a.t]];
    }
    forall t ensures ThreadOk(r, t) { assert ThreadOk(s, t); }
  }

  function Run(threshold: nat, threads: nat, actions: seq<Action>): (r: State)
    ensures Sane(r)
  {
    if actions == [] then Initial(threshold, threads)
    else Step(Run(threshold, threads, actions[..|actions| - 1]), actions[|actions| - 1])
  }

  ghost predicate Reachable(s: State) {
    exists threshold: nat, threads: nat, actions :: 0 < threshold && s == Run(threshold, threads, actions)
  }

  lemma {:induction false} RunKeepsInv(threshold: nat, threads: nat, actions: seq<Action>)
    requires 0 < threshold
    ensures Inv(Run(threshold, threads, actions))
  {
    if actions == [] {
      InitialInv(threshold, threads);
    } else {
      RunKeepsInv(threshold, threads, actions[..|actions| - 1]);
      StepKeepsInv(Run(threshold, threads, actions[..|actions| - 1]), actions[|actions| - 1]);
    }
  }

  lemma ReachableInv(s: State)
    requires Reachable(s)
    ensures Inv(s)
  {
    var threshold: nat, threads: nat, actions :| 0 < threshold && s == Run(threshold, threads, actions);
    RunKeepsInv(threshold, threads, actions);
  }

  /** Every completed generation has exactly `threshold` arrivals: one got true, the others
      have got false or are still on their way out. */
  lemma CompletedGenerations(s: State, g: nat)
    requires Reachable(s) && g < s.generation
    ensures Sane(s) && s.arrived[g] == s.threshold && s.leaders[g] == 1
    ensures s.left[g] + Num(s.threads, Waiting(g)) == s.threshold - 1
  {
    ReachableInv(s);
    assert GenerationOk(s, g);
  }

  /** Nobody has left a generation whose arrivals are incomplete, and `_count` is what it lacks. */
  lemma CurrentGeneration(s: State)
    requires Reachable(s)
    ensures Sane(s) && s.arrived[s.generation] < s.threshold && s.count == s.threshold - s.arrived[s.generation]
    ensures s.leaders[s.generation] == 0 && s.left[s.generation] == 0
    ensures Num(s.threads, Waiting(s.generation)) == s.arrived[s.generation]
  {
    ReachableInv(s);
    assert GenerationOk(s, s.generation);
  }

  /** Slow wakers do not get stuck: whoever waits for a completed generation is awake, and
      its next look lets it go, however many generations have passed meanwhile. */
  lemma SlowWakersLeave(s: State, t: nat)
    requires Reachable(s) && t < |s.threads| && s.threads[t].Waiting? && s.threads[t].generation != s.generation
    ensures t !in s.asleep && Sane(s) && Step(s, Test(t)).threads[t].Outside?
  {
    ReachableInv(s);
    assert ThreadOk(s, t);
  }

  /** And nobody else leaves: whoever waits for the current generation stays. */
  lemma EarlyWakersStay(s: State, t: nat)
    requires Reachable(s) && t < |s.threads| && s.threads[t] == Waiting(s.generation)
    ensures Sane(s) && Step(s, Test(t)).threads == s.threads && t in Step(s, Test(t)).asleep
  {
    ReachableInv(s);
  }

  /** A wake-up for no reason, while the generation is incomplete, ends in the same sleep. */
  lemma SpuriousWakeUpsAreHarmless(s: State, t: nat)
    requires Reachable(s) && t in s.asleep
    ensures Sane(s) && t < |s.threads|
    ensures var r := Step(s, WakeSpuriously(t)); t !in r.asleep && r.threads == s.threads && Step(r, Test(t)) == s
  {
    ReachableInv(s);
    assert ThreadOk(s, t);
    assert s.asleep - {t} + {t} == s.asleep;
  }

  /** The object.  `Arrive` is wait up to the condition variable, `Test` one look at its predicate. */
  class BasicBarrier {
    const threshold: nat
    var count: int
    var generation: nat
    ghost var model: State

    ghost predicate Valid()
      reads this
    {
      Inv(model) && count == model.count && generation == model.generation && threshold == model.threshold
    }

    constructor (initial: nat, ghost threads: nat)
      requires 0 < initial
      ensures Valid() && model == Initial(initial, threads)
    {
      threshold, count, generation := initial, initial, 0;
      model := Initial(initial, threads);
      InitialInv(initial, threads);
    }

    method Arrive(ghost t: nat) returns (last: bool, gen: nat)
      requires Valid() && t < |model.threads| && model.threads[t].Outside?
      modifies this
      ensures Valid() && Sane(old(model)) && model == Step(old(model), Action.Arrive(t))
      ensures last ==> gen < model.generation && model.arrived[gen] == threshold
      ensures !last ==> model.threads[t] == Waiting(gen)
    {
      StepKeepsInv(model, Action.Arrive(t));
      assert GenerationOk(model, model.generation);
      gen := generation;
      count := count - 1;
      last := count == 0;
      if last {
        generation := generation + 1;
        count := threshold;
      }
      model := Step(model, Action.Arrive(t));
    }

    method Test(ghost t: nat, gen: nat) returns (released: bool)
      requires Valid() && t < |model.threads| && model.threads[t] == Waiting(gen) && t !in model.asleep
      modifies this
      ensures Valid() && Sane(old(model)) && model == Step(old(model), Action.Test(t))
      ensures released <==> gen < model.generation
      ensures released ==> model.arrived[gen] == threshold && model.threads[t].Outside?
      ensures !released ==> t in model.asleep
    {
      StepKeepsInv(model, Action.Test(t));
      assert ThreadOk(model, t) && GenerationOk(model, gen);
      released := gen != generation;
      model := Step(model, Action.Test(t));
    }
  }
}
