/**
 What a call of emplace does: where its argument goes, that its own steps bring it to an
 end, what it comes to when nobody disturbs it, and that no array gets lost.
 */
module AppendCalls {
  import opened AppendIndex
  import opened AppendProtocol

  // The arguments of the calls of emplace that were given an index, in that order.
  function Inputs<T>(threads: nat, blank: T, actions: seq<Action<T>>): seq<T> {
    if actions == [] then []
    else
      var before, a := Run(threads, blank, actions[..|actions| - 1]), actions[|actions| - 1];
      Inputs(threads, blank, actions[..|actions| - 1]) +
      if a.Emplace? && a.t < |before.threads| && before.threads[a.t].Idle? && before.index < CAPACITY then [a.v] else []
  }

  lemma StepTakesInput<T>(s: State<T>, a: Action<T>)
    requires Sane(s)
    ensures Step(s, a).values ==
              s.values + if a.Emplace? && a.t < |s.threads| && s.threads[a.t].Idle? && s.index < CAPACITY then [a.v] else []
  {
    hide SlotOf;
    hide BucketSize;
    assert s.values + [] == s.values;
  }

  /** Element `k` of the array is the argument of the call that was given index `k`. */
  lemma {:induction false} ElementsAreInputs<T(!new)>(threads: nat, blank: T, actions: seq<Action<T>>, k: nat)
    ensures var s := Run(threads, blank, actions);
            && s.values == Inputs(threads, blank, actions)
            && (k < s.size ==> k < |s.values| && Written(s, k) && ElementAt(s, k) == Inputs(threads, blank, actions)[k])
  {
    var s := Run(threads, blank, actions);
    assert Reachable(s);
    if k < s.size { PrefixIsFinished(s, k); }
    hide Step;
    hide Written;
    hide ElementAt;
    hide Reachable;
    if actions != [] {
      var before := actions[..|actions| - 1];
      ElementsAreInputs(threads, blank, before, k);
      StepTakesInput(Run(threads, blank, before), actions[|actions| - 1]);
    }
  }

  // -------------------------------------------------------------- progress

  // How many of its own steps a thread is at most away from its return.
  function Left<T>(pc: PC<T>): nat {
    match pc
    case Idle => 0
    case LoadBucket(_, _) => 5
    case SetBucket(_, _, _) => 4
    case Store(_, _, _) => 3
    case Publish(_, _) => 2
    case StoreSize(_, _) => 1
  }

  /** Each step of a thread brings it closer to its return, but for waiting for its turn; and
      it has its turn once everything before its index is published. */
  lemma OwnStepsGoOn<T(!new)>(s: State<T>, t: nat)
    requires Reachable(s) && t < |s.threads| && !s.threads[t].Idle?
    ensures Sane(s)
    ensures if s.threads[t].Publish? && s.threads[t].i != s.size then Step(s, Advance(t)) == s && s.size < s.threads[t].i
            else Left(Step(s, Advance(t)).threads[t]) < Left(s.threads[t])
  {
    ReachableInv(s);
    assert ThreadOk(s, t);
    hide Inv;
    hide Reachable;
    hide SlotOf;
    hide BucketSize;
  }

  // ---------------------------------------------------------------- arrays

  /** What became of array `a`: its thread is about to offer it, or it is its bucket's, or it
      was deleted. */
  ghost predicate Accounted<T>(s: State<T>, a: int)
    requires Sane(s)
  {
    0 <= a < |s.arrays| ==>
      match s.use[a]
      case Private(t) => t < |s.threads| && s.threads[t].SetBucket? && s.threads[t].own == a
      case Bucket(b) => b < BUCKETS && s.buckets[b] == a
      case Deleted => forall b :: 0 <= b < BUCKETS ==> s.buckets[b] != a
  }

  ghost predicate AllAccounted<T>(s: State<T>)
    requires Sane(s)
  {
    && (forall a {:trigger Accounted(s, a)} :: Accounted(s, a))
    && (forall b {:trigger s.buckets[b]} | 0 <= b < BUCKETS :: s.buckets[b] < |s.arrays|)
  }

  // Nobody's array is a bucket.
  lemma PrivateIsNoBucket<T>(s: State<T>, t: nat)
    requires Inv(s) && t < |s.threads| && s.threads[t].SetBucket?
    ensures 0 <= s.threads[t].own < |s.arrays| && s.use[s.threads[t].own] == Private(t) && s.threads[t].i < CAPACITY
    ensures forall b {:trigger s.buckets[b]} | 0 <= b < BUCKETS :: s.buckets[b] != s.threads[t].own
  {
    assert ThreadOk(s, t);
    forall b | 0 <= b < BUCKETS ensures s.buckets[b] != s.threads[t].own {
      assert BucketOk(s, b);
    }
  }

  lemma SwapAccounts<T>(s: State<T>, t: nat, a: int)
    requires Inv(s) && AllAccounted(s) && t < |s.threads| && s.threads[t].SetBucket?
    ensures s.threads[t].i < CAPACITY
    ensures var r := Swap(s, t, s.threads[t].i, s.threads[t].v, s.threads[t].own);
            Sane(r) && Accounted(r, a) && forall b {:trigger r.buckets[b]} | 0 <= b < BUCKETS :: r.buckets[b] < |r.arrays|
  {
    PrivateIsNoBucket(s, t);
    SwapKeeps(s, t, 0, 0, 0);
    hide Inv;
    hide SlotOf;
    assert Accounted(s, a);
  }

  lemma LoadAccounts<T>(s: State<T>, t: nat, a: int)
    requires Inv(s) && AllAccounted(s) && t < |s.threads| && s.threads[t].LoadBucket?
    ensures s.threads[t].i < CAPACITY
    ensures var r := Load(s, t, s.threads[t].i, s.threads[t].v);
            Sane(r) && Accounted(r, a) && forall b {:trigger r.buckets[b]} | 0 <= b < BUCKETS :: r.buckets[b] < |r.arrays|
  {
    assert ThreadOk(s, t);
    LoadKeeps(s, t, 0, 0, 0);
    hide Inv;
    hide SlotOf;
    hide BucketSize;
    assert Accounted(s, a);
  }

  lemma StepAccounts<T>(s: State<T>, x: Action<T>, a: int)
    requires Inv(s) && AllAccounted(s)
    ensures var r := Step(s, x); Accounted(r, a) && forall b {:trigger r.buckets[b]} | 0 <= b < BUCKETS :: r.buckets[b] < |r.arrays|
  {
    if x.Advance? && x.t < |s.threads| && s.threads[x.t].SetBucket? {
      SwapAccounts(s, x.t, a);
      hide Inv;
      hide Swap;
    } else if x.Advance? && x.t < |s.threads| && s.threads[x.t].LoadBucket? {
      LoadAccounts(s, x.t, a);
      hide Inv;
      hide Load;
    } else {
      assert Accounted(s, a);
      hide Inv;
      hide SlotOf;
    }
  }

  lemma {:induction false} RunAccounts<T>(threads: nat, blank: T, actions: seq<Action<T>>)
    ensures AllAccounted(Run(threads, blank, actions))
  {
    var s := Run(threads, blank, actions);
    if actions != [] {
      hide Step;
      hide Accounted;
      var before, x := actions[..|actions| - 1], actions[|actions| - 1];
      RunAccounts(threads, blank, before);
      RunKeepsInv(threads, blank, before);
      hide Inv;
      forall a ensures Accounted(s, a) && forall b {:trigger s.buckets[b]} | 0 <= b < BUCKETS :: s.buckets[b] < |s.arrays| {
        StepAccounts(Run(threads, blank, before), x, a);
      }
    }
  }

  /** No array gets lost: each one ever allocated is a bucket, or deleted, or with the thread
      that is about to offer it; and one is allocated only where there was none. */
  lemma NoArrayIsLost<T(!new)>(s: State<T>, a: nat, t: nat)
    requires Reachable(s)
    ensures Sane(s) && Accounted(s, a)
    ensures var r := Step(s, Advance(t));
            |r.arrays| != |s.arrays| ==>
              t < |s.threads| && s.threads[t].LoadBucket? && s.threads[t].i < CAPACITY && s.buckets[SlotOf(s.threads[t].i).0] == NULL
  {
    ReachableInv(s);
    var threads: nat, blank: T, actions: seq<Action<T>> :| s == Run(threads, blank, actions);
    RunAccounts(threads, blank, actions);
    hide Reachable;
    hide SlotOf;
    hide BucketSize;
    if t < |s.threads| { assert ThreadOk(s, t); }
    hide Inv;
  }

  // ----------------------------------------------------------------- alone

  // Thread `t` takes `n` steps, and nobody else does anything.
  function Alone<T>(s: State<T>, t: nat, n: nat): (r: State<T>)
    requires Sane(s)
    ensures Sane(r)
    decreases n
  {
    if n == 0 then s else Alone(Step(s, Advance(t)), t, n - 1)
  }

  lemma {:induction false} FinishesAlone<T(!new)>(s: State<T>, t: nat, n: nat)
    requires Inv(s) && t < |s.threads| && !s.threads[t].Idle? && s.threads[t].i == s.size && Left(s.threads[t]) <= n
    ensures var r := Alone(s, t, n);
            Inv(r) && r.threads == s.threads[t := Idle] && r.size == s.size + 1 && r.values == s.values
    decreases n
  {
    StepKeepsInv(s, Advance(t));
    NextAlone(s, t);
    hide Inv;
    hide Step;
    var s1 := Step(s, Advance(t));
    if s1.threads[t].Idle? {
      StaysIdle(s1, t, n - 1);
    } else {
      FinishesAlone(s1, t, n - 1);
    }
  }

  lemma {:induction false} StaysIdle<T>(s: State<T>, t: nat, n: nat)
    requires Sane(s) && t < |s.threads| && s.threads[t].Idle?
    ensures Alone(s, t, n) == s
  {
    if n > 0 {
      assert Step(s, Advance(t)) == s;
      StaysIdle(s, t, n - 1);
    }
  }

  lemma NextAlone<T>(s: State<T>, t: nat)
    requires Inv(s) && t < |s.threads| && !s.threads[t].Idle? && s.threads[t].i == s.size
    ensures var r := Step(s, Advance(t));
            && r.threads == s.threads[t := r.threads[t]] && r.values == s.values && Left(r.threads[t]) < Left(s.threads[t])
            && if r.threads[t].Idle? then r.size == s.size + 1 else r.threads[t].i == r.size == s.size
  {
    assert ThreadOk(s, t);
    hide Inv;
    hide SlotOf;
    hide BucketSize;
  }

  /** With nobody else in emplace, a call appends its argument in at most five steps. */
  lemma EmplaceAlone<T(!new)>(s: State<T>, t: nat, v: T)
    requires Reachable(s) && Sane(s) && t < |s.threads| && s.index < CAPACITY
    requires forall u :: 0 <= u < |s.threads| ==> s.threads[u].Idle?
    ensures s.size == s.index == |s.values|
    ensures var r := Alone(Step(s, Emplace(t, v)), t, 5);
            && r.threads == s.threads && r.values == s.values + [v]
            && r.size == s.size + 1 && Written(r, s.size) && ElementAt(r, s.size) == v
  {
    ReachableInv(s);
    assert IndexOk(s, s.size);
    StepKeepsInv(s, Emplace(t, v));
    var s0 := Step(s, Emplace(t, v));
    assert s0.threads[t] == LoadBucket(s.size, v);
    FinishesAlone(s0, t, 5);
    hide Inv;
    Parts(Alone(s0, t, 5), 0, 0, s.size);
  }
}
