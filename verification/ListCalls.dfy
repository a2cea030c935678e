/**
 What a call of the list queue or of its allocator does: what it answers, that its own
 steps bring it to an end, and what it comes to when nobody disturbs it.
 */
module ListCalls {
  import opened ListProtocol
  import opened ListSafety

  // -------------------------------------------------------------- progress

  // How many of its own steps a thread is at most away from the end of its operation.
  function Left(pc: PC): nat {
    match pc
    case Idle => 0
    case Hold(_) => 0
    case TakeFreeTail => 5
    case ReadFreeNext(_) => 4
    case PutBackFree(_) => 3
    case NewChunk => 2
    case LinkChunk(_, _, _, _) => 1
    case AdvanceFree(_, _) => 2
    case ClearNext(_) => 1
    case LinkLive(_, _) => 2
    case MoveHead(_) => 1
    case TakeTail(_) => 7
    case ReadLiveNext(_) => 6
    case ReadData(_, _) => 5
    case AdvanceTail(_, _, _) => 4
    case FreeClear(_) => 3
    case FreeExchange(_) => 2
    case FreeLink(_, _, _) => 1
    case PutBackTail(_) => 1
  }

  // A new chunk moves its thread and no other, and leaves the queue alone.
  lemma ChunkFrame(s: State, t: nat)
    requires Sane(s) && t < |s.threads|
    ensures var r := AddChunk(s, t);
            r.threads == s.threads[t := r.threads[t]] && r.threads[t].LinkChunk? && r.enqueued == s.enqueued && r.dequeued == s.dequeued
  {
  }

  // Thread `t` can only try again: another thread has the tail it needs.
  ghost predicate Waits(s: State, t: nat) {
    t < |s.threads| &&
    ((s.threads[t].TakeFreeTail? && s.freeTail == NULL) ||
     (s.threads[t] == TakeTail(false) && s.reader == NULL && s.tail == NULL))
  }

  lemma GoesOn(s: State, t: nat)
    requires Sane(s) && t < |s.threads| && Left(s.threads[t]) > 0
    ensures if Waits(s, t) then Step(s, Advance(t)) == s else Left(Step(s, Advance(t)).threads[t]) < Left(s.threads[t])
  {
    ChunkFrame(s, t);
    hide AddChunk;
    hide Get;
    hide Set;
  }

  lemma Busy(s: State, t: nat) returns (u: nat)
    requires Reachable(s) && Waits(s, t)
    ensures u < |s.threads| && !Waits(s, u) && Left(s.threads[u]) > 0
  {
    TailIsALock(s, t, t);
    hide Reachable;
    if s.threads[t].TakeFreeTail? {
      u :| u < |s.threads| && s.threads[u].HasFreeTail();
    } else {
      u :| u < |s.threads| && s.threads[u].HasTail();
    }
  }

  /** Every operation is a bounded number of steps of its own, except that it waits for a
      tail; and while one waits, another thread is inside and does not wait. */
  lemma OwnStepsGoOn(s: State, t: nat)
    requires Reachable(s) && t < |s.threads| && Left(s.threads[t]) > 0
    ensures Sane(s)
    ensures if Waits(s, t) then
              && Step(s, Advance(t)) == s
              && exists u: nat :: u < |s.threads| && !Waits(s, u) && Left(s.threads[u]) > 0
            else Left(Step(s, Advance(t)).threads[t]) < Left(s.threads[t])
  {
    ReachableInv(s);
    hide Inv;
    GoesOn(s, t);
    hide Step;
    hide Left;
    if Waits(s, t) {
      var u := Busy(s, t);
    }
  }

  // --------------------------------------------------------------- answers

  predicate Dequeues(pc: PC) { pc.TakeTail? || pc.HasTail() }

  /** A dequeue decides to return nothing exactly here: the load of the successor finds all
      that was enqueued dequeued, or dequeueMcWeak finds the tail taken. */
  lemma GivesUpExactly(s: State, t: nat)
    requires Reachable(s) && t < |s.threads| && Dequeues(s.threads[t]) && !s.threads[t].PutBackTail?
    ensures Sane(s)
    ensures var pc, r := s.threads[t], Step(s, Advance(t)).threads[t];
            r.Idle? || r.PutBackTail? <==>
              (pc == TakeTail(true) && s.reader == NULL && s.tail == NULL) || (pc.ReadLiveNext? && s.dequeued == s.enqueued)
  {
    ReachableInv(s);
    if s.threads[t].ReadLiveNext? { DequeueDecides(s, t); }
  }

  // At some moment since its last call of dequeue thread `t` would have found the queue empty.
  ghost predicate WasEmpty(threads: nat, allocSize: nat, reader: int, actions: seq<Action>, t: nat)
    requires 2 <= allocSize
  {
    actions != [] &&
    var before, a, s := Run(threads, allocSize, reader, actions[..|actions| - 1]), actions[|actions| - 1], Run(threads, allocSize, reader, actions);
    || s.dequeued == s.enqueued
    || (!(a.Dequeue? && a.t == t && t < |before.threads| && before.threads[t].Idle?)
        && WasEmpty(threads, allocSize, reader, actions[..|actions| - 1], t))
  }

  // Nobody but thread `a.t` moves.
  lemma OthersStay(s: State, a: Action, t: nat)
    requires Sane(s) && t < |s.threads| && a.t != t
    ensures Step(s, a).threads[t] == s.threads[t] && |Step(s, a).threads| == |s.threads|
  {
    if a.t < |s.threads| { ChunkFrame(s, a.t); }
    hide AddChunk;
  }

  // What brings a thread to put the tail back.
  lemma StartsPutBack(s: State, a: Action, t: nat)
    requires Sane(s) && t < |s.threads| && a.t == t && Step(s, a).threads[t].PutBackTail? && !s.threads[t].PutBackTail?
    ensures a.Advance? && s.threads[t].ReadLiveNext?
  {
    ChunkFrame(s, t);
    hide AddChunk;
  }

  lemma SameNumber(s: State, a: Action)
    requires Sane(s)
    ensures |Step(s, a).threads| == |s.threads|
  {
    if a.t < |s.threads| { ChunkFrame(s, a.t); }
    hide AddChunk;
  }

  lemma FindsNothing(s: State, t: nat)
    requires Reachable(s) && t < |s.threads| && s.threads[t].ReadLiveNext? && Sane(s) && Step(s, Advance(t)).threads[t].PutBackTail?
    ensures var r := Step(s, Advance(t)); r.dequeued == r.enqueued
  {
    GivesUpExactly(s, t);
  }

  lemma {:induction false} PutsBackWhatWasEmpty(threads: nat, allocSize: nat, reader: int, actions: seq<Action>, t: nat)
    requires 2 <= allocSize && t < |Run(threads, allocSize, reader, actions).threads|
    requires Run(threads, allocSize, reader, actions).threads[t].PutBackTail?
    ensures WasEmpty(threads, allocSize, reader, actions, t)
  {
    assert actions != [];
    var before, a := actions[..|actions| - 1], actions[|actions| - 1];
    var s := Run(threads, allocSize, reader, before);
    assert Traced(threads, allocSize, reader, before, s) && Reachable(s);
    SameNumber(s, a);
    if s.threads[t].PutBackTail? {
      hide Step;
      PutsBackWhatWasEmpty(threads, allocSize, reader, before, t);
    } else if a.t == t {
      StartsPutBack(s, a, t);
      FindsNothing(s, t);
    } else {
      OthersStay(s, a, t);
    }
  }

  /** When dequeueMc or dequeueSc comes back without a value, there was a moment during the
      call when everything enqueued had been dequeued; dequeueMcWeak may also have found
      another consumer at work. */
  lemma NothingMeansEmpty(threads: nat, allocSize: nat, reader: int, actions: seq<Action>, t: nat)
    requires 2 <= allocSize && t < |Run(threads, allocSize, reader, actions).threads|
    requires var s := Run(threads, allocSize, reader, actions);
             Dequeues(s.threads[t]) && Step(s, Advance(t)).threads[t].Idle?
    ensures var s := Run(threads, allocSize, reader, actions);
            || WasEmpty(threads, allocSize, reader, actions, t)
            || (s.threads[t] == TakeTail(true) && s.reader == NULL && s.tail == NULL)
  {
    var s := Run(threads, allocSize, reader, actions);
    assert Traced(threads, allocSize, reader, actions, s) && Reachable(s);
    if s.threads[t].PutBackTail? {
      PutsBackWhatWasEmpty(threads, allocSize, reader, actions, t);
    } else {
      GivesUpExactly(s, t);
    }
  }

  // What enqueueSp was called with, in the order of the calls.
  function Inputs(threads: nat, allocSize: nat, reader: int, actions: seq<Action>): seq<int>
    requires 2 <= allocSize
  {
    if actions == [] then []
    else
      var before, a := Run(threads, allocSize, reader, actions[..|actions| - 1]), actions[|actions| - 1];
      Inputs(threads, allocSize, reader, actions[..|actions| - 1]) +
      if a.Enqueue? && a.t == 0 < |before.threads| && before.threads[0].Hold? then [a.v] else []
  }

  // The input of a call that has not linked its node yet.
  function Pending(s: State): seq<int> {
    if 0 < |s.threads| && s.threads[0].LinkLive? then [s.threads[0].v] else []
  }

  // A thread's own step adds to the queue what it had pending, and nothing else.
  lemma AdvanceEnqueues(s: State, t: nat)
    requires Sane(s) && t < |s.threads|
    ensures var pc, r := s.threads[t], Advanced(s, t);
            && r.enqueued == s.enqueued + (if pc.LinkLive? then [pc.v] else [])
            && r.threads == s.threads[t := r.threads[t]] && !r.threads[t].LinkLive?
  {
    ChunkFrame(s, t);
    hide AddChunk;
    assert s.enqueued + [] == s.enqueued;
  }

  lemma StepTakesInput(s: State, a: Action)
    requires Inv(s)
    ensures Sane(s)
    ensures var r := Step(s, a);
            r.enqueued + Pending(r) ==
              s.enqueued + Pending(s) + if a.Enqueue? && a.t == 0 < |s.threads| && s.threads[0].Hold? then [a.v] else []
  {
    if a.t < |s.threads| {
      LinkerIsProducer(s, a.t);
      AdvanceEnqueues(s, a.t);
    }
    hide Inv;
    hide Advanced;
  }

  lemma LinkerIsProducer(s: State, t: nat)
    requires Inv(s) && t < |s.threads|
    ensures Sane(s) && (s.threads[t].LinkLive? ==> t == 0)
  {
    Parts(s, 0, 0, 0, t);
  }

  /** What goes into the queue is what enqueueSp was called with, and what comes out is the
      beginning of that. */
  lemma {:induction false} QueueOfInputs(threads: nat, allocSize: nat, reader: int, actions: seq<Action>)
    requires 2 <= allocSize
    ensures var s := Run(threads, allocSize, reader, actions);
            && s.enqueued + Pending(s) == Inputs(threads, allocSize, reader, actions)
            && s.dequeued <= s.enqueued <= Inputs(threads, allocSize, reader, actions)
  {
    var s := Run(threads, allocSize, reader, actions);
    assert Traced(threads, allocSize, reader, actions, s) && Reachable(s);
    QueueIsFifo(s, |s.enqueued|);
    hide Step;
    if actions != [] {
      var before := actions[..|actions| - 1];
      QueueOfInputs(threads, allocSize, reader, before);
      RunKeepsInv(threads, allocSize, reader, before);
      StepTakesInput(Run(threads, allocSize, reader, before), actions[|actions| - 1]);
    }
  }

  // ------------------------------------------------------------------ alone

  // Thread `t` takes `n` steps, and nobody else does anything.
  function Alone(s: State, t: nat, n: nat): (r: State)
    requires Sane(s)
    ensures Sane(r)
    decreases n
  {
    if n == 0 then s else Alone(Step(s, Advance(t)), t, n - 1)
  }

  lemma Once(s: State, t: nat)
    requires Sane(s)
    ensures Alone(s, t, 1) == Step(s, Advance(t))
  {
    hide Step;
    assert Alone(Step(s, Advance(t)), t, 0) == Step(s, Advance(t));
  }

  lemma {:induction false} AloneOn(s: State, t: nat, m: nat, n: nat)
    requires Sane(s)
    ensures Alone(s, t, m + n) == Alone(Alone(s, t, m), t, n)
    decreases m
  {
    hide Step;
    if m > 0 { AloneOn(Step(s, Advance(t)), t, m - 1, n); }
  }

  lemma Twice(s: State, t: nat)
    requires Sane(s)
    ensures Alone(s, t, 2) == Step(Step(s, Advance(t)), Advance(t))
  {
    hide Step;
    Once(Step(s, Advance(t)), t);
  }

  lemma Thrice(s: State, t: nat)
    requires Sane(s)
    ensures Alone(s, t, 3) == Step(Step(Step(s, Advance(t)), Advance(t)), Advance(t))
  {
    hide Step;
    Twice(Step(s, Advance(t)), t);
  }

  /** enqueueSp puts its argument at the end of the queue. */
  lemma EnqueueAlone(s: State, v: int)
    requires Reachable(s) && 0 < |s.threads| && s.threads[0].Hold?
    ensures Sane(s)
    ensures var r := Alone(Step(s, Enqueue(0, v)), 0, 2);
            r.threads == s.threads[0 := Idle] && r.enqueued == s.enqueued + [v] && r.dequeued == s.dequeued && r.fl == s.fl
  {
    ReachableInv(s);
    hide Inv;
    Twice(Step(s, Enqueue(0, v)), 0);
  }

  lemma Frees(s: State, t: nat)
    requires Sane(s) && t < |s.threads| && s.threads[t].FreeClear?
    ensures var r := Alone(s, t, 3);
            && r.threads == s.threads[t := Idle] && r.fl == s.fl + [s.threads[t].node] && |r.next| == |s.next|
            && r.enqueued == s.enqueued && r.dequeued == s.dequeued
  {
    var node := s.threads[t].node;
    var r1 := Clear(s, t, node, FreeExchange(node));
    assert Step(s, Advance(t)) == r1;
    hide Clear;
    var r2 := JoinFree(r1, t, node);
    assert Step(r1, Advance(t)) == r2 && r2.threads == s.threads[t := FreeLink(node, r1.freeHead, |r1.fl| - 1)];
    hide JoinFree;
    assert Step(r2, Advance(t)) == CloseGap(r2, t, r1.freeHead, node, |r1.fl| - 1, Idle);
    Thrice(s, t);
    hide Step;
    hide Alone;
  }

  /** free puts its node at the end of the free list. */
  lemma FreeAlone(s: State, t: nat)
    requires Reachable(s) && t < |s.threads| && s.threads[t].Hold?
    ensures Sane(s)
    ensures var r := Alone(Step(s, Release(t)), t, 3);
            && r.threads == s.threads[t := Idle] && r.fl == s.fl + [s.threads[t].node] && |r.next| == |s.next|
            && r.enqueued == s.enqueued && r.dequeued == s.dequeued
  {
    ReachableInv(s);
    hide Inv;
    Frees(Step(s, Release(t)), t);
    hide Alone;
  }

  // The only place of the queue that a dequeue finds in its way.
  lemma TailIsDummy(s: State, t: nat)
    requires Reachable(s) && t < |s.threads| && s.tail != NULL
    requires forall u :: 0 <= u < |s.threads| ==> !s.threads[u].HasTail()
    ensures Sane(s) && s.lock == NULL && s.first < |s.lq| == |s.enqueued| + 1 && s.tail == s.lq[s.first]
    ensures s.dequeued == s.enqueued[..s.first] && InRange(s.tail, |s.next|)
    ensures s.next[s.tail] == if s.first + 1 < |s.lq| then s.lq[s.first + 1] else NULL
    ensures s.first + 1 < |s.lq| ==> InRange(s.lq[s.first + 1], |s.next|) && s.value[s.lq[s.first + 1]] == s.enqueued[s.first]
  {
    ReachableInv(s);
    Parts(s, s.first, 0, 0, t);
    Parts(s, s.first + 1, 0, 0, t);
  }

  lemma FindsQueueEmpty(s: State, t: nat, weak: bool)
    requires Reachable(s) && t < |s.threads| && s.threads[t].Idle? && s.tail != NULL && (s.reader == NULL || s.reader == t)
    requires forall u :: 0 <= u < |s.threads| ==> !s.threads[u].HasTail()
    requires s.dequeued == s.enqueued
    ensures Sane(s) && Alone(Step(s, Dequeue(t, weak)), t, if s.reader == NULL then 3 else 2) == s
  {
    TailIsDummy(s, t);
    hide Reachable;
    var s0 := Step(s, Dequeue(t, weak));
    var s1 := Step(s0, Advance(t));
    assert s1 == At(s, t, ReadLiveNext(s.tail)).(tail := if s.reader == NULL then NULL else s.tail, lock := t);
    Twice(s1, t);
    Once(s1, t);
    var s2 := Step(s1, Advance(t));
    if s.reader == NULL {
      assert s2 == At(s, t, PutBackTail(s.tail)).(tail := NULL, lock := t);
    }
  }

  // The loads of a dequeue.
  lemma LooksAlone(s: State, t: nat, weak: bool)
    requires Reachable(s) && t < |s.threads| && s.threads[t].Idle? && s.tail != NULL && (s.reader == NULL || s.reader == t)
    requires forall u :: 0 <= u < |s.threads| ==> !s.threads[u].HasTail()
    requires s.dequeued != s.enqueued
    ensures Sane(s) && s.first + 1 < |s.lq| && |s.dequeued| == s.first < |s.enqueued|
    ensures Alone(Step(s, Dequeue(t, weak)), t, 3) ==
              At(s, t, AdvanceTail(s.tail, s.lq[s.first + 1], s.enqueued[s.first])).(
                tail := if s.reader == NULL then NULL else s.tail, lock := t)
  {
    TailIsDummy(s, t);
    hide Reachable;
    var s0 := Step(s, Dequeue(t, weak));
    var next := s.lq[s.first + 1];
    var s1 := Step(s0, Advance(t));
    assert s1 == At(s, t, ReadLiveNext(s.tail)).(tail := if s.reader == NULL then NULL else s.tail, lock := t);
    var s2 := Step(s1, Advance(t));
    assert s2 == s1.(threads := s.threads[t := ReadData(s.tail, next)]);
    var s3 := Step(s2, Advance(t));
    assert s3 == s1.(threads := s.threads[t := AdvanceTail(s.tail, next, s.enqueued[s.first])]);
    Thrice(s0, t);
    hide Alone;
  }

  // The store of the tail, and free.
  lemma TakesAlone(s: State, t: nat)
    requires Sane(s) && t < |s.threads| && s.threads[t].AdvanceTail?
    ensures var r := Alone(s, t, 4);
            && r.threads == s.threads[t := Idle] && r.enqueued == s.enqueued && |r.next| == |s.next|
            && r.dequeued == s.dequeued + [s.threads[t].out] && r.fl == s.fl + [s.threads[t].node]
  {
    var pc := s.threads[t];
    var s1 := MoveTail(s, t, pc.node, pc.next, pc.out);
    assert Step(s, Advance(t)) == s1;
    assert Alone(s, t, 4) == Alone(s1, t, 3);
    hide Alone;
    hide Step;
    Frees(s1, t);
  }

  lemma FindsOldest(s: State, t: nat, weak: bool)
    requires Reachable(s) && t < |s.threads| && s.threads[t].Idle? && s.tail != NULL && (s.reader == NULL || s.reader == t)
    requires forall u :: 0 <= u < |s.threads| ==> !s.threads[u].HasTail()
    requires s.dequeued != s.enqueued
    ensures Sane(s)
    ensures var r := Alone(Step(s, Dequeue(t, weak)), t, 7);
            && r.threads == s.threads && r.enqueued == s.enqueued && |r.next| == |s.next|
            && |s.dequeued| < |s.enqueued| && r.dequeued == s.dequeued + [s.enqueued[|s.dequeued|]]
            && r.fl == s.fl + [s.tail]
  {
    LooksAlone(s, t, weak);
    hide Reachable;
    var s0 := Step(s, Dequeue(t, weak));
    AloneOn(s0, t, 3, 4);
    hide Alone;
    hide Step;
    TakesAlone(Alone(s0, t, 3), t);
  }

  /** A dequeue takes the oldest value and gives the old dummy to the free list, or, exactly
      when there is none, leaves everything as it was. */
  lemma DequeueAlone(s: State, t: nat, weak: bool)
    requires Reachable(s) && t < |s.threads| && s.threads[t].Idle? && s.tail != NULL && (s.reader == NULL || s.reader == t)
    requires forall u :: 0 <= u < |s.threads| ==> !s.threads[u].HasTail()
    ensures Sane(s)
    ensures var s0 := Step(s, Dequeue(t, weak));
            if s.dequeued == s.enqueued then Alone(s0, t, if s.reader == NULL then 3 else 2) == s
            else
              var r := Alone(s0, t, 7);
              && r.threads == s.threads && r.enqueued == s.enqueued && |r.next| == |s.next|
              && |s.dequeued| < |s.enqueued| && r.dequeued == s.dequeued + [s.enqueued[|s.dequeued|]]
              && r.fl == s.fl + [s.tail]
  {
    if s.dequeued == s.enqueued {
      FindsQueueEmpty(s, t, weak);
    } else {
      FindsOldest(s, t, weak);
    }
  }

  // dequeueMcWeak leaves a consumer at work alone.
  lemma WeakGivesWay(s: State, t: nat)
    requires Reachable(s) && t < |s.threads| && s.threads[t].Idle? && s.tail == NULL
    ensures Sane(s) && Alone(Step(s, Dequeue(t, true)), t, 1) == s
  {
    ReachableInv(s);
    TailIsALock(s, t, t);
    hide Inv;
    hide Reachable;
    Once(Step(s, Dequeue(t, true)), t);
  }

  // The link behind the free list's dummy is there to see.
  ghost predicate Shows(s: State) { s.ffirst + 1 < |s.fl| && forall u :: !Owes(s, u, s.ffirst) }

  lemma FreeTailIsDummy(s: State, t: nat)
    requires Reachable(s) && t < |s.threads| && s.freeTail != NULL
    ensures Sane(s) && s.ffirst < |s.fl| && s.freeTail == s.fl[s.ffirst] && InRange(s.freeTail, |s.next|)
    ensures if Shows(s) then s.next[s.freeTail] == s.fl[s.ffirst + 1] != NULL else s.next[s.freeTail] == NULL
  {
    ReachableInv(s);
    Parts(s, 0, s.ffirst, 0, t);
    Parts(s, 0, s.ffirst + 1, 0, s.flock);
    hide Inv;
    hide LiveAt;
    hide PlaceOk;
    if s.ffirst + 1 < |s.fl| { FreeListSegments(s, s.ffirst); }
    hide Reachable;
  }

  /** alloc gives the free list's dummy if its successor shows, and otherwise the first node
      of a new chunk, whose other nodes go on the free list. */
  lemma AllocAlone(s: State, t: nat)
    requires Reachable(s) && t < |s.threads| && s.threads[t].Idle? && s.freeTail != NULL
    ensures Sane(s)
    ensures var s0 := Step(s, Alloc(t));
            if Shows(s) then
              var r := Alone(s0, t, 4);
              && r.threads == s.threads[t := Hold(s.freeTail)] && |r.next| == |s.next|
              && r.fl == s.fl && r.ffirst == s.ffirst + 1
              && r.enqueued == s.enqueued && r.dequeued == s.dequeued
            else
              var r := Alone(s0, t, 5);
              && r.threads == s.threads[t := Hold(|s.next|)] && |r.next| == |s.next| + s.allocSize
              && r.fl == s.fl + ChunkOrder(|s.next|, s.allocSize) && r.ffirst == s.ffirst
              && r.enqueued == s.enqueued && r.dequeued == s.dequeued
  {
    FreeTailIsDummy(s, t);
    hide Reachable;
    hide Owes;
    var s0 := Step(s, Alloc(t));
    var s1 := Step(s0, Advance(t));
    assert s1 == At(s, t, ReadFreeNext(s.freeTail)).(freeTail := NULL, flock := t);
    Twice(s0, t);
    var s2 := Step(s1, Advance(t));
    if Shows(s) {
      assert s2 == s1.(threads := s.threads[t := AdvanceFree(s.freeTail, s.fl[s.ffirst + 1])]);
      Twice(s2, t);
      AloneOn(s0, t, 2, 2);
    } else {
      assert s2 == s1.(threads := s.threads[t := PutBackFree(s.freeTail)]);
      Thrice(s2, t);
      AloneOn(s0, t, 2, 3);
      hide Alone;
      var s3 := Step(s2, Advance(t));
      var s4 := Step(s3, Advance(t));
      Grown(s3, t);
    }
  }

  lemma Grown(s: State, t: nat)
    requires Sane(s) && t < |s.threads| && s.threads[t].NewChunk?
    ensures var r := Step(Step(s, Advance(t)), Advance(t));
            && r.threads == s.threads[t := Hold(|s.next|)] && |r.next| == |s.next| + s.allocSize
            && r.fl == s.fl + ChunkOrder(|s.next|, s.allocSize) && r.ffirst == s.ffirst
            && r.enqueued == s.enqueued && r.dequeued == s.dequeued
  {
    var s1 := AddChunk(s, t);
    hide AddChunk;
  }

  lemma TowardsChunk(s: State, a: Action, t: nat)
    requires Sane(s) && t < |s.threads| && a.t == t
    ensures t < |Step(s, a).threads|
    ensures Step(s, a).threads[t].NewChunk? && !s.threads[t].NewChunk? ==> a == Advance(t) && s.threads[t].PutBackFree?
    ensures Step(s, a).threads[t].PutBackFree? && !s.threads[t].PutBackFree? ==> a == Advance(t) && s.threads[t].ReadFreeNext?
  {
    ChunkFrame(s, t);
    hide AddChunk;
    hide Get;
    hide Set;
  }

  /** A thread makes a new chunk only after it has looked behind the dummy, with the free
      list's tail in its hands, and found nothing there: not because others have the tail. */
  lemma ChunkOnlyAfterLooking(s: State, a: Action, t: nat)
    requires Reachable(s) && t < |s.threads|
    ensures Sane(s) && t < |Step(s, a).threads|
    ensures Step(s, a).threads[t].NewChunk? && !s.threads[t].NewChunk? ==> a == Advance(t) && s.threads[t].PutBackFree?
    ensures Step(s, a).threads[t].PutBackFree? && !s.threads[t].PutBackFree? ==>
              a == Advance(t) && s.threads[t].ReadFreeNext? && !Shows(s)
  {
    ReachableInv(s);
    SameNumber(s, a);
    if a.t != t {
      OthersStay(s, a, t);
    } else {
      TowardsChunk(s, a, t);
      if a == Advance(t) && s.threads[t].ReadFreeNext? { ChunkOnlyWhenNothingShows(s, t); }
      hide Inv;
      hide Reachable;
      hide Owes;
      hide Advanced;
    }
  }
}
