/**
 MpscRingBuffer as an object: its fields, and its operations as they run when no
 other thread gets in between.  The ghost field `model` is the state of the
 concurrent protocol; every operation is a run of that protocol, so all that is
 proved about the protocol holds of the object.
 */
module RingBuffer {
  import opened RingProtocol
  import opened RingInvariant
  import opened RingSafety

  datatype Slot = Slot(seen: Seen, registered: bool)

  // What the object keeps of its workers.
  ghost predicate Shows(slots: seq<Slot>, workers: seq<Worker>) {
    |slots| == |workers| && forall i | 0 <= i < |slots| :: slots[i] == Slot(workers[i].seen, workers[i].registered)
  }

  lemma ShowsOne(slots: seq<Slot>, workers: seq<Worker>, i: nat)
    requires Shows(slots, workers) && i < |slots|
    ensures |slots| == |workers| && slots[i] == Slot(workers[i].seen, workers[i].registered)
  {
  }

  lemma ShowsUpdate(slots: seq<Slot>, workers: seq<Worker>, i: nat, w: Worker)
    requires Shows(slots, workers) && i < |slots|
    ensures Shows(slots[i := Slot(w.seen, w.registered)], workers[i := w])
  {
  }

  // No operation is in progress: workers are unregistered, idle or own a claim.
  ghost predicate Resting(workers: seq<Worker>) {
    forall i {:trigger workers[i]} | 0 <= i < |workers| ::
      workers[i].pc.Detached? || workers[i].pc.Idle? || workers[i].pc.Owning?
  }

  lemma RestingUnlocked(c: Config, s: State)
    requires Inv(c, s) && Resting(s.workers)
    ensures !s.barrier.locked
    ensures forall i {:trigger s.workers[i]} | 0 <= i < |s.workers| && s.workers[i].registered :: !s.workers[i].seen.locked
  {
    forall i {:trigger s.workers[i]} | 0 <= i < |s.workers| && s.workers[i].registered
      ensures !s.workers[i].seen.locked
    {
      assert WorkerOk(c, s, i);
    }
  }

  lemma IdleIsStable(c: Config, s: State, i: nat)
    requires Inv(c, s) && Resting(s.workers) && i < |s.workers| && s.workers[i].pc.Idle?
    ensures !s.barrier.locked && s.workers[i].seen == Seen(false, MAX_OFFSET)
  {
    RestingUnlocked(c, s);
    WorkerInv(c, s, i);
  }

  // ------------------------------------------------ acquire, uninterrupted

  // The state after worker `i` has been given, or refused, `size` bytes.
  ghost function Acquired(c: Config, s: State, i: nat, size: nat): State
    requires i < |s.workers|
  {
    if GuardPasses(c, s.barrier.index, size, s.cons) then
      var s1 := Put(s, i, s.workers[i].(pc := TryCas(size, s.barrier, |s.log|, s.cons), seen := Seen(true, s.barrier.index)));
      var s2 := CasStep(c, s1, i);
      var k := |s.log|;
      s2.(workers := s.workers[i := Worker(Owning(k), s.workers[i].registered, Seen(false, s.barrier.index))],
          end := if s2.barrier.locked then s.barrier.index else s.end,
          barrier := s2.barrier.(locked := false))
    else s
  }

  lemma TryingKeepsInv(c: Config, s: State, i: nat, size: nat) returns (t: State)
    requires Inv(c, s) && Resting(s.workers) && i < |s.workers| && s.workers[i].pc.Idle? && 0 < size <= c.capacity
    requires GuardPasses(c, s.barrier.index, size, s.cons)
    ensures t == Put(s, i, s.workers[i].(pc := TryCas(size, s.barrier, |s.log|, s.cons), seen := Seen(true, s.barrier.index)))
    ensures Inv(c, t)
  {
    RestingUnlocked(c, s);
    t := Put(s, i, s.workers[i].(pc := TryCas(size, s.barrier, |s.log|, s.cons), seen := Seen(true, s.barrier.index)));
    assert WorkerOk(c, s, i);
    assert WorkerOk(c, t, i);
    PutKeepsInv(c, s, i, t.workers[i]);
  }

  lemma FinishingKeepsInv(c: Config, s: State, i: nat) returns (t: State)
    requires Inv(c, s) && i < |s.workers| && s.workers[i].pc.UnlockSeen?
    requires s.workers[i].pc.wraps == s.barrier.locked
    ensures Inv(c, t)
    ensures t == s.(workers := s.workers[i := Worker(Owning(s.workers[i].pc.k), s.workers[i].registered, s.workers[i].seen.(locked := false))],
                    end := if s.barrier.locked then s.workers[i].seen.offset else s.end,
                    barrier := s.barrier.(locked := false))
  {
    hide Inv;
    UnlockSeenKeepsInv(c, s, i);
    t := Advanced(c, s, i);
    if t.workers[i].pc.StoreEnd? {
      StoreEndKeepsInv(c, t, i);
      t := Advanced(c, t, i);
      UnlockBarrierKeepsInv(c, t, i);
      t := Advanced(c, t, i);
    }
  }

  lemma AcquiredKeepsInv(c: Config, s: State, i: nat, size: nat)
    requires Inv(c, s) && Resting(s.workers) && i < |s.workers| && s.workers[i].pc.Idle? && 0 < size <= c.capacity
    ensures Inv(c, Acquired(c, s, i, size)) && Resting(Acquired(c, s, i, size).workers)
  {
    hide Inv;
    if GuardPasses(c, s.barrier.index, size, s.cons) {
      var s1 := TryingKeepsInv(c, s, i, size);
      CasKeepsInv(c, s1, i);
      var t := FinishingKeepsInv(c, CasStep(c, s1, i), i);
      assert t == Acquired(c, s, i, size);
    }
  }

  lemma AcquiredFields(c: Config, s: State, i: nat, size: nat)
    requires i < |s.workers| && |s.buf| == c.capacity && 0 < size <= c.capacity
    ensures var t := Acquired(c, s, i, size);
            if GuardPasses(c, s.barrier.index, size, s.cons) then
              var target := Target(c, s.barrier, size);
              && t.barrier == target.(locked := false)
              && t.end == (if target.locked then s.barrier.index else s.end)
              && t.cons == s.cons && t.cpc == s.cpc && t.buf == s.buf
              && t.workers == s.workers[i := Worker(Owning(|s.log|), s.workers[i].registered, Seen(false, s.barrier.index))]
              && |t.log| == |s.log| + 1 && t.log == s.log + [t.log[|s.log|]]
              && t.taken == s.taken && t.clap == s.clap
              && |t.data| == |s.data| + 1 && t.data == s.data + [t.data[|s.data|]]
              && t.log[|s.log|].lo == (if target.locked then 0 else s.barrier.index)
              && t.log[|s.log|].hi == t.log[|s.log|].lo + size <= c.capacity
            else t == s
  {
  }

  // ------------------------------------------------ consume, uninterrupted

  // `k` is the first of the claims from `from` on that may not be handed out together with it.
  ghost predicate LongestPrefix(s: State, from: nat, k: nat)
    requires from < |s.log|
  {
    && from < k <= |s.log|
    && (forall q | from <= q < k :: Produced(s.workers, q) && s.log[q].lap == s.log[from].lap)
    && (k < |s.log| ==> !Produced(s.workers, k) || s.log[k].lap != s.log[from].lap)
  }

  // One iteration of the loop over the workers.
  lemma Swept1(c: Config, s: State) returns (t: State)
    requires Inv(c, s) && Resting(s.workers) && s.cpc.CCheck? && s.cpc.i < |s.workers|
    ensures Inv(c, t) && t == s.(cpc := t.cpc) && t.cpc.CCheck? && t.cpc.i == s.cpc.i + 1
    ensures t.cpc.next == s.cpc.next && t.cpc.snap == s.cpc.snap
    ensures var w := s.workers[s.cpc.i];
            if w.registered && s.cons <= w.seen.offset < s.cpc.ready
            then t.cpc.ready == w.seen.offset && w.pc.Owning? && t.cpc.rk == w.pc.k
            else t.cpc.ready == s.cpc.ready && t.cpc.rk == s.cpc.rk
  {
    SweepKeepsInv(c, s);
    WorkerInv(c, s, s.cpc.i);
    RestingUnlocked(c, s);
    BelowMax(c, s);
    hide Inv;
    t := Scanned(c, s);
    if t.cpc.CReadSeen? {
      SweepKeepsInv(c, t);
      t := Scanned(c, t);
    }
  }

  lemma BelowMax(c: Config, s: State)
    requires Inv(c, s) && s.cpc.Scans()
    ensures s.cons <= s.cpc.ready <= MAX_OFFSET && s.cpc.next != s.cons
  {
  }

  // After the sweep: `ready` is the start of a claim that is still owned, or no claim of this lap is.
  lemma DecidedLongest(c: Config, s: State)
    requires Inv(c, s) && s.cpc.CCheck? && s.cpc.i == |s.workers| && Decided(c, s).cpc.CHold?
    requires s.cpc.snap == |s.log|
    requires s.cpc.ready != MAX_OFFSET ==> !Produced(s.workers, s.cpc.rk)
    ensures var t := Decided(c, s);
            Inv(c, t) && t.cpc.from == s.taken < |s.log| && t.cons == s.log[s.taken].lo
    ensures var t := Decided(c, s); LongestPrefix(t, s.taken, t.taken) && Tiles(t.log, s.taken, t.taken, t.cons, t.cpc.hi)
  {
    var t := Decided(c, s);
    DecisionStarts(c, s);
    HeldClaims(c, t);
    if s.cpc.next < s.cons { WrapBound(c, s); }
    CutStartsLap(c, s);
    hide Inv;
  }

  lemma CutStartsLap(c: Config, s: State)
    requires Inv(c, s)
    ensures s.plap == s.clap + 1 && s.cut < |s.log| ==> s.log[s.cut].lap == s.clap + 1
  {
  }

  lemma NothingToPop(c: Config, s: State)
    requires Inv(c, s) && s.cpc.CCheck? && s.cpc.i == |s.workers| && Decided(c, s).cpc.CIdle?
    requires s.cpc.ready != MAX_OFFSET ==> !Produced(s.workers, s.cpc.rk)
    ensures s.taken < |s.log| && !Produced(s.workers, s.taken)
  {
    NothingReady(c, s);
    ReadyAtConsumer(c, s);
  }

  lemma ReadyAtConsumer(c: Config, s: State)
    requires Inv(c, s) && s.cpc.Scans() && s.cpc.ready == s.cons
    ensures s.cpc.rk == s.taken < |s.log|
  {
    assert ClaimOk(c, s.log, s.taken);
    if s.taken < s.cpc.rk { LogOrder(c, s.log, s.taken, s.cpc.rk); }
  }

  lemma Entering(c: Config, s: State) returns (t: State)
    requires Inv(c, s) && s.cpc.CIdle?
    ensures Inv(c, t) && t == s.(cpc := CLoadNext) && t.clap <= t.plap
  {
    ConsumeKeepsInv(c, s);
    t := s.(cpc := CLoadNext);
  }

  // The consumer loads the barrier: there is nothing, or the sweep starts.
  lemma LoadingNext(c: Config, s: State) returns (t: State)
    requires Inv(c, s) && s.cpc.CLoadNext? && Resting(s.workers)
    ensures Inv(c, t) && t.clap <= t.plap
    ensures t == s.(cpc := if s.barrier.index == s.cons then CIdle else CCheck(0, s.barrier.index, MAX_OFFSET, |s.log|, 0))
    ensures s.barrier.index == s.cons ==> s.taken == |s.log|
  {
    RestingUnlocked(c, s);
    LoadKeepsConsumer(c, s);
    if s.barrier.index == s.cons { NothingReady(c, s); }
    t := Scanned(c, s);
  }

  lemma BarrierInside(c: Config, s: State)
    requires Inv(c, s)
    ensures s.barrier.index < c.capacity == |s.buf| && s.cons < c.capacity && |s.data| == |s.log|
  {
  }

  lemma WrapBoundAtRest(c: Config, s: State)
    requires Inv(c, s) && s.cpc.Scans() && s.cpc.next < s.cons
    ensures s.plap == s.clap + 1
  {
    WrapBound(c, s);
  }

  lemma OwnedRoom(c: Config, s: State, i: nat)
    requires Inv(c, s) && i < |s.workers| && s.workers[i].pc.Owns()
    ensures var k := s.workers[i].pc.k;
            k < |s.log| && s.log[k].hi <= |s.buf| && |s.data| == |s.log| && |s.data[k]| == s.log[k].hi - s.log[k].lo
  {
    assert WorkerOk(c, s, i);
    assert ClaimOk(c, s.log, s.workers[i].pc.k);
  }

  // What consume has just handed out at `address`.
  ghost predicate HandedOut(s: State, from: nat, size: nat, address: nat) {
    && from < |s.log|
    && s.cpc == CHold(address + size, from)
    && address == s.cons
    && LongestPrefix(s, from, s.taken)
    && Tiles(s.log, from, s.taken, address, address + size)
  }

  ghost function Limit(c: Config, s: State): nat
    requires s.cpc.CCheck?
  {
    if s.cpc.next < s.cons then if 0 <= s.end < c.capacity then s.end else c.capacity else s.cpc.next
  }

  ghost predicate GoesRound(c: Config, s: State)
    requires s.cpc.CCheck?
  {
    s.cpc.next < s.cons && s.cpc.ready == MAX_OFFSET && s.cons == Limit(c, s)
  }

  lemma PrefixStarts(s: State, from: nat, k: nat)
    requires from < |s.log| && LongestPrefix(s, from, k)
    ensures Produced(s.workers, from)
  {
    hide Produced;
  }

  // The consumer hands out what lies before the smallest `seen` and the limit.
  lemma Deciding(c: Config, s: State) returns (t: State, size: nat)
    requires Inv(c, s) && s.cpc.CCheck? && s.cpc.i == |s.workers| && s.cpc.snap == |s.log|
    requires s.cpc.ready != MAX_OFFSET ==> !Produced(s.workers, s.cpc.rk)
    requires !GoesRound(c, s)
    ensures Inv(c, t) && t == s.(cpc := t.cpc, taken := t.taken)
    ensures s.cons <= s.cpc.ready && s.cons <= Limit(c, s)
    ensures size == (if s.cpc.ready < Limit(c, s) then s.cpc.ready else Limit(c, s)) - s.cons
    ensures size == 0 ==> t.cpc.CIdle? && t.taken == s.taken
    ensures size == 0 <==> s.taken == |s.log| || !Produced(s.workers, s.taken)
    ensures size > 0 ==> HandedOut(t, s.taken, size, s.cons)
  {
    hide Inv;
    hide Produced;
    hide LongestPrefix;
    hide Tiles;
    DecisionKeepsInv(c, s);
    BelowMax(c, s);
    EndNotNegative(c, s);
    t := Decided(c, s);
    size := (if s.cpc.ready < Limit(c, s) then s.cpc.ready else Limit(c, s)) - s.cons;
    if t.cpc.CHold? {
      DecidedLongest(c, s);
      HeldNonEmpty(c, t);
      PrefixStarts(t, s.taken, t.taken);
    } else {
      NothingToPop(c, s);
    }
  }

  lemma EndNotNegative(c: Config, s: State)
    requires Inv(c, s) && s.cpc.Scans()
    ensures s.cpc.next < s.cons ==> 0 <= s.end && s.cons <= if s.end < c.capacity then s.end else c.capacity
  {
    if s.cpc.next < s.cons { WrapBound(c, s); }
  }

  lemma GoingRound(c: Config, s: State) returns (t: State)
    requires Inv(c, s) && s.cpc.CCheck? && s.cpc.i == |s.workers| && GoesRound(c, s)
    ensures Inv(c, t)
    ensures t == s.(cpc := CLoadNext, cons := 0, clap := s.clap + 1, end := MAX_OFFSET)
    ensures s.clap < s.plap
  {
    EndNotNegative(c, s);
    WrapBoundAtRest(c, s);
    DecisionKeepsInv(c, s);
    hide Inv;
    t := Decided(c, s);
    if t.cpc.CClearEnd? {
      ClearEndKeepsInv(c, t);
      t := Scanned(c, t);
    }
    WrapKeepsInv(c, t);
    t := Scanned(c, t);
  }

  lemma HeldNonEmpty(c: Config, s: State)
    requires Inv(c, s) && s.cpc.CHold?
    ensures s.cons < s.cpc.hi <= c.capacity
  {
    HeldFacts(c, s);
  }

  // ------------------------------------------------------------- the object

  class MpscRingBuffer {
    const capacity: nat
    var producerBarrier: Word
    var end: int
    var consumerBarrier: nat
    const workers: array<Slot>
    const buffer: array<byte>
    ghost var model: State

    // The wrap counter never moves, as the code is written.
    function Cfg(): Config {
      Config(capacity, workers.Length, 1)
    }

    ghost predicate Mirrors()
      reads this, workers, buffer
    {
      && workers.Length == |model.workers| && buffer.Length == |model.buf|
      && model.barrier == producerBarrier && model.end == end && model.cons == consumerBarrier
      && Shows(workers[..], model.workers)
      && model.buf == buffer[..]
    }

    ghost predicate Valid()
      reads this, workers, buffer
    {
      && Mirrors()
      && Inv(Cfg(), model)
      && Resting(model.workers)
      && (model.cpc.CIdle? || model.cpc.CHold?)
    }

    constructor (capacity: nat, producerNum: nat)
      requires 0 < capacity < 0x1_0000_0000
      ensures Valid() && fresh(workers) && fresh(buffer)
      ensures this.capacity == capacity && workers.Length == producerNum
      ensures model == Initial(Cfg())
    {
      this.capacity := capacity;
      producerBarrier, end, consumerBarrier := Word(false, 0, 0), MAX_OFFSET, 0;
      workers := new Slot[producerNum](_ => Slot(Seen(false, 0), false));
      buffer := new byte[capacity](_ => 0);
      model := Initial(Config(capacity, producerNum, 1));
      new;
      InitialInv(Cfg());
    }

    method RegisterWorker(i: nat)
      requires Valid() && i < workers.Length && model.workers[i].pc.Detached?
      modifies this`model, workers
      ensures Valid()
      ensures model == old(model).(workers := old(model).workers[i := Worker(Idle, true, Seen(false, MAX_OFFSET))])
    {
      hide Inv;
      RegistrationKeepsInv(Cfg(), model, Register(i));
      workers[i] := workers[i].(seen := Seen(false, MAX_OFFSET));
      model := Step(Cfg(), model, Register(i));
      RegistrationKeepsInv(Cfg(), model, Register(i));
      workers[i] := workers[i].(registered := true);
      model := Step(Cfg(), model, Register(i));
    }

    // Lines 76-103: may `size` bytes be claimed at the loaded barrier, and what becomes of the barrier then?
    method Plan(loaded: Word, size: nat, written: nat) returns (fits: bool, word: Word)
      ensures fits <==> GuardPasses(Cfg(), loaded.index, size, written)
      ensures fits ==> word == Target(Cfg(), loaded, size)
    {
      var next := loaded.index;
      var target := next + size;
      word := loaded;
      if next < written && target >= written { return false, word; }
      if target >= capacity {
        word := if target > capacity then Word(true, 0, size) else Word(false, 0, 0);
        if word.index >= written { return false, word; }
        word := word.(counter := Bump(Cfg(), loaded.counter));
      } else {
        word := Word(false, loaded.counter, target);
      }
      fits := true;
    }

    // acquire up to its compare-exchange: either the barrier is swapped, or nothing has changed.
    method SwapIn(i: nat, size: nat, spurious: nat) returns (swapped: bool, next: nat)
      requires i < workers.Length && workers[i].seen == Seen(false, MAX_OFFSET)
      modifies this`producerBarrier, workers
      ensures swapped <==> GuardPasses(Cfg(), old(producerBarrier).index, size, consumerBarrier)
      ensures next == old(producerBarrier).index
      ensures producerBarrier == if swapped then Target(Cfg(), old(producerBarrier), size) else old(producerBarrier)
      ensures workers[..] == old(workers[..])[i := if swapped then Slot(Seen(true, next), old(workers[i]).registered) else old(workers[i])]
    {
      hide GuardPasses;
      hide Target;
      swapped := false;
      ghost var before := workers[..];
      ghost var barrier := producerBarrier;
      var failures := 0;
      next := producerBarrier.index;
      while !swapped
        invariant failures <= spurious && next == barrier.index
        invariant workers[..] == before[i := workers[i]] && workers[i].registered == before[i].registered
        invariant !swapped ==> producerBarrier == barrier
        invariant swapped ==>
                    && GuardPasses(Cfg(), barrier.index, size, consumerBarrier)
                    && workers[i].seen == Seen(true, next)
                    && producerBarrier == Target(Cfg(), barrier, size)
        decreases !swapped, spurious - failures
      {
        var loaded := producerBarrier;
        next := loaded.index;
        workers[i] := workers[i].(seen := Seen(true, next));
        var fits, word := Plan(loaded, size, consumerBarrier);
        if !fits {
          workers[i] := workers[i].(seen := Seen(false, MAX_OFFSET));
          return;
        }
        if producerBarrier == loaded && failures == spurious {
          producerBarrier, swapped := word, true;
        } else {
          failures := failures + 1;
        }
      }
    }

    // The rest of acquire: unlock what was seen, and if the claim starts over, store the cut-off and unlock the barrier.
    method Finish(i: nat, next: nat) returns (address: nat)
      requires i < workers.Length && workers[i].seen == Seen(true, next)
      modifies this`producerBarrier, this`end, workers
      ensures workers[..] == old(workers[..])[i := Slot(Seen(false, next), old(workers[i]).registered)]
      ensures producerBarrier == old(producerBarrier).(locked := false)
      ensures end == if old(producerBarrier).locked then next else old(end)
      ensures address == if old(producerBarrier).locked then 0 else next
    {
      workers[i] := workers[i].(seen := workers[i].seen.(locked := false));
      address := next;
      if producerBarrier.locked {
        end := address;
        address := 0;
        producerBarrier := producerBarrier.(locked := false);
      }
    }

    // All that acquire does to the fields.
    method Take(i: nat, size: nat, spurious: nat) returns (ok: bool, address: nat)
      requires i < workers.Length && workers[i].seen == Seen(false, MAX_OFFSET) && !producerBarrier.locked
      modifies this`producerBarrier, this`end, workers
      ensures ok <==> GuardPasses(Cfg(), old(producerBarrier).index, size, consumerBarrier)
      ensures ok ==>
                var next, target := old(producerBarrier).index, Target(Cfg(), old(producerBarrier), size);
                && producerBarrier == target.(locked := false)
                && end == (if target.locked then next else old(end))
                && address == (if target.locked then 0 else next)
                && workers[..] == old(workers[..])[i := Slot(Seen(false, next), old(workers[i]).registered)]
      ensures !ok ==> producerBarrier == old(producerBarrier) && end == old(end) && workers[..] == old(workers[..])
    {
      hide GuardPasses;
      hide Target;
      var next: nat;
      ok, next := SwapIn(i, size, spurious);
      address := 0;
      if ok {
        assert workers[i] == workers[..][i];
        address := Finish(i, next);
      }
    }

    /** Gives worker `i` the next `size` contiguous bytes, or refuses: exactly when they
        would reach the consumer, whether or not they have to start over at 0.
        `spurious` is how often compare_exchange_weak fails for no reason. */
    method Acquire(i: nat, size: nat, spurious: nat) returns (ok: bool, address: nat)
      requires Valid() && i < workers.Length && model.workers[i].pc.Idle? && 0 < size
      modifies this`producerBarrier, this`end, this`model, workers
      ensures Valid()
      ensures ok <==> size <= capacity && GuardPasses(Cfg(), old(producerBarrier).index, size, consumerBarrier)
      ensures model == if ok then Acquired(Cfg(), old(model), i, size) else old(model)
      ensures ok ==> model.log == old(model.log) + [model.log[|old(model.log)|]]
      ensures ok ==> address == model.log[|old(model.log)|].lo && address + size == model.log[|old(model.log)|].hi <= capacity
    {
      if size > capacity { return false, 0; }
      hide Inv;
      hide Resting;
      hide Acquired;
      hide GuardPasses;
      hide Target;
      hide Shows;
      assert workers[i] == workers[..][i];
      ShowsOne(workers[..], model.workers, i);
      IdleIsStable(Cfg(), model, i);
      BarrierInside(Cfg(), model);
      AcquiredFields(Cfg(), model, i, size);
      AcquiredKeepsInv(Cfg(), model, i, size);
      ok, address := Take(i, size, spurious);
      if ok {
        model := Acquired(Cfg(), model, i, size);
        ShowsUpdate(old(workers[..]), old(model).workers, i, model.workers[i]);
      }
    }

    // The bytes worker `i` may write lie at [lo, hi).
    ghost predicate Owns(i: nat, lo: nat, hi: nat)
      reads this
    {
      && i < |model.workers| && model.workers[i].pc.Owning? && model.workers[i].pc.k < |model.log|
      && lo == model.log[model.workers[i].pc.k].lo && hi == model.log[model.workers[i].pc.k].hi
    }

    // A producer writing through the pointer acquire gave it.
    method Store(ghost i: nat, ghost lo: nat, ghost hi: nat, address: nat, value: byte)
      requires Valid() && Owns(i, lo, hi) && lo <= address < hi
      modifies this`model, buffer
      ensures Valid() && model == Written(old(model), i, address - lo, value)
      ensures address < buffer.Length && buffer[..] == old(buffer[..])[address := value]
    {
      OwnedRoom(Cfg(), model, i);
      WriteKeepsInv(Cfg(), model, i, address - lo, value);
      hide Inv;
      buffer[address] := value;
      model := Written(model, i, address - lo, value);
    }

    method Produce(i: nat)
      requires Valid() && i < workers.Length && model.workers[i].pc.Owning?
      modifies this`model, workers
      ensures Valid() && model == Step(Cfg(), old(model), RingProtocol.Produce(i))
    {
      hide Inv;
      CallKeepsInv(Cfg(), model, RingProtocol.Produce(i));
      workers[i] := workers[i].(seen := Seen(false, MAX_OFFSET));
      model := Step(Cfg(), model, RingProtocol.Produce(i));
    }

    // The loop of consume over the workers: the smallest stable `seen` not behind the consumer.
    method Observe(written: nat, next: nat) returns (ready: int, ghost swept: State)
      requires Mirrors() && Inv(Cfg(), model) && Resting(model.workers) && written == consumerBarrier
      requires model.cpc == CCheck(0, next, MAX_OFFSET, |model.log|, 0)
      ensures Inv(Cfg(), swept) && swept.cpc.CCheck?
      ensures swept == model.(cpc := CCheck(workers.Length, next, ready, |model.log|, swept.cpc.rk))
      ensures ready != MAX_OFFSET ==> !Produced(swept.workers, swept.cpc.rk)
    {
      hide Inv;
      swept := model;
      BelowMax(Cfg(), swept);
      ready := MAX_OFFSET;
      var i := 0;
      while i < workers.Length
        invariant 0 <= i <= workers.Length && Inv(Cfg(), swept) && swept.cpc.CCheck?
        invariant swept == model.(cpc := CCheck(i, next, ready, |model.log|, swept.cpc.rk))
        invariant ready != MAX_OFFSET ==> !Produced(swept.workers, swept.cpc.rk)
        invariant written <= ready <= MAX_OFFSET
      {
        swept := Swept1(Cfg(), swept);
        BelowMax(Cfg(), swept);
        if workers[i].registered {
          var seen := workers[i].seen.offset;
          if seen >= written {
            if seen < ready {
              assert swept.workers[i].pc.Owns();
              ready := seen;
            }
          }
        }
        i := i + 1;
      }
    }

    // The wrap of the consumer: clear the cut-off if there is one, and start over at 0.
    method StartOver()
      requires Inv(Cfg(), model) && Mirrors() && model.cpc.CCheck? && model.cpc.i == |model.workers| && GoesRound(Cfg(), model)
      modifies this`end, this`consumerBarrier, this`model
      ensures Inv(Cfg(), model) && Mirrors() && old(model).clap < old(model).plap
      ensures model == old(model).(cpc := CLoadNext, cons := 0, clap := old(model).clap + 1, end := MAX_OFFSET)
    {
      hide Inv;
      model := GoingRound(Cfg(), model);
      if end != MAX_OFFSET {
        end := MAX_OFFSET;
      }
      consumerBarrier := 0;
    }

    // One turn of consume's loop: the consumer starts over at 0, or is done.
    method ConsumeOnce(written: nat) returns (again: bool, size: nat)
      requires Inv(Cfg(), model) && Mirrors() && Resting(model.workers) && model.cpc.CLoadNext? && written == consumerBarrier
      modifies this`end, this`consumerBarrier, this`model
      ensures Inv(Cfg(), model) && Mirrors()
      ensures again ==> old(model).clap < old(model).plap
      ensures again ==> model == old(model).(cons := 0, clap := old(model).clap + 1, end := MAX_OFFSET)
      ensures !again ==> model == old(model).(cpc := model.cpc, taken := model.taken)
      ensures !again ==> (size == 0 <==> old(model).taken == |model.log| || !Produced(model.workers, old(model).taken))
      ensures !again && size == 0 ==> model.cpc.CIdle? && model.taken == old(model).taken
      ensures !again && size > 0 ==> HandedOut(model, old(model).taken, size, written)
    {
      hide Inv;
      hide Resting;
      hide Produced;
      hide HandedOut;
      model := LoadingNext(Cfg(), model);
      var next := producerBarrier.index;
      if written == next {
        return false, 0;
      }
      var ready, swept := Observe(written, next);
      model := swept;
      EndNotNegative(Cfg(), model);
      var limit := next;
      if next < written {
        limit := if end < capacity then end else capacity;
        if ready == MAX_OFFSET && written == limit {
          StartOver();
          return true, 0;
        }
      }
      ghost var t, n := Deciding(Cfg(), model);
      model := t;
      ready := if ready < limit then ready else limit;
      again, size := false, ready - written;
    }

    /** Hands out the longest run of produced claims that lie next to each other, in
        claim order; nothing exactly when there is no claim left or the next one is not
        produced yet.  On the way the consumer may have to start over at 0. */
    method Consume() returns (size: nat, address: nat)
      requires Valid() && model.cpc.CIdle?
      modifies this`end, this`consumerBarrier, this`model
      ensures Valid()
      ensures model.log == old(model.log) && model.workers == old(model.workers)
      ensures model.buf == old(model.buf) && model.data == old(model.data)
      ensures size == 0 ==> model.cpc.CIdle? && model.taken == old(model.taken)
      ensures size == 0 <==> old(model.taken) == |model.log| || !Produced(model.workers, old(model.taken))
      ensures size > 0 ==> HandedOut(model, old(model.taken), size, address)
    {
      hide Inv;
      hide Resting;
      hide Produced;
      ghost var before := model;
      model := Entering(Cfg(), model);
      var again := true;
      address := consumerBarrier;
      size := 0;
      while again
        invariant Inv(Cfg(), model) && Mirrors()
        invariant again ==> model.cpc.CLoadNext? && address == consumerBarrier
        invariant model == before.(cpc := model.cpc, taken := model.taken, cons := model.cons, clap := model.clap, end := model.end)
        invariant model.clap <= model.plap
        invariant again ==> model.taken == before.taken
        invariant !again ==> (size == 0 <==> before.taken == |model.log| || !Produced(model.workers, before.taken))
        invariant !again && size == 0 ==> model.cpc.CIdle? && model.taken == before.taken
        invariant !again && size > 0 ==> HandedOut(model, before.taken, size, address)
        decreases again, model.plap - model.clap
      {
        again, size := ConsumeOnce(address);
        if again {
          address := consumerBarrier;
        }
      }
    }

    // The consumer gives back the first `bytes` of what it holds.
    method Release(bytes: nat)
      requires Valid() && model.cpc.CHold? && model.cons + bytes <= model.cpc.hi
      modifies this`consumerBarrier, this`model
      ensures Valid() && model == Released(Cfg(), old(model), bytes)
    {
      HeldFacts(Cfg(), model);
      ReleaseKeepsInv(Cfg(), model, bytes);
      hide Inv;
      var released := consumerBarrier + bytes;
      consumerBarrier := if released == capacity then 0 else released;
      model := Released(Cfg(), model, bytes);
    }
  }
}
