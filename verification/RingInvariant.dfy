/**
 The invariant of the concurrent ring and the proof that every single step keeps
 it, as long as a successful compare-exchange fits the consumer as it is then.
 */
module RingInvariant {
  import opened RingProtocol

  // -------------------------------------------------------------- invariant

  // Where the producer barrier stood after the first `k` claims.
  ghost function At(c: Config, log: seq<Claim>, k: nat): Pos
    requires k <= |log|
  {
    if k == 0 then Pos(0, 0)
    else if log[k - 1].hi == c.capacity then Pos(log[k - 1].lap + 1, 0)
    else Pos(log[k - 1].lap, log[k - 1].hi)
  }

  // Claim `k` starts at the barrier, or at 0 of the next lap when it did not fit.
  ghost predicate ClaimOk(c: Config, log: seq<Claim>, k: nat)
    requires k < |log|
  {
    var at := At(c, log, k);
    && log[k].lo < log[k].hi <= c.capacity
    && at.idx < c.capacity
    && (Pos(log[k].lap, log[k].lo) == at || (log[k].lap == at.lap + 1 && log[k].lo == 0 && 0 < at.idx))
  }

  ghost predicate LogOk(c: Config, log: seq<Claim>) {
    forall k {:trigger ClaimOk(c, log, k)} | 0 <= k < |log| :: ClaimOk(c, log, k)
  }

  ghost predicate ProducerOk(c: Config, s: State) {
    && |s.workers| == c.workers
    && |s.buf| == c.capacity
    && |s.data| == |s.log|
    && (forall k {:trigger s.data[k]} | 0 <= k < |s.log| :: |s.data[k]| == s.log[k].hi - s.log[k].lo)
    && At(c, s.log, |s.log|) == Pos(s.plap, s.barrier.index)
    && s.barrier.index < c.capacity
    && s.barrier.counter == Tag(c, s.plap)
  }

  // The producers are ahead of the consumer and less than one lap ahead.
  ghost predicate Ordered(s: State) {
    || (s.plap == s.clap && s.cons <= s.barrier.index)
    || (s.plap == s.clap + 1 && s.barrier.index < s.cons)
  }

  // `cut` is the first claim of the producers' lap while the consumer is one lap behind.
  ghost predicate CutOk(c: Config, s: State) {
    && s.cons < c.capacity
    && (s.plap == s.clap + 1 ==>
          && 1 <= s.cut <= |s.log|
          && s.log[s.cut - 1].lap == s.clap
          && s.cons <= s.log[s.cut - 1].hi
          && forall k {:trigger s.log[k]} | s.cut <= k < |s.log| :: s.log[k].lap == s.plap)
  }

  ghost predicate EndOk(c: Config, s: State) {
    && (s.plap == s.clap ==> !s.barrier.locked && s.end == MAX_OFFSET)
    && (s.plap == s.clap + 1 && 1 <= s.cut <= |s.log| ==>
          if s.barrier.locked then
            && s.cut + 1 == |s.log|
            && s.log[s.cut].worker < |s.workers|
            && s.workers[s.log[s.cut].worker].pc.Locks()
          else
            s.cpc.CWrap? || s.end == if s.log[s.cut - 1].hi == c.capacity then MAX_OFFSET else s.log[s.cut - 1].hi)
  }

  // `p` lies in the lap-wide stretch that starts at the consumer.
  ghost predicate InWindow(s: State, p: Pos) {
    (p.lap == s.clap && s.cons <= p.idx) || (p.lap == s.clap + 1 && p.idx < s.cons)
  }

  // A `_consumer_barrier` value read since the barrier last moved errs on the safe side.
  ghost predicate Conservative(s: State, next: nat, written: nat) {
    if written <= next then s.clap == s.plap && written <= s.cons
    else s.clap == s.plap || (s.clap + 1 == s.plap && written <= s.cons)
  }

  ghost predicate LoadedOk(c: Config, s: State, pc: PC)
    requires pc.Loaded()
  {
    && 0 < pc.size <= c.capacity
    && pc.at <= |s.log|
    && pc.seen == Word(false, Tag(c, At(c, s.log, pc.at).lap), At(c, s.log, pc.at).idx)
    && pc.seen.index < c.capacity
  }

  ghost predicate OwnerOk(c: Config, s: State, i: nat)
    requires i < |s.workers| && s.workers[i].pc.Owns()
  {
    var w := s.workers[i];
    var k := w.pc.k;
    && s.taken <= k < |s.log|
    && s.log[k].worker == i
    && w.seen == Seen(w.pc.UnlockSeen?, At(c, s.log, k).idx)
    && InWindow(s, At(c, s.log, k))
    && (w.pc.UnlockSeen? ==> (w.pc.wraps <==> s.log[k].lap == At(c, s.log, k).lap + 1))
    && (w.pc.Locks() ==>
          && s.barrier.locked && s.plap == s.clap + 1
          && k == s.cut && k + 1 == |s.log|
          && s.log[k].lap == At(c, s.log, k).lap + 1
          && s.end == if w.pc.UnlockBarrier? then At(c, s.log, k).idx else MAX_OFFSET)
  }

  ghost predicate WorkerOk(c: Config, s: State, i: nat)
    requires i < |s.workers|
  {
    var w := s.workers[i];
    && (w.registered <==> !w.pc.Detached? && !w.pc.Registering?)
    && (!w.pc.Owns() && !w.pc.Detached? ==> w.seen.locked || w.seen.offset == MAX_OFFSET)
    && (w.pc.Registering? || w.pc.Idle? ==> !w.seen.locked)
    && (w.pc.LoadNext? ==> 0 < w.pc.size <= c.capacity)
    && (w.pc.Loaded() ==> LoadedOk(c, s, w.pc))
    && (w.pc.TryCas? ==>
          && w.seen == Seen(true, w.pc.seen.index)
          && w.pc.written < c.capacity
          && GuardPasses(c, w.pc.seen.index, w.pc.size, w.pc.written)
          && (w.pc.at == |s.log| ==> Conservative(s, w.pc.seen.index, w.pc.written)))
    && (w.pc.ReadWritten? ==> w.seen == Seen(true, w.pc.seen.index))
    && (w.pc.Owns() ==> OwnerOk(c, s, i))
  }

  ghost predicate WorkersOk(c: Config, s: State) {
    forall i {:trigger WorkerOk(c, s, i)} | 0 <= i < |s.workers| :: WorkerOk(c, s, i)
  }

  // The consumer stands right before claim `taken`, or holds the claims [from, taken).
  ghost predicate TakenOk(c: Config, s: State) {
    && s.taken <= |s.log|
    && if s.cpc.CHold? then
         && s.cpc.from < s.taken
         && s.log[s.cpc.from].lap == s.clap
         && s.log[s.taken - 1].lap == s.clap
         && s.log[s.cpc.from].lo <= s.cons < s.cpc.hi == s.log[s.taken - 1].hi
       else
         || Pos(s.clap, s.cons) == At(c, s.log, s.taken)
         || (s.taken < |s.log| && Pos(s.clap, s.cons) == Pos(s.log[s.taken].lap, s.log[s.taken].lo))
  }

  // No worker below `i` still owns a claim of the first `snap` that starts before `ready` on this lap.
  ghost predicate Swept(c: Config, s: State, i: nat, snap: nat, ready: int)
    requires snap <= |s.log|
  {
    forall j {:trigger s.workers[j]} | 0 <= j < i && j < |s.workers| ::
      s.workers[j].pc.Owns() && s.workers[j].pc.k < snap && At(c, s.log, s.workers[j].pc.k).lap == s.clap
      ==> ready <= At(c, s.log, s.workers[j].pc.k).idx
  }

  ghost predicate ConsumerOk(c: Config, s: State) {
    && (s.cpc.Scans() ==>
          && s.cpc.i <= |s.workers|
          && s.taken < s.cpc.snap <= |s.log|
          && s.cpc.next == At(c, s.log, s.cpc.snap).idx != s.cons
          && InWindow(s, At(c, s.log, s.cpc.snap))
          && (At(c, s.log, s.cpc.snap).lap == s.clap + 1 ==> !s.barrier.locked)
          && s.cons <= s.cpc.ready <= MAX_OFFSET
          && (s.cpc.ready != MAX_OFFSET ==>
                s.taken <= s.cpc.rk < |s.log| && At(c, s.log, s.cpc.rk) == Pos(s.clap, s.cpc.ready))
          && Swept(c, s, s.cpc.i, s.cpc.snap, s.cpc.ready))
    && (s.cpc.CReadSeen? ==>
          && s.cpc.i < |s.workers|
          && (s.workers[s.cpc.i].pc.Detached? ==> s.workers[s.cpc.i].seen == Seen(false, MAX_OFFSET)))
    && (s.cpc.CClearEnd? || s.cpc.CWrap? ==>
          && s.plap == s.clap + 1
          && !s.barrier.locked
          && s.taken == s.cut
          && 1 <= s.cut <= |s.log|
          && s.cons == s.log[s.cut - 1].hi
          && (s.cpc.CWrap? ==> s.end == MAX_OFFSET)
          && forall j {:trigger s.workers[j]} | 0 <= j < |s.workers| && s.workers[j].pc.Owns() && s.workers[j].pc.k < |s.log| ::
               At(c, s.log, s.workers[j].pc.k).lap == s.clap + 1)
  }

  // No byte of claim `k` has been given back by the consumer.
  ghost predicate Unreleased(s: State, k: nat) {
    && k < |s.log|
    && (s.log[k].lap > s.clap || (s.log[k].lap == s.clap && s.cons <= s.log[k].lo))
  }

  // The bytes of claim `k` are the payload recorded for it.
  ghost predicate Intact(log: seq<Claim>, buf: seq<byte>, data: seq<seq<byte>>, k: nat) {
    && k < |log| && k < |data|
    && log[k].lo <= log[k].hi <= |buf|
    && buf[log[k].lo..log[k].hi] == data[k]
  }

  ghost predicate DataOk(s: State) {
    forall k: nat {:trigger Unreleased(s, k)} {:trigger Intact(s.log, s.buf, s.data, k)} | Unreleased(s, k) ::
      Intact(s.log, s.buf, s.data, k)
  }

  ghost predicate Inv(c: Config, s: State) {
    && ValidConfig(c)
    && LogOk(c, s.log)
    && ProducerOk(c, s)
    && Ordered(s)
    && CutOk(c, s)
    && EndOk(c, s)
    && WorkersOk(c, s)
    && TakenOk(c, s)
    && ConsumerOk(c, s)
    && DataOk(s)
  }

  lemma WorkerInv(c: Config, s: State, i: nat)
    requires Inv(c, s) && i < |s.workers|
    ensures WorkerOk(c, s, i)
  {
  }

  // ------------------------------------------------------ facts about the log

  // Later claims lie further along the track.
  lemma {:induction false} LogOrder(c: Config, log: seq<Claim>, i: nat, j: nat)
    requires LogOk(c, log) && i < j <= |log|
    ensures Before(At(c, log, i), At(c, log, j))
    ensures log[i].lap < At(c, log, j).lap || (log[i].lap == At(c, log, j).lap && log[i].hi <= At(c, log, j).idx)
    ensures j < |log| ==> log[i].lap < log[j].lap || (log[i].lap == log[j].lap && log[i].hi <= log[j].lo)
    decreases j
  {
    assert ClaimOk(c, log, j - 1);
    if i < j - 1 {
      LogOrder(c, log, i, j - 1);
    }
    if j < |log| {
      assert ClaimOk(c, log, j);
    }
  }

  // Claims already made are not affected by new ones.
  lemma AtAppend(c: Config, log: seq<Claim>, claim: Claim)
    ensures forall k {:trigger At(c, log, k)} {:trigger At(c, log + [claim], k)} | 0 <= k <= |log| ::
              At(c, log + [claim], k) == At(c, log, k)
  {
    forall k | 0 <= k <= |log|
      ensures At(c, log + [claim], k) == At(c, log, k)
    {
      if k > 0 {
        assert (log + [claim])[k - 1] == log[k - 1];
      }
    }
  }

  lemma InitialInv(c: Config)
    requires ValidConfig(c)
    ensures Inv(c, Initial(c))
  {
    var s := Initial(c);
    forall i | 0 <= i < |s.workers|
      ensures WorkerOk(c, s, i)
    {
      assert s.workers[i] == Worker(Detached, false, Seen(false, 0));
    }
  }

  ghost predicate Moves(c: Config, s: State, i: nat, w: Worker) {
    && i < |s.workers|
    && (w.pc.Owns() ==> s.workers[i].pc.Owns() && w.pc.k == s.workers[i].pc.k)
    && (w.pc.Locks() <==> s.workers[i].pc.Locks())
    && WorkerOk(c, Put(s, i, w), i)
    && (s.cpc.CReadSeen? && s.cpc.i == i && w.pc.Detached? ==> w.seen == Seen(false, MAX_OFFSET))
  }

  lemma PutKeepsWorkers(c: Config, s: State, i: nat, w: Worker)
    requires Inv(c, s) && Moves(c, s, i, w)
    ensures WorkersOk(c, Put(s, i, w))
  {
    hide ConsumerOk;
    hide TakenOk;
    hide DataOk;
    var t := Put(s, i, w);
    forall j | 0 <= j < |t.workers|
      ensures WorkerOk(c, t, j)
    {
      if j != i { assert WorkerOk(c, s, j); }
    }
  }

  // A worker may move without touching the ring, or let go of its claim.
  lemma PutKeepsInv(c: Config, s: State, i: nat, w: Worker)
    requires Inv(c, s) && Moves(c, s, i, w)
    ensures Inv(c, Put(s, i, w))
  {
    PutKeepsWorkers(c, s, i, w);
    hide WorkersOk;
    hide DataOk;
  }

  // May worker `i` complete its compare-exchange now, the guard being evaluated afresh?
  ghost predicate CasFits(c: Config, s: State, i: nat) {
    && i < |s.workers|
    && CasMatches(s, i)
    && GuardPasses(c, s.barrier.index, s.workers[i].pc.size, s.cons)
  }

  lemma CasKeepsLog(c: Config, s: State, i: nat)
    requires Inv(c, s) && CasFits(c, s, i)
    ensures var t := CasStep(c, s, i);
            LogOk(c, t.log) && ProducerOk(c, t) && Ordered(t) && CutOk(c, t)
  {
    WorkerInv(c, s, i);
    hide WorkersOk;
    hide ConsumerOk;
    hide TakenOk;
    hide EndOk;
    hide DataOk;
    var t := CasStep(c, s, i);
    AtAppend(c, s.log, t.log[|s.log|]);
    forall k | 0 <= k < |t.log|
      ensures ClaimOk(c, t.log, k)
    {
      if k < |s.log| { assert ClaimOk(c, s.log, k); }
    }
  }

  lemma CasKeepsData(c: Config, s: State, i: nat)
    requires Inv(c, s) && CasFits(c, s, i)
    ensures DataOk(CasStep(c, s, i))
  {
    CasKeepsLog(c, s, i);
    hide ConsumerOk;
    hide TakenOk;
    hide WorkersOk;
    hide EndOk;
    var t := CasStep(c, s, i);
    forall k: nat | Unreleased(t, k)
      ensures Intact(t.log, t.buf, t.data, k)
    {
      if k < |s.log| {
        assert Unreleased(s, k);
      } else {
        assert ClaimOk(c, t.log, k);
      }
    }
  }

  lemma CasKeepsWorkers(c: Config, s: State, i: nat)
    requires Inv(c, s) && CasFits(c, s, i)
    ensures WorkersOk(c, CasStep(c, s, i))
  {
    hide ConsumerOk;
    hide DataOk;
    var t := CasStep(c, s, i);
    assert WorkerOk(c, s, i);
    AtAppend(c, s.log, t.log[|s.log|]);
    forall j | 0 <= j < |t.workers|
      ensures WorkerOk(c, t, j)
    {
      assert WorkerOk(c, s, j);
    }
  }

  lemma CasKeepsConsumer(c: Config, s: State, i: nat)
    requires Inv(c, s) && CasFits(c, s, i)
    ensures var t := CasStep(c, s, i);
            EndOk(c, t) && TakenOk(c, t) && ConsumerOk(c, t)
  {
    WorkerInv(c, s, i);
    hide DataOk;
    hide WorkersOk;
    hide LoadedOk;
    hide OwnerOk;
    var t := CasStep(c, s, i);
    AtAppend(c, s.log, t.log[|s.log|]);
    if s.cpc.Scans() && s.cpc.snap < |s.log| {
      LogOrder(c, s.log, s.cpc.snap, |s.log|);
    }
  }

  // A compare-exchange that succeeds keeps the invariant when its guard holds of the consumer as it is now.
  lemma CasKeepsInv(c: Config, s: State, i: nat)
    requires Inv(c, s) && CasFits(c, s, i)
    ensures Inv(c, CasStep(c, s, i))
  {
    CasKeepsLog(c, s, i);
    CasKeepsWorkers(c, s, i);
    CasKeepsData(c, s, i);
    CasKeepsConsumer(c, s, i);
    hide LogOk;
    hide ProducerOk;
    hide Ordered;
    hide CutOk;
    hide EndOk;
    hide WorkersOk;
    hide TakenOk;
    hide ConsumerOk;
    hide DataOk;
  }

  // The barrier has wrapped fewer than `modulus` times since worker `i` loaded it.
  ghost predicate Fresh(c: Config, s: State, i: nat)
    requires i < |s.workers|
  {
    s.workers[i].pc.TryCas? && s.workers[i].pc.at <= |s.log| ==>
      c.modulus == 0 || s.plap < At(c, s.log, s.workers[i].pc.at).lap + c.modulus
  }

  // Fewer than `modulus` wraps never bring a counter back.
  lemma {:induction false} TagShift(c: Config, lap: nat, d: nat)
    requires c.modulus == 0 || d < c.modulus
    ensures c.modulus == 0 ==> Tag(c, lap) == lap && Tag(c, lap + d) == lap + d
    ensures c.modulus != 0 ==> Tag(c, lap) < c.modulus
    ensures c.modulus != 0 ==>
              Tag(c, lap + d) == if Tag(c, lap) + d < c.modulus then Tag(c, lap) + d else Tag(c, lap) + d - c.modulus
    decreases lap + d, d
  {
    if d > 0 {
      TagShift(c, lap, d - 1);
    } else if lap > 0 {
      TagShift(c, lap - 1, 0);
    }
  }

  // A fresh match means that nobody claimed anything since the load, so the old guard still holds.
  lemma FreshCasFits(c: Config, s: State, i: nat)
    requires Inv(c, s) && i < |s.workers| && CasMatches(s, i) && Fresh(c, s, i)
    ensures s.workers[i].pc.at == |s.log| && CasFits(c, s, i)
  {
    assert WorkerOk(c, s, i);
    var at := s.workers[i].pc.at;
    if at < |s.log| {
      LogOrder(c, s.log, at, |s.log|);
      TagShift(c, At(c, s.log, at).lap, s.plap - At(c, s.log, at).lap);
    }
  }

  lemma StoreEndKeepsInv(c: Config, s: State, i: nat)
    requires Inv(c, s) && i < |s.workers| && s.workers[i].pc.StoreEnd?
    ensures Inv(c, Advanced(c, s, i))
  {
    var t := Advanced(c, s, i);
    assert WorkerOk(c, s, i);
    forall j | 0 <= j < |t.workers|
      ensures WorkerOk(c, t, j)
    {
      assert WorkerOk(c, s, j);
    }
  }

  lemma UnlockBarrierKeepsInv(c: Config, s: State, i: nat)
    requires Inv(c, s) && i < |s.workers| && s.workers[i].pc.UnlockBarrier?
    ensures Inv(c, Advanced(c, s, i))
  {
    var t := Advanced(c, s, i);
    assert WorkerOk(c, s, i);
    assert ClaimOk(c, s.log, s.cut);
    forall j | 0 <= j < |t.workers|
      ensures WorkerOk(c, t, j)
    {
      assert WorkerOk(c, s, j);
    }
  }

  lemma LoadKeepsInv(c: Config, s: State, i: nat)
    requires Inv(c, s) && i < |s.workers|
    requires s.workers[i].pc.PublishSeen? || s.workers[i].pc.Fail? || s.workers[i].pc.ReadWritten?
    ensures Inv(c, Advanced(c, s, i))
  {
    WorkerInv(c, s, i);
    ReadIsConservative(c, s);
    hide Inv;
    var t := Advanced(c, s, i);
    assert t == Put(s, i, t.workers[i]);
    PutKeepsInv(c, s, i, t.workers[i]);
  }

  // The consumer barrier as it is now is as good as one read earlier.
  lemma ReadIsConservative(c: Config, s: State)
    requires Inv(c, s)
    ensures Conservative(s, s.barrier.index, s.cons) && s.cons < c.capacity && At(c, s.log, |s.log|).idx == s.barrier.index
  {
  }

  lemma LoadNextKeepsInv(c: Config, s: State, i: nat)
    requires Inv(c, s) && i < |s.workers| && s.workers[i].pc.LoadNext?
    ensures Inv(c, Advanced(c, s, i))
  {
    WorkerInv(c, s, i);
    var w := s.workers[i].(pc := PublishSeen(s.workers[i].pc.size, s.barrier, |s.log|));
    if !s.barrier.locked {
      assert WorkerOk(c, Put(s, i, w), i);
      PutKeepsInv(c, s, i, w);
    }
  }

  lemma UnlockSeenKeepsInv(c: Config, s: State, i: nat)
    requires Inv(c, s) && i < |s.workers| && s.workers[i].pc.UnlockSeen?
    ensures Inv(c, Advanced(c, s, i))
  {
    WorkerInv(c, s, i);
    hide Inv;
    var t := Advanced(c, s, i);
    PutKeepsInv(c, s, i, t.workers[i]);
  }

  lemma CasFailKeepsInv(c: Config, s: State, i: nat)
    requires Inv(c, s) && i < |s.workers| && s.workers[i].pc.TryCas?
    ensures Inv(c, Put(s, i, s.workers[i].(pc := LoadNext(s.workers[i].pc.size))))
  {
    WorkerInv(c, s, i);
    hide Inv;
    PutKeepsInv(c, s, i, s.workers[i].(pc := LoadNext(s.workers[i].pc.size)));
  }

  lemma AdvanceKeepsInv(c: Config, s: State, i: nat)
    requires Inv(c, s) && i < |s.workers|
    requires CasMatches(s, i) ==> CasFits(c, s, i)
    ensures Inv(c, Advanced(c, s, i))
  {
    hide Inv;
    match s.workers[i].pc
    case LoadNext(_) => LoadNextKeepsInv(c, s, i);
    case PublishSeen(_, _, _) => LoadKeepsInv(c, s, i);
    case Fail => LoadKeepsInv(c, s, i);
    case ReadWritten(_, _, _) => LoadKeepsInv(c, s, i);
    case TryCas(_, _, _, _) => if CasMatches(s, i) { CasKeepsInv(c, s, i); } else { CasFailKeepsInv(c, s, i); }
    case UnlockSeen(_, _) => UnlockSeenKeepsInv(c, s, i);
    case StoreEnd(_) => StoreEndKeepsInv(c, s, i);
    case UnlockBarrier(_) => UnlockBarrierKeepsInv(c, s, i);
    case _ =>
  }

  // Two claims none of whose bytes has been given back never share a byte.
  lemma UnreleasedDisjoint(c: Config, s: State, a: nat, b: nat)
    requires Inv(c, s) && a != b && Unreleased(s, a) && Unreleased(s, b)
    ensures s.log[a].hi <= s.log[b].lo || s.log[b].hi <= s.log[a].lo
    ensures s.log[a].hi <= c.capacity
  {
    var x, y := if a < b then a else b, if a < b then b else a;
    assert ClaimOk(c, s.log, a) && ClaimOk(c, s.log, b);
    LogOrder(c, s.log, x, y);
    LogOrder(c, s.log, y, |s.log|);
    LogOrder(c, s.log, x, |s.log|);
  }

  // What a producer owns is unreleased.
  lemma OwnedIsUnreleased(c: Config, s: State, i: nat)
    requires Inv(c, s) && i < |s.workers| && s.workers[i].pc.Owns()
    ensures Unreleased(s, s.workers[i].pc.k) && s.log[s.workers[i].pc.k].worker == i
    ensures s.taken <= s.workers[i].pc.k
  {
    assert WorkerOk(c, s, i);
    assert ClaimOk(c, s.log, s.workers[i].pc.k);
  }

  lemma WriteKeepsData(c: Config, s: State, i: nat, offset: nat, value: byte)
    requires Inv(c, s) && i < |s.workers|
    ensures DataOk(Written(s, i, offset, value))
  {
    var t := Written(s, i, offset, value);
    forall q: nat | Unreleased(t, q)
      ensures Intact(t.log, t.buf, t.data, q)
    {
      assert Unreleased(s, q);
      if t != s {
        OwnedIsUnreleased(c, s, i);
        if q != s.workers[i].pc.k { UnreleasedDisjoint(c, s, q, s.workers[i].pc.k); }
      }
    }
  }

  lemma WriteKeepsInv(c: Config, s: State, i: nat, offset: nat, value: byte)
    requires Inv(c, s) && i < |s.workers|
    ensures Inv(c, Written(s, i, offset, value))
  {
    WriteKeepsData(c, s, i, offset, value);
    hide DataOk;
    var t := Written(s, i, offset, value);
    forall j | 0 <= j < |t.workers|
      ensures WorkerOk(c, t, j)
    {
      assert WorkerOk(c, s, j);
    }
  }

  // ----------------------------------------------------------- the consumer

  // Changing only the consumer's own variables cannot hurt a worker that owns nothing below the new `taken`.
  lemma ConsumerMoves(c: Config, s: State, t: State)
    requires Inv(c, s) && t == s.(cpc := t.cpc, taken := t.taken)
    requires forall i {:trigger s.workers[i]} | 0 <= i < |s.workers| && s.workers[i].pc.Owns() :: t.taken <= s.workers[i].pc.k
    requires TakenOk(c, t) && ConsumerOk(c, t) && EndOk(c, t)
    ensures Inv(c, t)
  {
    hide TakenOk;
    hide ConsumerOk;
    hide EndOk;
    assert DataOk(t) by {
      forall k: nat | Unreleased(t, k)
        ensures Intact(t.log, t.buf, t.data, k)
      {
        assert Unreleased(s, k);
      }
    }
    hide DataOk;
    forall j | 0 <= j < |t.workers|
      ensures WorkerOk(c, t, j)
    {
      assert WorkerOk(c, s, j);
    }
  }

  lemma AllOwnersAbove(c: Config, s: State)
    requires Inv(c, s)
    ensures forall i {:trigger s.workers[i]} | 0 <= i < |s.workers| && s.workers[i].pc.Owns() :: s.taken <= s.workers[i].pc.k
  {
    forall i {:trigger s.workers[i]} | 0 <= i < |s.workers| && s.workers[i].pc.Owns()
      ensures s.taken <= s.workers[i].pc.k
    {
      assert WorkerOk(c, s, i);
    }
  }

  lemma SweepKeepsInv(c: Config, s: State)
    requires Inv(c, s) && (s.cpc.CReadSeen? || (s.cpc.CCheck? && s.cpc.i < |s.workers|))
    ensures Inv(c, Scanned(c, s))
  {
    SweepKeepsConsumer(c, s);
    AllOwnersAbove(c, s);
    hide ConsumerOk;
    hide DataOk;
    hide WorkersOk;
    hide LogOk;
    ConsumerMoves(c, s, Scanned(c, s));
  }

  // What a worker's stable `seen` tells the consumer.
  lemma SeenMeans(c: Config, s: State, i: nat)
    requires Inv(c, s) && i < |s.workers| && !s.workers[i].seen.locked
    ensures !s.workers[i].pc.Owns() && !s.workers[i].pc.Detached? ==> s.workers[i].seen.offset == MAX_OFFSET
    ensures s.workers[i].pc.Owns() ==>
              var k := s.workers[i].pc.k;
              && s.taken <= k < |s.log|
              && s.workers[i].seen.offset == At(c, s.log, k).idx < MAX_OFFSET
              && (At(c, s.log, k).lap == s.clap <==> s.cons <= At(c, s.log, k).idx)
  {
    assert WorkerOk(c, s, i);
    if s.workers[i].pc.Owns() { assert ClaimOk(c, s.log, s.workers[i].pc.k); }
  }

  lemma CheckKeepsConsumer(c: Config, s: State)
    requires Inv(c, s) && s.cpc.CCheck? && s.cpc.i < |s.workers|
    ensures ConsumerOk(c, Scanned(c, s))
  {
    WorkerInv(c, s, s.cpc.i);
    hide DataOk;
    hide WorkersOk;
    hide EndOk;
    hide CutOk;
    hide LogOk;
    hide TakenOk;
    hide ProducerOk;
    hide OwnerOk;
    hide LoadedOk;
    hide At;
  }

  lemma ReadKeepsConsumer(c: Config, s: State)
    requires Inv(c, s) && s.cpc.CReadSeen? && !s.workers[s.cpc.i].seen.locked
    ensures ConsumerOk(c, Scanned(c, s))
  {
    var t, i := Scanned(c, s), s.cpc.i;
    SeenMeans(c, s, i);
    hide DataOk;
    hide WorkersOk;
    hide EndOk;
    hide CutOk;
    hide LogOk;
    hide TakenOk;
    hide ProducerOk;
    hide At;
    assert Swept(c, t, i + 1, t.cpc.snap, t.cpc.ready) by {
      assert forall j {:trigger s.workers[j]} | 0 <= j < i :: t.workers[j] == s.workers[j];
    }
    hide Swept;
  }

  lemma SweepKeepsConsumer(c: Config, s: State)
    requires Inv(c, s) && (s.cpc.CReadSeen? || (s.cpc.CCheck? && s.cpc.i < |s.workers|))
    ensures ConsumerOk(c, Scanned(c, s))
  {
    if s.cpc.CCheck? {
      CheckKeepsConsumer(c, s);
    } else if !s.workers[s.cpc.i].seen.locked {
      ReadKeepsConsumer(c, s);
    }
  }

  lemma LoadKeepsConsumer(c: Config, s: State)
    requires Inv(c, s) && s.cpc.CLoadNext?
    ensures Inv(c, Scanned(c, s))
  {
    AllOwnersAbove(c, s);
    ConsumerMoves(c, s, Scanned(c, s));
  }

  // The range that ends with claim `k - 1` may be handed out: nobody still owns a claim below `k`.
  lemma HoldKeepsInv(c: Config, s: State, upTo: nat, k: nat)
    requires Inv(c, s) && s.cpc.Scans() && s.cpc.i == |s.workers|
    requires 1 <= k <= s.cpc.snap && s.log[k - 1].lap == s.clap && s.log[k - 1].hi == upTo
    requires s.cons < upTo <= s.cpc.ready
    ensures s.taken < k && s.log[s.taken].lap == s.clap && s.log[s.taken].lo == s.cons
    ensures Inv(c, s.(cpc := CHold(upTo, s.taken), taken := k))
  {
    var t := s.(cpc := CHold(upTo, s.taken), taken := k);
    assert ClaimOk(c, s.log, s.taken);
    if k <= s.taken {
      LogOrder(c, s.log, k - 1, s.taken);
    } else if s.taken < k - 1 {
      LogOrder(c, s.log, s.taken, k - 1);
    }
    forall i {:trigger s.workers[i]} | 0 <= i < |s.workers| && s.workers[i].pc.Owns()
      ensures k <= s.workers[i].pc.k
    {
      assert WorkerOk(c, s, i);
      var q := s.workers[i].pc.k;
      assert ClaimOk(c, s.log, k - 1) && ClaimOk(c, s.log, q);
      if q < k {
        LogOrder(c, s.log, q, k);
      }
    }
    ConsumerMoves(c, s, t);
  }

  lemma WrapBound(c: Config, s: State)
    requires Inv(c, s) && s.cpc.Scans() && s.cpc.next < s.cons
    ensures s.plap == s.clap + 1 && !s.barrier.locked && s.cut <= s.cpc.snap
    ensures s.log[s.cut - 1].hi == if s.end < c.capacity then s.end else c.capacity
    ensures s.end == MAX_OFFSET || s.end == s.log[s.cut - 1].hi
  {
    assert ClaimOk(c, s.log, s.cpc.snap - 1);
    if s.cpc.snap < |s.log| {
      LogOrder(c, s.log, s.cpc.snap, |s.log|);
    }
    assert ClaimOk(c, s.log, s.cut - 1);
    if s.cpc.snap < s.cut - 1 {
      LogOrder(c, s.log, s.cpc.snap, s.cut - 1);
    }
  }

  // The consumer goes back to 0 only after the claims of its lap have all been produced.
  lemma WrapDecisionKeepsInv(c: Config, s: State)
    requires Inv(c, s) && s.cpc.CCheck? && s.cpc.i == |s.workers|
    requires s.cpc.next < s.cons && s.cpc.ready == MAX_OFFSET
    requires s.cons == if s.end < c.capacity then s.end else c.capacity
    ensures Inv(c, Decided(c, s))
  {
    WrapBound(c, s);
    var t := Decided(c, s);
    assert ClaimOk(c, s.log, s.taken);
    assert ClaimOk(c, s.log, s.cut - 1);
    if s.taken < s.cut {
      LogOrder(c, s.log, s.taken, s.cut);
    } else if s.cut < s.taken {
      LogOrder(c, s.log, s.cut, s.taken);
    }
    forall j {:trigger s.workers[j]} | 0 <= j < |s.workers| && s.workers[j].pc.Owns() && s.workers[j].pc.k < |s.log|
      ensures At(c, s.log, s.workers[j].pc.k).lap == s.clap + 1
    {
      assert WorkerOk(c, s, j);
      if s.cpc.snap < s.workers[j].pc.k { LogOrder(c, s.log, s.cpc.snap, s.workers[j].pc.k); }
    }
    AllOwnersAbove(c, s);
    ConsumerMoves(c, s, t);
  }

  // The claim up to which the decision of the consumer reaches.
  lemma HoldDecisionKeepsInv(c: Config, s: State)
    requires Inv(c, s) && s.cpc.CCheck? && s.cpc.i == |s.workers| && Decided(c, s).cpc.CHold?
    ensures Inv(c, Decided(c, s))
    ensures s.taken < Decided(c, s).taken && s.log[s.taken].lap == s.clap && s.log[s.taken].lo == s.cons
  {
    var t := Decided(c, s);
    if s.cpc.next < s.cons { WrapBound(c, s); }
    assert ClaimOk(c, s.log, s.cpc.snap - 1);
    assert s.cpc.rk < |s.log| ==> ClaimOk(c, s.log, s.cpc.rk);
    assert 1 <= s.cpc.rk <= |s.log| ==> ClaimOk(c, s.log, s.cpc.rk - 1);
    if s.cpc.ready <= t.cpc.hi && s.cpc.snap < s.cpc.rk {
      LogOrder(c, s.log, s.cpc.snap, s.cpc.rk);
    }
    HoldKeepsInv(c, s, t.cpc.hi, t.taken);
  }

  lemma DecisionKeepsInv(c: Config, s: State)
    requires Inv(c, s) && s.cpc.CCheck? && s.cpc.i == |s.workers|
    ensures Inv(c, Decided(c, s))
  {
    var t := Decided(c, s);
    if t.cpc.CHold? {
      HoldDecisionKeepsInv(c, s);
    } else if t.cpc.CIdle? {
      AllOwnersAbove(c, s);
      ConsumerMoves(c, s, t);
    } else {
      WrapDecisionKeepsInv(c, s);
    }
  }

  lemma ClearEndKeepsInv(c: Config, s: State)
    requires Inv(c, s) && s.cpc.CClearEnd?
    ensures Inv(c, Scanned(c, s))
  {
    var t := Scanned(c, s);
    forall j | 0 <= j < |t.workers|
      ensures WorkerOk(c, t, j)
    {
      assert WorkerOk(c, s, j);
    }
  }

  lemma WrapKeepsInv(c: Config, s: State)
    requires Inv(c, s) && s.cpc.CWrap?
    ensures Inv(c, Scanned(c, s))
  {
    var t := Scanned(c, s);
    assert ClaimOk(c, s.log, s.cut - 1);
    if s.cut < |s.log| { assert ClaimOk(c, s.log, s.cut); }
    forall j | 0 <= j < |t.workers|
      ensures WorkerOk(c, t, j)
    {
      assert WorkerOk(c, s, j);
    }
    forall k: nat | Unreleased(t, k)
      ensures Intact(t.log, t.buf, t.data, k)
    {
      assert Unreleased(s, k);
    }
  }

  lemma ScanKeepsInv(c: Config, s: State)
    requires Inv(c, s)
    ensures Inv(c, Scanned(c, s))
  {
    match s.cpc
    case CLoadNext => LoadKeepsConsumer(c, s);
    case CCheck(i, _, _, _, _) => if i < |s.workers| { SweepKeepsInv(c, s); } else { DecisionKeepsInv(c, s); }
    case CReadSeen(_, _, _, _, _) => SweepKeepsInv(c, s);
    case CClearEnd => ClearEndKeepsInv(c, s);
    case CWrap => WrapKeepsInv(c, s);
    case _ =>
  }

  // Everything still owned starts behind the held range.
  lemma HeldFacts(c: Config, s: State)
    requires Inv(c, s) && s.cpc.CHold?
    ensures s.cpc.hi <= c.capacity
    ensures s.plap == s.clap ==> s.cpc.hi <= s.barrier.index
    ensures s.plap == s.clap + 1 ==> s.taken <= s.cut && s.cpc.hi <= s.log[s.cut - 1].hi
    ensures s.cpc.hi == c.capacity ==> s.plap == s.clap + 1 && !s.barrier.locked && s.end == MAX_OFFSET
  {
    assert ClaimOk(c, s.log, s.taken - 1);
    LogOrder(c, s.log, s.taken - 1, |s.log|);
    if s.plap == s.clap + 1 {
      assert ClaimOk(c, s.log, s.cut - 1);
      if s.taken < s.cut {
        LogOrder(c, s.log, s.taken - 1, s.cut - 1);
      }
      assert s.barrier.locked ==> WorkerOk(c, s, s.log[s.cut].worker);
    }
  }

  lemma HeldOwners(c: Config, s: State, i: nat)
    requires Inv(c, s) && s.cpc.CHold? && i < |s.workers| && s.workers[i].pc.Owns()
    ensures s.workers[i].pc.k < |s.log|
    ensures At(c, s.log, s.workers[i].pc.k).lap == s.clap ==>
              s.cpc.hi <= At(c, s.log, s.workers[i].pc.k).idx && s.cpc.hi < c.capacity
  {
    assert WorkerOk(c, s, i);
    assert ClaimOk(c, s.log, s.workers[i].pc.k);
    LogOrder(c, s.log, s.taken - 1, s.workers[i].pc.k);
  }

  lemma ReleaseKeepsOrder(c: Config, s: State, bytes: nat)
    requires Inv(c, s) && s.cpc.CHold? && s.cons + bytes <= s.cpc.hi
    ensures var t := Released(c, s, bytes);
            Ordered(t) && CutOk(c, t) && EndOk(c, t) && TakenOk(c, t)
  {
    HeldFacts(c, s);
    assert ClaimOk(c, s.log, s.taken - 1);
  }

  lemma ReleaseKeepsWorkers(c: Config, s: State, bytes: nat)
    requires Inv(c, s) && s.cpc.CHold? && s.cons + bytes <= s.cpc.hi
    ensures WorkersOk(c, Released(c, s, bytes))
  {
    var t := Released(c, s, bytes);
    HeldFacts(c, s);
    forall j | 0 <= j < |t.workers|
      ensures WorkerOk(c, t, j)
    {
      assert WorkerOk(c, s, j);
      if s.workers[j].pc.Owns() { HeldOwners(c, s, j); }
    }
  }

  lemma ReleaseKeepsInv(c: Config, s: State, bytes: nat)
    requires Inv(c, s)
    ensures Inv(c, Released(c, s, bytes))
  {
    var t := Released(c, s, bytes);
    if s.cpc.CHold? && s.cons + bytes <= s.cpc.hi {
      ReleaseKeepsOrder(c, s, bytes);
      ReleaseKeepsWorkers(c, s, bytes);
      forall k: nat | Unreleased(t, k)
        ensures Intact(t.log, t.buf, t.data, k)
      {
        assert Unreleased(s, k);
      }
    }
  }

  // ------------------------------------------------------------ every step

  lemma RegistrationKeepsInv(c: Config, s: State, a: Action)
    requires Inv(c, s) && (a.Register? || a.Unregister?)
    ensures Inv(c, Step(c, s, a))
  {
    hide Inv;
    var t := Step(c, s, a);
    if t != s {
      WorkerInv(c, s, a.i);
      assert t == Put(s, a.i, t.workers[a.i]);
      PutKeepsInv(c, s, a.i, t.workers[a.i]);
    }
  }

  lemma CallKeepsInv(c: Config, s: State, a: Action)
    requires Inv(c, s) && (a.Acquire? || a.Produce?)
    ensures Inv(c, Step(c, s, a))
  {
    hide Inv;
    var t := Step(c, s, a);
    if t != s {
      WorkerInv(c, s, a.i);
      assert t == Put(s, a.i, t.workers[a.i]);
      PutKeepsInv(c, s, a.i, t.workers[a.i]);
    }
  }

  lemma ConsumeKeepsInv(c: Config, s: State)
    requires Inv(c, s)
    ensures Inv(c, Step(c, s, Consume))
  {
    AllOwnersAbove(c, s);
    ConsumerMoves(c, s, Step(c, s, Consume));
  }

  // May worker `i` complete a compare-exchange in this step, and if so, does its guard still hold?
  ghost predicate StepFits(c: Config, s: State, a: Action) {
    a.Advance? && a.i < |s.workers| && CasMatches(s, a.i) ==> CasFits(c, s, a.i)
  }

  lemma StepKeepsInv(c: Config, s: State, a: Action)
    requires Inv(c, s) && StepFits(c, s, a)
    ensures Inv(c, Step(c, s, a))
  {
    ConsumeKeepsInv(c, s);
    hide Inv;
    match a
    case Register(_) => RegistrationKeepsInv(c, s, a);
    case Unregister(_) => RegistrationKeepsInv(c, s, a);
    case Acquire(_, _) => CallKeepsInv(c, s, a);
    case Produce(_) => CallKeepsInv(c, s, a);
    case CasFails(i) => if i < |s.workers| && s.workers[i].pc.TryCas? { CasFailKeepsInv(c, s, i); }
    case Advance(i) => if i < |s.workers| { AdvanceKeepsInv(c, s, i); }
    case Write(i, offset, value) => if i < |s.workers| { WriteKeepsInv(c, s, i, offset, value); }
    case Consume =>
    case Scan => ScanKeepsInv(c, s);
    case Release(bytes) => ReleaseKeepsInv(c, s, bytes);
  }
}
