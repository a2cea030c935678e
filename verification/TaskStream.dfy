/**
 Records in the ring: however producers and consumer interleave, the bytes handed
 out are whole records, in claim order.
 */
module TaskStream {
  import opened RingProtocol
  import opened RingInvariant
  import opened RingSafety
  import opened Framing

  // What pop returns for a task.
  function Delivered(t: Task): Record {
    Record(FrameLength(t), t.operation, t.stackSize % U32_SIZE, UpToNul(t.description))
  }

  datatype Batch = Parsed(records: seq<Record>) | Garbled

  // Reads record after record from `at`, each telling where the next one starts, until `end` is hit exactly.
  function ReadBatch(b: seq<byte>, at: nat, end: nat): Batch
    decreases end as int - at as int
  {
    if at == end then Parsed([])
    else if at > end || !Readable(b, at) || ReadRecord(b, at).length == 0 then Garbled
    else
      var rest := ReadBatch(b, at + ReadRecord(b, at).length, end);
      if rest.Garbled? then Garbled else Parsed([ReadRecord(b, at)] + rest.records)
  }

  lemma ReadsOn(b: seq<byte>, at: nat, end: nat, record: Record, rest: seq<Record>)
    requires Readable(b, at) && ReadRecord(b, at) == record && 0 < record.length <= end - at
    requires ReadBatch(b, at + record.length, end) == Parsed(rest)
    ensures ReadBatch(b, at, end) == Parsed([record] + rest)
  {
    hide Readable;
    hide ReadRecord;
  }

  lemma FrameNotEmpty(t: Task)
    ensures 0 < FrameLength(t)
  {
  }

  // Producer `k` has written the frame of `tasks[k]` into its claim.
  ghost predicate Framed(s: State, tasks: seq<Task>, k: nat) {
    && k < |s.log| && k < |tasks| && k < |s.data|
    && tasks[k].operation != []
    && s.log[k].hi == s.log[k].lo + FrameLength(tasks[k])
    && HoldsFrame(s.data[k], tasks[k])
  }

  lemma HeldClaim(c: Config, s: State, k: nat)
    requires Inv(c, s) && s.cpc.CHold? && s.cpc.from <= k < s.taken
    ensures s.taken <= |s.log| && s.log[k].lap == s.clap && s.log[k].lo < s.log[k].hi <= s.cpc.hi <= c.capacity
    ensures if k + 1 < s.taken then s.log[k].hi == s.log[k + 1].lo else s.log[k].hi == s.cpc.hi
  {
    HeldFacts(c, s);
    HeldClaims(c, s);
    assert ClaimOk(c, s.log, k) && ClaimOk(c, s.log, s.taken - 1);
    assert k + 1 < s.taken ==> ClaimOk(c, s.log, k + 1);
    if k < s.taken - 1 { LogOrder(c, s.log, k, s.taken - 1); }
  }

  // The record of an unreleased, framed claim is read back from the buffer.
  lemma ReadsClaim(c: Config, s: State, tasks: seq<Task>, k: nat)
    requires Inv(c, s) && Framed(s, tasks, k) && Unreleased(s, k)
    ensures s.log[k].hi <= |s.buf| && Readable(s.buf, s.log[k].lo)
    ensures ReadRecord(s.buf, s.log[k].lo) == Delivered(tasks[k])
  {
    assert Intact(s.log, s.buf, s.data, k);
    assert s.buf[s.log[k].lo..s.log[k].lo + FrameLength(tasks[k])] == s.data[k];
    assert FrameLength(tasks[k]) < U32_SIZE by { assert ClaimOk(c, s.log, k); }
    ReadsWhatWasWritten(s.buf, s.log[k].lo, tasks[k]);
  }

  // What pop returns for tasks [from, to), one after the other.
  function Deliveries(tasks: seq<Task>, from: nat, to: nat): seq<Record>
    requires from <= to <= |tasks|
    decreases |tasks| - from
  {
    if from == to then [] else [Delivered(tasks[from])] + Deliveries(tasks, from + 1, to)
  }

  /** From any record boundary the consumer still holds, the held bytes parse as the
      remaining tasks in claim order, and the last record ends where the range ends. */
  lemma {:induction false} HeldRangeParses(c: Config, s: State, tasks: seq<Task>, j: nat)
    requires Inv(c, s) && s.cpc.CHold? && s.cpc.from <= j < s.taken <= |tasks|
    requires forall k | j <= k < s.taken :: Framed(s, tasks, k)
    requires j < |s.log| && s.cons <= s.log[j].lo
    ensures ReadBatch(s.buf, s.log[j].lo, s.cpc.hi) == Parsed(Deliveries(tasks, j, s.taken))
    decreases |s.log| - j
  {
    hide Inv;
    hide Readable;
    hide ReadRecord;
    hide HoldsFrame;
    HeldClaim(c, s, j);
    ReadsClaim(c, s, tasks, j);
    FrameNotEmpty(tasks[j]);
    hide FrameLength;
    assert Framed(s, tasks, j);
    if j + 1 < s.taken {
      HeldRangeParses(c, s, tasks, j + 1);
    }
    ReadsOn(s.buf, s.log[j].lo, s.cpc.hi, Delivered(tasks[j]), Deliveries(tasks, j + 1, s.taken));
  }

  // The same for every reachable state of the concurrent ring, while nothing of the range has been released.
  lemma ConsumedRangeParses(c: Config, s: State, tasks: seq<Task>)
    requires Reachable(c, s) && s.cpc.CHold? && s.cpc.from < |s.log| && s.cons == s.log[s.cpc.from].lo
    requires s.taken <= |tasks| && forall k | s.cpc.from <= k < s.taken :: Framed(s, tasks, k)
    ensures s.cpc.from < s.taken
    ensures ReadBatch(s.buf, s.cons, s.cpc.hi) == Parsed(Deliveries(tasks, s.cpc.from, s.taken))
  {
    ReachableInv(c, s);
    HeldClaims(c, s);
    HeldRangeParses(c, s, tasks, s.cpc.from);
  }

  // If every claim is as long as some frame, every record starts at a multiple of 8.
  lemma {:induction false} ClaimsAligned(c: Config, log: seq<Claim>, k: nat)
    requires LogOk(c, log) && k < |log|
    requires forall q | 0 <= q < k :: (log[q].hi - log[q].lo) % 8 == 0
    ensures log[k].lo % 8 == 0
  {
    assert ClaimOk(c, log, k);
    if log[k].lo != 0 {
      ClaimsAligned(c, log, k - 1);
    }
  }

  // ----------------------------------------------------------- one batch

  // Framed looks only at the histories.
  lemma FramedKept(s: State, t: State, tasks: seq<Task>, k: nat)
    requires Framed(s, tasks, k) && k < |t.log| && k < |t.data| && t.log[k] == s.log[k] && t.data[k] == s.data[k]
    ensures Framed(t, tasks, k)
  {
  }

  // Tasks [0, performed) are performed, [performed, popped) popped only; `poped` is the next
  // record of the batch the consumer holds, which ends at `consumed`.
  ghost predicate BatchOk(s: State, tasks: seq<Task>, popped: nat, performed: nat, poped: nat, consumed: nat) {
    && |tasks| == |s.log|
    && performed <= popped <= s.taken <= |s.log|
    && (forall k {:trigger Framed(s, tasks, k)} | 0 <= k < s.taken :: Framed(s, tasks, k))
    && (!s.cpc.CHold? ==> performed == s.taken && poped == consumed)
    && (s.cpc.CHold? ==>
          && s.cpc.from <= performed < s.taken
          && s.cons == s.log[performed].lo
          && consumed == s.cpc.hi
          && poped == if popped == s.taken then s.cpc.hi else s.log[popped].lo)
  }

  // Within a batch the next record is the next task's, and reading it moves on to the one after.
  lemma BatchGoesOn(c: Config, s: State, tasks: seq<Task>, popped: nat, performed: nat, poped: nat, consumed: nat)
    requires Inv(c, s) && BatchOk(s, tasks, popped, performed, poped, consumed)
    requires s.cpc.CHold? && poped < consumed
    ensures popped < |tasks| && Readable(s.buf, poped) && poped == s.log[popped].lo
    ensures ReadRecord(s.buf, poped) == Delivered(tasks[popped])
    ensures poped + OPERATION_AT + |tasks[popped].operation| <= |s.buf|
    ensures s.buf[poped + OPERATION_AT..poped + OPERATION_AT + |tasks[popped].operation|] == tasks[popped].operation
    ensures BatchOk(s, tasks, popped + 1, performed, poped + FrameLength(tasks[popped]), consumed)
  {
    hide Inv;
    hide Readable;
    hide ReadRecord;
    hide FrameLength;
    assert popped < s.taken;
    HeldClaim(c, s, popped);
    HeldClaim(c, s, performed);
    assert Framed(s, tasks, popped);
    LaterHeld(c, s, performed, popped);
    ReadsClaim(c, s, tasks, popped);
    ReadInPlace(s.buf, poped, tasks[popped]);
  }

  lemma ReadInPlace(b: seq<byte>, base: nat, t: Task)
    requires Readable(b, base) && ReadRecord(b, base) == Delivered(t)
    ensures base + OPERATION_AT + |t.operation| <= |b|
    ensures b[base + OPERATION_AT..base + OPERATION_AT + |t.operation|] == t.operation
  {
    hide RoundUp;
    hide CString;
    hide UpToNul;
    hide FrameLength;
    assert ReadRecord(b, base).operation == t.operation;
  }

  // A later claim of the held range starts no earlier.
  lemma {:induction false} LaterHeld(c: Config, s: State, j: nat, k: nat)
    requires Inv(c, s) && s.cpc.CHold? && s.cpc.from <= j <= k < s.taken && s.taken <= |s.log|
    ensures s.log[j].lo <= s.log[k].lo
    decreases |s.log| - j
  {
    hide Inv;
    HeldClaim(c, s, j);
    if j < k { LaterHeld(c, s, j + 1, k); }
  }

  lemma RecordToRelease(c: Config, s: State, tasks: seq<Task>, popped: nat, performed: nat, poped: nat, consumed: nat)
    requires Inv(c, s) && BatchOk(s, tasks, popped, performed, poped, consumed) && performed < popped
    ensures s.cpc.CHold? && performed < |s.log| && s.log[performed].lo == s.cons
    ensures s.cons + 4 <= |s.buf| && FromU32(s.buf[s.cons..s.cons + 4]) == FrameLength(tasks[performed])
    ensures s.cons + FrameLength(tasks[performed]) == s.log[performed].hi <= s.cpc.hi <= c.capacity
  {
    hide Inv;
    HeldClaim(c, s, performed);
    assert Framed(s, tasks, performed);
    ReadsClaim(c, s, tasks, performed);
  }

  lemma ReleasedRecord(c: Config, s: State, t: State, tasks: seq<Task>, popped: nat, performed: nat, poped: nat, consumed: nat)
    requires Inv(c, s) && BatchOk(s, tasks, popped, performed, poped, consumed) && performed < popped
    requires s.cpc.CHold? && performed < |s.log| && s.cons <= s.log[performed].hi <= s.cpc.hi
    requires t == Released(c, s, s.log[performed].hi - s.cons)
    ensures BatchOk(t, tasks, popped, performed + 1, poped, consumed)
    ensures performed + 1 == t.taken ==> t.cons == if consumed == c.capacity then 0 else consumed
  {
    HeldClaim(c, s, performed);
    if performed + 1 < s.taken { HeldClaim(c, s, performed + 1); }
    hide Inv;
    forall k | 0 <= k < t.taken ensures Framed(t, tasks, k) {
      FramedKept(s, t, tasks, k);
    }
  }
}
