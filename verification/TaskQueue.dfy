/**
 ContextTaskQueue as an object on top of MpscRingBuffer: push frames a task into the
 ring, pop hands tasks out one by one from the range consume returned, and a task
 gives its own record back when it is performed.
 */
module TaskQueue {
  import opened RingProtocol
  import opened RingInvariant
  import opened RingSafety
  import opened RingBuffer
  import opened Framing
  import opened FrameStores
  import opened TaskStream
  import RingLimits

  // ------------------------------------------------------------- the object

  ghost predicate NobodyOwns(workers: seq<Worker>) {
    forall i {:trigger workers[i]} | 0 <= i < |workers| :: workers[i].pc.Detached? || workers[i].pc.Idle?
  }

  // No operation is in progress, and whatever was claimed is a complete record.
  ghost predicate QueueOk(s: State, tasks: seq<Task>, popped: nat, performed: nat, poped: nat, consumed: nat) {
    && NobodyOwns(s.workers)
    && (forall k {:trigger Framed(s, tasks, k)} | 0 <= k < |s.log| :: Framed(s, tasks, k))
    && (s.cpc.CHold? || s.cpc.CIdle?)
    && BatchOk(s, tasks, popped, performed, poped, consumed)
  }

  lemma NobodyOwnsProduced(workers: seq<Worker>, k: nat)
    requires NobodyOwns(workers)
    ensures Produced(workers, k)
  {
  }

  // Nothing but bytes of claim `k` differs.
  ghost predicate SameButBytes(s: State, t: State, k: nat) {
    && t == s.(buf := t.buf, data := t.data)
    && |t.data| == |s.data|
    && forall q {:trigger t.data[q]} | 0 <= q < |s.data| && q != k :: t.data[q] == s.data[q]
  }

  // Every record of the queue starts at a multiple of 8 from the start of the buffer.
  lemma RecordsAligned(c: Config, s: State, tasks: seq<Task>, k: nat)
    requires Inv(c, s) && k < |s.log|
    requires forall q | 0 <= q < |s.log| :: Framed(s, tasks, q)
    ensures s.log[k].lo % 8 == 0
  {
    forall q | 0 <= q < k
      ensures (s.log[q].hi - s.log[q].lo) % 8 == 0
    {
      assert Framed(s, tasks, q);
      FrameAligned(tasks[q]);
    }
    ClaimsAligned(c, s.log, k);
  }

  // While a producer owns a claim, the claim's bytes in the buffer are its payload.
  lemma PayloadHere(c: Config, s: State, i: nat)
    requires Inv(c, s) && i < |s.workers| && s.workers[i].pc.Owns()
    ensures Intact(s.log, s.buf, s.data, s.workers[i].pc.k)
  {
    OwnedIsUnreleased(c, s, i);
  }

  // A state after acquire, one after the stores, one after produce: together they append a task.
  lemma PushKeepsQueue(s: State, s1: State, s2: State, s3: State, i: nat, t: Task,
                       tasks: seq<Task>, popped: nat, performed: nat, poped: nat, consumed: nat)
    requires QueueOk(s, tasks, popped, performed, poped, consumed) && i < |s.workers| && t.operation != []
    requires |s1.log| == |s2.log| == |s.log| + 1 && s1.log == s.log + [s1.log[|s.log|]] && |s.data| == |s.log|
    requires |s1.data| == |s.data| + 1 && s1.data == s.data + [s1.data[|s.data|]]
    requires s1.taken == s.taken && s1.cons == s.cons && s1.cpc == s.cpc
    requires |s1.workers| == |s2.workers| == |s.workers| && s1.workers == s.workers[i := s1.workers[i]]
    requires SameButBytes(s1, s2, |s.log|) && s2.log[|s.log|].hi == s2.log[|s.log|].lo + FrameLength(t) <= |s2.buf|
    requires Intact(s2.log, s2.buf, s2.data, |s.log|)
    requires HoldsFrame(s2.buf[s2.log[|s.log|].lo..s2.log[|s.log|].hi], t)
    requires |s3.workers| == |s2.workers| == |s.workers| && s3.workers[i].pc.Idle?
    requires s3 == s2.(workers := s2.workers[i := s3.workers[i]])
    ensures QueueOk(s3, tasks + [t], popped, performed, poped, consumed)
  {
    hide HoldsFrame;
    hide FrameLength;
    forall q | 0 <= q < |s3.log|
      ensures Framed(s3, tasks + [t], q)
    {
      if q < |s.log| {
        assert Framed(s, tasks, q);
        assert s2.data[q] == s1.data[q] == s.data[q];
      }
    }
  }

  lemma BatchDone(c: Config, s: State, tasks: seq<Task>, popped: nat, performed: nat, poped: nat, consumed: nat)
    requires Inv(c, s) && QueueOk(s, tasks, popped, performed, poped, consumed)
    requires poped >= consumed && (poped == consumed ==> performed == popped)
    ensures s.cpc.CIdle? && popped == performed == s.taken && poped == consumed
  {
    if s.cpc.CHold? {
      HeldClaim(c, s, if popped < s.taken then popped else performed);
    }
  }

  lemma ConsumedNothing(s: State, t: State, tasks: seq<Task>, popped: nat, performed: nat, poped: nat, consumed: nat)
    requires QueueOk(s, tasks, popped, performed, poped, consumed) && s.cpc.CIdle?
    requires t.log == s.log && t.workers == s.workers && t.data == s.data && t.taken == s.taken && t.cpc.CIdle?
    ensures QueueOk(t, tasks, popped, performed, poped, consumed)
  {
    forall k | 0 <= k < |t.log| ensures Framed(t, tasks, k) {
      FramedKept(s, t, tasks, k);
    }
  }

  lemma ConsumedBatch(s: State, t: State, tasks: seq<Task>, popped: nat, performed: nat, poped: nat, size: nat, address: nat)
    requires QueueOk(s, tasks, popped, performed, poped, poped)
    requires s.cpc.CIdle? && popped == performed == s.taken
    requires t.log == s.log && t.workers == s.workers && t.data == s.data && HandedOut(t, s.taken, size, address)
    ensures QueueOk(t, tasks, popped, performed, address, address + size)
  {
    forall k | 0 <= k < |t.log| ensures Framed(t, tasks, k) {
      FramedKept(s, t, tasks, k);
    }
  }

  lemma PopsLess(s: State, tasks: seq<Task>, popped: nat, performed: nat, poped: nat, consumed: nat)
    requires QueueOk(s, tasks, popped, performed, poped, consumed) && poped < consumed
    ensures popped < |tasks|
  {
  }

  lemma InBatch(s: State, tasks: seq<Task>, popped: nat, performed: nat, poped: nat, consumed: nat)
    requires QueueOk(s, tasks, popped, performed, poped, consumed) && poped < consumed
    ensures s.cpc.CHold? && popped < s.taken
  {
  }

  lemma ReleasedFromQueue(c: Config, s: State, t: State, tasks: seq<Task>, popped: nat, performed: nat, poped: nat, consumed: nat)
    requires Inv(c, s) && QueueOk(s, tasks, popped, performed, poped, consumed) && performed < popped
    requires s.cpc.CHold? && performed < |s.log| && s.cons <= s.log[performed].hi <= s.cpc.hi
    requires t == Released(c, s, s.log[performed].hi - s.cons)
    ensures QueueOk(t, tasks, popped, performed + 1, poped, consumed)
    ensures performed + 1 == t.taken ==> t.cons == if consumed == c.capacity then 0 else consumed
  {
    hide Inv;
    ReleasedRecord(c, s, t, tasks, popped, performed, poped, consumed);
    forall k | 0 <= k < |t.log| ensures Framed(t, tasks, k) {
      FramedKept(s, t, tasks, k);
    }
  }

  class ContextTaskQueue {
    const ring: MpscRingBuffer
    // Offsets into the buffer: the next record of the current batch, and the batch's end.
    var poped: nat
    var consumed: nat
    ghost var tasks: seq<Task>
    ghost var popped: nat
    ghost var performed: nat

    ghost predicate Valid()
      reads this, ring, ring.workers, ring.buffer
    {
      ring.Valid() && QueueOk(ring.model, tasks, popped, performed, poped, consumed)
    }

    constructor (bufferLength: nat, hardwareConcurrency: nat)
      requires 0 < bufferLength < 0x1_0000_0000
      ensures Valid() && tasks == [] && popped == 0 && performed == 0
      ensures fresh(ring) && fresh(ring.workers) && fresh(ring.buffer)
      ensures ring.capacity == bufferLength && ring.workers.Length == hardwareConcurrency
      ensures ring.model == Initial(ring.Cfg()) && ring.producerBarrier.index == 0
    {
      ring := new MpscRingBuffer(bufferLength, hardwareConcurrency);
      poped, consumed, tasks, popped, performed := 0, 0, [], 0, 0;
    }

    // A thread's first push registers its writer.
    method RegisterWriter(i: nat)
      requires Valid() && i < ring.workers.Length && ring.model.workers[i].pc.Detached?
      modifies ring`model, ring.workers
      ensures Valid() && i < ring.workers.Length && ring.model.workers[i].pc.Idle?
    {
      hide Inv;
      ghost var s := ring.model;
      ring.RegisterWorker(i);
      forall k | 0 <= k < |s.log| ensures Framed(ring.model, tasks, k) {
        FramedKept(s, ring.model, tasks, k);
      }
    }

    // Stores some bytes inside the range worker `i` acquired.
    method StoreChunk(ghost i: nat, ghost base: nat, ghost end: nat, chunk: Chunk)
      requires ring.Valid() && ring.Owns(i, base, end)
      requires base <= chunk.at && chunk.at + |chunk.bytes| <= end <= ring.buffer.Length
      modifies ring`model, ring.buffer
      ensures ring.Valid() && ring.Owns(i, base, end)
      ensures ring.buffer[..] == Splice(old(ring.buffer[..]), chunk)
      ensures SameButBytes(old(ring.model), ring.model, ring.model.workers[i].pc.k)
    {
      hide Inv;
      hide Splice;
      ghost var before, s := ring.buffer[..], ring.model;
      SpliceNothing(before, chunk.at);
      var n := 0;
      while n < |chunk.bytes|
        invariant 0 <= n <= |chunk.bytes| && ring.Valid() && ring.Owns(i, base, end)
        invariant ring.buffer[..] == Splice(before, Chunk(chunk.at, chunk.bytes[..n]))
        invariant SameButBytes(s, ring.model, s.workers[i].pc.k)
      {
        ring.Store(i, base, end, chunk.at + n, chunk.bytes[n]);
        SpliceNext(before, chunk, n);
        n := n + 1;
      }
      assert chunk.bytes[..n] == chunk.bytes;
    }

    // Lines 34-54: the stores of one push.
    method StoreFrame(ghost i: nat, base: nat, t: Task)
      requires ring.Valid() && base + FrameLength(t) <= ring.buffer.Length && ring.Owns(i, base, base + FrameLength(t))
      modifies ring`model, ring.buffer
      ensures ring.Valid() && ring.Owns(i, base, base + FrameLength(t))
      ensures HoldsFrame(ring.buffer[base..base + FrameLength(t)], t)
      ensures SameButBytes(old(ring.model), ring.model, ring.model.workers[i].pc.k)
    {
      hide Inv;
      hide HoldsFrame;
      hide RoundUp;
      hide U32;
      hide FrameLength;
      ghost var before, s, end := ring.buffer[..], ring.model, base + FrameLength(t);
      var chunks := Chunks(base, t);
      assert |chunks| == 7;
      ChunksInOrder(base, t, ring.buffer.Length);
      ChunksHoldFrame(before, base, t);
      hide Chunks;
      var n := 0;
      while n < |chunks|
        invariant 0 <= n <= |chunks| && ring.Valid() && ring.Owns(i, base, end)
        invariant ring.buffer[..] == Overwrite(before, chunks, n)
        invariant SameButBytes(s, ring.model, s.workers[i].pc.k)
      {
        StoreChunk(i, base, end, chunks[n]);
        n := n + 1;
      }
      assert ring.buffer[base..end] == ring.buffer[..][base..end];
    }

    /** One attempt of push's loop: frames the task if the ring gives it room, and leaves
        everything alone if not.  Registered threads only; a thread's first push
        registers it. */
    method TryPush(i: nat, t: Task) returns (ok: bool)
      requires Valid() && i < ring.workers.Length && ring.model.workers[i].pc.Idle? && t.operation != []
      modifies this`tasks, ring`producerBarrier, ring`end, ring`model, ring.workers, ring.buffer
      ensures Valid()
      ensures ok <==> FrameLength(t) <= ring.capacity &&
                      GuardPasses(ring.Cfg(), old(ring.producerBarrier).index, FrameLength(t), ring.consumerBarrier)
      ensures tasks == if ok then old(tasks) + [t] else old(tasks)
      ensures ring.model.workers[i].pc.Idle?
      ensures ring.producerBarrier == if ok then Target(ring.Cfg(), old(ring.producerBarrier), FrameLength(t)).(locked := false)
                                      else old(ring.producerBarrier)
    {
      hide Inv;
      hide HoldsFrame;
      hide RoundUp;
      hide Intact;
      FrameNotEmpty(t);
      hide FrameLength;
      hide QueueOk;
      hide GuardPasses;
      BarrierInside(ring.Cfg(), ring.model);
      ghost var s := ring.model;
      var base: nat;
      ok, base := ring.Acquire(i, FrameLength(t), 0);
      if !ok { return; }
      ghost var s1 := ring.model;
      AcquiredFields(ring.Cfg(), s, i, FrameLength(t));
      hide Acquired;
      StoreFrame(i, base, t);
      ghost var s2 := ring.model;
      PayloadHere(ring.Cfg(), s2, i);
      ring.Produce(i);
      assert ring.model == Put(s2, i, Worker(Idle, s2.workers[i].registered, Seen(false, MAX_OFFSET)));
      PushKeepsQueue(s, s1, s2, ring.model, i, t, tasks, popped, performed, poped, consumed);
      tasks := tasks + [t];
    }

    /** push: attempt after attempt, yielding in between; `retries` is how often it does so
        before the caller loses patience.  While nobody else acts, later attempts fare like
        the first.  On a drained ring a record of at most half the buffer always gets in. */
    method Push(i: nat, t: Task, retries: nat) returns (ok: bool)
      requires Valid() && i < ring.workers.Length && ring.model.workers[i].pc.Idle? && t.operation != []
      modifies this`tasks, ring`producerBarrier, ring`end, ring`model, ring.workers, ring.buffer
      ensures Valid() && ring.model.workers[i].pc.Idle?
      ensures ok <==> FrameLength(t) <= ring.capacity &&
                      GuardPasses(ring.Cfg(), old(ring.producerBarrier).index, FrameLength(t), ring.consumerBarrier)
      ensures tasks == if ok then old(tasks) + [t] else old(tasks)
      ensures ring.producerBarrier == if ok then Target(ring.Cfg(), old(ring.producerBarrier), FrameLength(t)).(locked := false)
                                      else old(ring.producerBarrier)
      ensures performed == |old(tasks)| && 2 * FrameLength(t) <= ring.capacity ==> ok
    {
      hide Inv;
      hide FrameLength;
      hide QueueOk;
      hide GuardPasses;
      hide Target;
      Drain();
      FrameNotEmpty(t);
      if 2 * FrameLength(t) <= ring.capacity && ring.producerBarrier.index < ring.capacity {
        RingLimits.FitsAnywhere(ring.Cfg(), ring.producerBarrier.index, FrameLength(t));
      }
      ok := TryPush(i, t);
      var retried := 0;
      while !ok && retried < retries
        invariant Valid() && ring.model.workers[i].pc.Idle?
        invariant !ok ==> tasks == old(tasks)
        invariant ring.producerBarrier == if ok then Target(ring.Cfg(), old(ring.producerBarrier), FrameLength(t)).(locked := false)
                                          else old(ring.producerBarrier)
        invariant ok <==> FrameLength(t) <= ring.capacity &&
                          GuardPasses(ring.Cfg(), old(ring.producerBarrier).index, FrameLength(t), ring.consumerBarrier)
        invariant ok ==> tasks == old(tasks) + [t]
      {
        ok := TryPush(i, t);
        retried := retried + 1;
      }
    }

    // When every task has been performed, producers and consumer stand at the same place.
    lemma Drain()
      requires Valid()
      ensures performed == |tasks| ==> ring.producerBarrier.index == ring.consumerBarrier < ring.capacity
      ensures performed == |tasks| ==> popped == |tasks| && poped == consumed && ring.model.cpc.CIdle?
    {
      hide Inv;
      if performed == |tasks| { RingLimits.DrainedMeets(ring.Cfg(), ring.model); }
    }

    // The fields of the record at `base`, and where the next one starts.
    method ReadFields(base: nat) returns (operation: nat, stackSize: nat, description: seq<byte>, next: nat)
      requires Readable(ring.buffer[..], base)
      ensures var record := ReadRecord(ring.buffer[..], base);
              && operation == base + OPERATION_AT && next == base + record.length
              && stackSize == record.stackSize && description == record.description
    {
      hide RoundUp;
      hide FromU32;
      hide CString;
      var bytes := ring.buffer[..];
      var contextTaskLength := FromU32(bytes[base..base + 4]);
      var operationLength := FromU32(bytes[base + 4..base + 8]);
      operation := base + OPERATION_AT;
      var stackSizeAt := base + StackSizeAt(operationLength);
      stackSize := FromU32(bytes[stackSizeAt..stackSizeAt + 4]);
      var descriptionLength := FromU32(bytes[base + 4..base + 8]);
      description := if descriptionLength > 0 then CString(bytes, base + DescriptionAt(operationLength)) else [];
      next := base + contextTaskLength;
    }

    // What a successful pop returns for task `k`.
    ghost predicate Returned(k: nat, operation: nat, stackSize: nat, description: seq<byte>)
      reads this, ring, ring.buffer
    {
      && k < |tasks| && k < |ring.model.log|
      && operation == ring.model.log[k].lo + OPERATION_AT
      && operation + |tasks[k].operation| <= ring.buffer.Length
      && ring.buffer[operation..operation + |tasks[k].operation|] == tasks[k].operation
      && stackSize == tasks[k].stackSize % U32_SIZE
      && description == UpToNul(tasks[k].description)
    }

    // Asks the ring for the next batch.
    method Refill() returns (ok: bool)
      requires Valid() && poped >= consumed && (poped == consumed ==> performed == popped)
      modifies this`poped, this`consumed, ring`end, ring`consumerBarrier, ring`model
      ensures Valid() && ring.model.log == old(ring.model.log) && ring.model.workers == old(ring.model.workers)
      ensures ok <==> popped < |tasks|
      ensures ok ==> poped < consumed && ring.model.cpc.CHold?
    {
      hide Inv;
      BatchDone(ring.Cfg(), ring.model, tasks, popped, performed, poped, consumed);
      hide Framed;
      ghost var s := ring.model;
      var length, address := ring.Consume();
      NobodyOwnsProduced(s.workers, s.taken);
      hide Produced;
      if length == 0 {
        ConsumedNothing(s, ring.model, tasks, popped, performed, poped, consumed);
        return false;
      }
      ConsumedBatch(s, ring.model, tasks, popped, performed, poped, length, address);
      poped, consumed := address, address + length;
      return true;
    }

    // The next record of the batch; pop has this text once in each branch.
    method PopRecord() returns (operation: nat, stackSize: nat, description: seq<byte>)
      requires Valid() && poped < consumed
      modifies this`poped, this`popped
      ensures Valid() && popped == old(popped) + 1
      ensures Returned(old(popped), operation, stackSize, description)
    {
      hide Inv;
      hide Framed;
      hide RoundUp;
      hide FrameLength;
      hide FromU32;
      hide CString;
      hide UpToNul;
      hide StackSizeAt;
      hide DescriptionAt;
      InBatch(ring.model, tasks, popped, performed, poped, consumed);
      BatchGoesOn(ring.Cfg(), ring.model, tasks, popped, performed, poped, consumed);
      hide QueueOk;
      hide Readable;
      hide ReadRecord;
      assert ring.buffer[..] == ring.model.buf;
      operation, stackSize, description, poped := ReadFields(poped);
      assert ring.buffer[operation..operation + |tasks[popped].operation|] == ring.buffer[..][operation..operation + |tasks[popped].operation|];
      popped := popped + 1;
    }

    /** Returns the tasks one by one in the order they were pushed, each once, and fails
        exactly when none is left.  The strategy pops again only after what it popped of
        the last batch has run, so a pop that has to ask the ring finds it released. */
    method Pop() returns (ok: bool, operation: nat, stackSize: nat, description: seq<byte>)
      requires Valid() && (poped == consumed ==> performed == popped)
      modifies this`poped, this`consumed, this`popped, ring`end, ring`consumerBarrier, ring`model
      ensures Valid()
      ensures ok <==> old(popped) < |tasks|
      ensures popped == if ok then old(popped) + 1 else old(popped)
      ensures ring.model.workers == old(ring.model.workers) && ring.model.log == old(ring.model.log)
      ensures ok ==> Returned(old(popped), operation, stackSize, description)
    {
      hide Inv;
      hide QueueOk;
      if !(poped < consumed) {
        ok := Refill();
        if !ok { return false, 0, 0, []; }
      }
      PopsLess(ring.model, tasks, popped, performed, poped, consumed);
      operation, stackSize, description := PopRecord();
      ok := true;
    }

    /** A popped task moves out of its record and gives the record's bytes back; `operation`
        is what pop returned for the oldest task not performed yet.  Nothing that is still
        to be popped moves, and once the whole batch is performed the consumer stands at
        its end. */
    method Perform(operation: nat)
      requires Valid() && performed < popped
      requires operation == ring.model.log[performed].lo + OPERATION_AT
      modifies this`performed, ring`consumerBarrier, ring`model
      ensures Valid() && performed == old(performed) + 1
      ensures ring.consumerBarrier == (if old(ring.consumerBarrier) + FrameLength(tasks[old(performed)]) == ring.capacity then 0
                                       else old(ring.consumerBarrier) + FrameLength(tasks[old(performed)]))
      ensures ring.model.workers == old(ring.model.workers)
      ensures performed == ring.model.taken ==> ring.consumerBarrier == if consumed == ring.capacity then 0 else consumed
    {
      hide Inv;
      RecordToRelease(ring.Cfg(), ring.model, tasks, popped, performed, poped, consumed);
      hide Framed;
      hide RoundUp;
      hide FromU32;
      hide FrameLength;
      ghost var s := ring.model;
      var base := operation - OPERATION_AT;
      assert ring.buffer[..] == ring.model.buf;
      assert ring.buffer[base..base + 4] == ring.buffer[..][base..base + 4];
      ring.Release(FromU32(ring.buffer[base..base + 4]));
      ReleasedFromQueue(ring.Cfg(), s, ring.model, tasks, popped, performed, poped, consumed);
      performed := performed + 1;
    }
  }

  /** The same task pushed twice, popped and performed in between, on a fresh queue of any
      length, trying for ever so long: the first time it gets in exactly when it is shorter
      than the buffer, and the second time exactly when it is at most half as long.  Beyond
      that push spins on an empty ring. */
  method PushedTwice(bufferLength: nat, t: Task, retries: nat) returns (first: bool, second: bool)
    requires 0 < bufferLength < 0x1_0000_0000 && t.operation != []
    ensures first <==> FrameLength(t) < bufferLength
    ensures second <==> 2 * FrameLength(t) <= bufferLength
  {
    hide Inv;
    hide FrameLength;
    hide QueueOk;
    FrameNotEmpty(t);
    var queue := new ContextTaskQueue(bufferLength, 1);
    queue.RegisterWriter(0);
    queue.Drain();
    first := queue.Push(0, t, retries);
    if first {
      var ok, operation, stackSize, description := queue.Pop();
      queue.Perform(operation);
    }
    queue.Drain();
    second := queue.Push(0, t, retries);
  }
}
