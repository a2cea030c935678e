/**
 ContextTaskQueue in any interleaving: producers go through acquire, the stores of push,
 byte by byte, and produce; the strategy pops record after record and tasks give their
 space back, all on the ring of RingProtocol.
 */
module TaskProtocol {
  import opened RingProtocol
  import opened RingInvariant
  import opened RingSafety
  import opened Framing
  import opened FrameStores
  import opened TaskStream

  /** What a worker is pushing.  `chunk` and `done` say how far its stores have come, in the
      order of the code; `was` is what its claim held before them. */
  datatype Pushing =
    | Quiet
    | Asking(task: Task)
    | Storing(task: Task, chunk: nat, done: nat, was: seq<byte>)

  /** `tasks` are the tasks by claim; `poped` and `consumed` the fields of the queue; `out`
      are the records pop has returned, and `performed` counts the tasks performed. */
  datatype System = System(
    ring: State, pushing: seq<Pushing>, tasks: seq<Task>,
    poped: nat, consumed: nat, out: seq<Record>, performed: nat)

  datatype Event =
    | Register(i: nat)
    | Unregister(i: nat)
    | Push(i: nat, task: Task)
    | Retry(i: nat)            // push's loop tries again after a refusal
    | Advance(i: nat)          // the next atomic step of acquire
    | CasFails(i: nat)
    | Store(i: nat)            // the next byte of push's stores
    | Finish(i: nat)           // produce
    | Pop
    | Scanning                 // a step of consume
    | Perform

  function Start(c: Config): System {
    System(Initial(c), seq(c.workers, _ => Quiet), [], 0, 0, [], 0)
  }

  // -------------------------------------------------------------- producers

  predicate Is(s: System, i: nat) { i < |s.pushing| && i < |s.ring.workers| }

  function Asked(c: Config, s: System, i: nat, t: Task): System
    requires Is(s, i)
  {
    s.(ring := RingProtocol.Step(c, s.ring, Acquire(i, FrameLength(t))), pushing := s.pushing[i := Asking(t)])
  }

  // A step of acquire; the successful compare-exchange makes the claim.
  function Moved(c: Config, s: System, a: Action): System {
    var r := RingProtocol.Step(c, s.ring, a);
    if a.Advance? && Is(s, a.i) && s.pushing[a.i].Asking? && |r.log| == |s.ring.log| + 1 && |r.data| == |r.log|
    then s.(ring := r, tasks := s.tasks + [s.pushing[a.i].task],
            pushing := s.pushing[a.i := Storing(s.pushing[a.i].task, 0, 0, r.data[|s.ring.log|])])
    else s.(ring := r)
  }

  function Stored(c: Config, s: System, i: nat): System
    requires Is(s, i) && s.pushing[i].Storing? && s.pushing[i].chunk < 7
  {
    var p := s.pushing[i];
    var chunk := Chunks(0, p.task)[p.chunk];
    if p.done < |chunk.bytes| then
      s.(ring := RingProtocol.Step(c, s.ring, Write(i, chunk.at + p.done, chunk.bytes[p.done])),
         pushing := s.pushing[i := p.(done := p.done + 1)])
    else s.(pushing := s.pushing[i := p.(chunk := p.chunk + 1, done := 0)])
  }

  // --------------------------------------------------------------- consumer

  function Popped(c: Config, s: System): System {
    if s.poped < s.consumed then
      if Readable(s.ring.buf, s.poped) then
        var record := ReadRecord(s.ring.buf, s.poped);
        s.(out := s.out + [record], poped := s.poped + record.length)
      else s
    // a pop that reaches consume comes after everything popped was performed
    else if s.ring.cpc.CIdle? then s.(ring := RingProtocol.Step(c, s.ring, Consume))
    else s
  }

  function Scanned(c: Config, s: System): System {
    var r := RingProtocol.Step(c, s.ring, Scan);
    if !s.ring.cpc.CHold? && r.cpc.CHold? then s.(ring := r, poped := r.cons, consumed := r.cpc.hi)
    else s.(ring := r)
  }

  // deallocate reads the record's length in front of the operation, which is the oldest not performed.
  function Performed(c: Config, s: System): System {
    if s.performed < |s.out| && s.ring.cpc.CHold? && s.ring.cons + 4 <= |s.ring.buf|
    then s.(ring := RingProtocol.Step(c, s.ring, Release(FromU32(s.ring.buf[s.ring.cons..s.ring.cons + 4]))), performed := s.performed + 1)
    else s
  }

  function React(c: Config, s: System, e: Event): System {
    match e
    case Register(i) => Moved(c, s, Action.Register(i))
    case Unregister(i) => if Is(s, i) && s.pushing[i].Quiet? then Moved(c, s, Action.Unregister(i)) else s
    case Push(i, t) => if Is(s, i) && s.pushing[i].Quiet? && s.ring.workers[i].pc.Idle? && t.operation != [] then Asked(c, s, i, t) else s
    case Retry(i) => if Is(s, i) && s.pushing[i].Asking? && s.ring.workers[i].pc.Idle? then Asked(c, s, i, s.pushing[i].task) else s
    case Advance(i) => Moved(c, s, Action.Advance(i))
    case CasFails(i) => Moved(c, s, Action.CasFails(i))
    case Store(i) => if Is(s, i) && s.pushing[i].Storing? && s.pushing[i].chunk < 7 && s.ring.workers[i].pc.Owning? then Stored(c, s, i) else s
    case Finish(i) =>
      if Is(s, i) && s.pushing[i].Storing? && s.pushing[i].chunk == 7 && s.ring.workers[i].pc.Owning?
      then s.(ring := RingProtocol.Step(c, s.ring, Produce(i)), pushing := s.pushing[i := Quiet]) else s
    case Pop => Popped(c, s)
    case Scanning => Scanned(c, s)
    case Perform => Performed(c, s)
  }

  // -------------------------------------------------------------- invariant

  // The claim's bytes after the first `chunk` stores and `done` bytes of the next.
  ghost predicate Progress(d: seq<byte>, t: Task, chunk: nat, done: nat, was: seq<byte>) {
    && |was| == FrameLength(t) && chunk <= 7 && InOrder(Chunks(0, t), |was|)
    && if chunk == 7 then d == Overwrite(was, Chunks(0, t), 7)
       else
         && done <= |Chunks(0, t)[chunk].bytes|
         && d == Splice(Overwrite(was, Chunks(0, t), chunk), Chunk(Chunks(0, t)[chunk].at, Chunks(0, t)[chunk].bytes[..done]))
  }

  // Claim `k` is as long as its task's frame.
  ghost predicate Sized(s: System, k: nat) {
    k < |s.ring.log| && k < |s.tasks| ==>
      s.tasks[k].operation != [] && s.ring.log[k].hi == s.ring.log[k].lo + FrameLength(s.tasks[k])
  }

  ghost predicate WorkerPushes(s: System, i: nat) {
    Is(s, i) ==>
      var pc := s.ring.workers[i].pc;
      match s.pushing[i]
      case Quiet => pc.Detached? || pc.Registering? || pc.Idle?
      case Asking(t) =>
        && t.operation != []
        && (pc.Idle? || pc.Fail? || ((pc.LoadNext? || pc.Loaded()) && pc.size == FrameLength(t)))
      case Storing(t, chunk, done, was) =>
        && pc.Owns() && pc.k < |s.tasks| && pc.k < |s.ring.data|
        && s.tasks[pc.k] == t
        && (pc.Owning? || (chunk == 0 && done == 0))
        && Progress(s.ring.data[pc.k], t, chunk, done, was)
  }

  // A claim that has been produced holds its task's frame.
  ghost predicate WholeOnceProduced(s: System, k: nat) {
    k < |s.ring.log| && Produced(s.ring.workers, k) ==> Framed(s.ring, s.tasks, k)
  }

  ghost predicate SystemInv(c: Config, s: System) {
    && Inv(c, s.ring)
    && |s.pushing| == |s.ring.workers| && |s.tasks| == |s.ring.log|
    && (forall i: nat {:trigger WorkerPushes(s, i)} :: WorkerPushes(s, i))
    && (forall k: nat {:trigger Sized(s, k)} :: Sized(s, k))
    && (forall k: nat {:trigger WholeOnceProduced(s, k)} :: WholeOnceProduced(s, k))
    && BatchOk(s.ring, s.tasks, |s.out|, s.performed, s.poped, s.consumed)
    && s.out == Deliveries(s.tasks, 0, |s.out|)
  }

  lemma Parts(c: Config, s: System, i: nat, k: nat)
    requires SystemInv(c, s)
    ensures Inv(c, s.ring) && |s.pushing| == |s.ring.workers| && |s.tasks| == |s.ring.log| == |s.ring.data|
    ensures WorkerPushes(s, i) && Sized(s, k) && WholeOnceProduced(s, k)
    ensures BatchOk(s.ring, s.tasks, |s.out|, s.performed, s.poped, s.consumed)
  {
  }

  lemma StartInv(c: Config)
    requires ValidConfig(c)
    ensures SystemInv(c, Start(c))
  {
    InitialInv(c);
  }

  lemma {:induction false} DeliveriesKept(tasks: seq<Task>, more: seq<Task>, from: nat, to: nat)
    requires from <= to <= |tasks| <= |more| && more[..|tasks|] == tasks
    ensures Deliveries(more, from, to) == Deliveries(tasks, from, to)
    decreases |tasks| - from
  {
    if from < to {
      assert more[from] == more[..|tasks|][from];
      DeliveriesKept(tasks, more, from + 1, to);
    }
  }

  lemma {:induction false} DeliveriesNext(tasks: seq<Task>, from: nat, to: nat)
    requires from <= to < |tasks|
    ensures Deliveries(tasks, from, to + 1) == Deliveries(tasks, from, to) + [Delivered(tasks[to])]
    decreases |tasks| - from
  {
    hide Delivered;
    if from == to {
      assert Deliveries(tasks, to + 1, to + 1) == [];
    } else {
      DeliveriesNext(tasks, from + 1, to);
      assert [Delivered(tasks[from])] + (Deliveries(tasks, from + 1, to) + [Delivered(tasks[to])])
          == ([Delivered(tasks[from])] + Deliveries(tasks, from + 1, to)) + [Delivered(tasks[to])];
    }
  }

  // ------------------------------------------------------------- what stays

  // The histories of `s` are the beginning of those of `t`, and the consumer is where it was.
  ghost predicate Extends(s: State, t: State) {
    && t.taken == s.taken && t.cons == s.cons && t.cpc == s.cpc
    && |s.log| <= |t.log| && t.log[..|s.log|] == s.log
    && |s.data| <= |t.data|
  }

  lemma BatchKept(s: State, t: State, tasks: seq<Task>, more: seq<Task>, popped: nat, performed: nat, poped: nat, consumed: nat)
    requires BatchOk(s, tasks, popped, performed, poped, consumed) && Extends(s, t)
    requires |more| == |t.log| && |tasks| <= |more| && more[..|tasks|] == tasks
    requires forall k | 0 <= k < s.taken && k < |s.data| :: t.data[k] == s.data[k]
    ensures BatchOk(t, more, popped, performed, poped, consumed)
    ensures Deliveries(more, 0, popped) == Deliveries(tasks, 0, popped)
  {
    DeliveriesKept(tasks, more, 0, popped);
    forall k | 0 <= k < t.taken ensures Framed(t, more, k) {
      assert Framed(s, tasks, k);
      assert t.log[k] == t.log[..|s.log|][k] && more[k] == more[..|tasks|][k];
    }
  }

  // What a step of acquire, or of registration, leaves alone.
  lemma MovedFrame(c: Config, s: State, a: Action)
    requires a.Register? || a.Unregister? || a.Acquire? || a.Advance? || a.CasFails?
    requires a.i < |s.workers|
    ensures var t := RingProtocol.Step(c, s, a);
            && Extends(s, t) && |t.workers| == |s.workers|
            && (forall j | 0 <= j < |s.workers| && j != a.i :: t.workers[j] == s.workers[j])
            && (t.log == s.log ==>
                  && t.data == s.data
                  && (t.workers[a.i].pc.Owns() <==> s.workers[a.i].pc.Owns())
                  && (t.workers[a.i].pc.Owns() ==> t.workers[a.i].pc.k == s.workers[a.i].pc.k)
                  && (s.workers[a.i].pc.Owning? ==> t.workers[a.i].pc.Owning?))
            && (t.log != s.log ==>
                  && a.Advance? && s.workers[a.i].pc.TryCas? && t == CasStep(c, s, a.i) && CasMatches(s, a.i))
  {
  }

  // Nobody but a new claim's owner changes what is produced.
  lemma StillWhole(s: System, t: System, k: nat, i: nat)
    requires WholeOnceProduced(s, k) && i < |s.ring.workers| == |t.ring.workers| && k < |s.ring.log| <= |t.ring.log|
    requires forall j | 0 <= j < |s.ring.workers| && j != i :: t.ring.workers[j] == s.ring.workers[j]
    requires s.ring.workers[i].pc.Owns() && s.ring.workers[i].pc.k == k ==> t.ring.workers[i].pc.Owns() && t.ring.workers[i].pc.k == k
    requires t.ring.log[k] == s.ring.log[k] && k < |s.tasks| && k < |t.tasks| && t.tasks[k] == s.tasks[k]
    requires k < |s.ring.data| && k < |t.ring.data|
    requires Produced(t.ring.workers, k) ==> t.ring.data[k] == s.ring.data[k]
    ensures WholeOnceProduced(t, k)
  {
    if Produced(t.ring.workers, k) {
      forall j {:trigger s.ring.workers[j]} | 0 <= j < |s.ring.workers| && s.ring.workers[j].pc.Owns()
        ensures s.ring.workers[j].pc.k != k
      {
        assert j != i ==> t.ring.workers[j] == s.ring.workers[j];
        assert t.ring.workers[j].pc.Owns() && t.ring.workers[j].pc.k == k ==> !Produced(t.ring.workers, k);
      }
      assert Produced(s.ring.workers, k);
    }
  }

  // ------------------------------------------------------------- each event

  ghost predicate EventFits(c: Config, s: System, e: Event) {
    e.Advance? ==> StepFits(c, s.ring, Action.Advance(e.i))
  }

  // A step of acquire, or of registration, that claims nothing.
  lemma MovesKeeps(c: Config, s: System, a: Action, p: Pushing)
    requires a.Register? || a.Unregister? || a.Acquire? || a.Advance? || a.CasFails?
    requires SystemInv(c, s) && StepFits(c, s.ring, a) && Is(s, a.i)
    requires RingProtocol.Step(c, s.ring, a).log == s.ring.log
    requires WorkerPushes(s.(ring := RingProtocol.Step(c, s.ring, a), pushing := s.pushing[a.i := p]), a.i)
    ensures SystemInv(c, s.(ring := RingProtocol.Step(c, s.ring, a), pushing := s.pushing[a.i := p]))
  {
    hide Inv;
    hide Progress;
    hide Framed;
    hide FrameLength;
    var t := s.(ring := RingProtocol.Step(c, s.ring, a), pushing := s.pushing[a.i := p]);
    Parts(c, s, a.i, 0);
    StepKeepsInv(c, s.ring, a);
    MovedFrame(c, s.ring, a);
    hide RingProtocol.Step;
    BatchKept(s.ring, t.ring, s.tasks, s.tasks, |s.out|, s.performed, s.poped, s.consumed);
    forall j: nat ensures WorkerPushes(t, j) { assert WorkerPushes(s, j); }
    forall k: nat ensures Sized(t, k) { assert Sized(s, k); }
    forall k: nat ensures WholeOnceProduced(t, k) {
      assert WholeOnceProduced(s, k);
      if k < |s.ring.log| { StillWhole(s, t, k, a.i); }
    }
    hide BatchOk;
  }

  // Where a worker that is not claiming goes next fits what it is pushing.
  lemma StillPushes(c: Config, s: System, a: Action)
    requires a.Register? || a.Unregister? || a.Advance? || a.CasFails?
    requires Is(s, a.i) && WorkerPushes(s, a.i) && RingProtocol.Step(c, s.ring, a).log == s.ring.log
    requires a.Unregister? ==> s.pushing[a.i].Quiet?
    ensures WorkerPushes(s.(ring := RingProtocol.Step(c, s.ring, a)), a.i)
  {
    hide Progress;
    hide FrameLength;
    hide GuardPasses;
    MovedFrame(c, s.ring, a);
  }

  lemma MovedKeeps(c: Config, s: System, a: Action)
    requires a.Register? || a.Unregister? || a.Advance? || a.CasFails?
    requires SystemInv(c, s) && StepFits(c, s.ring, a)
    requires a.Unregister? ==> Is(s, a.i) && s.pushing[a.i].Quiet?
    requires RingProtocol.Step(c, s.ring, a).log == s.ring.log
    ensures SystemInv(c, Moved(c, s, a))
  {
    hide SystemInv;
    Parts(c, s, a.i, 0);
    var t := Moved(c, s, a);
    if Is(s, a.i) {
      StillPushes(c, s, a);
      assert s.pushing[a.i := s.pushing[a.i]] == s.pushing;
      MovesKeeps(c, s, a, s.pushing[a.i]);
    } else {
      assert t == s;
    }
  }

  lemma AskedKeeps(c: Config, s: System, i: nat, task: Task)
    requires SystemInv(c, s) && Is(s, i) && s.ring.workers[i].pc.Idle? && task.operation != []
    ensures SystemInv(c, Asked(c, s, i, task))
  {
    hide SystemInv;
    MovesKeeps(c, s, Acquire(i, FrameLength(task)), Asking(task));
  }

  lemma FreshProgress(d: seq<byte>, t: Task)
    requires |d| == FrameLength(t)
    ensures Progress(d, t, 0, 0, d)
  {
    ChunksInOrder(0, t, |d|);
    hide InOrder;
    hide FrameLength;
    var chunk := Chunks(0, t)[0];
    assert chunk.bytes[..0] == [];
    assert chunk.at + |chunk.bytes| <= |d|;
    SpliceNothing(d, chunk.at);
  }

  // The new claim is nobody's finished record, and the old ones are what they were.
  lemma ClaimedWhole(c: Config, s: System, i: nat, q: nat)
    requires SystemInv(c, s) && Is(s, i) && CasFits(c, s.ring, i) && s.pushing[i].Asking?
    requires var r := CasStep(c, s.ring, i); |r.data| == |r.log| == |s.ring.log| + 1
    requires forall q | 0 <= q < |s.ring.log| && q < |s.ring.data| :: CasStep(c, s.ring, i).data[q] == s.ring.data[q]
    ensures Sized(Moved(c, s, Action.Advance(i)), q) || q == |s.ring.log|
    ensures WholeOnceProduced(Moved(c, s, Action.Advance(i)), q)
  {
    hide Inv;
    hide Framed;
    hide FrameLength;
    var t, k := Moved(c, s, Action.Advance(i)), |s.ring.log|;
    Parts(c, s, i, q);
    MovedFrame(c, s.ring, Action.Advance(i));
    assert q < k ==> t.ring.log[q] == t.ring.log[..k][q];
    if q < k { StillWhole(s, t, q, i); }
    assert t.ring.workers[i].pc.Owns() && t.ring.workers[i].pc.k == k;
    assert q == k ==> !Produced(t.ring.workers, q);
  }

  lemma ClaimedWorkers(c: Config, s: System, i: nat, j: nat)
    requires SystemInv(c, s) && Is(s, i) && CasFits(c, s.ring, i)
    ensures WorkerPushes(Moved(c, s, Action.Advance(i)), j) && Sized(Moved(c, s, Action.Advance(i)), |s.ring.log|)
    ensures s.pushing[i].Asking?
  {
    hide Inv;
    hide Progress;
    hide FrameLength;
    hide BatchOk;
    Parts(c, s, i, 0);
    MovedFrame(c, s.ring, Action.Advance(i));
    ClaimedSize(c, s.ring, i);
    FreshProgress(CasStep(c, s.ring, i).data[|s.ring.log|], s.pushing[i].task);
    hide CasStep;
    Parts(c, s, j, 0);
  }

  lemma ClaimedKeeps(c: Config, s: System, i: nat)
    requires SystemInv(c, s) && Is(s, i) && CasFits(c, s.ring, i)
    ensures SystemInv(c, Moved(c, s, Action.Advance(i)))
  {
    hide Inv;
    hide WholeOnceProduced;
    hide WorkerPushes;
    hide Sized;
    var t, k := Moved(c, s, Action.Advance(i)), |s.ring.log|;
    Parts(c, s, i, 0);
    StepKeepsInv(c, s.ring, Action.Advance(i));
    MovedFrame(c, s.ring, Action.Advance(i));
    ClaimedSize(c, s.ring, i);
    forall j: nat ensures WorkerPushes(t, j) && Sized(t, k) && s.pushing[i].Asking? { ClaimedWorkers(c, s, i, j); }
    assert WorkerPushes(t, 0);
    forall q: nat ensures (Sized(t, q) || q == k) && WholeOnceProduced(t, q) { ClaimedWhole(c, s, i, q); }
    hide CasStep;
    BatchKept(s.ring, t.ring, s.tasks, t.tasks, |s.out|, s.performed, s.poped, s.consumed);
    hide BatchOk;
  }

  lemma ClaimedSize(c: Config, s: State, i: nat)
    requires Inv(c, s) && CasFits(c, s, i)
    ensures var t := CasStep(c, s, i);
            && |t.log| == |t.data| == |s.log| + 1 && |s.data| == |s.log|
            && t.log[|s.log|].hi == t.log[|s.log|].lo + s.workers[i].pc.size
            && |t.data[|s.log|]| == s.workers[i].pc.size
            && t.workers[i].pc.UnlockSeen? && t.workers[i].pc.k == |s.log|
            && (forall q | 0 <= q < |s.log| :: t.data[q] == s.data[q])
  {
    CasKeepsInv(c, s, i);
  }

  // ---------------------------------------------------------------- stores

  lemma ProgressByte(d: seq<byte>, t: Task, chunk: nat, done: nat, was: seq<byte>)
    requires Progress(d, t, chunk, done, was) && chunk < 7 && done < |Chunks(0, t)[chunk].bytes|
    ensures Chunks(0, t)[chunk].at + done < |d|
    ensures Progress(d[Chunks(0, t)[chunk].at + done := Chunks(0, t)[chunk].bytes[done]], t, chunk, done + 1, was)
  {
    SpliceNext(Overwrite(was, Chunks(0, t), chunk), Chunks(0, t)[chunk], done);
    hide Chunks;
    hide FrameLength;
    hide Overwrite;
  }

  lemma ProgressChunk(d: seq<byte>, t: Task, chunk: nat, was: seq<byte>)
    requires chunk < 7 && Progress(d, t, chunk, |Chunks(0, t)[chunk].bytes|, was)
    ensures Progress(d, t, chunk + 1, 0, was)
  {
    var stores := Chunks(0, t);
    hide FrameLength;
    assert |stores| == 7;
    hide Chunks;
    assert stores[chunk].bytes[..|stores[chunk].bytes|] == stores[chunk].bytes;
    assert d == Overwrite(was, stores, chunk + 1);
    if chunk + 1 < 7 {
      assert stores[chunk + 1].bytes[..0] == [];
      SpliceNothing(d, stores[chunk + 1].at);
    }
  }

  lemma ProgressLength(d: seq<byte>, t: Task, chunk: nat, done: nat, was: seq<byte>)
    requires Progress(d, t, chunk, done, was)
    ensures |d| == FrameLength(t) && (chunk < 7 ==> done <= |Chunks(0, t)[chunk].bytes|)
  {
  }

  // The bytes of the claims that nobody owns, and of all but one owner's, stay.
  lemma BytesKeep(c: Config, s: System, i: nat, r: State, p: Pushing)
    requires SystemInv(c, s) && Is(s, i) && s.pushing[i].Storing? && s.ring.workers[i].pc.Owning?
    requires Inv(c, r) && r == s.ring.(buf := r.buf, data := r.data) && |r.data| == |s.ring.data|
    requires forall q {:trigger r.data[q]} | 0 <= q < |r.data| && q != s.ring.workers[i].pc.k :: r.data[q] == s.ring.data[q]
    requires WorkerPushes(s.(ring := r, pushing := s.pushing[i := p]), i) && p.Storing?
    ensures SystemInv(c, s.(ring := r, pushing := s.pushing[i := p]))
  {
    var t := s.(ring := r, pushing := s.pushing[i := p]);
    var k := s.ring.workers[i].pc.k;
    Parts(c, s, i, k);
    WorkerInv(c, s.ring, i);
    forall j: nat | Is(s, j) ensures j != i && s.ring.workers[j].pc.Owns() ==> s.ring.workers[j].pc.k != k {
      WorkerInv(c, s.ring, j);
    }
    hide Inv;
    hide Progress;
    hide Framed;
    hide FrameLength;
    assert !Produced(s.ring.workers, k);
    assert s.ring.taken <= k;
    BatchKept(s.ring, r, s.tasks, s.tasks, |s.out|, s.performed, s.poped, s.consumed);
    forall j: nat ensures WorkerPushes(t, j) { assert WorkerPushes(s, j); }
    forall q: nat ensures Sized(t, q) { assert Sized(s, q); }
    forall q: nat ensures WholeOnceProduced(t, q) {
      assert WholeOnceProduced(s, q);
      if q < |s.ring.log| { StillWhole(s, t, q, i); }
    }
    hide BatchOk;
  }

  lemma WrittenBytes(c: Config, s: State, i: nat, offset: nat, value: byte)
    requires Inv(c, s) && i < |s.workers| && s.workers[i].pc.Owning?
    requires s.workers[i].pc.k < |s.data| && offset < |s.data[s.workers[i].pc.k]|
    ensures var t := RingProtocol.Step(c, s, Write(i, offset, value)); var k := s.workers[i].pc.k;
            && Inv(c, t) && t == s.(buf := t.buf, data := s.data[k := s.data[k][offset := value]])
  {
    WriteKeepsInv(c, s, i, offset, value);
    WorkerInv(c, s, i);
    assert ClaimOk(c, s.log, s.workers[i].pc.k);
  }

  // What the invariant says of a worker in the middle of its stores.
  lemma StoringWorker(c: Config, s: System, i: nat)
    requires SystemInv(c, s) && Is(s, i) && s.pushing[i].Storing? && s.ring.workers[i].pc.Owning?
    ensures var k, p := s.ring.workers[i].pc.k, s.pushing[i];
            && k < |s.ring.log| == |s.ring.data| == |s.tasks| && s.tasks[k] == p.task
            && Progress(s.ring.data[k], p.task, p.chunk, p.done, p.was) && Inv(c, s.ring)
  {
    hide Inv;
    hide Progress;
    Parts(c, s, i, 0);
  }

  lemma StoringPushes(s: System, i: nat, k: nat)
    requires Is(s, i) && s.pushing[i].Storing? && s.ring.workers[i].pc == Owning(k)
    requires k < |s.tasks| && k < |s.ring.data| && s.tasks[k] == s.pushing[i].task
    requires var p := s.pushing[i]; Progress(s.ring.data[k], p.task, p.chunk, p.done, p.was)
    ensures WorkerPushes(s, i)
  {
    hide Progress;
  }

  lemma ByteStoredKeeps(c: Config, s: System, i: nat)
    requires SystemInv(c, s) && Is(s, i) && s.pushing[i].Storing? && s.pushing[i].chunk < 7 && s.ring.workers[i].pc.Owning?
    requires s.pushing[i].done < |Chunks(0, s.pushing[i].task)[s.pushing[i].chunk].bytes|
    ensures SystemInv(c, Stored(c, s, i))
  {
    hide SystemInv;
    hide Inv;
    hide WorkerPushes;
    StoringWorker(c, s, i);
    var p, k := s.pushing[i], s.ring.workers[i].pc.k;
    var chunk := Chunks(0, p.task)[p.chunk];
    hide Chunks;
    ProgressByte(s.ring.data[k], p.task, p.chunk, p.done, p.was);
    WrittenBytes(c, s.ring, i, chunk.at + p.done, chunk.bytes[p.done]);
    hide Progress;
    hide RingProtocol.Step;
    StoringPushes(Stored(c, s, i), i, k);
    BytesKeep(c, s, i, Stored(c, s, i).ring, p.(done := p.done + 1));
  }

  lemma StoredKeeps(c: Config, s: System, i: nat)
    requires SystemInv(c, s) && Is(s, i) && s.pushing[i].Storing? && s.pushing[i].chunk < 7 && s.ring.workers[i].pc.Owning?
    ensures SystemInv(c, Stored(c, s, i))
  {
    hide SystemInv;
    hide Inv;
    hide FrameLength;
    hide BatchOk;
    hide Sized;
    hide WholeOnceProduced;
    Parts(c, s, i, 0);
    var p, k := s.pushing[i], s.ring.workers[i].pc.k;
    var chunk := Chunks(0, p.task)[p.chunk];
    hide Chunks;
    ProgressLength(s.ring.data[k], p.task, p.chunk, p.done, p.was);
    if p.done < |chunk.bytes| {
      ByteStoredKeeps(c, s, i);
    } else {
      ProgressChunk(s.ring.data[k], p.task, p.chunk, p.was);
      hide Progress;
      BytesKeep(c, s, i, s.ring, p.(chunk := p.chunk + 1, done := 0));
    }
  }

  lemma FinishedFrame(d: seq<byte>, t: Task, was: seq<byte>, done: nat)
    requires Progress(d, t, 7, done, was)
    ensures HoldsFrame(d, t)
  {
    hide Chunks;
    hide Overwrite;
    hide FrameLength;
    hide HoldsFrame;
    ChunksHoldFrame(was, 0, t);
    assert d[0..0 + FrameLength(t)] == d;
  }

  lemma FinishedKeeps(c: Config, s: System, i: nat)
    requires SystemInv(c, s) && Is(s, i) && s.pushing[i].Storing? && s.pushing[i].chunk == 7 && s.ring.workers[i].pc.Owning?
    ensures SystemInv(c, React(c, s, Finish(i)))
  {
    hide Inv;
    hide HoldsFrame;
    hide FrameLength;
    var t, p, k := React(c, s, Finish(i)), s.pushing[i], s.ring.workers[i].pc.k;
    StoringWorker(c, s, i);
    FinishedFrame(s.ring.data[k], p.task, p.was, p.done);
    hide Progress;
    StepKeepsInv(c, s.ring, Produce(i));
    Parts(c, s, i, k);
    assert Framed(s.ring, s.tasks, k);
    BatchKept(s.ring, t.ring, s.tasks, s.tasks, |s.out|, s.performed, s.poped, s.consumed);
    forall j: nat ensures WorkerPushes(t, j) { assert WorkerPushes(s, j); }
    forall q: nat ensures Sized(t, q) { assert Sized(s, q); }
    forall q: nat ensures WholeOnceProduced(t, q) {
      assert WholeOnceProduced(s, q);
      if q < |s.ring.log| && q != k { StillWhole(s, t, q, i); }
      if q == k { FramedKept(s.ring, t.ring, s.tasks, k); }
    }
    hide BatchOk;
  }

  // -------------------------------------------------------------- consumer

  // A step of the consumer: everything of the producers stays.
  lemma ConsumerKeeps(c: Config, s: System, t: System)
    requires SystemInv(c, s) && Inv(c, t.ring)
    requires t.ring.workers == s.ring.workers && t.ring.log == s.ring.log && t.ring.data == s.ring.data
    requires t.pushing == s.pushing && t.tasks == s.tasks
    requires BatchOk(t.ring, t.tasks, |t.out|, t.performed, t.poped, t.consumed)
    requires t.out == Deliveries(t.tasks, 0, |t.out|)
    ensures SystemInv(c, t)
  {
    hide Inv;
    hide BatchOk;
    hide Progress;
    hide FrameLength;
    forall j: nat ensures WorkerPushes(t, j) { assert WorkerPushes(s, j); }
    forall q: nat ensures Sized(t, q) { assert Sized(s, q); }
    forall q: nat ensures WholeOnceProduced(t, q) {
      assert WholeOnceProduced(s, q);
      if q < |s.ring.log| && Produced(s.ring.workers, q) { FramedKept(s.ring, t.ring, s.tasks, q); }
    }
  }

  lemma OutOfTasks(c: Config, s: System)
    requires SystemInv(c, s)
    ensures s.out == Deliveries(s.tasks, 0, |s.out|) && |s.out| <= |s.tasks|
  {
  }

  // The batch statement does not look at where an empty-handed consumer is in consume.
  lemma BatchNotHeld(s: State, t: State, tasks: seq<Task>, popped: nat, performed: nat, poped: nat, consumed: nat)
    requires BatchOk(s, tasks, popped, performed, poped, consumed) && !s.cpc.CHold? && !t.cpc.CHold?
    requires t.taken == s.taken && t.log == s.log && t.data == s.data
    ensures BatchOk(t, tasks, popped, performed, poped, consumed)
  {
    forall k | 0 <= k < t.taken ensures Framed(t, tasks, k) { FramedKept(s, t, tasks, k); }
  }

  lemma RecordPoppedKeeps(c: Config, s: System)
    requires SystemInv(c, s) && s.poped < s.consumed
    ensures SystemInv(c, Popped(c, s))
  {
    hide SystemInv;
    hide Inv;
    hide Readable;
    hide ReadRecord;
    hide FrameLength;
    Parts(c, s, 0, 0);
    OutOfTasks(c, s);
    BatchGoesOn(c, s.ring, s.tasks, |s.out|, s.performed, s.poped, s.consumed);
    DeliveriesNext(s.tasks, 0, |s.out|);
    hide BatchOk;
    hide WorkerPushes;
    ConsumerKeeps(c, s, Popped(c, s));
  }

  lemma PoppedKeeps(c: Config, s: System)
    requires SystemInv(c, s)
    ensures SystemInv(c, Popped(c, s))
  {
    hide SystemInv;
    hide Inv;
    hide WorkerPushes;
    hide BatchOk;
    Parts(c, s, 0, 0);
    OutOfTasks(c, s);
    if s.poped < s.consumed {
      RecordPoppedKeeps(c, s);
    } else if s.ring.cpc.CIdle? {
      ConsumeKeepsInv(c, s.ring);
      BatchNotHeld(s.ring, Popped(c, s).ring, s.tasks, |s.out|, s.performed, s.poped, s.consumed);
      ConsumerKeeps(c, s, Popped(c, s));
    }
  }

  lemma ScannedFrame(c: Config, s: State)
    ensures var t := RingProtocol.Step(c, s, Scan);
            && t.workers == s.workers && t.log == s.log && t.data == s.data
            && (t.taken == s.taken || t.cpc.CHold?)
            && (s.cpc.CHold? ==> t == s)
  {
  }

  // A new batch: its claims are produced, and so they are whole records.
  lemma NewBatch(c: Config, s: System)
    requires SystemInv(c, s) && !s.ring.cpc.CHold? && RingProtocol.Step(c, s.ring, Scan).cpc.CHold?
    ensures var t := Scanned(c, s); Inv(c, t.ring) && BatchOk(t.ring, s.tasks, |s.out|, s.performed, t.poped, t.consumed)
  {
    hide Inv;
    hide HoldsFrame;
    hide FrameLength;
    var t := Scanned(c, s);
    Parts(c, s, 0, 0);
    ScanKeepsInv(c, s.ring);
    HoldsAfterDecision(c, s.ring);
    DecisionStarts(c, s.ring);
    HeldClaims(c, t.ring);
    ScannedFrame(c, s.ring);
    hide Decided;
    hide RingProtocol.Step;
    NoRecordLeft(s);
    forall k | 0 <= k < t.ring.taken ensures Framed(t.ring, s.tasks, k) {
      Parts(c, s, 0, k);
      FramedKept(s.ring, t.ring, s.tasks, k);
    }
  }

  lemma NoRecordLeft(s: System)
    requires BatchOk(s.ring, s.tasks, |s.out|, s.performed, s.poped, s.consumed) && !s.ring.cpc.CHold?
    ensures |s.out| == s.performed == s.ring.taken && s.poped == s.consumed
  {
  }

  lemma ScannedKeeps(c: Config, s: System)
    requires SystemInv(c, s)
    ensures SystemInv(c, Scanned(c, s))
  {
    hide SystemInv;
    hide Inv;
    hide BatchOk;
    var t := Scanned(c, s);
    Parts(c, s, 0, 0);
    OutOfTasks(c, s);
    ScanKeepsInv(c, s.ring);
    ScannedFrame(c, s.ring);
    if !s.ring.cpc.CHold? {
      if t.ring.cpc.CHold? {
        NewBatch(c, s);
      } else {
        BatchNotHeld(s.ring, t.ring, s.tasks, |s.out|, s.performed, s.poped, s.consumed);
      }
    }
    hide RingProtocol.Step;
    ConsumerKeeps(c, s, t);
  }

  lemma PerformedKeeps(c: Config, s: System)
    requires SystemInv(c, s)
    ensures SystemInv(c, Performed(c, s))
  {
    hide SystemInv;
    hide Inv;
    hide WorkerPushes;
    hide FrameLength;
    hide BatchOk;
    var t := Performed(c, s);
    Parts(c, s, 0, 0);
    OutOfTasks(c, s);
    if t != s {
      RecordToRelease(c, s.ring, s.tasks, |s.out|, s.performed, s.poped, s.consumed);
      ReleaseKeepsInv(c, s.ring, s.ring.log[s.performed].hi - s.ring.cons);
      ReleasedRecord(c, s.ring, t.ring, s.tasks, |s.out|, s.performed, s.poped, s.consumed);
      ConsumerKeeps(c, s, t);
    }
  }

  // ------------------------------------------------------------- every run

  lemma AdvancedKeeps(c: Config, s: System, i: nat)
    requires SystemInv(c, s) && StepFits(c, s.ring, Action.Advance(i))
    ensures SystemInv(c, Moved(c, s, Action.Advance(i)))
  {
    Parts(c, s, i, 0);
    hide SystemInv;
    hide Inv;
    if i < |s.ring.workers| {
      MovedFrame(c, s.ring, Action.Advance(i));
      if RingProtocol.Step(c, s.ring, Action.Advance(i)).log != s.ring.log {
        ClaimedKeeps(c, s, i);
      } else {
        MovedKeeps(c, s, Action.Advance(i));
      }
    }
  }

  lemma RegisteredKeeps(c: Config, s: System, a: Action)
    requires a.Register? || a.Unregister? || a.CasFails?
    requires SystemInv(c, s) && (a.Unregister? ==> Is(s, a.i) && s.pushing[a.i].Quiet?)
    ensures SystemInv(c, Moved(c, s, a))
  {
    hide SystemInv;
    if a.i < |s.ring.workers| { MovedFrame(c, s.ring, a); }
    MovedKeeps(c, s, a);
  }

  lemma PushReactKeeps(c: Config, s: System, e: Event)
    requires SystemInv(c, s) && (e.Push? || e.Retry? || e.Store? || e.Finish?)
    ensures SystemInv(c, React(c, s, e))
  {
    hide Asked;
    hide Stored;
    if Is(s, e.i) { Parts(c, s, e.i, 0); }
    hide SystemInv;
    hide Inv;
    hide BatchOk;
    hide Progress;
    if React(c, s, e) != s {
      match e
      case Push(i, t) => AskedKeeps(c, s, i, t);
      case Retry(i) => AskedKeeps(c, s, i, s.pushing[i].task);
      case Store(i) => StoredKeeps(c, s, i);
      case Finish(i) => FinishedKeeps(c, s, i);
    }
  }

  lemma ReactKeepsInv(c: Config, s: System, e: Event)
    requires SystemInv(c, s) && EventFits(c, s, e)
    ensures SystemInv(c, React(c, s, e))
  {
    if e.Push? || e.Retry? || e.Store? || e.Finish? { PushReactKeeps(c, s, e); }
    hide SystemInv;
    hide Moved;
    hide Popped;
    hide Scanned;
    hide Performed;
    match e
    case Register(i) => RegisteredKeeps(c, s, Action.Register(i));
    case Unregister(i) => if Is(s, i) && s.pushing[i].Quiet? { RegisteredKeeps(c, s, Action.Unregister(i)); }
    case Advance(i) => AdvancedKeeps(c, s, i);
    case CasFails(i) => RegisteredKeeps(c, s, Action.CasFails(i));
    case Pop => PoppedKeeps(c, s);
    case Scanning => ScannedKeeps(c, s);
    case Perform => PerformedKeeps(c, s);
    case _ =>
  }

  function History(c: Config, events: seq<Event>): System {
    if events == [] then Start(c)
    else React(c, History(c, events[..|events| - 1]), events[|events| - 1])
  }

  // Every compare-exchange of the history fits, as in RingSafety.
  ghost predicate FitHistory(c: Config, events: seq<Event>) {
    events == [] ||
    (var before := events[..|events| - 1];
     FitHistory(c, before) && EventFits(c, History(c, before), events[|events| - 1]))
  }

  lemma {:induction false} HistoryKeepsInv(c: Config, events: seq<Event>)
    requires ValidConfig(c) && FitHistory(c, events)
    ensures SystemInv(c, History(c, events))
  {
    hide SystemInv;
    hide React;
    if events == [] {
      StartInv(c);
    } else {
      HistoryKeepsInv(c, events[..|events| - 1]);
      ReactKeepsInv(c, History(c, events[..|events| - 1]), events[|events| - 1]);
    }
  }

  /** FIFO in every interleaving: the records pop has returned are those of the tasks pushed,
      in the order of their claims, each once, although other pushes are under way and
      earlier tasks give their space back. */
  lemma PopsAreFifo(c: Config, events: seq<Event>)
    requires ValidConfig(c) && FitHistory(c, events)
    ensures var s := History(c, events);
            |s.out| <= |s.tasks| == |s.ring.log| && s.out == Deliveries(s.tasks, 0, |s.out|)
  {
    hide Inv;
    HistoryKeepsInv(c, events);
  }

  /** Every claim that has been produced is a whole record of its task, and the part of a
      batch that is still held parses as the records not performed yet, to its last byte. */
  lemma ProducedClaimsAreRecords(c: Config, events: seq<Event>, k: nat)
    requires ValidConfig(c) && FitHistory(c, events)
    ensures var s := History(c, events);
            k < |s.ring.log| && Produced(s.ring.workers, k) ==> Framed(s.ring, s.tasks, k)
    ensures var s := History(c, events);
            s.ring.cpc.CHold? ==>
              && s.performed < s.ring.taken <= |s.tasks|
              && ReadBatch(s.ring.buf, s.ring.cons, s.ring.cpc.hi) == Parsed(Deliveries(s.tasks, s.performed, s.ring.taken))
  {
    hide Inv;
    hide History;
    hide FitHistory;
    HistoryKeepsInv(c, events);
    var s := History(c, events);
    Parts(c, s, 0, k);
    if s.ring.cpc.CHold? {
      hide Framed;
      HeldRangeParses(c, s.ring, s.tasks, s.performed);
    }
  }

  /** A pop that finds records left of the batch always reads a task's record, and reads it
      from the buffer as it is then. */
  lemma PopReadsTheNext(c: Config, events: seq<Event>)
    requires ValidConfig(c) && FitHistory(c, events)
    requires History(c, events).poped < History(c, events).consumed
    ensures var s := History(c, events); var t := React(c, s, Pop);
            |s.out| < |s.tasks| && t.out == s.out + [Delivered(s.tasks[|s.out|])]
  {
    hide Inv;
    hide History;
    hide FitHistory;
    HistoryKeepsInv(c, events);
    var s := History(c, events);
    Parts(c, s, 0, 0);
    BatchGoesOn(c, s.ring, s.tasks, |s.out|, s.performed, s.poped, s.consumed);
    hide Readable;
    hide ReadRecord;
  }

  lemma LogInv(c: Config, s: System)
    requires SystemInv(c, s)
    ensures LogOk(c, s.ring.log) && |s.tasks| == |s.ring.log|
  {
  }

  /** Every record of the queue, finished or not, starts at a multiple of 8 from the start of
      the buffer. */
  lemma RecordsAreAligned(c: Config, events: seq<Event>, k: nat)
    requires ValidConfig(c) && FitHistory(c, events)
    requires k < |History(c, events).ring.log|
    ensures History(c, events).ring.log[k].lo % 8 == 0
  {
    hide Inv;
    hide History;
    hide FitHistory;
    hide BatchOk;
    hide WorkerPushes;
    HistoryKeepsInv(c, events);
    var s := History(c, events);
    LogInv(c, s);
    forall q | 0 <= q < k ensures (s.ring.log[q].hi - s.ring.log[q].lo) % 8 == 0 {
      Parts(c, s, 0, q);
      FrameAligned(s.tasks[q]);
    }
    ClaimsAligned(c, s.ring.log, k);
  }
}
