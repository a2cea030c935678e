/**
 The multi-producer, single-consumer ring of MpscRingBuffer.cpp as a transition
 system: any number of producers and one consumer, interleaved at single atomic
 loads, stores and compare-exchanges.

 Program state and proof state are kept apart: `barrier`, `end`, `cons`, the
 workers' `seen`/`registered` and `buf` are the fields of the C++ object; `log`,
 `taken`, `cut`, `lap` and `data` only record history and are never tested by a
 step.
 */
module RingProtocol {

  newtype byte = x: int | 0 <= x < 256

  // A `seen` or `_end` holding no offset.
  const MAX_OFFSET: int := 0x7FFF_FFFF_FFFF_FFFF

  /** `modulus` says how the wrap counter of the packed word behaves.  1: it never
      changes, as the code is written (`_setWrapCounter` assigns its own parameter);
      0x8000_0000: the 31 bits the layout comment gives it; 0: unbounded. */
  datatype Config = Config(capacity: nat, workers: nat, modulus: nat)

  ghost predicate ValidConfig(c: Config) {
    0 < c.capacity < 0x1_0000_0000
  }

  // _increaseWrapCounter: the next value of a wrap counter.
  function Bump(c: Config, counter: nat): nat {
    if c.modulus != 0 && counter + 1 >= c.modulus then 0 else counter + 1
  }

  // The wrap counter found in the packed word once the producers have wrapped `lap` times.
  function Tag(c: Config, lap: nat): nat {
    if lap == 0 then 0 else Bump(c, Tag(c, lap - 1))
  }

  datatype Word = Word(locked: bool, counter: nat, index: nat)

  datatype Seen = Seen(locked: bool, offset: int)

  // One successful compare-exchange: `worker` owns bytes [lo, hi) of lap `lap`.
  datatype Claim = Claim(worker: nat, lap: nat, lo: nat, hi: nat)

  // A point on the unbounded track the producers run along.
  datatype Pos = Pos(lap: nat, idx: nat)

  ghost predicate Before(a: Pos, b: Pos) {
    a.lap < b.lap || (a.lap == b.lap && a.idx < b.idx)
  }

  /** Where a producer is in acquire/produce.  `seen` is the word it loaded; `at` is
      the number of claims at that load; `k` is the claim it owns. */
  datatype PC =
    | Detached
    | Registering
    | Idle
    | LoadNext(size: nat)
    | PublishSeen(size: nat, seen: Word, at: nat)
    | ReadWritten(size: nat, seen: Word, at: nat)
    | TryCas(size: nat, seen: Word, at: nat, written: nat)
    | Fail
    | UnlockSeen(k: nat, wraps: bool)
    | StoreEnd(k: nat)
    | UnlockBarrier(k: nat)
    | Owning(k: nat)
  {
    predicate Owns() { UnlockSeen? || StoreEnd? || UnlockBarrier? || Owning? }
    predicate Locks() { (UnlockSeen? && wraps) || StoreEnd? || UnlockBarrier? }
    predicate Loaded() { PublishSeen? || ReadWritten? || TryCas? }
  }

  datatype Worker = Worker(pc: PC, registered: bool, seen: Seen)

  /** Where the consumer is in consume/release.  `snap` is the number of claims when
      `next` was loaded, `rk` the claim that made `ready` what it is, `from` the first
      claim of the held range [cons, hi). */
  datatype CPC =
    | CIdle
    | CLoadNext
    | CCheck(i: nat, next: nat, ready: int, snap: nat, rk: nat)
    | CReadSeen(i: nat, next: nat, ready: int, snap: nat, rk: nat)
    | CClearEnd
    | CWrap
    | CHold(hi: nat, from: nat)
  {
    predicate Scans() { CCheck? || CReadSeen? }
  }

  datatype State = State(
    barrier: Word, end: int, cons: nat, workers: seq<Worker>, cpc: CPC, buf: seq<byte>,
    plap: nat, clap: nat, log: seq<Claim>, taken: nat, cut: nat, data: seq<seq<byte>>)

  function Initial(c: Config): State {
    State(Word(false, 0, 0), MAX_OFFSET, 0,
          seq(c.workers, _ => Worker(Detached, false, Seen(false, 0))),
          CIdle, seq(c.capacity, _ => 0),
          0, 0, [], 0, 0, [])
  }

  datatype Action =
    | Register(i: nat)
    | Unregister(i: nat)
    | Acquire(i: nat, size: nat)
    | Advance(i: nat)
    | CasFails(i: nat)
    | Write(i: nat, offset: nat, value: byte)
    | Produce(i: nat)
    | Consume
    | Scan
    | Release(bytes: nat)

  // ------------------------------------------------------------------ steps

  function Put(s: State, i: nat, w: Worker): (r: State)
    requires i < |s.workers|
  {
    s.(workers := s.workers[i := w])
  }

  // acquire, lines 79 and 85-91: may `size` bytes be claimed at `next` with the consumer at `written`?
  predicate GuardPasses(c: Config, next: nat, size: nat, written: nat) {
    var target := next + size;
    && !(next < written && target >= written)
    && (target >= c.capacity ==> (if target > c.capacity then size else 0) < written)
  }

  // acquire, lines 90-103: the word the compare-exchange installs.
  function Target(c: Config, seen: Word, size: nat): Word {
    var target := seen.index + size;
    if target >= c.capacity then
      Word(target > c.capacity, Bump(c, seen.counter), if target > c.capacity then size else 0)
    else
      Word(false, seen.counter, target)
  }

  predicate CasMatches(s: State, i: nat)
    requires i < |s.workers|
  {
    s.workers[i].pc.TryCas? && s.barrier == s.workers[i].pc.seen
  }

  function CasStep(c: Config, s: State, i: nat): State
    requires i < |s.workers| && CasMatches(s, i)
  {
    var w := s.workers[i];
    var target := Target(c, s.barrier, w.pc.size);
    var next := s.barrier.index;
    var wraps := next + w.pc.size >= c.capacity;
    var claim := if target.locked then Claim(i, s.plap + 1, 0, w.pc.size)
                 else Claim(i, s.plap, next, next + w.pc.size);
    var k := |s.log|;
    Put(s, i, w.(pc := UnlockSeen(k, target.locked))).(
      barrier := target,
      plap := if wraps then s.plap + 1 else s.plap,
      log := s.log + [claim],
      data := s.data + [if claim.lo <= claim.hi <= |s.buf| then s.buf[claim.lo..claim.hi] else []],
      cut := if target.locked then k else if wraps then k + 1 else s.cut)
  }

  function Advanced(c: Config, s: State, i: nat): State
    requires i < |s.workers|
  {
    var w := s.workers[i];
    match w.pc
    case LoadNext(size) =>
      if s.barrier.locked then s else Put(s, i, w.(pc := PublishSeen(size, s.barrier, |s.log|)))
    case PublishSeen(size, seen, at) =>
      Put(s, i, w.(pc := ReadWritten(size, seen, at), seen := Seen(true, seen.index)))
    case ReadWritten(size, seen, at) =>
      if GuardPasses(c, seen.index, size, s.cons)
      then Put(s, i, w.(pc := TryCas(size, seen, at, s.cons)))
      else Put(s, i, w.(pc := Fail))
    case Fail =>
      Put(s, i, w.(pc := Idle, seen := Seen(false, MAX_OFFSET)))
    case TryCas(size, seen, at, written) =>
      if CasMatches(s, i) then CasStep(c, s, i) else Put(s, i, w.(pc := LoadNext(size)))
    case UnlockSeen(k, wraps) =>
      Put(s, i, w.(pc := if wraps then StoreEnd(k) else Owning(k), seen := w.seen.(locked := false)))
    case StoreEnd(k) =>
      Put(s, i, w.(pc := UnlockBarrier(k))).(end := w.seen.offset)
    case UnlockBarrier(k) =>
      Put(s, i, w.(pc := Owning(k))).(barrier := s.barrier.(locked := false))
    case _ => s
  }

  // The consumer has looked at every worker: wrap, give up, or hold [cons, ready).
  function Decided(c: Config, s: State): State
    requires s.cpc.CCheck?
  {
    var next, ready := s.cpc.next, s.cpc.ready;
    var end := if s.end < c.capacity then s.end else c.capacity;
    if next < s.cons && ready == MAX_OFFSET && s.cons == end then
      s.(cpc := if s.end != MAX_OFFSET then CClearEnd else CWrap)
    else
      var bound := if next < s.cons then end else next;
      var upTo := if ready < bound then ready else bound;
      var upToClaim := if ready <= bound then s.cpc.rk else if next < s.cons then s.cut else s.cpc.snap;
      if upTo <= s.cons then s.(cpc := CIdle)
      else s.(cpc := CHold(upTo, s.taken), taken := upToClaim)
  }

  function Scanned(c: Config, s: State): State {
    match s.cpc
    case CLoadNext =>
      if s.barrier.locked then s
      else if s.barrier.index == s.cons then s.(cpc := CIdle)
      else s.(cpc := CCheck(0, s.barrier.index, MAX_OFFSET, |s.log|, 0))
    case CCheck(i, next, ready, snap, rk) =>
      if i >= |s.workers| then Decided(c, s)
      else if s.workers[i].registered then s.(cpc := CReadSeen(i, next, ready, snap, rk))
      else s.(cpc := CCheck(i + 1, next, ready, snap, rk))
    case CReadSeen(i, next, ready, snap, rk) =>
      if i >= |s.workers| || s.workers[i].seen.locked then s
      else
        var seen := s.workers[i].seen.offset;
        if seen >= s.cons && seen < ready
        then s.(cpc := CCheck(i + 1, next, seen, snap, if s.workers[i].pc.Owns() then s.workers[i].pc.k else rk))
        else s.(cpc := CCheck(i + 1, next, ready, snap, rk))
    case CClearEnd => s.(end := MAX_OFFSET, cpc := CWrap)
    case CWrap => s.(cons := 0, clap := s.clap + 1, cpc := CLoadNext)
    case _ => s
  }

  function Released(c: Config, s: State, bytes: nat): State {
    if s.cpc.CHold? && s.cons + bytes <= s.cpc.hi then
      var released := s.cons + bytes;
      s.(cons := if released == c.capacity then 0 else released,
         clap := if released == c.capacity then s.clap + 1 else s.clap,
         cpc := if released == s.cpc.hi then CIdle else s.cpc)
    else s
  }

  function Written(s: State, i: nat, offset: nat, value: byte): State
    requires i < |s.workers|
  {
    var pc := s.workers[i].pc;
    if pc.Owning? && pc.k < |s.log| && pc.k < |s.data| && offset < |s.data[pc.k]| && s.log[pc.k].lo + offset < |s.buf|
    then s.(buf := s.buf[s.log[pc.k].lo + offset := value],
            data := s.data[pc.k := s.data[pc.k][offset := value]])
    else s
  }

  // One step of the system; an action that is not enabled leaves the state alone.
  function Step(c: Config, s: State, a: Action): State {
    match a
    case Register(i) =>
      if i >= |s.workers| then s
      else if s.workers[i].pc.Detached? then Put(s, i, s.workers[i].(pc := Registering, seen := Seen(false, MAX_OFFSET)))
      else if s.workers[i].pc.Registering? then Put(s, i, s.workers[i].(pc := Idle, registered := true))
      else s
    case Unregister(i) =>
      if i < |s.workers| && s.workers[i].pc.Idle? then Put(s, i, s.workers[i].(pc := Detached, registered := false)) else s
    case Acquire(i, size) =>
      // line 56 refuses a request larger than the buffer; callers never ask for nothing
      if i < |s.workers| && s.workers[i].pc.Idle? && 0 < size <= c.capacity
      then Put(s, i, s.workers[i].(pc := LoadNext(size))) else s
    case Advance(i) =>
      if i < |s.workers| then Advanced(c, s, i) else s
    case CasFails(i) =>
      // compare_exchange_weak may fail without a reason
      if i < |s.workers| && s.workers[i].pc.TryCas? then Put(s, i, s.workers[i].(pc := LoadNext(s.workers[i].pc.size))) else s
    case Write(i, offset, value) =>
      if i < |s.workers| then Written(s, i, offset, value) else s
    case Produce(i) =>
      if i < |s.workers| && s.workers[i].pc.Owning?
      then Put(s, i, s.workers[i].(pc := Idle, seen := Seen(false, MAX_OFFSET))) else s
    case Consume =>
      if s.cpc.CIdle? then s.(cpc := CLoadNext) else s
    case Scan => Scanned(c, s)
    case Release(bytes) => Released(c, s, bytes)
  }

  function Run(c: Config, actions: seq<Action>): State {
    if actions == [] then Initial(c)
    else Step(c, Run(c, actions[..|actions| - 1]), actions[|actions| - 1])
  }
}
