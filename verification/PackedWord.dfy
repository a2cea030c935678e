/**
 The packed 64-bit word of MpscRingBuffer.h: one lock bit, 31 bits of wrap counter,
 32 bits of buffer index.  The masks select contiguous fields, so they are written
 with division and remainder.
 */
module PackedWord {
  import opened RingProtocol

  const INDEX_SIZE := 0x1_0000_0000
  const COUNTER_SIZE := 0x8000_0000
  const LOCK := 0x8000_0000_0000_0000

  // offset & INDEX_MASK
  function GetBufferIndex(offset: nat): nat { offset % INDEX_SIZE }

  // offset & WRAP_COUNTER_MASK
  function GetWrapCounter(offset: nat): nat { offset / INDEX_SIZE % COUNTER_SIZE * INDEX_SIZE }

  // (offset & WRAP_LOCK_BIT) != 0
  predicate IsLocked(offset: nat) { offset / LOCK % 2 == 1 }

  // offset & ~WRAP_LOCK_BIT and offset | WRAP_LOCK_BIT
  function UnlockWrapBit(offset: nat): nat { if IsLocked(offset) then offset - LOCK else offset }

  function LockWrapBit(offset: nat): nat { if IsLocked(offset) then offset else offset + LOCK }

  function IncreaseWrapCounter(wrapCounter: nat): nat { GetWrapCounter(wrapCounter + INDEX_SIZE) }

  // _setWrapCounter as its caller sees it: the parameter is a copy, so the caller's word stays.
  function SetWrapCounter(offset: nat, wrapCounter: nat): nat { offset }

  predicate Fits(w: Word) { w.counter < COUNTER_SIZE && w.index < INDEX_SIZE }

  function Pack(w: Word): nat {
    (if w.locked then LOCK else 0) + w.counter * INDEX_SIZE + w.index
  }

  // The helpers act on the packed word as the protocol acts on its three fields.
  lemma FieldsOfPacked(w: Word)
    requires Fits(w)
    ensures Pack(w) < 2 * LOCK
    ensures GetBufferIndex(Pack(w)) == w.index && GetWrapCounter(Pack(w)) == w.counter * INDEX_SIZE
    ensures IsLocked(Pack(w)) <==> w.locked
    ensures UnlockWrapBit(Pack(w)) == Pack(w.(locked := false)) && LockWrapBit(Pack(w)) == Pack(w.(locked := true))
    ensures IncreaseWrapCounter(w.counter * INDEX_SIZE) == Bump(Config(1, 0, COUNTER_SIZE), w.counter) * INDEX_SIZE
  {
    var high := (if w.locked then COUNTER_SIZE else 0) + w.counter;
    assert Pack(w) == high * INDEX_SIZE + w.index;
    assert Pack(w) / INDEX_SIZE == high && Pack(w) % INDEX_SIZE == w.index;
    assert high % COUNTER_SIZE == w.counter;
    assert (w.counter * INDEX_SIZE + INDEX_SIZE) / INDEX_SIZE == w.counter + 1;
  }

  // A compare-exchange of packed words succeeds exactly when lock bit, wrap counter and index all agree.
  lemma SamePackedWord(v: Word, w: Word)
    requires Fits(v) && Fits(w)
    ensures Pack(v) == Pack(w) <==> v == w
  {
    FieldsOfPacked(v);
    FieldsOfPacked(w);
  }

  /** The word acquire installs, as the code is written, has wrap counter 0 whatever was
      loaded: the target is an index, possibly locked, and setting its counter does not
      change it.  This is the protocol with modulus 1. */
  lemma CounterNeverMoves(locked: bool, index: nat, seen: nat)
    requires index < INDEX_SIZE
    ensures var target := if locked then LockWrapBit(index) else index;
            var word := SetWrapCounter(target, IncreaseWrapCounter(GetWrapCounter(seen)));
            word == Pack(Word(locked, 0, index)) && GetWrapCounter(word) == 0
  {
    FieldsOfPacked(Word(false, 0, index));
    FieldsOfPacked(Word(true, 0, index));
  }
}
