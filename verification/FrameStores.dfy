/**
 The stores push makes into the bytes it acquired, in the order of the code, and what
 they leave there.
 */
module FrameStores {
  import opened RingProtocol
  import opened Framing

  // One store of push: some bytes at some address.
  datatype Chunk = Chunk(at: nat, bytes: seq<byte>)

  function Splice(b: seq<byte>, chunk: Chunk): (r: seq<byte>)
    requires chunk.at + |chunk.bytes| <= |b|
    ensures |r| == |b|
  {
    b[..chunk.at] + chunk.bytes + b[chunk.at + |chunk.bytes|..]
  }

  lemma SpliceNothing(b: seq<byte>, at: nat)
    requires at <= |b|
    ensures Splice(b, Chunk(at, [])) == b
  {
  }

  lemma SpliceNext(b: seq<byte>, chunk: Chunk, n: nat)
    requires chunk.at + |chunk.bytes| <= |b| && n < |chunk.bytes|
    ensures Splice(b, Chunk(chunk.at, chunk.bytes[..n + 1])) ==
              Splice(b, Chunk(chunk.at, chunk.bytes[..n]))[chunk.at + n := chunk.bytes[n]]
  {
  }

  // The chunks lie in `size` bytes, one after the other.
  ghost predicate InOrder(chunks: seq<Chunk>, size: nat) {
    && (forall i {:trigger chunks[i]} | 0 <= i < |chunks| :: chunks[i].at + |chunks[i].bytes| <= size)
    && (forall i, j {:trigger chunks[i], chunks[j]} | 0 <= i < j < |chunks| :: chunks[i].at + |chunks[i].bytes| <= chunks[j].at)
  }

  // The buffer after the first `n` stores.
  ghost function Overwrite(b: seq<byte>, chunks: seq<Chunk>, n: nat): (r: seq<byte>)
    requires InOrder(chunks, |b|) && n <= |chunks|
    ensures |r| == |b|
  {
    if n == 0 then b else Splice(Overwrite(b, chunks, n - 1), chunks[n - 1])
  }

  // Every chunk survives the later ones.
  lemma {:induction false} ReadsBack(b: seq<byte>, chunks: seq<Chunk>, n: nat, k: nat)
    requires InOrder(chunks, |b|) && k < n <= |chunks|
    ensures Overwrite(b, chunks, n)[chunks[k].at..chunks[k].at + |chunks[k].bytes|] == chunks[k].bytes
    decreases n
  {
    if k < n - 1 {
      ReadsBack(b, chunks, n - 1, k);
      var before, after := Overwrite(b, chunks, n - 1), Overwrite(b, chunks, n);
      assert forall p | chunks[k].at <= p < chunks[k].at + |chunks[k].bytes| :: after[p] == before[p];
      assert after[chunks[k].at..chunks[k].at + |chunks[k].bytes|] == before[chunks[k].at..chunks[k].at + |chunks[k].bytes|];
    }
  }

  // push, lines 34-54, in the order of the code.
  function Chunks(base: nat, t: Task): seq<Chunk> {
    var n, at := |t.operation|, base + DescriptionAt(|t.operation|);
    [Chunk(base, U32(FrameLength(t))),
     Chunk(base + 4, U32(n)),
     Chunk(base + OPERATION_AT, t.operation),
     Chunk(at - 8, U32(t.stackSize)),
     Chunk(at - 4, U32(|t.description|)),
     Chunk(at, t.description),
     Chunk(at + |t.description|, [0])]
  }

  lemma ChunksInOrder(base: nat, t: Task, size: nat)
    requires base + FrameLength(t) <= size
    ensures InOrder(Chunks(base, t), size)
    ensures forall i {:trigger Chunks(base, t)[i]} | 0 <= i < 7 ::
              base <= Chunks(base, t)[i].at && Chunks(base, t)[i].at + |Chunks(base, t)[i].bytes| <= base + FrameLength(t)
  {
    FrameAligned(t);
    hide RoundUp;
    hide U32;
  }

  lemma ChunksHoldFrame(b: seq<byte>, base: nat, t: Task)
    requires base + FrameLength(t) <= |b| && InOrder(Chunks(base, t), |b|)
    ensures HoldsFrame(Overwrite(b, Chunks(base, t), 7)[base..base + FrameLength(t)], t)
  {
    hide RoundUp;
    hide FrameLength;
    hide Overwrite;
    hide HoldsFrame;
    hide U32;
    hide InOrder;
    FrameAligned(t);
    FrameInPlace(Overwrite(b, Chunks(base, t), 7), base, t);
    ReadsBack(b, Chunks(base, t), 7, 0);
    ReadsBack(b, Chunks(base, t), 7, 1);
    ReadsBack(b, Chunks(base, t), 7, 2);
    ReadsBack(b, Chunks(base, t), 7, 3);
    ReadsBack(b, Chunks(base, t), 7, 4);
    ReadsBack(b, Chunks(base, t), 7, 5);
    ReadsBack(b, Chunks(base, t), 7, 6);
    var r, at := Overwrite(b, Chunks(base, t), 7), base + DescriptionAt(|t.operation|) + |t.description|;
    assert r[at] == r[at..at + 1][0];
  }
}
