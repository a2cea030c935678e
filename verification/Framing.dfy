/**
 The record a task occupies in the ring: written by ContextTaskQueue::push, read
 back by pop and deallocate.
 */
module Framing {
  import opened RingProtocol

  // An operation is an opaque block of bytes.
  datatype Task = Task(operation: seq<byte>, stackSize: nat, description: seq<byte>)

  const U32_SIZE := 0x1_0000_0000

  // Rounds up to a multiple of sizeof(size_t).
  function RoundUp(n: nat): nat {
    (n + 7) / 8 * 8
  }

  // A value stored through a uint32_t pointer, on a little-endian machine; what does not fit is cut off.
  function U32(v: nat): (r: seq<byte>)
    ensures |r| == 4
  {
    [(v % 256) as byte, (v / 256 % 256) as byte, (v / 65536 % 256) as byte, (v / 16777216 % 256) as byte]
  }

  function FromU32(b: seq<byte>): nat
    requires |b| == 4
  {
    b[0] as nat + 256 * (b[1] as nat) + 65536 * (b[2] as nat) + 16777216 * (b[3] as nat)
  }

  lemma Digit(v: nat)
    ensures v == 256 * (v / 256) + v % 256
    ensures v / 256 / 256 == v / 65536 && v / 65536 / 256 == v / 16777216
  {
  }

  lemma U32RoundTrip(v: nat)
    ensures FromU32(U32(v)) == v % U32_SIZE
  {
    var a, b, c := v / 256, v / 65536, v / 16777216;
    Digit(v);
    Digit(a);
    Digit(b);
    Digit(c);
    assert v == U32_SIZE * (c / 256) + FromU32(U32(v));
  }

  // ---------------------------------------------------------------- layout

  const OPERATION_AT := 8

  function StackSizeAt(operationLength: nat): nat {
    OPERATION_AT + RoundUp(operationLength)
  }

  function DescriptionAt(operationLength: nat): nat {
    StackSizeAt(operationLength) + 8
  }

  function FrameLength(t: Task): nat {
    DescriptionAt(|t.operation|) + RoundUp(|t.description| + 1)
  }

  // _roundUp gives the least multiple of 8 that is no smaller.
  lemma RoundUpIsLeast(n: nat)
    ensures n <= RoundUp(n) < n + 8 && RoundUp(n) % 8 == 0
    ensures forall m: nat | n <= m && m % 8 == 0 :: RoundUp(n) <= m
  {
    forall m: nat | n <= m && m % 8 == 0 ensures RoundUp(n) <= m {
      assert m == m / 8 * 8;
    }
  }

  // Every frame is a multiple of 8 long, so frames laid end to end from an aligned base stay aligned.
  lemma FrameAligned(t: Task)
    ensures FrameLength(t) % 8 == 0
    ensures FrameLength(t) >= DescriptionAt(|t.operation|) + |t.description| + 1
    ensures StackSizeAt(|t.operation|) >= OPERATION_AT + |t.operation|
  {
  }

  // What push leaves in the bytes it acquired; the padding keeps whatever was there.
  ghost predicate HoldsFrame(b: seq<byte>, t: Task) {
    var n, stackAt, descriptionAt := |t.operation|, StackSizeAt(|t.operation|), DescriptionAt(|t.operation|);
    && |b| == FrameLength(t)
    && OPERATION_AT + n <= stackAt && descriptionAt + |t.description| < |b|
    && b[0..4] == U32(FrameLength(t))
    && b[4..8] == U32(n)
    && b[OPERATION_AT..OPERATION_AT + n] == t.operation
    && b[stackAt..stackAt + 4] == U32(t.stackSize)
    && b[stackAt + 4..stackAt + 8] == U32(|t.description|)
    && b[descriptionAt..descriptionAt + |t.description|] == t.description
    && b[descriptionAt + |t.description|] == 0
  }

  /** The record as a sequence of fields, with the padding in between. */
  ghost predicate LaidOut(b: seq<byte>, t: Task, pad: seq<byte>, rest: seq<byte>) {
    && |pad| < 8 && (|t.operation| + |pad|) % 8 == 0
    && |rest| < 8 && (|t.description| + 1 + |rest|) % 8 == 0
    && b == U32(|b|) + U32(|t.operation|) + t.operation + pad
            + U32(t.stackSize) + U32(|t.description|) + t.description + [0] + rest
  }

  // Bytes that lie one behind the other add up.
  lemma SumOfFields(b: seq<byte>, length: seq<byte>, n: seq<byte>, op: seq<byte>, pad: seq<byte>,
                    stack: seq<byte>, d: seq<byte>, text: seq<byte>, rest: seq<byte>)
    requires |length| == |n| == |stack| == |d| == 4
    requires var at := 8 + |op| + |pad|;
             && |b| == at + 9 + |text| + |rest|
             && b[0..4] == length && b[4..8] == n && b[8..8 + |op|] == op && b[8 + |op|..at] == pad
             && b[at..at + 4] == stack && b[at + 4..at + 8] == d && b[at + 8..at + 8 + |text|] == text
             && b[at + 8 + |text|] == 0 && b[at + 9 + |text|..] == rest
    ensures b == length + n + op + pad + stack + d + text + [0] + rest
  {
  }

  lemma FieldsOfSum(b: seq<byte>, f: seq<seq<byte>>)
    requires |f| == 9 && |f[0]| == |f[1]| == |f[4]| == |f[5]| == 4 && |f[7]| == 1
    requires b == f[0] + f[1] + f[2] + f[3] + f[4] + f[5] + f[6] + f[7] + f[8]
    ensures var at := 8 + |f[2]| + |f[3]|;
            && |b| == at + 9 + |f[6]| + |f[8]|
            && b[0..4] == f[0] && b[4..8] == f[1] && b[8..8 + |f[2]|] == f[2]
            && b[at..at + 4] == f[4] && b[at + 4..at + 8] == f[5] && b[at + 8..at + 8 + |f[6]|] == f[6]
            && b[at + 8 + |f[6]|] == f[7][0]
  {
  }

  lemma RoundUpIsUnique(n: nat, m: nat)
    requires n <= m < n + 8 && m % 8 == 0
    ensures m == RoundUp(n)
  {
  }

  lemma FieldsOfFrame(b: seq<byte>, t: Task)
    requires HoldsFrame(b, t)
    ensures var n, d, at := |t.operation|, |t.description|, StackSizeAt(|t.operation|);
            && at == 8 + RoundUp(n) && |b| == at + 8 + RoundUp(d + 1)
            && 8 + n <= at && at + 8 + d < |b|
            && b[0..4] == U32(|b|) && b[4..8] == U32(n) && b[8..8 + n] == t.operation
            && b[at..at + 4] == U32(t.stackSize) && b[at + 4..at + 8] == U32(d)
            && b[at + 8..at + 8 + d] == t.description && b[at + 8 + d] == 0
  {
    hide RoundUp;
    hide U32;
  }

  lemma FrameSplits(b: seq<byte>, t: Task)
    requires HoldsFrame(b, t)
    ensures var n, d, at := |t.operation|, |t.description|, StackSizeAt(|t.operation|);
            OPERATION_AT + n <= at && at + 9 + d <= |b| && LaidOut(b, t, b[OPERATION_AT + n..at], b[at + 9 + d..])
  {
    var n, d, at := |t.operation|, |t.description|, StackSizeAt(|t.operation|);
    RoundUpIsLeast(n);
    RoundUpIsLeast(d + 1);
    FieldsOfFrame(b, t);
    hide RoundUp;
    hide U32;
    hide StackSizeAt;
    hide HoldsFrame;
    SumOfFields(b, U32(|b|), U32(n), t.operation, b[OPERATION_AT + n..at], U32(t.stackSize), U32(d), t.description, b[at + 9 + d..]);
  }

  lemma SumIsFrame(b: seq<byte>, t: Task, pad: seq<byte>, rest: seq<byte>)
    requires LaidOut(b, t, pad, rest)
    ensures HoldsFrame(b, t)
  {
    var n, d, at := |t.operation|, |t.description|, StackSizeAt(|t.operation|);
    RoundUpIsUnique(n, n + |pad|);
    RoundUpIsUnique(d + 1, d + 1 + |rest|);
    hide RoundUp;
    hide U32;
    FieldsOfSum(b, [U32(|b|), U32(n), t.operation, pad, U32(t.stackSize), U32(d), t.description, [0], rest]);
    assert at == 8 + n + |pad| && FrameLength(t) == |b|;
  }

  /** What push leaves is exactly this: the record's length, the operation's length, the
      operation filled up to a multiple of 8, the stack size, the description's length, and
      the description with its NUL, filled up again. */
  lemma FrameIsLaidOut(b: seq<byte>, t: Task)
    ensures HoldsFrame(b, t) <==> exists pad, rest :: LaidOut(b, t, pad, rest)
  {
    hide LaidOut;
    if HoldsFrame(b, t) {
      FrameSplits(b, t);
    }
    hide HoldsFrame;
    if pad, rest :| LaidOut(b, t, pad, rest) {
      SumIsFrame(b, t, pad, rest);
    }
  }

  // ------------------------------------------------------------------ reading

  // What a `char const *` handed to a string_view denotes: the bytes before the first NUL.
  function CString(b: seq<byte>, at: nat): seq<byte>
    decreases |b| - at
  {
    if at >= |b| || b[at] == 0 then [] else [b[at]] + CString(b, at + 1)
  }

  // The bytes of `d` before its first NUL.
  function UpToNul(d: seq<byte>): seq<byte> {
    if d == [] || d[0] == 0 then [] else [d[0]] + UpToNul(d[1..])
  }

  lemma {:induction false} UpToNulIsAll(d: seq<byte>)
    ensures UpToNul(d) == d <==> 0 !in d
    ensures |UpToNul(d)| <= |d|
  {
    if d != [] && d[0] != 0 {
      UpToNulIsAll(d[1..]);
      assert d == [d[0]] + d[1..];
      assert UpToNul(d) == d ==> UpToNul(d)[1..] == d[1..];
    }
  }

  lemma {:induction false} CStringReadsUpToNul(b: seq<byte>, at: nat, d: seq<byte>)
    requires at + |d| < |b| && b[at..at + |d|] == d && b[at + |d|] == 0
    ensures CString(b, at) == UpToNul(d)
    decreases |d|
  {
    if d != [] {
      assert b[at] == d[0];
      assert b[at + 1..at + 1 + |d[1..]|] == d[1..];
      CStringReadsUpToNul(b, at + 1, d[1..]);
    }
  }

  /** The fields of the record at `base`, as pop computes them: the description length
      is read where the operation length is, and then only compared with 0. */
  datatype Record = Record(length: nat, operation: seq<byte>, stackSize: nat, description: seq<byte>)

  predicate Readable(b: seq<byte>, base: nat) {
    && base + 8 <= |b|
    && var n := FromU32(b[base + 4..base + 8]);
       base + DescriptionAt(n) <= |b| && base + OPERATION_AT + n <= |b|
  }

  function ReadRecord(b: seq<byte>, base: nat): Record
    requires Readable(b, base)
  {
    var n := FromU32(b[base + 4..base + 8]);
    var stackAt := base + StackSizeAt(n);
    Record(FromU32(b[base..base + 4]),
           b[base + OPERATION_AT..base + OPERATION_AT + n],
           FromU32(b[stackAt..stackAt + 4]),
           if n > 0 then CString(b, base + DescriptionAt(n)) else [])
  }

  lemma SliceOfSlice(b: seq<byte>, base: nat, end: nat, i: nat, j: nat)
    requires base <= end <= |b| && i <= j <= end - base
    ensures b[base..end][i..j] == b[base + i..base + j]
  {
    var l, r := b[base..end][i..j], b[base + i..base + j];
    assert |l| == |r|;
    assert forall k | 0 <= k < |l| :: l[k] == b[base + i + k] == r[k];
  }

  // The frame of `t` lies at `base`, seen through the whole buffer.
  ghost predicate FrameAt(b: seq<byte>, base: nat, t: Task) {
    var n, at := |t.operation|, base + DescriptionAt(|t.operation|);
    && base + OPERATION_AT + n <= at - 8
    && at + |t.description| < base + FrameLength(t) <= |b|
    && b[base..base + 4] == U32(FrameLength(t))
    && b[base + 4..base + 8] == U32(n)
    && b[base + OPERATION_AT..base + OPERATION_AT + n] == t.operation
    && b[at - 8..at - 4] == U32(t.stackSize)
    && b[at - 4..at] == U32(|t.description|)
    && b[at..at + |t.description|] == t.description
    && b[at + |t.description|] == 0
  }

  lemma FrameInPlace(b: seq<byte>, base: nat, t: Task)
    requires base + FrameLength(t) <= |b|
    ensures HoldsFrame(b[base..base + FrameLength(t)], t) <==> FrameAt(b, base, t)
  {
    hide RoundUp;
    hide U32;
    hide FrameLength;
    hide StackSizeAt;
    var end, n, d := base + FrameLength(t), |t.operation|, |t.description|;
    var stackAt, descriptionAt := StackSizeAt(n), DescriptionAt(n);
    if OPERATION_AT + n <= stackAt && descriptionAt + d < FrameLength(t) {
      SliceOfSlice(b, base, end, 0, 4);
      SliceOfSlice(b, base, end, 4, 8);
      SliceOfSlice(b, base, end, OPERATION_AT, OPERATION_AT + n);
      SliceOfSlice(b, base, end, stackAt, stackAt + 4);
      SliceOfSlice(b, base, end, stackAt + 4, stackAt + 8);
      SliceOfSlice(b, base, end, descriptionAt, descriptionAt + d);
      assert b[base + descriptionAt + d] == b[base..end][descriptionAt + d];
    }
  }

  /** Round trip.  A record read back where a frame was written has the frame's length
      and operation, the stack size modulo 2^32 and the description up to its first NUL. */
  lemma ReadsWhatWasWritten(b: seq<byte>, base: nat, t: Task)
    requires base + FrameLength(t) <= |b| && FrameLength(t) < U32_SIZE && t.operation != []
    requires HoldsFrame(b[base..base + FrameLength(t)], t)
    ensures Readable(b, base)
    ensures ReadRecord(b, base) == Record(FrameLength(t), t.operation, t.stackSize % U32_SIZE, UpToNul(t.description))
  {
    hide RoundUp;
    hide U32;
    hide FromU32;
    hide FrameLength;
    hide HoldsFrame;
    hide CString;
    hide UpToNul;
    FrameInPlace(b, base, t);
    LongerThanOperation(t);
    U32RoundTrip(FrameLength(t));
    U32RoundTrip(|t.operation|);
    U32RoundTrip(t.stackSize);
    CStringReadsUpToNul(b, base + DescriptionAt(|t.operation|), t.description);
  }

  lemma LongerThanOperation(t: Task)
    ensures |t.operation| < FrameLength(t)
  {
  }

  // The task comes back exactly as it was pushed if and only if its stack size fits 32 bits and its description has no NUL.
  lemma RoundTripExact(t: Task)
    ensures Record(FrameLength(t), t.operation, t.stackSize % U32_SIZE, UpToNul(t.description))
            == Record(FrameLength(t), t.operation, t.stackSize, t.description)
            <==> t.stackSize < U32_SIZE && 0 !in t.description
  {
    UpToNulIsAll(t.description);
  }
}
