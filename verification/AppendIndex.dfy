/** AppendOnlyArray's index arithmetic: 32 buckets, each twice as long as the one before. */
module AppendIndex {

  const BUCKETS := 32

  const BUCKET_SIZE: seq<nat> := [
    0x1,        0x2,        0x4,        0x8,
    0x10,       0x20,       0x40,       0x80,
    0x100,      0x200,      0x400,      0x800,
    0x1000,     0x2000,     0x4000,     0x8000,
    0x10000,    0x20000,    0x40000,    0x80000,
    0x100000,   0x200000,   0x400000,   0x800000,
    0x1000000,  0x2000000,  0x4000000,  0x8000000,
    0x10000000, 0x20000000, 0x40000000, 0x80000000]

  const BUCKET_SIZE_SUM: seq<nat> := [
    0x1,        0x3,        0x7,        0xF,
    0x1F,       0x3F,       0x7F,       0xFF,
    0x1FF,      0x3FF,      0x7FF,      0xFFF,
    0x1FFF,     0x3FFF,     0x7FFF,     0xFFFF,
    0x1FFFF,    0x3FFFF,    0x7FFFF,    0xFFFFF,
    0x1FFFFF,   0x3FFFFF,   0x7FFFFF,   0xFFFFFF,
    0x1FFFFFF,  0x3FFFFFF,  0x7FFFFFF,  0xFFFFFFF,
    0x1FFFFFFF, 0x3FFFFFFF, 0x7FFFFFFF, 0xFFFFFFFF]

  function BucketSize(k: nat): nat
    requires k < BUCKETS
  {
    BUCKET_SIZE[k]
  }

  function BucketSizeSum(k: nat): nat
    requires k < BUCKETS
  {
    BUCKET_SIZE_SUM[k]
  }

  function Pow2(n: nat): (r: nat)
    ensures r > 0
  {
    if n == 0 then 1 else 2 * Pow2(n - 1)
  }

  // The zeros before the first one in a word of `width` bits, as __builtin_clzll counts them in 64.
  function LeadingZeros(x: nat, width: nat): (r: nat)
    ensures r <= width
  {
    if width == 0 || x >= Pow2(width - 1) then 0 else 1 + LeadingZeros(x, width - 1)
  }

  function Log2(x: nat): int { 8 * 8 - LeadingZeros(x, 64) - 1 }

  function ArrayIndex(index: nat): int { Log2(index + 1) }

  // The bucket and the offset in it, as emplace and at compute them.
  function Locate(index: nat): (int, int)
    requires 0 <= ArrayIndex(index) <= BUCKETS
  {
    var bucket := ArrayIndex(index);
    (bucket, if bucket > 0 then index - BucketSizeSum(bucket - 1) else index)
  }

  lemma {:induction false} LeadingZerosBounds(x: nat, width: nat)
    requires 0 < x < Pow2(width)
    ensures LeadingZeros(x, width) < width
    ensures Pow2(width - 1 - LeadingZeros(x, width)) <= x < Pow2(width - LeadingZeros(x, width))
  {
    if x < Pow2(width - 1) {
      LeadingZerosBounds(x, width - 1);
    }
  }

  lemma {:induction false} Pow2Monotone(a: nat, b: nat)
    requires a <= b
    ensures Pow2(a) <= Pow2(b)
    decreases b
  {
    if a < b {
      Pow2Monotone(a, b - 1);
    }
  }

  /** _log2 is the logarithm, rounded down, of every word but zero. */
  lemma Log2IsLogarithm(x: nat, n: nat)
    requires 0 < x < Pow2(64)
    ensures Log2(x) == n <==> Pow2(n) <= x < Pow2(n + 1)
  {
    hide Pow2;
    hide LeadingZeros;
    LeadingZerosBounds(x, 64);
    var m := 63 - LeadingZeros(x, 64);
    if n < m {
      Pow2Monotone(n + 1, m);
    } else if m < n {
      Pow2Monotone(m + 1, n);
    }
  }

  lemma SizesDouble(k: nat)
    requires 0 < k < BUCKETS
    ensures BucketSize(k) == 2 * BucketSize(k - 1)
  {
  }

  lemma SumsDouble(k: nat)
    requires 0 < k < BUCKETS
    ensures BucketSizeSum(k) == 2 * BucketSizeSum(k - 1) + 1
  {
  }

  lemma Pow2Next(n: nat)
    ensures Pow2(n + 1) == 2 * Pow2(n)
  {
  }

  lemma TablesStart()
    ensures BucketSize(0) == 1 == Pow2(0) && BucketSizeSum(0) == 1 == Pow2(1) - 1
  {
  }

  /** The tables are the powers of two and their sums. */
  lemma {:induction false} TablesArePowers(k: nat)
    requires k < BUCKETS
    ensures BucketSize(k) == Pow2(k) && BucketSizeSum(k) == Pow2(k + 1) - 1
  {
    hide BucketSize;
    hide BucketSizeSum;
    hide Pow2;
    if k == 0 {
      TablesStart();
    } else {
      TablesArePowers(k - 1);
      SizesDouble(k);
      SumsDouble(k);
      Pow2Next(k - 1);
      Pow2Next(k);
    }
  }

  // How many elements the tables have room for.
  const CAPACITY: nat := 0xFFFF_FFFF

  lemma CapacityIsTheSum()
    ensures BucketSizeSum(BUCKETS - 1) == CAPACITY == Pow2(BUCKETS) - 1 && CAPACITY + 1 < Pow2(64)
  {
    hide Pow2;
    TablesArePowers(BUCKETS - 1);
    Pow2Monotone(BUCKETS + 1, 64);
    Pow2Next(BUCKETS);
  }

  /** The array's bucket table holds an index exactly below 2^32 - 1. */
  lemma CapacityIsExact(index: nat)
    requires index + 1 < Pow2(64)
    ensures 0 <= ArrayIndex(index)
    ensures ArrayIndex(index) < BUCKETS <==> index < CAPACITY
  {
    hide Pow2;
    hide LeadingZeros;
    hide BucketSizeSum;
    CapacityIsTheSum();
    LeadingZerosBounds(index + 1, 64);
    var n := ArrayIndex(index);
    Log2IsLogarithm(index + 1, n);
    if n < BUCKETS {
      Pow2Monotone(n + 1, BUCKETS);
    } else {
      Pow2Monotone(BUCKETS, n);
    }
  }

  /** Where an element is, the other way round. */
  function IndexOf(bucket: nat, offset: nat): nat { Pow2(bucket) - 1 + offset }

  /** Every index below the capacity has a slot of its own: a bucket, and a place within it. */
  lemma LocateIsASlot(index: nat)
    requires index < CAPACITY
    ensures 0 <= ArrayIndex(index) < BUCKETS
    ensures var (bucket, offset) := Locate(index);
            0 <= bucket < BUCKETS && 0 <= offset < BucketSize(bucket) && IndexOf(bucket, offset) == index
  {
    hide Pow2;
    hide LeadingZeros;
    hide BucketSize;
    hide BucketSizeSum;
    CapacityIsTheSum();
    CapacityIsExact(index);
    var n := ArrayIndex(index);
    Log2IsLogarithm(index + 1, n);
    TablesArePowers(n);
    Pow2Next(n);
    if n > 0 {
      TablesArePowers(n - 1);
    } else {
      TablesStart();
    }
  }

  /** And every slot of every bucket is some index's. */
  lemma SlotIsLocated(bucket: nat, offset: nat)
    requires bucket < BUCKETS && offset < BucketSize(bucket)
    ensures IndexOf(bucket, offset) < CAPACITY
    ensures var index := IndexOf(bucket, offset);
            0 <= ArrayIndex(index) < BUCKETS && Locate(index) == (bucket, offset)
  {
    hide Pow2;
    hide LeadingZeros;
    hide BucketSize;
    hide BucketSizeSum;
    var index := IndexOf(bucket, offset);
    CapacityIsTheSum();
    TablesArePowers(bucket);
    Pow2Next(bucket);
    if bucket > 0 {
      TablesArePowers(bucket - 1);
    } else {
      TablesStart();
    }
    Pow2Monotone(bucket + 1, BUCKETS);
    Log2IsLogarithm(index + 1, bucket);
  }
}
