/**
 AppendOnlyArray: any number of threads append; elements never move.  `AppendProtocol` has
 the atomic steps of emplace in any interleaving, and the class below it the same code run
 by one thread.  No more than 2^32 - 1 elements are ever added.
 */
module AppendProtocol {
  import opened AppendIndex

  const NULL := -1

  // A thread inside emplace: its index, its value, and the array it allocated or found.
  datatype PC<T> =
    | Idle
    | LoadBucket(i: nat, v: T)
    | SetBucket(i: nat, v: T, own: int)
    | Store(i: nat, v: T, found: int)
    | Publish(i: nat, v: T)     // waits for its turn
    | StoreSize(i: nat, v: T)
  {
    // The index the thread has claimed and not published.
    function Claimed(): int { if Idle? then NULL else i }
  }

  // What an allocated array is: not yet shown to anybody, a bucket, or deleted again.
  datatype Use = Private(thread: nat) | Bucket(b: nat) | Deleted

  datatype State<T> = State(
    index: nat, size: nat, buckets: seq<int>, arrays: seq<seq<T>>, threads: seq<PC<T>>, blank: T,
    // history: what each index was claimed for, and by whom, and what each array became
    values: seq<T>, owner: seq<nat>, use: seq<Use>)

  datatype Action<T> = Emplace(t: nat, v: T) | Advance(t: nat)

  function Initial<T>(threads: nat, blank: T): State<T> {
    State(0, 0, seq(BUCKETS, _ => NULL), [], seq(threads, _ => Idle), blank, [], [], [])
  }

  function SlotOf(index: nat): (r: (nat, nat))
    requires index < CAPACITY
    ensures r.0 < BUCKETS && r.1 < BucketSize(r.0)
  {
    LocateIsASlot(index);
    Locate(index)
  }

  lemma SlotsDiffer(i: nat, j: nat)
    requires i < CAPACITY && j < CAPACITY
    ensures SlotOf(i) == SlotOf(j) ==> i == j
  {
    LocateIsASlot(i);
    LocateIsASlot(j);
  }

  predicate Sane<T>(s: State<T>) {
    && |s.buckets| == BUCKETS && |s.use| == |s.arrays|
    && forall t :: 0 <= t < |s.threads| ==> s.threads[t].Claimed() < CAPACITY
  }

  function Go<T>(s: State<T>, t: nat, pc: PC<T>): State<T>
    requires t < |s.threads|
  {
    s.(threads := s.threads[t := pc])
  }

  // The load of the bucket; if there is none, the array to put there.
  function Load<T>(s: State<T>, t: nat, i: nat, v: T): State<T>
    requires t < |s.threads| && |s.buckets| == BUCKETS && i < CAPACITY
  {
    var b := SlotOf(i).0;
    if s.buckets[b] == NULL
    then Go(s, t, SetBucket(i, v, |s.arrays|)).(arrays := s.arrays + [seq(BucketSize(b), _ => s.blank)], use := s.use + [Private(t)])
    else Go(s, t, Store(i, v, s.buckets[b]))
  }

  // The CAS on the bucket; who loses deletes its array and takes the winner's.
  function Swap<T>(s: State<T>, t: nat, i: nat, v: T, own: int): State<T>
    requires t < |s.threads| && |s.buckets| == BUCKETS && i < CAPACITY
  {
    var b := SlotOf(i).0;
    if s.buckets[b] == NULL
    then Go(s, t, Store(i, v, own)).(buckets := s.buckets[b := own], use := Set(s.use, own, Bucket(b)))
    else Go(s, t, Store(i, v, s.buckets[b])).(use := Set(s.use, own, Deleted))
  }

  function Set<X>(cells: seq<X>, k: int, x: X): (r: seq<X>)
    ensures |r| == |cells|
  {
    if 0 <= k < |cells| then cells[k := x] else cells
  }

  function Put<T>(s: State<T>, t: nat, i: nat, v: T, found: int): State<T>
    requires t < |s.threads| && i < CAPACITY
  {
    Go(s, t, Publish(i, v)).(
      arrays := if 0 <= found < |s.arrays| then s.arrays[found := Set(s.arrays[found], SlotOf(i).1, v)] else s.arrays)
  }

  function Advanced<T>(s: State<T>, t: nat): (r: State<T>)
    requires Sane(s) && t < |s.threads|
    ensures Sane(r)
  {
    match s.threads[t]
    case Idle => s
    case LoadBucket(i, v) => assert s.threads[t].Claimed() == i; Load(s, t, i, v)
    case SetBucket(i, v, own) => assert s.threads[t].Claimed() == i; Swap(s, t, i, v, own)
    case Store(i, v, found) => assert s.threads[t].Claimed() == i; Put(s, t, i, v, found)
    case Publish(i, v) =>
      assert s.threads[t].Claimed() == i;
      if s.size == i then Go(s, t, StoreSize(i, v)) else s
    case StoreSize(i, _) => Go(s, t, Idle).(size := i + 1)
  }

  function Claim<T>(s: State<T>, t: nat, v: T): State<T>
    requires t < |s.threads|
  {
    Go(s, t, LoadBucket(s.index, v)).(index := s.index + 1, values := s.values + [v], owner := s.owner + [t])
  }

  function Step<T>(s: State<T>, a: Action<T>): (r: State<T>)
    requires Sane(s)
    ensures Sane(r)
  {
    match a
    case Emplace(t, v) =>
      if t < |s.threads| && s.threads[t].Idle? && s.index < CAPACITY then Claim(s, t, v) else s
    case Advance(t) =>
      if t < |s.threads| then Advanced(s, t) else s
  }

  // ------------------------------------------------------------- invariant

  // The slot of index `i` exists and holds the value it was claimed for.
  ghost predicate Written<T>(s: State<T>, i: nat)
    requires |s.buckets| == BUCKETS
  {
    && i < CAPACITY && i < |s.values|
    && var (b, o) := SlotOf(i);
    && 0 <= s.buckets[b] < |s.arrays|
    && o < |s.arrays[s.buckets[b]]|
    && s.arrays[s.buckets[b]][o] == s.values[i]
  }

  ghost predicate BucketOk<T>(s: State<T>, b: nat)
    requires Sane(s)
  {
    b < BUCKETS && s.buckets[b] != NULL ==>
      && 0 <= s.buckets[b] < |s.arrays|
      && |s.arrays[s.buckets[b]]| == BucketSize(b)
      && s.use[s.buckets[b]] == Bucket(b)
  }

  ghost predicate ThreadOk<T>(s: State<T>, t: int)
    requires Sane(s)
  {
    0 <= t < |s.threads| && !s.threads[t].Idle? ==>
      var pc := s.threads[t];
      && s.size <= pc.i < s.index && pc.i < CAPACITY
      && pc.i < |s.values| && s.values[pc.i] == pc.v
      && pc.i < |s.owner| && s.owner[pc.i] == t
      && (pc.SetBucket? ==> 0 <= pc.own < |s.arrays| && s.use[pc.own] == Private(t) && |s.arrays[pc.own]| == BucketSize(SlotOf(pc.i).0))
      && (pc.Store? ==> pc.found != NULL && pc.found == s.buckets[SlotOf(pc.i).0])
      && (pc.Publish? || pc.StoreSize? ==> Written(s, pc.i))
      && (pc.StoreSize? ==> pc.i == s.size)
  }

  // Below `size` an index is published; from there on exactly one thread has it.
  ghost predicate IndexOk<T>(s: State<T>, i: nat)
    requires Sane(s)
  {
    && (i < s.size ==> Written(s, i))
    && (s.size <= i < s.index ==> i < |s.owner| && s.owner[i] < |s.threads| && s.threads[s.owner[i]].Claimed() == i)
  }

  ghost predicate SizesOk<T>(s: State<T>) {
    && s.size <= s.index == |s.values| == |s.owner|
    && s.index <= CAPACITY
  }

  ghost predicate Inv<T>(s: State<T>) {
    && Sane(s) && SizesOk(s)
    && (forall b {:trigger BucketOk(s, b)} :: BucketOk(s, b))
    && (forall t {:trigger ThreadOk(s, t)} :: ThreadOk(s, t))
    && (forall i {:trigger IndexOk(s, i)} :: IndexOk(s, i))
  }

  ghost predicate PartsOk<T>(s: State<T>, b: nat, t: int, i: nat) {
    Sane(s) && SizesOk(s) && BucketOk(s, b) && ThreadOk(s, t) && IndexOk(s, i)
  }

  lemma Parts<T>(s: State<T>, b: nat, t: int, i: nat)
    requires Inv(s)
    ensures PartsOk(s, b, t, i)
  {
  }

  lemma InitialInv<T>(threads: nat, blank: T)
    ensures Inv(Initial(threads, blank))
  {
  }

  lemma ClaimKeeps<T>(s: State<T>, n: nat, v: T, b: nat, t: int, i: nat)
    requires Inv(s) && n < |s.threads| && s.threads[n].Idle? && s.index < CAPACITY
    ensures PartsOk(Claim(s, n, v), b, t, i)
  {
    hide Inv;
    hide SlotOf;
    hide BucketSize;
    Parts(s, b, t, i);
    Parts(s, b, n, i);
  }

  lemma LoadKeeps<T>(s: State<T>, n: nat, b: nat, t: int, i: nat)
    requires Inv(s) && n < |s.threads| && s.threads[n].LoadBucket?
    ensures var pc := s.threads[n];
            Sane(s) && pc.Claimed() < CAPACITY && PartsOk(Load(s, n, pc.i, pc.v), b, t, i)
  {
    hide Inv;
    hide SlotOf;
    hide BucketSize;
    Parts(s, b, t, i);
    Parts(s, b, n, s.threads[n].i);
    Parts(s, SlotOf(s.threads[n].i).0, n, i);
  }

  lemma SwapKeeps<T>(s: State<T>, n: nat, b: nat, t: int, i: nat)
    requires Inv(s) && n < |s.threads| && s.threads[n].SetBucket?
    ensures var pc := s.threads[n];
            Sane(s) && pc.Claimed() < CAPACITY && PartsOk(Swap(s, n, pc.i, pc.v, pc.own), b, t, i)
  {
    hide Inv;
    hide SlotOf;
    hide BucketSize;
    Parts(s, b, t, i);
    Parts(s, b, n, s.threads[n].i);
    Parts(s, SlotOf(s.threads[n].i).0, n, i);
  }

  lemma StoreWrites<T>(s: State<T>, n: nat, j: nat)
    requires Inv(s) && n < |s.threads| && s.threads[n].Store?
    ensures var pc := s.threads[n];
            && Sane(s) && pc.Claimed() < CAPACITY
            && Written(Put(s, n, pc.i, pc.v, pc.found), pc.i)
            && (Written(s, j) ==> Written(Put(s, n, pc.i, pc.v, pc.found), j))
  {
    hide Inv;
    hide SlotOf;
    hide BucketSize;
    Parts(s, 0, n, j);
    var pc := s.threads[n];
    Parts(s, SlotOf(pc.i).0, n, j);
    if j < CAPACITY {
      Parts(s, SlotOf(j).0, n, j);
      SlotsDiffer(j, pc.i);
    }
  }

  lemma PutKeeps<T>(s: State<T>, n: nat, b: nat, t: int, i: nat)
    requires Inv(s) && n < |s.threads| && s.threads[n].Store?
    ensures var pc := s.threads[n];
            Sane(s) && pc.Claimed() < CAPACITY && PartsOk(Put(s, n, pc.i, pc.v, pc.found), b, t, i)
  {
    hide Inv;
    hide SlotOf;
    hide BucketSize;
    Parts(s, b, t, i);
    Parts(s, b, n, s.threads[n].i);
    StoreWrites(s, n, i);
    if 0 <= t < |s.threads| && (s.threads[t].Publish? || s.threads[t].StoreSize?) { StoreWrites(s, n, s.threads[t].i); }
    hide Written;
  }

  lemma PublishKeeps<T>(s: State<T>, n: nat, b: nat, t: int, i: nat)
    requires Inv(s) && n < |s.threads| && s.threads[n].Publish?
    ensures var pc := s.threads[n];
            Sane(s) && pc.Claimed() < CAPACITY && PartsOk(Advanced(s, n), b, t, i)
  {
    hide Inv;
    hide SlotOf;
    hide BucketSize;
    Parts(s, b, t, i);
    Parts(s, b, n, s.threads[n].i);
  }

  lemma StoreSizeKeeps<T>(s: State<T>, n: nat, b: nat, t: int, i: nat)
    requires Inv(s) && n < |s.threads| && s.threads[n].StoreSize?
    ensures var pc := s.threads[n];
            Sane(s) && pc.Claimed() < CAPACITY && PartsOk(Advanced(s, n), b, t, i)
  {
    hide Inv;
    hide SlotOf;
    hide BucketSize;
    Parts(s, b, t, i);
    Parts(s, b, n, s.threads[n].i);
  }

  lemma StepKeeps<T>(s: State<T>, a: Action<T>, b: nat, t: int, i: nat)
    requires Inv(s)
    ensures PartsOk(Step(s, a), b, t, i)
  {
    hide Inv;
    Parts(s, b, t, i);
    hide SizesOk;
    hide BucketOk;
    hide ThreadOk;
    hide IndexOk;
    match a
    case Emplace(n, v) =>
      if n < |s.threads| && s.threads[n].Idle? && s.index < CAPACITY { ClaimKeeps(s, n, v, b, t, i); }
    case Advance(n) =>
      if n < |s.threads| {
        match s.threads[n]
        case Idle =>
        case LoadBucket(_, _) => LoadKeeps(s, n, b, t, i);
        case SetBucket(_, _, _) => SwapKeeps(s, n, b, t, i);
        case Store(_, _, _) => PutKeeps(s, n, b, t, i);
        case Publish(_, _) => PublishKeeps(s, n, b, t, i);
        case StoreSize(_, _) => StoreSizeKeeps(s, n, b, t, i);
      }
  }

  lemma StepKeepsInv<T>(s: State<T>, a: Action<T>)
    requires Inv(s)
    ensures Inv(Step(s, a))
  {
    hide SizesOk;
    hide BucketOk;
    hide ThreadOk;
    hide IndexOk;
    hide Advanced;
    var r := Step(s, a);
    forall b, t, i ensures PartsOk(r, b, t, i) { StepKeeps(s, a, b, t, i); }
    assert PartsOk(r, 0, 0, 0);
    forall b ensures BucketOk(r, b) { assert PartsOk(r, b, 0, 0); }
    forall t ensures ThreadOk(r, t) { assert PartsOk(r, 0, t, 0); }
    forall i ensures IndexOk(r, i) { assert PartsOk(r, 0, 0, i); }
  }

  // ------------------------------------------------------------------ runs

  function Run<T>(threads: nat, blank: T, actions: seq<Action<T>>): (r: State<T>)
    ensures Sane(r)
  {
    if actions == [] then Initial(threads, blank)
    else Step(Run(threads, blank, actions[..|actions| - 1]), actions[|actions| - 1])
  }

  ghost predicate Reachable<T(!new)>(s: State<T>) {
    exists threads: nat, blank: T, actions: seq<Action<T>> :: s == Run(threads, blank, actions)
  }

  lemma {:induction false} RunKeepsInv<T>(threads: nat, blank: T, actions: seq<Action<T>>)
    ensures Inv(Run(threads, blank, actions))
  {
    if actions == [] {
      InitialInv(threads, blank);
    } else {
      RunKeepsInv(threads, blank, actions[..|actions| - 1]);
      StepKeepsInv(Run(threads, blank, actions[..|actions| - 1]), actions[|actions| - 1]);
    }
  }

  lemma ReachableInv<T(!new)>(s: State<T>)
    requires Reachable(s)
    ensures Inv(s)
  {
    var threads: nat, blank: T, actions: seq<Action<T>> :| s == Run(threads, blank, actions);
    RunKeepsInv(threads, blank, actions);
  }

  /** `at`: an index below `size` is in range, and reads the bucket and the offset. */
  function ElementAt<T>(s: State<T>, k: nat): T
    requires k < s.size && Sane(s) && Written(s, k)
  {
    s.arrays[s.buckets[SlotOf(k).0]][SlotOf(k).1]
  }

  /** `_size` is at every moment the length of a prefix of finished elements: each is in its
      slot, and is the value of the emplace that claimed its index. */
  lemma PrefixIsFinished<T(!new)>(s: State<T>, k: nat)
    requires Reachable(s) && k < s.size
    ensures Sane(s) && k < |s.values| && Written(s, k) && ElementAt(s, k) == s.values[k]
  {
    ReachableInv(s);
    assert IndexOk(s, k);
  }

  // No step takes anything back.
  lemma StepGrows<T>(s: State<T>, a: Action<T>, b: nat)
    requires Inv(s)
    ensures var r := Step(s, a);
            && s.values <= r.values && s.size <= r.size && s.index <= r.index
            && (b < BUCKETS && s.buckets[b] != NULL ==> r.buckets[b] == s.buckets[b])
  {
    if a.t < |s.threads| { Parts(s, 0, a.t, 0); }
    hide Inv;
    hide SlotOf;
    hide BucketSize;
  }

  /** For ever: no step changes what a claimed index is for, shortens the prefix, changes a
      published element, or moves a bucket. */
  lemma StepsOnlyAppend<T(!new)>(s: State<T>, a: Action<T>, k: nat, b: nat)
    requires Reachable(s) && Sane(s)
    ensures var r := Step(s, a);
            && s.values <= r.values && s.size <= r.size && s.index <= r.index
            && (k < s.size ==> Written(s, k) && Written(r, k) && k < r.size && ElementAt(r, k) == ElementAt(s, k))
            && (b < BUCKETS && s.buckets[b] != NULL ==> r.buckets[b] == s.buckets[b])
  {
    ReachableInv(s);
    StepKeepsInv(s, a);
    StepGrows(s, a, b);
    hide Inv;
    hide Step;
    Parts(s, 0, 0, k);
    Parts(Step(s, a), 0, 0, k);
  }

  /** emplace returns its own index, which then holds its value. */
  lemma EmplaceReturnsItsIndex<T(!new)>(s: State<T>, t: nat)
    requires Reachable(s) && t < |s.threads| && s.threads[t].StoreSize?
    ensures Sane(s)
    ensures var r, i := Step(s, Advance(t)), s.threads[t].i;
            r.threads[t].Idle? && r.size == i + 1 && Written(r, i) && ElementAt(r, i) == s.threads[t].v
  {
    ReachableInv(s);
    StepKeepsInv(s, Advance(t));
    hide Inv;
    Parts(s, 0, t, 0);
    Parts(Step(s, Advance(t)), 0, t, s.threads[t].i);
  }

  /** No two threads append to the same index. */
  lemma IndicesAreClaimedOnce<T(!new)>(s: State<T>, t: nat, u: nat)
    requires Reachable(s) && t < |s.threads| && u < |s.threads| && t != u && !s.threads[t].Idle?
    ensures s.threads[t].Claimed() != s.threads[u].Claimed()
  {
    ReachableInv(s);
    assert ThreadOk(s, t) && ThreadOk(s, u);
  }

  /** Publication in order does not get stuck: while an index is claimed and not published,
      the thread that has the first such index can go on, and its publishing step succeeds. */
  lemma FirstUnpublishedGoesOn<T(!new)>(s: State<T>) returns (t: nat)
    requires Reachable(s) && s.size < s.index
    ensures Sane(s) && t < |s.threads| && s.threads[t].Claimed() == s.size && Step(s, Advance(t)) != s
    ensures s.threads[t].Publish? ==> Step(s, Advance(t)).threads[t].StoreSize?
    ensures s.threads[t].StoreSize? ==> Step(s, Advance(t)).size == s.size + 1
  {
    ReachableInv(s);
    assert IndexOk(s, s.size);
    t := s.owner[s.size];
    assert ThreadOk(s, t);
    assert !s.threads[t].Idle?;
    assert Step(s, Advance(t)).threads[t] != s.threads[t];
  }
}

module AppendOnlyArrays {
  import opened AppendIndex
  import opened AppendProtocol

  datatype Found<T> = InRange(value: T) | OutOfRange

  class AppendOnlyArray<T(0)> {
    var index: nat
    var size: nat
    const buckets: array<array?<T>>
    ghost var contents: seq<T>
    ghost var repr: set<object>

    ghost predicate BucketOk(b: nat)
      requires b < buckets.Length == BUCKETS
      reads this, buckets
    {
      buckets[b] != null ==>
        && buckets[b] in repr && buckets[b].Length == BucketSize(b)
        && forall c :: b < c < BUCKETS && buckets[c] != null ==> buckets[c] != buckets[b]
    }

    ghost predicate Holds(k: nat, v: T)
      requires buckets.Length == BUCKETS
      reads this, buckets, repr
    {
      && k < CAPACITY
      && var (b, o) := SlotOf(k);
      && buckets[b] != null && buckets[b] in repr && o < buckets[b].Length && buckets[b][o] == v
    }

    ghost predicate Valid()
      reads this, buckets, repr
    {
      && buckets.Length == BUCKETS && this !in repr && buckets !in repr
      && index == size == |contents| <= CAPACITY
      && (forall b: nat {:trigger BucketOk(b)} :: b < BUCKETS ==> BucketOk(b))
      && (forall k: nat {:trigger contents[k]} :: k < |contents| ==> Holds(k, contents[k]))
    }

    constructor ()
      ensures Valid() && contents == [] && fresh(buckets) && repr == {}
    {
      index, size := 0, 0;
      buckets := new array?<T>[BUCKETS](_ => null);
      contents, repr := [], {};
    }

    /** Appends at the end; what is there stays there. */
    method Emplace(v: T) returns (i: nat)
      requires Valid() && |contents| < CAPACITY
      modifies this, buckets, repr
      ensures Valid() && contents == old(contents) + [v] && i == |old(contents)|
      ensures fresh(repr - old(repr))
    {
      hide SlotOf;
      hide BucketSize;
      var (b, o) := SlotOf(index);
      assert BucketOk(b);
      i := index;
      index := index + 1;
      var bucket := buckets[b];
      if bucket == null {
        bucket := new T[BucketSize(b)];
        buckets[b] := bucket;
        repr := repr + {bucket};
      }
      bucket[o] := v;
      size := i + 1;
      contents := contents + [v];
      forall c: nat | c < BUCKETS ensures BucketOk(c) {
        assert old(BucketOk(c));
        assert c < b ==> old(BucketOk(b));
      }
      forall k: nat | k < |contents| ensures Holds(k, contents[k]) {
        SlotsDiffer(k, i);
        assert k < i ==> old(Holds(k, contents[k]));
        assert k < i ==> old(BucketOk(SlotOf(k).0));
      }
    }

    method At(i: nat) returns (r: Found<T>)
      requires Valid()
      ensures r == if i < |contents| then InRange(contents[i]) else OutOfRange
    {
      hide SlotOf;
      if i >= size {
        return OutOfRange;
      }
      var (b, o) := SlotOf(i);
      assert Holds(i, contents[i]);
      r := InRange(buckets[b][o]);
    }
  }
}
