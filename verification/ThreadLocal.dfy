/**
 ObjectScopedThreadLocalStorage: a value for every pair of a thread and an object.
 Objects take an index into the threads' vectors and give it back when they die; threads
 come and go independently.

 Threads are numbered, and a number is not used again.  The members below that take the
 mutex are one step each; `get` works on the calling thread's own vector.
 */
module ThreadLocal {

  // `hasReturn`: a return function was copied into the node.
  datatype Node<T> = Node(owner: nat, value: T, hasReturn: bool)

  // The object's constants: its identity, its index, and which functions it was given.
  datatype Instance = Instance(id: nat, index: nat, hasDefault: bool, hasReturn: bool)

  // One call of a return function.
  datatype Call<T> = Call(thread: nat, id: nat, value: T)

  type Pair = (nat, nat)

  function Count<T>(calls: seq<Call<T>>, pair: Pair): nat {
    if calls == [] then 0
    else
      var last := calls[|calls| - 1];
      Count(calls[..|calls| - 1], pair) + if (last.thread, last.id) == pair then 1 else 0
  }

  lemma CountAppend<T>(calls: seq<Call<T>>, call: Call<T>, pair: Pair)
    ensures Count(calls + [call], pair) == Count(calls, pair) + if (call.thread, call.id) == pair then 1 else 0
  {
    assert (calls + [call])[..|calls|] == calls;
  }

  // -------------------------------------------------------------- indices

  ghost predicate AliveOk(nextId: nat, owners: seq<nat>, alive: map<nat, Instance>, id: nat) {
    id in alive ==>
      && alive[id].id == id && 0 < id < nextId
      && alive[id].index < |owners| && owners[alive[id].index] == id
  }

  ghost predicate IndexOk(available: seq<nat>, owners: seq<nat>, alive: map<nat, Instance>, i: int) {
    0 <= i < |owners| ==>
      if owners[i] == 0 then i in available else owners[i] in alive && alive[owners[i]].index == i
  }

  ghost predicate FreeOk(available: seq<nat>, owners: seq<nat>, k: int) {
    0 <= k < |available| ==>
      && available[k] < |owners| && owners[available[k]] == 0
      && available[k] !in available[..k]
  }

  /** An index is either free, once, or belongs to the one living object that has it. */
  ghost predicate IndicesOk(nextId: nat, available: seq<nat>, owners: seq<nat>, alive: map<nat, Instance>) {
    && 0 < nextId
    && (forall id {:trigger AliveOk(nextId, owners, alive, id)} :: AliveOk(nextId, owners, alive, id))
    && (forall i {:trigger IndexOk(available, owners, alive, i)} :: IndexOk(available, owners, alive, i))
    && (forall k {:trigger FreeOk(available, owners, k)} :: FreeOk(available, owners, k))
  }

  // ---------------------------------------------------------------- slots

  ghost predicate SlotOk<T>(owners: seq<nat>, alive: map<nat, Instance>, begun: set<Pair>, t: nat, i: nat, node: Node<T>) {
    node.owner != 0 ==>
      && i < |owners| && node.owner == owners[i] && node.owner in alive
      && node.hasReturn == alive[node.owner].hasReturn
      && (node.hasReturn ==> (t, node.owner) in begun)
  }

  /** Slot isolation: a node is unowned, or owned by the object its index belongs to now. */
  ghost predicate SlotsOk<T>(owners: seq<nat>, alive: map<nat, Instance>, begun: set<Pair>, locals: map<nat, seq<Node<T>>>) {
    forall t: nat, i: nat {:trigger locals[t][i]} | t in locals && i < |locals[t]| ::
      SlotOk(owners, alive, begun, t, i, locals[t][i])
  }

  // The value of thread `t` for the object is initialised.
  predicate Stored<T>(locals: map<nat, seq<Node<T>>>, t: nat, obj: Instance) {
    t in locals && obj.index < |locals[t]| && locals[t][obj.index].owner == obj.id
  }

  // -------------------------------------------------------------- returns

  ghost predicate PairOk<T>(nextId: nat, alive: map<nat, Instance>, locals: map<nat, seq<Node<T>>>, exited: set<nat>,
                            begun: set<Pair>, calls: seq<Call<T>>, pair: Pair) {
    var (t, id) := pair;
    && (pair in begun ==> 0 < id < nextId && (t in locals || t in exited))
    && (pair in begun && id in alive ==> alive[id].hasReturn && (t in locals ==> Stored(locals, t, alive[id])))
    && Count(calls, pair) == if pair in begun && (id !in alive || t !in locals) then 1 else 0
  }

  /** The return function has been called once for every value initialised by get whose
      object or thread is gone, and for no other. */
  ghost predicate ReturnsOk<T>(nextId: nat, alive: map<nat, Instance>, locals: map<nat, seq<Node<T>>>, exited: set<nat>,
                               begun: set<Pair>, calls: seq<Call<T>>) {
    && locals.Keys !! exited
    && forall pair {:trigger PairOk(nextId, alive, locals, exited, begun, calls, pair)} ::
         PairOk(nextId, alive, locals, exited, begun, calls, pair)
  }

  // --------------------------------------------------------------- create

  lemma ReuseIndex(nextId: nat, available: seq<nat>, owners: seq<nat>, alive: map<nat, Instance>, obj: Instance)
    requires IndicesOk(nextId, available, owners, alive) && obj.id == nextId
    requires available != [] && obj.index == available[|available| - 1]
    ensures obj.index < |owners| && owners[obj.index] == 0
    ensures IndicesOk(nextId + 1, available[..|available| - 1], owners[obj.index := nextId], alive[nextId := obj])
  {
    var last := |available| - 1;
    assert FreeOk(available, owners, last);
    var nextId', available', owners', alive' := nextId + 1, available[..last], owners[obj.index := nextId], alive[nextId := obj];
    forall id ensures AliveOk(nextId', owners', alive', id) { assert AliveOk(nextId, owners, alive, id); }
    forall i ensures IndexOk(available', owners', alive', i) {
      assert IndexOk(available, owners, alive, i);
      assert AliveOk(nextId, owners, alive, nextId);
      assert i in available ==> i in available' || i == obj.index;
    }
    forall k ensures FreeOk(available', owners', k) {
      assert FreeOk(available, owners, k);
      assert 0 <= k < last ==> available'[..k] == available[..k] && available[k] in available';
    }
  }

  lemma NewIndex(nextId: nat, owners: seq<nat>, alive: map<nat, Instance>, obj: Instance)
    requires IndicesOk(nextId, [], owners, alive) && obj.id == nextId && obj.index == |owners|
    ensures IndicesOk(nextId + 1, [], owners + [nextId], alive[nextId := obj])
  {
    var nextId', owners', alive' := nextId + 1, owners + [nextId], alive[nextId := obj];
    forall id ensures AliveOk(nextId', owners', alive', id) { assert AliveOk(nextId, owners, alive, id); }
    forall i ensures IndexOk([], owners', alive', i) {
      assert IndexOk([], owners, alive, i);
      assert AliveOk(nextId, owners, alive, nextId);
    }
  }

  // Giving an unowned index to a new object leaves slots and returns in order.
  lemma CreateKeeps<T>(nextId: nat, owners: seq<nat>, alive: map<nat, Instance>, obj: Instance, locals: map<nat, seq<Node<T>>>,
                       exited: set<nat>, begun: set<Pair>, calls: seq<Call<T>>, owners': seq<nat>)
    requires SlotsOk(owners, alive, begun, locals) && ReturnsOk(nextId, alive, locals, exited, begun, calls)
    requires obj.id == nextId && (nextId in alive ==> false) && 0 < nextId
    requires forall i: nat :: i < |owners| && owners[i] != 0 ==> i < |owners'| && owners'[i] == owners[i]
    requires obj.index < |owners| ==> owners[obj.index] == 0
    ensures SlotsOk(owners', alive[nextId := obj], begun, locals)
    ensures ReturnsOk(nextId + 1, alive[nextId := obj], locals, exited, begun, calls)
    ensures forall t :: !Stored(locals, t, obj)
  {
    var nextId', alive' := nextId + 1, alive[nextId := obj];
    forall t: nat, i: nat | t in locals && i < |locals[t]| ensures SlotOk(owners', alive', begun, t, i, locals[t][i]) {}
    forall pair ensures PairOk(nextId', alive', locals, exited, begun, calls, pair) {
      assert PairOk(nextId, alive, locals, exited, begun, calls, pair);
    }
  }

  // -------------------------------------------------------------- destroy

  function Below(n: nat): (r: set<nat>)
    ensures |r| == n && forall x: nat :: x in r <==> x < n
  {
    if n == 0 then {} else Below(n - 1) + {n - 1}
  }

  function Elements(xs: seq<nat>): (r: set<nat>)
    ensures forall x :: x in r <==> x in xs
  {
    if xs == [] then {} else Elements(xs[..|xs| - 1]) + {xs[|xs| - 1]}
  }

  lemma {:induction false} DistinctSize(xs: seq<nat>)
    requires forall k :: 0 <= k < |xs| ==> xs[k] !in xs[..k]
    ensures |Elements(xs)| == |xs|
  {
    if xs != [] {
      var rest := xs[..|xs| - 1];
      forall k | 0 <= k < |rest| ensures rest[k] !in rest[..k] {
        assert rest[..k] == xs[..k];
      }
      DistinctSize(rest);
    }
  }

  lemma {:induction false} SubsetSize(a: set<nat>, b: set<nat>)
    requires a <= b
    ensures |a| <= |b|
  {
    if x :| x in a {
      SubsetSize(a - {x}, b - {x});
    }
  }

  /** As many free indices as indices: nobody owns one. */
  lemma AllFree(nextId: nat, available: seq<nat>, owners: seq<nat>, alive: map<nat, Instance>)
    requires IndicesOk(nextId, available, owners, alive) && |available| == |owners|
    ensures alive == map[]
  {
    if id :| id in alive {
      assert AliveOk(nextId, owners, alive, id);
      var i := alive[id].index;
      forall k | 0 <= k < |available| ensures available[k] < |owners| && available[k] != i && available[k] !in available[..k] {
        assert FreeOk(available, owners, k);
      }
      DistinctSize(available);
      SubsetSize(Elements(available) + {i}, Below(|owners|));
      assert false;
    }
  }

  lemma ReturnIndex(nextId: nat, available: seq<nat>, owners: seq<nat>, alive: map<nat, Instance>, id: nat)
    requires IndicesOk(nextId, available, owners, alive) && id in alive
    ensures alive[id].index < |owners|
    ensures var i := alive[id].index; IndicesOk(nextId, available + [i], owners[i := 0], alive - {id})
  {
    assert AliveOk(nextId, owners, alive, id);
    var i := alive[id].index;
    var available', owners', alive' := available + [i], owners[i := 0], alive - {id};
    forall j ensures AliveOk(nextId, owners', alive', j) { assert AliveOk(nextId, owners, alive, j); }
    forall j ensures IndexOk(available', owners', alive', j) { assert IndexOk(available, owners, alive, j); }
    forall k ensures FreeOk(available', owners', k) {
      assert FreeOk(available, owners, k);
      assert 0 <= k < |available| ==> available'[..k] == available[..k];
      assert k == |available| ==> available'[..k] == available;
      forall x | x in available ensures x != i {
        var n :| 0 <= n < |available| && available[n] == x;
        assert FreeOk(available, owners, n);
      }
    }
  }

  // `after` is `locals` with the object's node given up in the threads of `done`.
  ghost predicate GivenUp<T>(locals: map<nat, seq<Node<T>>>, after: map<nat, seq<Node<T>>>, obj: Instance, done: set<nat>) {
    && after.Keys == locals.Keys
    && forall t | t in locals ::
         && |after[t]| == |locals[t]|
         && (t in done && Stored(locals, t, obj) ==>
               && after[t][obj.index].owner == 0
               && (!obj.hasReturn ==> after[t][obj.index].value == locals[t][obj.index].value))
         && (forall i | 0 <= i < |locals[t]| && !(t in done && i == obj.index && Stored(locals, t, obj)) :: after[t][i] == locals[t][i])
  }

  // `after` has, beyond `calls`, one call for each of the object's values in the threads of `done`.
  ghost predicate Returned<T>(locals: map<nat, seq<Node<T>>>, calls: seq<Call<T>>, after: seq<Call<T>>, obj: Instance, done: set<nat>) {
    && calls <= after
    && (forall k | |calls| <= k < |after| ::
          after[k].id == obj.id && Stored(locals, after[k].thread, obj) && after[k].value == locals[after[k].thread][obj.index].value)
    && (forall pair: Pair :: Count(after, pair) ==
          Count(calls, pair) + if pair.1 == obj.id && pair.0 in done && Stored(locals, pair.0, obj) && obj.hasReturn then 1 else 0)
  }

  lemma DestroyKeeps<T>(nextId: nat, available: seq<nat>, owners: seq<nat>, alive: map<nat, Instance>, obj: Instance,
                        locals: map<nat, seq<Node<T>>>, after: map<nat, seq<Node<T>>>, exited: set<nat>, begun: set<Pair>,
                        calls: seq<Call<T>>, calls': seq<Call<T>>)
    requires IndicesOk(nextId, available, owners, alive) && SlotsOk(owners, alive, begun, locals)
    requires ReturnsOk(nextId, alive, locals, exited, begun, calls)
    requires obj.id in alive && alive[obj.id] == obj && obj.index < |owners|
    requires GivenUp(locals, after, obj, locals.Keys) && Returned(locals, calls, calls', obj, locals.Keys)
    ensures SlotsOk(owners[obj.index := 0], alive - {obj.id}, begun, after)
    ensures ReturnsOk(nextId, alive - {obj.id}, after, exited, begun, calls')
  {
    var owners', alive' := owners[obj.index := 0], alive - {obj.id};
    assert AliveOk(nextId, owners, alive, obj.id);
    forall t: nat, i: nat | t in after && i < |after[t]| ensures SlotOk(owners', alive', begun, t, i, after[t][i]) {
      assert SlotOk(owners, alive, begun, t, i, locals[t][i]);
      assert IndexOk(available, owners, alive, i);
    }
    forall pair: Pair ensures PairOk(nextId, alive', after, exited, begun, calls', pair) {
      assert PairOk(nextId, alive, locals, exited, begun, calls, pair);
      var (t, id) := pair;
      assert AliveOk(nextId, owners, alive, id);
      assert t in locals && obj.index < |locals[t]| ==> SlotOk(owners, alive, begun, t, obj.index, locals[t][obj.index]);
    }
  }

  lemma NothingReturned<T>(locals: map<nat, seq<Node<T>>>, calls: seq<Call<T>>, obj: Instance)
    ensures Returned(locals, calls, calls, obj, {}) && GivenUp(locals, locals, obj, {})
  {
  }

  lemma ReturnedMore<T>(locals: map<nat, seq<Node<T>>>, calls: seq<Call<T>>, after: seq<Call<T>>, obj: Instance, done: set<nat>, t: nat)
    requires Returned(locals, calls, after, obj, done) && t !in done
    ensures if Stored(locals, t, obj) && obj.hasReturn
            then Returned(locals, calls, after + [Call(t, obj.id, locals[t][obj.index].value)], obj, done + {t})
            else Returned(locals, calls, after, obj, done + {t})
  {
    if Stored(locals, t, obj) && obj.hasReturn {
      var call := Call(t, obj.id, locals[t][obj.index].value);
      forall pair: Pair ensures Count(after + [call], pair) == Count(after, pair) + if (t, obj.id) == pair then 1 else 0 {
        CountAppend(after, call, pair);
      }
    }
  }

  // With nobody alive every node is unowned, and the indices can start from zero again.
  lemma StartAgain<T>(nextId: nat, owners: seq<nat>, begun: set<Pair>, locals: map<nat, seq<Node<T>>>)
    requires 0 < nextId && SlotsOk(owners, map[], begun, locals)
    ensures IndicesOk(nextId, [], [], map[]) && SlotsOk([], map[], begun, locals)
  {
    forall t: nat, i: nat | t in locals && i < |locals[t]| ensures SlotOk([], map[], begun, t, i, locals[t][i]) {
      assert SlotOk(owners, map[], begun, t, i, locals[t][i]);
    }
  }

  // ------------------------------------------------------------------ get

  lemma GetKeeps<T>(nextId: nat, available: seq<nat>, owners: seq<nat>, alive: map<nat, Instance>, obj: Instance, t: nat,
                    locals: map<nat, seq<Node<T>>>, v: seq<Node<T>>, exited: set<nat>, begun: set<Pair>, calls: seq<Call<T>>)
    requires IndicesOk(nextId, available, owners, alive) && SlotsOk(owners, alive, begun, locals)
    requires ReturnsOk(nextId, alive, locals, exited, begun, calls)
    requires obj.id in alive && alive[obj.id] == obj && t !in exited
    requires obj.index < |v| && v[obj.index].owner == obj.id && v[obj.index].hasReturn == obj.hasReturn
    requires forall i: nat :: i < |v| && i != obj.index ==>
               v[i] == if t in locals && i < |locals[t]| then locals[t][i] else v[i].(owner := 0)
    requires t in locals ==> |locals[t]| <= |v|
    ensures var begun' := if obj.hasReturn then begun + {(t, obj.id)} else begun;
            && SlotsOk(owners, alive, begun', locals[t := v])
            && ReturnsOk(nextId, alive, locals[t := v], exited, begun', calls)
    ensures !Stored(locals, t, obj) ==> (t, obj.id) !in begun
  {
    var begun', locals' := if obj.hasReturn then begun + {(t, obj.id)} else begun, locals[t := v];
    assert AliveOk(nextId, owners, alive, obj.id);
    forall u: nat, i: nat | u in locals' && i < |locals'[u]| ensures SlotOk(owners, alive, begun', u, i, locals'[u][i]) {
      assert u in locals && i < |locals[u]| ==> SlotOk(owners, alive, begun, u, i, locals[u][i]);
    }
    forall pair: Pair ensures PairOk(nextId, alive, locals', exited, begun', calls, pair) {
      assert PairOk(nextId, alive, locals, exited, begun, calls, pair);
      assert PairOk(nextId, alive, locals, exited, begun, calls, (t, obj.id));
      assert AliveOk(nextId, owners, alive, pair.1);
    }
    assert PairOk(nextId, alive, locals, exited, begun, calls, (t, obj.id));
  }

  // ----------------------------------------------------------------- exit

  // The call that thread `t`'s exit owes the pair, having looked at nodes below `i`.
  ghost predicate Flushed<T>(alive: map<nat, Instance>, locals: map<nat, seq<Node<T>>>, t: nat, i: nat, pair: Pair) {
    && pair.0 == t && pair.1 in alive && alive[pair.1].index < i
    && Stored(locals, t, alive[pair.1]) && alive[pair.1].hasReturn
  }

  // A call made by the exit of thread `t`: for one of its objects, with the value it had.
  ghost predicate LeftBy<T>(alive: map<nat, Instance>, locals: map<nat, seq<Node<T>>>, t: nat, call: Call<T>) {
    && call.thread == t && call.id in alive
    && Stored(locals, t, alive[call.id]) && call.value == locals[t][alive[call.id].index].value
  }

  lemma FlushNone<T>(alive: map<nat, Instance>, locals: map<nat, seq<Node<T>>>, t: nat)
    ensures forall pair: Pair :: !Flushed(alive, locals, t, 0, pair)
  {
  }

  lemma FlushNext<T>(nextId: nat, available: seq<nat>, owners: seq<nat>, alive: map<nat, Instance>, begun: set<Pair>,
                     locals: map<nat, seq<Node<T>>>, t: nat, i: nat, calls: seq<Call<T>>, after: seq<Call<T>>)
    requires IndicesOk(nextId, available, owners, alive) && SlotsOk(owners, alive, begun, locals)
    requires t in locals && i < |locals[t]| && i < |owners|
    requires forall pair: Pair :: Count(after, pair) == Count(calls, pair) + if Flushed(alive, locals, t, i, pair) then 1 else 0
    ensures var node := locals[t][i];
            var call := Call(t, node.owner, node.value);
            var owed := node.hasReturn && node.owner != 0 && owners[i] == node.owner;
            var after' := if owed then after + [call] else after;
            && (owed ==> LeftBy(alive, locals, t, call))
            && forall pair: Pair :: Count(after', pair) == Count(calls, pair) + if Flushed(alive, locals, t, i + 1, pair) then 1 else 0
  {
    var node := locals[t][i];
    assert SlotOk(owners, alive, begun, t, i, node);
    assert IndexOk(available, owners, alive, i);
    assert AliveOk(nextId, owners, alive, node.owner);
    forall pair: Pair
      ensures Flushed(alive, locals, t, i + 1, pair) <==>
                Flushed(alive, locals, t, i, pair) || (node.hasReturn && node.owner != 0 && owners[i] == node.owner && pair == (t, node.owner))
    {
      assert AliveOk(nextId, owners, alive, pair.1);
    }
    forall pair: Pair { CountAppend(after, Call(t, node.owner, node.value), pair); }
  }

  lemma ExitKeeps<T>(nextId: nat, available: seq<nat>, owners: seq<nat>, alive: map<nat, Instance>, t: nat, n: nat,
                     locals: map<nat, seq<Node<T>>>, exited: set<nat>, begun: set<Pair>, calls: seq<Call<T>>, calls': seq<Call<T>>)
    requires IndicesOk(nextId, available, owners, alive) && SlotsOk(owners, alive, begun, locals)
    requires ReturnsOk(nextId, alive, locals, exited, begun, calls) && t in locals
    requires n == |locals[t]| || n == |owners|
    requires forall pair: Pair :: Count(calls', pair) == Count(calls, pair) + if Flushed(alive, locals, t, n, pair) then 1 else 0
    ensures SlotsOk(owners, alive, begun, locals - {t})
    ensures ReturnsOk(nextId, alive, locals - {t}, exited + {t}, begun, calls')
  {
    forall u: nat, i: nat | u in locals - {t} && i < |locals[u]| ensures SlotOk(owners, alive, begun, u, i, locals[u][i]) {}
    var locals', exited' := locals - {t}, exited + {t};
    forall pair: Pair ensures PairOk(nextId, alive, locals', exited', begun, calls', pair) {
      assert PairOk(nextId, alive, locals, exited, begun, calls, pair);
      assert AliveOk(nextId, owners, alive, pair.1);
      if pair.1 in alive {
        var i := alive[pair.1].index;
        assert i < |locals[t]| ==> SlotOk(owners, alive, begun, t, i, locals[t][i]);
      }
    }
  }

  // --------------------------------------------------------------- storage

  class Storage<T(0)> {
    const blank: T                         // a default-constructed value
    var nextId: nat
    var available: seq<nat>
    var owners: seq<nat>
    var locals: map<nat, seq<Node<T>>>
    var calls: seq<Call<T>>                // of return functions, in order
    ghost var alive: map<nat, Instance>
    ghost var exited: set<nat>
    ghost var begun: set<Pair>             // the values initialised by get for an object with a return function

    ghost predicate Valid()
      reads this
    {
      && IndicesOk(nextId, available, owners, alive)
      && SlotsOk(owners, alive, begun, locals)
      && ReturnsOk(nextId, alive, locals, exited, begun, calls)
    }

    constructor (blank: T)
      ensures Valid() && alive == map[] && locals == map[] && calls == [] && exited == {} && begun == {}
      ensures this.blank == blank && available == [] && owners == []
    {
      this.blank := blank;
      nextId, available, owners, locals, calls := 1, [], [], map[], [];
      alive, exited, begun := map[], {}, {};
    }

    // The index to reuse is the one given back last.
    method GetIndex(id: nat) returns (index: nat)
      requires available != [] ==> available[|available| - 1] < |owners|
      modifies this`available, this`owners
      ensures if old(available) == [] then
                index == |old(owners)| && owners == old(owners) + [id] && available == []
              else
                && index == old(available[|available| - 1])
                && available == old(available[..|available| - 1])
                && owners == old(owners)[index := id]
    {
      if available != [] {
        index := available[|available| - 1];
        available := available[..|available| - 1];
        owners := owners[index := id];
      } else {
        index := |owners|;
        owners := owners + [id];
      }
    }

    /** A new object starts without a value in any thread, whoever had its index before. */
    method Create(hasDefault: bool, hasReturn: bool) returns (obj: Instance)
      requires Valid()
      modifies this
      ensures Valid()
      ensures obj.id !in old(alive) && alive == old(alive)[obj.id := obj]
      ensures obj.hasDefault == hasDefault && obj.hasReturn == hasReturn
      ensures locals == old(locals) && calls == old(calls) && exited == old(exited) && begun == old(begun)
      ensures forall t :: !Stored(locals, t, obj)
      ensures obj.index == if old(available) == [] then |old(owners)| else old(available[|available| - 1])
      ensures old(available) == [] ==> available == [] && |owners| == |old(owners)| + 1
    {
      var id := nextId;
      assert AliveOk(nextId, owners, alive, id);
      assert FreeOk(available, owners, |available| - 1);
      var index := GetIndex(id);
      obj := Instance(id, index, hasDefault, hasReturn);
      nextId := nextId + 1;
      alive := alive[id := obj];
      if old(available) == [] {
        NewIndex(id, old(owners), old(alive), obj);
      } else {
        ReuseIndex(id, old(available), old(owners), old(alive), obj);
      }
      CreateKeeps(id, old(owners), old(alive), obj, locals, exited, begun, calls, owners);
    }

    // What is in a slot, whoever owns it; a slot never made holds the blank value.
    function Leftover(t: nat, index: nat): T
      reads this
    {
      if t in locals && index < |locals[t]| then locals[t][index].value else blank
    }

    /** The value behind the reference that get returns; `made` is what the default function
        would return.  A value of this object is returned unchanged.  Otherwise the slot is
        claimed, and holds the default if there is a default function, but else whatever was
        left in it. */
    method Get(t: nat, obj: Instance, made: T) returns (value: T)
      requires Valid() && obj.id in alive && alive[obj.id] == obj && t !in exited
      modifies this`locals, this`begun
      ensures Valid() && Stored(locals, t, obj) && value == locals[t][obj.index].value
      ensures value == if old(Stored(locals, t, obj)) then old(locals)[t][obj.index].value
                       else if obj.hasDefault then made else old(Leftover(t, obj.index))
      ensures begun == if obj.hasReturn then old(begun) + {(t, obj.id)} else old(begun)
      ensures !old(Stored(locals, t, obj)) ==> (t, obj.id) !in old(begun)
      ensures OthersKept(t, obj, old(locals), locals)
      ensures forall u: nat, i: nat :: (u, i) != (t, obj.index) ==> Leftover(u, i) == old(Leftover(u, i))
    {
      hide IndicesOk;
      hide ReturnsOk;
      var v := if t in locals then locals[t] else [];
      if obj.index >= |v| {
        v := v + seq(obj.index + 1 - |v|, _ => Node(0, blank, false));
      }
      OwnSlot(nextId, available, owners, alive, begun, locals, t, obj);
      var node := v[obj.index];
      if node.owner == 0 {
        node := Node(obj.id, if obj.hasDefault then made else node.value, obj.hasReturn);
        v := v[obj.index := node];
      }
      GetKeeps(nextId, available, owners, alive, obj, t, locals, v, exited, begun, calls);
      begun := if obj.hasReturn then begun + {(t, obj.id)} else begun;
      locals := locals[t := v];
      value := node.value;
    }

    /** A write through the reference. */
    method Assign(t: nat, obj: Instance, v: T)
      requires Valid() && Stored(locals, t, obj) && obj.id in alive && alive[obj.id] == obj
      modifies this`locals
      ensures Valid() && Stored(locals, t, obj) && locals[t][obj.index].value == v
      ensures OthersKept(t, obj, old(locals), locals)
      ensures forall u: nat, i: nat :: (u, i) != (t, obj.index) ==> Leftover(u, i) == old(Leftover(u, i))
    {
      hide IndicesOk;
      hide ReturnsOk;
      NotExited(nextId, alive, locals, exited, begun, calls, t);
      OwnSlot(nextId, available, owners, alive, begun, locals, t, obj);
      var slots := locals[t][obj.index := locals[t][obj.index].(value := v)];
      GetKeeps(nextId, available, owners, alive, obj, t, locals, slots, exited, begun, calls);
      RepeatedGet(owners, alive, begun, locals, t, obj);
      locals := locals[t := slots];
    }

    // The destructor's loop over the threads' vectors.
    method ReturnValues(obj: Instance)
      requires Valid() && obj.id in alive && alive[obj.id] == obj
      modifies this`locals, this`calls
      ensures GivenUp(old(locals), locals, obj, locals.Keys)
      ensures Returned(old(locals), old(calls), calls, obj, locals.Keys)
    {
      hide IndicesOk;
      hide ReturnsOk;
      ghost var before := locals;
      ghost var done: set<nat> := {};
      OwnSlots(nextId, available, owners, alive, begun, locals, obj);
      NothingReturned(locals, calls, obj);
      var todo := locals.Keys;
      while todo != {}
        invariant todo <= before.Keys && done == before.Keys - todo
        invariant GivenUp(before, locals, obj, done)
        invariant Returned(before, old(calls), calls, obj, done)
      {
        var t :| t in todo;
        var v := locals[t];
        assert v == before[t];
        ReturnedMore(before, old(calls), calls, obj, done, t);
        if obj.index < |v| && v[obj.index].owner == obj.id {
          var node := v[obj.index];
          if node.hasReturn {
            calls := calls + [Call(t, obj.id, node.value)];
            var movedFrom: T := *;
            node := node.(value := movedFrom);
          }
          locals := locals[t := v[obj.index := node.(owner := 0)]];
        }
        todo, done := todo - {t}, done + {t};
      }
      assert done == before.Keys;
    }

    /** The object's destructor: its value leaves every thread, through the return function
        if it has one, and its index becomes free. */
    method Destroy(obj: Instance)
      requires Valid() && obj.id in alive && alive[obj.id] == obj
      modifies this
      ensures Valid() && alive == old(alive) - {obj.id} && exited == old(exited) && begun == old(begun)
      ensures GivenUp(old(locals), locals, obj, locals.Keys)
      ensures Returned(old(locals), old(calls), calls, obj, locals.Keys)
      ensures forall t :: !Stored(locals, t, obj)
      ensures if |old(available)| + 1 == |old(owners)| then available == [] && owners == []
              else available == old(available) + [obj.index] && |owners| == |old(owners)|
    {
      hide IndicesOk;
      hide ReturnsOk;
      hide SlotsOk;
      OwnSlot(nextId, available, owners, alive, begun, locals, 0, obj);
      PositiveIds(nextId, available, owners, alive);
      ReturnValues(obj);
      ReturnIndex(nextId, available, owners, alive, obj.id);
      DestroyKeeps(nextId, available, owners, alive, obj, old(locals), locals, exited, begun, old(calls), calls);
      available, owners, alive := available + [obj.index], owners[obj.index := 0], alive - {obj.id};
      if |available| == |owners| {
        AllFree(nextId, available, owners, alive);
        StartAgain(nextId, owners, begun, locals);
        available, owners := [], [];
      }
    }

    /** A thread's exit: its values leave through their return functions. */
    method Exit(t: nat)
      requires Valid() && t in locals
      modifies this
      ensures Valid() && locals == old(locals) - {t} && exited == old(exited) + {t} && begun == old(begun) && alive == old(alive)
      ensures old(calls) <= calls
      ensures forall k | |old(calls)| <= k < |calls| :: LeftBy(old(alive), old(locals), t, calls[k])
    {
      hide IndicesOk;
      hide ReturnsOk;
      var v := locals[t];
      var i := 0;
      FlushNone(alive, locals, t);
      while i < |v| && i < |owners|
        modifies this`calls
        invariant 0 <= i <= |v| && i <= |owners| && old(calls) <= calls
        invariant forall k | |old(calls)| <= k < |calls| :: LeftBy(alive, locals, t, calls[k])
        invariant forall pair: Pair :: Count(calls, pair) == Count(old(calls), pair) + if Flushed(alive, locals, t, i, pair) then 1 else 0
      {
        var node := v[i];
        FlushNext(nextId, available, owners, alive, begun, locals, t, i, old(calls), calls);
        if node.hasReturn && node.owner != 0 && owners[i] == node.owner {
          calls := calls + [Call(t, node.owner, node.value)];
        }
        i := i + 1;
      }
      ExitKeeps(nextId, available, owners, alive, t, i, locals, exited, begun, old(calls), calls);
      locals, exited := locals - {t}, exited + {t};
    }

    /** For every value initialised by get, its object having a return function: the function
        has been called once if the object is gone or the thread is, and not yet otherwise. */
    lemma ReturnedExactlyOnce(pair: Pair)
      requires Valid() && pair in begun
      ensures Count(calls, pair) == if pair.1 in alive && pair.0 !in exited then 0 else 1
    {
      assert PairOk(nextId, alive, locals, exited, begun, calls, pair);
    }

    lemma NeverReturnedOtherwise(pair: Pair)
      requires Valid() && pair !in begun
      ensures Count(calls, pair) == 0
    {
      assert PairOk(nextId, alive, locals, exited, begun, calls, pair);
    }

    /** No node belongs to a dead object, nor to one that has another index. */
    lemma SlotsAreIsolated(t: nat, i: nat)
      requires Valid() && t in locals && i < |locals[t]| && locals[t][i].owner != 0
      ensures i < |owners| && locals[t][i].owner == owners[i]
      ensures locals[t][i].owner in alive && alive[locals[t][i].owner].index == i
    {
      assert SlotOk(owners, alive, begun, t, i, locals[t][i]);
      assert IndexOk(available, owners, alive, i);
    }
  }

  /** The default function, and nothing else, is what keeps a value from outliving its
      object: a new object's first get returns the default if it has a default function, and
      otherwise what an earlier object, which had no return function, left at the index. */
  method StaleValueIsSeen<T(0)>(t: nat, blank: T, v: T, made: T, hasDefault: bool, hasReturn: bool) returns (seen: T)
    ensures seen == if hasDefault then made else v
  {
    hide IndicesOk;
    hide SlotsOk;
    hide ReturnsOk;
    var storage := new Storage<T>(blank);
    var first := storage.Create(false, false);
    var _ := storage.Get(t, first, blank);
    storage.Assign(t, first, v);
    storage.Destroy(first);
    var second := storage.Create(hasDefault, hasReturn);
    seen := storage.Get(t, second, made);
  }

  // Every owned slot but thread `t`'s for the object is what it was, and none is newly owned.
  ghost predicate OthersKept<T>(t: nat, obj: Instance, before: map<nat, seq<Node<T>>>, after: map<nat, seq<Node<T>>>) {
    forall u: nat, other: Instance :: (u, other.index) != (t, obj.index) && other.id != 0 ==>
      && Stored(after, u, other) == Stored(before, u, other)
      && (Stored(after, u, other) ==> after[u][other.index] == before[u][other.index])
  }

  // The slot of a living object is its own or nobody's.
  lemma OwnSlot<T>(nextId: nat, available: seq<nat>, owners: seq<nat>, alive: map<nat, Instance>, begun: set<Pair>,
                   locals: map<nat, seq<Node<T>>>, t: nat, obj: Instance)
    requires IndicesOk(nextId, available, owners, alive) && SlotsOk(owners, alive, begun, locals)
    requires obj.id in alive && alive[obj.id] == obj
    ensures obj.id != 0
    ensures t in locals && obj.index < |locals[t]| ==>
              var node := locals[t][obj.index];
              (node.owner == 0 || node.owner == obj.id) && (node.owner == obj.id ==> node.hasReturn == obj.hasReturn)
  {
    assert AliveOk(nextId, owners, alive, obj.id);
    assert t in locals && obj.index < |locals[t]| ==> SlotOk(owners, alive, begun, t, obj.index, locals[t][obj.index]);
  }

  lemma NotExited<T>(nextId: nat, alive: map<nat, Instance>, locals: map<nat, seq<Node<T>>>, exited: set<nat>,
                     begun: set<Pair>, calls: seq<Call<T>>, t: nat)
    requires ReturnsOk(nextId, alive, locals, exited, begun, calls) && t in locals
    ensures t !in exited
  {
  }

  // Claiming again what is already claimed adds nothing to what must be returned.
  lemma RepeatedGet<T>(owners: seq<nat>, alive: map<nat, Instance>, begun: set<Pair>, locals: map<nat, seq<Node<T>>>, t: nat, obj: Instance)
    requires SlotsOk(owners, alive, begun, locals) && Stored(locals, t, obj) && obj.id != 0 && obj.id in alive && alive[obj.id] == obj
    ensures begun == if obj.hasReturn then begun + {(t, obj.id)} else begun
  {
    assert SlotOk(owners, alive, begun, t, obj.index, locals[t][obj.index]);
  }

  lemma PositiveIds(nextId: nat, available: seq<nat>, owners: seq<nat>, alive: map<nat, Instance>)
    requires IndicesOk(nextId, available, owners, alive)
    ensures 0 < nextId
  {
  }

  lemma OwnSlots<T>(nextId: nat, available: seq<nat>, owners: seq<nat>, alive: map<nat, Instance>, begun: set<Pair>,
                    locals: map<nat, seq<Node<T>>>, obj: Instance)
    requires IndicesOk(nextId, available, owners, alive) && SlotsOk(owners, alive, begun, locals)
    requires obj.id in alive && alive[obj.id] == obj
    ensures obj.id != 0
    ensures forall t | Stored(locals, t, obj) :: locals[t][obj.index].hasReturn == obj.hasReturn
  {
    forall t: nat ensures obj.id != 0 && (Stored(locals, t, obj) ==> locals[t][obj.index].hasReturn == obj.hasReturn) {
      OwnSlot(nextId, available, owners, alive, begun, locals, t, obj);
    }
    OwnSlot(nextId, available, owners, alive, begun, locals, 0, obj);
  }
}
