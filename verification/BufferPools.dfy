/** Pools of released buffers, one per shape, with the time each buffer becomes available. */
module BufferPools {
  import opened Wrappers
  import opened Sequences

  /** Element layout together with the devices that hold it. `NoShape` is the shape of names nobody allocated. */
  datatype ShardedShape = NoShape | ShardedShape(devices: nat, layout: int)

  datatype BufferUse = BufferUse(name: string, available: int)

  /** The queue of released buffers of one shape; the allocator stores it by value. */
  datatype BufferPool = BufferPool(uses: seq<BufferUse>)

  ghost predicate IsEarliest(use: BufferUse, uses: multiset<BufferUse>) {
    use in uses && forall u :: u in uses ==> use.available <= u.available
  }

  /** The head of the queue: some use with the earliest time. */
  method Top(uses: seq<BufferUse>) returns (k: nat)
    requires uses != []
    ensures k < |uses| && IsEarliest(uses[k], multiset(uses))
  {
    k := 0;
    for i := 1 to |uses|
      invariant k < |uses| && forall j :: 0 <= j < i ==> uses[k].available <= uses[j].available
    {
      if uses[i].available < uses[k].available {
        k := i;
      }
    }
    assert forall u :: u in multiset(uses) ==> u in uses;
  }

  method TakeAtTime(pool: BufferPool, time: int) returns (after: BufferPool, use: Option<BufferUse>)
    ensures use == None ==> after == pool && forall u :: u in multiset(pool.uses) ==> u.available > time
    ensures use.Some? ==>
              && IsEarliest(use.value, multiset(pool.uses)) && use.value.available <= time
              && multiset(after.uses) == multiset(pool.uses) - multiset{use.value}
  {
    if pool.uses == [] {
      return pool, None;
    }
    var k := Top(pool.uses);
    if pool.uses[k].available <= time {
      RemoveAt(pool.uses, k);
      after, use := BufferPool(pool.uses[..k] + pool.uses[k + 1..]), Some(pool.uses[k]);
    } else {
      after, use := pool, None;
    }
  }

  // ---- the allocator ----

  /** What the allocator remembers: the released uses of every shape, and the shape of every name. */
  datatype Store = Store(pools: map<ShardedShape, BufferPool>, shapes: map<string, ShardedShape>)

  ghost function Free(store: Store, shape: ShardedShape): multiset<BufferUse> {
    if shape in store.pools then multiset(store.pools[shape].uses) else multiset{}
  }

  ghost function ShapeOf(store: Store, name: string): ShardedShape {
    if name in store.shapes then store.shapes[name] else NoShape
  }

  /** `b` differs from `a` only in the uses of one shape. */
  ghost predicate OnlyPool(a: Store, b: Store, shape: ShardedShape, uses: multiset<BufferUse>) {
    Free(b, shape) == uses && forall s :: s != shape ==> Free(b, s) == Free(a, s)
  }

  /** The earliest use of the shape is handed out again. */
  ghost predicate Reissues(a: Store, b: Store, shape: ShardedShape, time: int, use: BufferUse) {
    && IsEarliest(use, Free(a, shape)) && use.available <= time
    && OnlyPool(a, b, shape, Free(a, shape) - multiset{use})
  }

  /** No use of the shape is available, so a buffer is made. */
  ghost predicate Creates(a: Store, b: Store, shape: ShardedShape, time: int) {
    && (forall u :: u in Free(a, shape) ==> u.available > time)
    && OnlyPool(a, b, shape, Free(a, shape))
  }

  ghost predicate Allocates(a: Store, b: Store, shape: ShardedShape, time: int, own: string, name: string, use: Option<BufferUse>) {
    && b.shapes == a.shapes[name := shape]
    && match use
       case Some(u) => name == u.name && Reissues(a, b, shape, time, u)
       case None => name == own && Creates(a, b, shape, time)
  }

  ghost predicate Frees(a: Store, b: Store, time: int, name: string) {
    && b.shapes == a.shapes[name := ShapeOf(a, name)]
    && OnlyPool(a, b, ShapeOf(a, name), Free(a, ShapeOf(a, name)) + multiset{BufferUse(name, time)})
  }

  lemma AllocatedFrom(a: Store, b: Store, shape: ShardedShape, time: int, own: string, name: string,
                      use: Option<BufferUse>, after: BufferPool)
    requires b == Store(a.pools[shape := after], a.shapes[name := shape])
    requires name == if use.Some? then use.value.name else own
    requires use == None ==> multiset(after.uses) == Free(a, shape) && forall u :: u in Free(a, shape) ==> u.available > time
    requires use.Some? ==>
               && IsEarliest(use.value, Free(a, shape)) && use.value.available <= time
               && multiset(after.uses) == Free(a, shape) - multiset{use.value}
    ensures Allocates(a, b, shape, time, own, name, use)
  {
  }

  class BufferAllocator {
    var pools: map<ShardedShape, BufferPool>
    var shapes: map<string, ShardedShape>

    ghost function Contents(): Store
      reads this
    {
      Store(pools, shapes)
    }

    constructor ()
      ensures Contents() == Store(map[], map[])
    {
      pools, shapes := map[], map[];
    }

    method AllocateAtTime(shape: ShardedShape, time: int, own: string) returns (name: string, use: Option<BufferUse>)
      modifies this
      ensures Allocates(old(Contents()), Contents(), shape, time, own, name, use)
    {
      var pool := if shape in pools then pools[shape] else BufferPool([]);
      var after;
      after, use := TakeAtTime(pool, time);
      name := if use.Some? then use.value.name else own;
      pools := pools[shape := after];
      shapes := shapes[name := shape];
      AllocatedFrom(old(Contents()), Contents(), shape, time, own, name, use, after);
    }

    method FreeAtTime(time: int, name: string)
      modifies this
      ensures Frees(old(Contents()), Contents(), time, name)
    {
      var shape := if name in shapes then shapes[name] else NoShape;
      var pool := if shape in pools then pools[shape] else BufferPool([]);
      shapes := shapes[name := shape];
      pools := pools[shape := BufferPool(pool.uses + [BufferUse(name, time)])];
    }
  }
}
