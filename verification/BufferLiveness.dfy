/** What the naming of temporary buffers keeps at every point of the walk. */
module BufferLiveness {
  import opened Wrappers
  import opened BufferPools

  /** `SliceOffset` operands carry literals and are never released. */
  datatype Kind = Parameter | SliceOffset | Output

  /** `preset` is a scheduling name given by an earlier pass, or empty; `users` counts the distinct users. */
  datatype Value = Value(kind: Kind, name: string, preset: string, layout: int, users: nat, feedsRoot: bool, colored: bool)

  /** The instructions that the walk looks at, in post-order. */
  datatype Step =
    | Call(devices: Option<nat>, operands: seq<nat>, outputs: seq<nat>)
    | Reshard(devices: Option<nat>, operand: nat, output: nat)

  function Operands(step: Step): seq<nat> {
    match step
    case Call(_, operands, _) => operands
    case Reshard(_, operand, _) => [operand]
  }

  function Outputs(step: Step): seq<nat> {
    match step
    case Call(_, _, outputs) => outputs
    case Reshard(_, _, output) => [output]
  }

  /** A value whose buffer this pass chooses freely. */
  predicate IsTemp(value: Value) {
    value.kind == Output && value.preset == "" && !value.feedsRoot
  }

  /** No temporary owns this name. */
  ghost predicate Foreign(values: seq<Value>, name: string) {
    forall v {:trigger values[v].name} :: 0 <= v < |values| && IsTemp(values[v]) ==> values[v].name != name
  }

  ghost predicate WellNamed(values: seq<Value>) {
    && (forall v :: 0 <= v < |values| ==> values[v].name != "")
    && (forall v, w {:trigger values[v].name, values[w].name} :: 0 <= v < w < |values| ==> values[v].name != values[w].name)
    && (forall v :: 0 <= v < |values| ==> Foreign(values, values[v].preset))
  }

  /**
   * A point of the walk: the allocator, the scheduling names, how often each value was visited as an
   * operand; and, for the proof, the temporaries named so far, those not yet released with their
   * shapes, the place of every buffer created, and the number of finished steps.
   */
  datatype State = State(store: Store, names: seq<string>, visits: seq<nat>, named: set<nat>,
                         held: map<nat, ShardedShape>, place: map<string, Place>, position: nat)

  /** A buffer is held by a temporary or waits in a pool. */
  datatype Place = HeldBy(v: nat) | Waiting(use: BufferUse)

  ghost predicate Released(values: seq<Value>, state: State, v: nat)
    requires v < |values| == |state.visits|
  {
    0 < values[v].users <= state.visits[v]
  }

  // ---- the invariants ----

  ghost predicate Sized(values: seq<Value>, state: State) {
    && |state.names| == |values| == |state.visits|
    && (forall v :: v in state.named ==> v < |values|)
    && (forall v :: v in state.held ==> v < |values|)
  }

  ghost predicate Untouched(state: State, v: nat)
    requires v < |state.names| && v < |state.visits|
  {
    state.names[v] == "" && state.visits[v] == 0
  }

  ghost predicate AllocatedAreTemps(values: seq<Value>, state: State)
    requires Sized(values, state)
  {
    && (forall v :: v in state.named ==> IsTemp(values[v]))
    && (forall v {:trigger state.names[v]} :: v in state.named ==> state.names[v] in state.place)
    && (forall v {:trigger state.names[v]} :: 0 <= v < |values| && v !in state.named ==> Foreign(values, state.names[v]))
    && (forall v :: 0 <= v < |values| && v !in state.named && IsTemp(values[v]) ==> Untouched(state, v))
  }

  ghost predicate HeldAreUnreleased(values: seq<Value>, state: State)
    requires Sized(values, state)
  {
    && (forall v :: v in state.held ==> v in state.named)
    && (forall v :: v in state.named ==> (v in state.held <==> !Released(values, state, v)))
  }

  /** Every held temporary has a buffer of its shape to itself. */
  ghost predicate HeldPlaced(values: seq<Value>, state: State)
    requires Sized(values, state)
  {
    forall v {:trigger state.names[v]} :: v in state.held ==>
      state.names[v] in state.place && state.place[state.names[v]] == HeldBy(v) && ShapeOf(state.store, state.names[v]) == state.held[v]
  }

  /** A waiting buffer was created with this shape, and waits once. */
  ghost predicate Waits(state: State, s: ShardedShape, u: BufferUse) {
    && u.name in state.place && state.place[u.name] == Waiting(u)
    && ShapeOf(state.store, u.name) == s && Free(state.store, s)[u] == 1
  }

  ghost predicate PoolsPlaced(state: State) {
    forall s, u {:trigger Free(state.store, s)[u]} :: s != NoShape && u in Free(state.store, s) ==> Waits(state, s, u)
  }

  /** The name of one of the temporaries named so far. */
  ghost predicate Owned(values: seq<Value>, state: State, name: string)
    requires Sized(values, state)
  {
    exists v :: v in state.named && values[v].name == name
  }

  ghost predicate CreatedAreOwn(values: seq<Value>, state: State)
    requires Sized(values, state)
  {
    && (forall c {:trigger Owned(values, state, c)} :: c in state.place ==> Owned(values, state, c))
    && (forall c :: c in state.place <==> ShapeOf(state.store, c) != NoShape)
  }

  // ---- counting ----

  ghost function HeldOf(state: State, shape: ShardedShape): set<nat> {
    set v | v in state.held && state.held[v] == shape
  }

  ghost function CreatedOf(state: State, shape: ShardedShape): set<string> {
    set c | c in state.place && ShapeOf(state.store, c) == shape
  }

  /** Every buffer of a shape is held by a temporary or waits in the pool. */
  ghost predicate Conserved(state: State) {
    forall s :: s != NoShape ==> |CreatedOf(state, s)| == |HeldOf(state, s)| + |Free(state.store, s)|
  }

  ghost predicate Invariant(values: seq<Value>, state: State) {
    && Sized(values, state)
    && AllocatedAreTemps(values, state)
    && HeldAreUnreleased(values, state)
    && HeldPlaced(values, state)
    && PoolsPlaced(state)
    && CreatedAreOwn(values, state)
    && Conserved(state)
  }

  // ---- naming one temporary ----

  ghost predicate Names(values: seq<Value>, a: State, b: State, v: nat, shape: ShardedShape, time: int, use: Option<BufferUse>)
    requires Sized(values, a) && v < |values|
  {
    && IsTemp(values[v]) && v !in a.named && shape != NoShape
    && |b.names| == |a.names| && b.names == a.names[v := b.names[v]]
    && Allocates(a.store, b.store, shape, time, values[v].name, b.names[v], use)
    && b.visits == a.visits && b.named == a.named + {v} && b.held == a.held[v := shape]
    && b.place == a.place[b.names[v] := HeldBy(v)] && b.position == a.position
  }

  lemma OwnIsFresh(values: seq<Value>, a: State, v: nat)
    requires WellNamed(values) && Sized(values, a) && CreatedAreOwn(values, a) && v < |values| && v !in a.named
    ensures values[v].name !in a.place
  {
    assert values[v].name in a.place ==> Owned(values, a, values[v].name);
  }

  /** The uses of every shape are among the earlier ones, and none carries this name. */
  ghost predicate PoolsWithout(a: State, b: State, name: string) {
    forall s, u :: s != NoShape && u in Free(b.store, s) ==>
      u in Free(a.store, s) && Free(b.store, s)[u] == Free(a.store, s)[u] && u.name != name
  }

  ghost predicate HeldWithout(values: seq<Value>, a: State, name: string)
    requires Sized(values, a)
  {
    forall w :: w in a.held && w < |values| ==> a.names[w] != name
  }

  lemma CreatedIsUnused(values: seq<Value>, a: State, b: State, shape: ShardedShape, time: int, own: string)
    requires Sized(values, a) && HeldPlaced(values, a) && PoolsPlaced(a)
    requires own !in a.place && Creates(a.store, b.store, shape, time)
    ensures HeldWithout(values, a, own) && PoolsWithout(a, b, own)
  {
    forall s, u | s != NoShape && u in Free(b.store, s)
      ensures u in Free(a.store, s) && Free(b.store, s)[u] == Free(a.store, s)[u] && u.name != own
    {
      assert Free(b.store, s) == Free(a.store, s);
      assert Waits(a, s, u);
    }
  }

  lemma ReissuedIsUnused(values: seq<Value>, a: State, b: State, shape: ShardedShape, time: int, use: BufferUse)
    requires Sized(values, a) && HeldPlaced(values, a) && PoolsPlaced(a) && shape != NoShape
    requires Reissues(a.store, b.store, shape, time, use)
    ensures HeldWithout(values, a, use.name) && PoolsWithout(a, b, use.name)
    ensures use.name in a.place && ShapeOf(a.store, use.name) == shape
  {
    assert Waits(a, shape, use);
    assert Free(b.store, shape) == Free(a.store, shape) - multiset{use};
    forall s, u | s != NoShape && u in Free(b.store, s)
      ensures u in Free(a.store, s) && Free(b.store, s)[u] == Free(a.store, s)[u] && u.name != use.name
    {
      if s != shape {
        assert Free(b.store, s) == Free(a.store, s);
      }
      assert Waits(a, s, u);
    }
  }

  /** The name handed out belongs to no temporary that is still held, and to no waiting buffer. */
  lemma NameIsUnused(values: seq<Value>, a: State, b: State, v: nat, shape: ShardedShape, time: int, use: Option<BufferUse>)
    requires WellNamed(values) && Invariant(values, a) && v < |values| && Names(values, a, b, v, shape, time, use)
    ensures HeldWithout(values, a, b.names[v]) && PoolsWithout(a, b, b.names[v])
    ensures use == None <==> b.names[v] !in a.place
    ensures use.Some? ==> ShapeOf(a.store, b.names[v]) == shape
  {
    if use == None {
      OwnIsFresh(values, a, v);
      CreatedIsUnused(values, a, b, shape, time, values[v].name);
    } else {
      ReissuedIsUnused(values, a, b, shape, time, use.value);
    }
  }

  /** What naming changes outside the pools. */
  ghost predicate Extends(values: seq<Value>, a: State, b: State, v: nat, shape: ShardedShape)
    requires Sized(values, a) && v < |values|
  {
    && IsTemp(values[v]) && v !in a.named && shape != NoShape
    && |b.names| == |a.names| && b.names == a.names[v := b.names[v]]
    && b.store.shapes == a.store.shapes[b.names[v] := shape]
    && b.visits == a.visits && b.named == a.named + {v} && b.held == a.held[v := shape]
    && b.place == a.place[b.names[v] := HeldBy(v)]
  }

  lemma NamesKeepsNamed(values: seq<Value>, a: State, b: State, v: nat, shape: ShardedShape)
    requires Sized(values, a) && AllocatedAreTemps(values, a) && HeldAreUnreleased(values, a) && v < |values| && Extends(values, a, b, v, shape)
    ensures Sized(values, b) && AllocatedAreTemps(values, b) && HeldAreUnreleased(values, b)
  {
  }

  lemma NamesKeepsHeld(values: seq<Value>, a: State, b: State, v: nat, shape: ShardedShape)
    requires Sized(values, a) && Sized(values, b) && HeldPlaced(values, a) && v < |values| && Extends(values, a, b, v, shape) && v !in a.held
    requires HeldWithout(values, a, b.names[v])
    ensures HeldPlaced(values, b)
  {
    assert forall w :: w in a.held ==> w != v && b.names[w] == a.names[w] && a.names[w] != b.names[v];
  }

  lemma NamesKeepsPools(values: seq<Value>, a: State, b: State, v: nat, shape: ShardedShape)
    requires Sized(values, a) && Sized(values, b) && PoolsPlaced(a) && v < |values| && Extends(values, a, b, v, shape)
    requires PoolsWithout(a, b, b.names[v])
    ensures PoolsPlaced(b)
  {
    forall s, u | s != NoShape && u in Free(b.store, s)
      ensures Waits(b, s, u)
    {
      assert u.name != b.names[v] && Waits(a, s, u);
    }
  }

  lemma NamesKeepsCreated(values: seq<Value>, a: State, b: State, v: nat, shape: ShardedShape)
    requires Sized(values, a) && Sized(values, b) && CreatedAreOwn(values, a) && v < |values| && Extends(values, a, b, v, shape)
    requires b.names[v] in a.place || b.names[v] == values[v].name
    ensures CreatedAreOwn(values, b)
  {
    forall c | c in b.place ensures Owned(values, b, c) {
      if c in a.place {
        assert Owned(values, a, c);
        var w :| w in a.named && values[w].name == c;
        assert w in b.named;
      } else {
        assert v in b.named && values[v].name == c;
      }
    }
  }

  lemma HeldOfNamed(a: State, b: State, v: nat, shape: ShardedShape, s: ShardedShape)
    requires b.held == a.held[v := shape] && v !in a.held
    ensures |HeldOf(b, s)| == |HeldOf(a, s)| + if s == shape then 1 else 0
  {
    if s == shape {
      assert HeldOf(b, s) == HeldOf(a, s) + {v};
    } else {
      assert HeldOf(b, s) == HeldOf(a, s);
    }
  }

  lemma CreatedOfOther(a: State, b: State, name: string, shape: ShardedShape, s: ShardedShape, c: string)
    requires c in b.place <==> c in a.place || c == name
    requires b.store.shapes == a.store.shapes[name := shape]
    requires name in a.place ==> ShapeOf(a.store, name) == shape
    ensures c in CreatedOf(b, s) <==> c in CreatedOf(a, s) || (c == name && s == shape)
  {
  }

  lemma CreatedOfNamed(a: State, b: State, name: string, shape: ShardedShape, s: ShardedShape)
    requires forall c :: c in b.place <==> c in a.place || c == name
    requires b.store.shapes == a.store.shapes[name := shape]
    requires name in a.place ==> ShapeOf(a.store, name) == shape
    ensures |CreatedOf(b, s)| == |CreatedOf(a, s)| + if s == shape && name !in a.place then 1 else 0
  {
    forall c ensures c in CreatedOf(b, s) <==> c in CreatedOf(a, s) || (c == name && s == shape) {
      CreatedOfOther(a, b, name, shape, s, c);
    }
    OneMore(CreatedOf(a, s), CreatedOf(b, s), name, s == shape);
  }

  lemma OneMore(a: set<string>, b: set<string>, name: string, more: bool)
    requires forall c :: c in b <==> c in a || (c == name && more)
    ensures |b| == |a| + if more && name !in a then 1 else 0
  {
    if more && name !in a {
      assert b == a + {name};
    } else {
      assert b == a;
    }
  }

  lemma NamesKeepsCount(values: seq<Value>, a: State, b: State, v: nat, shape: ShardedShape, time: int, use: Option<BufferUse>)
    requires Sized(values, a) && Conserved(a) && v < |values| && Names(values, a, b, v, shape, time, use) && v !in a.held
    requires use == None <==> b.names[v] !in a.place
    requires use.Some? ==> ShapeOf(a.store, b.names[v]) == shape
    ensures Conserved(b)
  {
    forall s | s != NoShape ensures |CreatedOf(b, s)| == |HeldOf(b, s)| + |Free(b.store, s)| {
      HeldOfNamed(a, b, v, shape, s);
      CreatedOfNamed(a, b, b.names[v], shape, s);
    }
  }

  lemma NamesKeepsInvariant(values: seq<Value>, a: State, b: State, v: nat, shape: ShardedShape, time: int, use: Option<BufferUse>)
    requires WellNamed(values) && Invariant(values, a) && v < |values| && Names(values, a, b, v, shape, time, use)
    ensures Invariant(values, b)
  {
    NameIsUnused(values, a, b, v, shape, time, use);
    NamesKeepsNamed(values, a, b, v, shape);
    NamesKeepsHeld(values, a, b, v, shape);
    NamesKeepsPools(values, a, b, v, shape);
    NamesKeepsCreated(values, a, b, v, shape);
    NamesKeepsCount(values, a, b, v, shape, time, use);
  }

  // ---- visiting one operand ----

  /** One more user of `v` is done; the last one releases the buffer. */
  ghost predicate Visits(values: seq<Value>, a: State, b: State, v: nat, time: int)
    requires Sized(values, a) && v < |values|
  {
    && a.names[v] != ""
    && b.names == a.names && b.named == a.named && b.position == a.position
    && b.visits == a.visits[v := a.visits[v] + 1]
    && if b.visits[v] == values[v].users
       then Frees(a.store, b.store, time, a.names[v]) && Parted(a, b, v, BufferUse(a.names[v], time))
       else b.store == a.store && b.held == a.held && b.place == a.place
  }

  /** A temporary no longer holds its buffer; a value that held none changes nothing. */
  ghost predicate Parted(a: State, b: State, v: nat, use: BufferUse) {
    && b.held == a.held - {v}
    && b.place == if v in a.held then a.place[use.name := Waiting(use)] else a.place
  }

  /** The store changes only in one pool; every name keeps its shape. */
  ghost predicate AddsUse(a: State, b: State, shape: ShardedShape, use: BufferUse) {
    && (forall c :: ShapeOf(b.store, c) == ShapeOf(a.store, c))
    && OnlyPool(a.store, b.store, shape, Free(a.store, shape) + multiset{use})
  }

  lemma ReleasedKeepsTemps(values: seq<Value>, a: State, b: State, v: nat)
    requires Sized(values, a) && Sized(values, b) && AllocatedAreTemps(values, a) && v < |values| && a.names[v] != ""
    requires b.names == a.names && b.named == a.named && b.visits == a.visits[v := a.visits[v] + 1]
    requires forall c :: c in a.place ==> c in b.place
    ensures AllocatedAreTemps(values, b)
  {
    forall w | 0 <= w < |values| && w !in b.named && IsTemp(values[w]) ensures Untouched(b, w) {
      assert Untouched(a, w);
    }
  }

  lemma ReleasedKeepsUnreleased(values: seq<Value>, a: State, b: State, v: nat)
    requires Sized(values, a) && Sized(values, b) && HeldAreUnreleased(values, a) && v < |values|
    requires b.named == a.named && b.visits == a.visits[v := a.visits[v] + 1]
    requires b.held == if b.visits[v] == values[v].users then a.held - {v} else a.held
    ensures HeldAreUnreleased(values, b)
  {
    assert forall w :: w in a.named && w != v ==> (Released(values, b, w) <==> Released(values, a, w));
  }

  lemma VisitsSized(values: seq<Value>, a: State, b: State, v: nat, time: int)
    requires Sized(values, a) && v < |values| && Visits(values, a, b, v, time)
    ensures Sized(values, b) && forall c :: c in a.place ==> c in b.place
  {
  }

  lemma ReleasedKeepsHeld(values: seq<Value>, a: State, b: State, v: nat, use: BufferUse)
    requires Sized(values, a) && Sized(values, b) && HeldPlaced(values, a) && b.names == a.names
    requires v < |values| && use.name == a.names[v] && Parted(a, b, v, use)
    requires forall c :: ShapeOf(b.store, c) == ShapeOf(a.store, c)
    ensures HeldPlaced(values, b)
  {
    assert v in a.held ==> a.place[a.names[v]] == HeldBy(v);
  }

  lemma ReleasedKeepsPools(values: seq<Value>, a: State, b: State, v: nat, shape: ShardedShape, use: BufferUse)
    requires Sized(values, a) && HeldPlaced(values, a) && PoolsPlaced(a) && AddsUse(a, b, shape, use)
    requires v < |values| && use.name == a.names[v] && Parted(a, b, v, use) && ReleasesOwn(a, v, shape)
    ensures PoolsPlaced(b)
  {
    assert v in a.held ==> a.place[a.names[v]] == HeldBy(v);
    forall s, u | s != NoShape && u in Free(b.store, s) ensures Waits(b, s, u) {
      if s != shape || u != use {
        assert Waits(a, s, u);
      } else {
        assert use in Free(a.store, s) ==> Waits(a, s, use);
      }
    }
  }

  lemma HeldOfReleased(a: State, b: State, v: nat, s: ShardedShape)
    requires b.held == a.held - {v}
    ensures |HeldOf(b, s)| == |HeldOf(a, s)| - if v in a.held && a.held[v] == s then 1 else 0
  {
    if v in a.held && a.held[v] == s {
      assert HeldOf(b, s) == HeldOf(a, s) - {v};
      assert v in HeldOf(a, s);
    } else {
      assert HeldOf(b, s) == HeldOf(a, s);
    }
  }

  lemma ReleasedKeepsCount(a: State, b: State, v: nat, shape: ShardedShape, use: BufferUse)
    requires Conserved(a) && b.place.Keys == a.place.Keys && AddsUse(a, b, shape, use)
    requires b.held == a.held - {v}
    requires if shape == NoShape then v !in a.held else v in a.held && a.held[v] == shape
    ensures Conserved(b)
  {
    forall s | s != NoShape ensures |CreatedOf(b, s)| == |HeldOf(b, s)| + |Free(b.store, s)| {
      HeldOfReleased(a, b, v, s);
      assert CreatedOf(b, s) == CreatedOf(a, s);
    }
  }

  lemma CreatedIsNotForeign(values: seq<Value>, a: State, name: string)
    requires Sized(values, a) && AllocatedAreTemps(values, a) && CreatedAreOwn(values, a) && name in a.place
    ensures !Foreign(values, name)
  {
    assert Owned(values, a, name);
    var w :| w in a.named && values[w].name == name;
    assert IsTemp(values[w]);
  }

  /** A name that the pass did not create has no shape. */
  lemma ForeignHasNoShape(values: seq<Value>, a: State, v: nat)
    requires Sized(values, a) && AllocatedAreTemps(values, a) && CreatedAreOwn(values, a) && v < |values| && v !in a.named
    ensures ShapeOf(a.store, a.names[v]) == NoShape
  {
    if a.names[v] in a.place {
      CreatedIsNotForeign(values, a, a.names[v]);
    }
  }

  /** The released buffer was held with its own shape, or is none of the pass's buffers. */
  ghost predicate ReleasesOwn(a: State, v: nat, shape: ShardedShape)
    requires v < |a.names|
  {
    if shape == NoShape then v !in a.held
    else v in a.held && a.held[v] == shape && a.names[v] in a.place
  }

  lemma ReleasedShape(values: seq<Value>, a: State, v: nat)
    requires Sized(values, a) && AllocatedAreTemps(values, a) && CreatedAreOwn(values, a)
    requires HeldAreUnreleased(values, a) && HeldPlaced(values, a)
    requires v < |values| && a.visits[v] + 1 == values[v].users
    ensures ReleasesOwn(a, v, ShapeOf(a.store, a.names[v]))
  {
    if v !in a.named {
      ForeignHasNoShape(values, a, v);
    }
  }

  lemma ReleaseKeepsInvariant(values: seq<Value>, a: State, b: State, v: nat, shape: ShardedShape, use: BufferUse)
    requires Invariant(values, a) && v < |values|
    requires Sized(values, b) && AllocatedAreTemps(values, b) && HeldAreUnreleased(values, b)
    requires ReleasesOwn(a, v, shape) && use.name == a.names[v] && AddsUse(a, b, shape, use)
    requires b.names == a.names && b.named == a.named && Parted(a, b, v, use)
    ensures Invariant(values, b)
  {
    ReleasedKeepsHeld(values, a, b, v, use);
    ReleasedKeepsPools(values, a, b, v, shape, use);
    assert b.place.Keys == a.place.Keys;
    ReleasedKeepsCount(a, b, v, shape, use);
    ReleasedKeepsCreated(values, a, b);
  }

  lemma ReleasedKeepsCreated(values: seq<Value>, a: State, b: State)
    requires Sized(values, a) && Sized(values, b) && CreatedAreOwn(values, a) && b.named == a.named && b.place.Keys == a.place.Keys
    requires forall c :: ShapeOf(b.store, c) == ShapeOf(a.store, c)
    ensures CreatedAreOwn(values, b)
  {
    forall c | c in b.place ensures Owned(values, b, c) {
      assert Owned(values, a, c);
    }
  }

  lemma FreesIsWaiting(a: State, b: State, time: int, name: string)
    requires Frees(a.store, b.store, time, name)
    ensures AddsUse(a, b, ShapeOf(a.store, name), BufferUse(name, time))
  {
  }

  lemma VisitsKeepsInvariant(values: seq<Value>, a: State, b: State, v: nat, time: int)
    requires Invariant(values, a) && v < |values| && Visits(values, a, b, v, time)
    ensures Invariant(values, b)
  {
    VisitsSized(values, a, b, v, time);
    ReleasedKeepsTemps(values, a, b, v);
    ReleasedKeepsUnreleased(values, a, b, v);
    if b.visits[v] == values[v].users {
      FreesIsWaiting(a, b, time, a.names[v]);
      ReleasedShape(values, a, v);
      ReleaseKeepsInvariant(values, a, b, v, ShapeOf(a.store, a.names[v]), BufferUse(a.names[v], time));
    } else {
      SameStoreKeeps(values, a, b);
    }
  }

  lemma SameStoreKeeps(values: seq<Value>, a: State, b: State)
    requires Invariant(values, a)
    requires Sized(values, b) && AllocatedAreTemps(values, b) && HeldAreUnreleased(values, b)
    requires b.names == a.names && b.named == a.named && b.place == a.place && b.held == a.held && b.store == a.store
    ensures Invariant(values, b)
  {
    ReleasedKeepsCreated(values, a, b);
    forall s | s != NoShape ensures |CreatedOf(b, s)| == |HeldOf(b, s)| + |Free(b.store, s)| {
      assert CreatedOf(b, s) == CreatedOf(a, s) && HeldOf(b, s) == HeldOf(a, s);
    }
    forall s, u | s != NoShape && u in Free(b.store, s) ensures Waits(b, s, u) {
      assert Waits(a, s, u);
    }
  }

  // ---- the walk ----

  /** How many of the first `n` steps use a value. */
  ghost function Uses(steps: seq<Step>, v: nat, n: nat): nat
    requires n <= |steps|
  {
    if n == 0 then 0 else Uses(steps, v, n - 1) + if v in Operands(steps[n - 1]) then 1 else 0
  }

  lemma {:induction false} UsesMonotone(steps: seq<Step>, v: nat, m: nat, n: nat)
    requires m <= n <= |steps|
    ensures Uses(steps, v, m) <= Uses(steps, v, n)
    ensures (exists k :: m <= k < n && v in Operands(steps[k])) <==> Uses(steps, v, m) < Uses(steps, v, n)
  {
    if m < n {
      UsesMonotone(steps, v, m, n - 1);
    }
  }

  /** How often a value occurs as an operand in the first `n` steps; a step may read it several times. */
  ghost function Occurrences(steps: seq<Step>, v: nat, n: nat): nat
    requires n <= |steps|
  {
    if n == 0 then 0 else Occurrences(steps, v, n - 1) + multiset(Operands(steps[n - 1]))[v]
  }

  lemma {:induction false} UsesOccur(steps: seq<Step>, v: nat, n: nat)
    requires n <= |steps|
    ensures Uses(steps, v, n) <= Occurrences(steps, v, n)
    ensures Uses(steps, v, n) == 0 <==> Occurrences(steps, v, n) == 0
  {
    if n > 0 {
      UsesOccur(steps, v, n - 1);
      assert v in Operands(steps[n - 1]) <==> multiset(Operands(steps[n - 1]))[v] > 0;
    }
  }

  ghost predicate UsedFrom(steps: seq<Step>, v: nat, n: nat) {
    exists k :: n <= k < |steps| && v in Operands(steps[k])
  }

  /** A user of the value is still to come. */
  ghost predicate IsLive(values: seq<Value>, steps: seq<Step>, v: nat, n: nat)
    requires v < |values|
  {
    values[v].feedsRoot || UsedFrom(steps, v, n)
  }

  /** The graph that the walk sees: user counts that include the root, and outputs that are used only after they are made. */
  ghost predicate IsWalk(values: seq<Value>, steps: seq<Step>) {
    && WellNamed(values)
    && (forall k, v :: 0 <= k < |steps| && (v in Operands(steps[k]) || v in Outputs(steps[k])) ==> v < |values|)
    && (forall k, v :: 0 <= k < |steps| && v in Outputs(steps[k]) ==> values[v].kind == Output && Uses(steps, v, k + 1) == 0)
    && (forall v :: 0 <= v < |values| ==> values[v].users == Uses(steps, v, |steps|) + if values[v].feedsRoot then 1 else 0)
  }

  /** After `n` steps, the operands read so far do not yet exhaust the users of a temporary that is still to be used. */
  ghost predicate TimelyAt(values: seq<Value>, steps: seq<Step>, n: nat)
    requires n <= |steps|
  {
    forall v :: 0 <= v < |values| && IsTemp(values[v]) && UsedFrom(steps, v, n) ==> Occurrences(steps, v, n) < values[v].users
  }

  ghost predicate TimelyBelow(values: seq<Value>, steps: seq<Step>, n: nat) {
    forall k :: 0 <= k < n && k <= |steps| ==> TimelyAt(values, steps, k)
  }

  /** No value is read so often that its users are used up early. */
  ghost predicate Timely(values: seq<Value>, steps: seq<Step>) {
    TimelyBelow(values, steps, |steps|)
  }

  /** A call that reads every operand once, like any call before the last user of its operands, is timely. */
  ghost predicate ReadOnce(steps: seq<Step>) {
    forall k, v: nat :: 0 <= k < |steps| ==> multiset(Operands(steps[k]))[v] <= 1
  }

  lemma {:induction false} ReadOnceCounts(steps: seq<Step>, v: nat, n: nat)
    requires n <= |steps| && ReadOnce(steps)
    ensures Occurrences(steps, v, n) == Uses(steps, v, n)
  {
    if n > 0 {
      ReadOnceCounts(steps, v, n - 1);
      assert v in Operands(steps[n - 1]) <==> multiset(Operands(steps[n - 1]))[v] == 1;
    }
  }

  lemma ReadOnceIsTimely(values: seq<Value>, steps: seq<Step>)
    requires IsWalk(values, steps) && ReadOnce(steps)
    ensures Timely(values, steps)
  {
    forall n: nat | n < |steps| ensures TimelyAt(values, steps, n) {
      forall v | 0 <= v < |values| && IsTemp(values[v]) && UsedFrom(steps, v, n) ensures Occurrences(steps, v, n) < values[v].users {
        ReadOnceCounts(steps, v, n);
        UsesMonotone(steps, v, n, |steps|);
      }
    }
  }

  /** Every temporary was visited once for each time a finished step reads it. */
  ghost predicate Exact(values: seq<Value>, steps: seq<Step>, state: State)
    requires Sized(values, state)
  {
    state.position <= |steps| && forall v :: 0 <= v < |values| && IsTemp(values[v]) ==> state.visits[v] == Occurrences(steps, v, state.position)
  }

  /** The visits are exact as long as nothing was released early. */
  ghost predicate Tracked(values: seq<Value>, steps: seq<Step>, state: State)
    requires Sized(values, state)
  {
    TimelyBelow(values, steps, state.position) ==> Exact(values, steps, state)
  }

  ghost predicate HoldsWhileLive(values: seq<Value>, steps: seq<Step>, state: State, v: nat)
    requires v < |values|
  {
    v in state.held <==> values[v].users == 0 || IsLive(values, steps, v, state.position)
  }

  /** A named temporary is held exactly while a user is still to come, or for good when it has none. */
  lemma HeldIffLive(values: seq<Value>, steps: seq<Step>, state: State, v: nat)
    requires IsWalk(values, steps) && Invariant(values, state) && Exact(values, steps, state) && v in state.named
    requires TimelyAt(values, steps, state.position)
    ensures HoldsWhileLive(values, steps, state, v)
  {
    UsesMonotone(steps, v, state.position, |steps|);
    UsesOccur(steps, v, state.position);
  }

  /** Otherwise some temporary was released although a user is still to come. */
  lemma UntimelyIsReleased(values: seq<Value>, steps: seq<Step>, state: State, v: nat)
    requires IsWalk(values, steps) && Invariant(values, state) && Exact(values, steps, state) && v < |values|
    requires IsTemp(values[v]) && UsedFrom(steps, v, state.position) && Occurrences(steps, v, state.position) >= values[v].users
    ensures v in state.named && v !in state.held && IsLive(values, steps, v, state.position)
  {
    UsesMonotone(steps, v, state.position, |steps|);
    assert v in state.named by {
      assert v !in state.named ==> Untouched(state, v);
    }
  }

  ghost function LiveTemps(values: seq<Value>, steps: seq<Step>, state: State): set<nat>
    requires Sized(values, state)
  {
    set v | v in state.named && IsLive(values, steps, v, state.position)
  }

  /** No two temporaries that still have a user to come share a buffer. */
  ghost predicate NoSharing(values: seq<Value>, steps: seq<Step>, state: State)
    requires Sized(values, state)
  {
    forall v, w :: v in LiveTemps(values, steps, state) && w in LiveTemps(values, steps, state) && v != w ==>
      state.names[v] != state.names[w]
  }

  lemma LiveNeverShare(values: seq<Value>, steps: seq<Step>, state: State)
    requires IsWalk(values, steps) && Invariant(values, state) && Exact(values, steps, state)
    requires TimelyAt(values, steps, state.position)
    ensures NoSharing(values, steps, state)
  {
    forall v, w | v in LiveTemps(values, steps, state) && w in LiveTemps(values, steps, state) && v != w
      ensures state.names[v] != state.names[w]
    {
      HeldIffLive(values, steps, state, v);
      HeldIffLive(values, steps, state, w);
    }
  }

  /** The points between the steps of a run: the invariants hold, and visits are exact until something is released early. */
  ghost predicate SoundPoints(values: seq<Value>, steps: seq<Step>, points: seq<State>) {
    |points| == |steps| + 1 &&
    forall k :: 0 <= k < |points| ==> Invariant(values, points[k]) && points[k].position == k && Tracked(values, steps, points[k])
  }

  /** At every point every named temporary is held exactly while it is live. */
  ghost predicate AlwaysHeldWhileLive(values: seq<Value>, steps: seq<Step>, points: seq<State>) {
    forall k, v :: 0 <= k < |points| && v in points[k].named && v < |values| ==> HoldsWhileLive(values, steps, points[k], v)
  }

  /** The exact condition: buffers are held exactly while needed if and only if no value is read so often,
      before its last user, that its users are used up. */
  lemma HeldWhileLiveIff(values: seq<Value>, steps: seq<Step>, points: seq<State>)
    requires IsWalk(values, steps) && SoundPoints(values, steps, points)
    ensures AlwaysHeldWhileLive(values, steps, points) <==> Timely(values, steps)
  {
    if Timely(values, steps) {
      forall k, v | 0 <= k < |points| && v in points[k].named && v < |values| ensures HoldsWhileLive(values, steps, points[k], v) {
        assert TimelyBelow(values, steps, k);
        assert Tracked(values, steps, points[k]);
        HeldIffLive(values, steps, points[k], v);
      }
    } else {
      var k, v := FirstUntimely(values, steps, |steps|);
      assert Tracked(values, steps, points[k]);
      UntimelyIsReleased(values, steps, points[k], v);
      assert !HoldsWhileLive(values, steps, points[k], v);
    }
  }

  lemma {:induction false} FirstUntimely(values: seq<Value>, steps: seq<Step>, n: nat) returns (k: nat, v: nat)
    requires n <= |steps| && !TimelyBelow(values, steps, n)
    ensures k < n && TimelyBelow(values, steps, k) && v < |values|
    ensures IsTemp(values[v]) && UsedFrom(steps, v, k) && Occurrences(steps, v, k) >= values[v].users
  {
    if TimelyBelow(values, steps, n - 1) {
      k := n - 1;
      v :| 0 <= v < |values| && IsTemp(values[v]) && UsedFrom(steps, v, k) && Occurrences(steps, v, k) >= values[v].users;
    } else {
      k, v := FirstUntimely(values, steps, n - 1);
    }
  }

  // ---- the peak ----

  /** The most buffers of a shape that were held at once. */
  ghost function Peak(history: seq<State>, shape: ShardedShape): nat {
    if history == [] then 0
    else
      var before := Peak(history[..|history| - 1], shape);
      var now := |HeldOf(history[|history| - 1], shape)|;
      if now > before then now else before
  }

  lemma PeakAppend(history: seq<State>, state: State, shape: ShardedShape)
    ensures Peak(history + [state], shape) == if |HeldOf(state, shape)| > Peak(history, shape) then |HeldOf(state, shape)| else Peak(history, shape)
  {
    assert (history + [state])[..|history|] == history;
  }

  /** No more were created than held at once. */
  ghost predicate Tight(history: seq<State>, state: State) {
    forall s :: s != NoShape ==> |CreatedOf(state, s)| == Peak(history, s)
  }

  /** At least as many were created as ever held at once. */
  ghost predicate Sufficient(history: seq<State>, state: State) {
    forall s :: s != NoShape ==> Peak(history, s) <= |CreatedOf(state, s)|
  }

  lemma NamesKeepsPeak(values: seq<Value>, history: seq<State>, a: State, b: State, v: nat, shape: ShardedShape, time: int, use: Option<BufferUse>)
    requires WellNamed(values) && Invariant(values, a) && v < |values| && Names(values, a, b, v, shape, time, use)
    requires Sufficient(history, a)
    ensures Sufficient(history + [b], b)
    ensures Tight(history, a) && (forall u :: u in Free(a.store, shape) ==> u.available <= time) ==> Tight(history + [b], b)
  {
    NameIsUnused(values, a, b, v, shape, time, use);
    NamesKeepsInvariant(values, a, b, v, shape, time, use);
    var ready := forall u :: u in Free(a.store, shape) ==> u.available <= time;
    if use == None && ready {
      assert Free(a.store, shape) == multiset{};
    }
    forall s | s != NoShape
      ensures Peak(history + [b], s) <= |CreatedOf(b, s)|
      ensures Tight(history, a) && ready ==> |CreatedOf(b, s)| == Peak(history + [b], s)
    {
      HeldOfNamed(a, b, v, shape, s);
      CreatedOfNamed(a, b, b.names[v], shape, s);
      PeakStep(history, a, b, s, s == shape, use == None && s == shape, |Free(a.store, s)|, |Free(b.store, s)|);
    }
  }

  lemma PeakStep(history: seq<State>, a: State, b: State, s: ShardedShape, named: bool, created: bool, waited: nat, waiting: nat)
    requires |CreatedOf(a, s)| == |HeldOf(a, s)| + waited && |CreatedOf(b, s)| == |HeldOf(b, s)| + waiting
    requires |CreatedOf(b, s)| == |CreatedOf(a, s)| + if created then 1 else 0
    requires |HeldOf(b, s)| == |HeldOf(a, s)| + if named then 1 else 0
    requires Peak(history, s) <= |CreatedOf(a, s)|
    ensures Peak(history + [b], s) <= |CreatedOf(b, s)|
    ensures Peak(history, s) == |CreatedOf(a, s)| && (created ==> waiting == 0) ==> |CreatedOf(b, s)| == Peak(history + [b], s)
  {
    PeakAppend(history, b, s);
  }
}
