/** The walk that names the buffers of temporaries, reusing a released buffer whenever one is available. */
module BufferNaming {
  import opened Wrappers
  import opened BufferPools
  import opened BufferLiveness
  import opened Sequences

  function Max(a: int, b: int): int {
    if a < b then b else a
  }

  function TimeOn(timeOnMesh: map<nat, int>, mesh: nat): int {
    if mesh in timeOnMesh then timeOnMesh[mesh] else 0
  }

  /** When a value is available; times start at zero. */
  function AvailableAt(available: seq<int>, v: nat): int {
    if v < |available| then available[v] else 0
  }

  /** The latest time at which the mesh and all operands are ready. */
  ghost function StartTime(available: seq<int>, ready: int, operands: seq<nat>): (t: int)
    ensures ready <= t && forall x :: x in operands ==> AvailableAt(available, x) <= t
    ensures t == ready || exists x :: x in operands && t == AvailableAt(available, x)
  {
    if operands == [] then ready
    else
      var n := |operands| - 1;
      assert operands == operands[..n] + [operands[n]];
      assert operands[n] in operands && forall x :: x in operands[..n] ==> x in operands;
      Max(AvailableAt(available, operands[n]), StartTime(available, ready, operands[..n]))
  }

  function ShapeOn(value: Value, mesh: nat): (shape: ShardedShape)
    ensures shape != NoShape
  {
    ShardedShape(mesh, value.layout)
  }

  /** Values that an earlier pass named keep that name. */
  ghost predicate PresetsKept(values: seq<Value>, names: seq<string>)
    requires |names| == |values|
  {
    forall v :: 0 <= v < |values| && names[v] == "" && values[v].kind == Output ==> values[v].preset == ""
  }

  /** The naming of a root output leaves everything else as it is. */
  ghost predicate NamesRoot(values: seq<Value>, a: State, b: State, v: nat)
    requires Sized(values, a) && v < |values|
  {
    values[v].feedsRoot && b == a.(names := a.names[v := values[v].name])
  }

  lemma NamesRootKeeps(values: seq<Value>, a: State, b: State, v: nat)
    requires WellNamed(values) && Invariant(values, a) && v < |values| && NamesRoot(values, a, b, v)
    ensures Invariant(values, b)
  {
    assert v !in a.named && v !in a.held;
    assert forall w :: w in a.held ==> b.names[w] == a.names[w];
    assert Foreign(values, values[v].name);
    assert AllocatedAreTemps(values, b);
    ReleasedKeepsCreated(values, a, b);
    forall s | s != NoShape ensures |CreatedOf(b, s)| == |HeldOf(b, s)| + |Free(b.store, s)| {
      assert CreatedOf(b, s) == CreatedOf(a, s) && HeldOf(b, s) == HeldOf(a, s);
    }
    forall s, u | s != NoShape && u in Free(b.store, s) ensures Waits(b, s, u) {
      assert Waits(a, s, u);
    }
  }

  /** A value without a name is none of the named temporaries. */
  lemma UnnamedIsNew(values: seq<Value>, a: State, v: nat)
    requires WellNamed(values) && Invariant(values, a) && v < |values| && a.names[v] == ""
    ensures v !in a.named
  {
    if v in a.named {
      CreatedIsNotForeign(values, a, a.names[v]);
    }
  }

  /** A point of the walk at which, if nothing was released early, no two live temporaries share a buffer. */
  ghost predicate GoodPoint(values: seq<Value>, steps: seq<Step>, state: State) {
    && Sized(values, state) && state.position <= |steps|
    && (TimelyBelow(values, steps, state.position + 1) ==> NoSharing(values, steps, state))
  }

  lemma TrackedIsGood(values: seq<Value>, steps: seq<Step>, state: State)
    requires IsWalk(values, steps) && Invariant(values, state) && Tracked(values, steps, state) && state.position <= |steps|
    ensures GoodPoint(values, steps, state)
  {
    if TimelyBelow(values, steps, state.position + 1) {
      assert TimelyAt(values, steps, state.position);
      LiveNeverShare(values, steps, state);
    }
  }

  /** Every waiting buffer is available at this time. */
  ghost predicate Ready(store: Store, time: int) {
    forall s, u :: s != NoShape && u in Free(store, s) ==> u.available <= time
  }

  function InitialNames(values: seq<Value>): (r: seq<string>)
    ensures |r| == |values|
    ensures forall v :: 0 <= v < |r| ==> r[v] == if values[v].kind == Parameter then values[v].name else values[v].preset
  {
    seq(|values|, v requires 0 <= v < |values| => if values[v].kind == Parameter then values[v].name else values[v].preset)
  }

  function Zeros(n: nat): (r: seq<nat>)
    ensures |r| == n && forall i :: 0 <= i < n ==> r[i] == 0
  {
    seq(n, i => 0)
  }

  ghost function Start(values: seq<Value>): State {
    State(Store(map[], map[]), InitialNames(values), Zeros(|values|), {}, map[], map[], 0)
  }

  lemma StartIsValid(values: seq<Value>, steps: seq<Step>)
    requires IsWalk(values, steps)
    ensures Invariant(values, Start(values)) && Tracked(values, steps, Start(values)) && PresetsKept(values, InitialNames(values))
    ensures Sufficient([], Start(values)) && Tight([], Start(values))
  {
    var start := Start(values);
    forall v | 0 <= v < |values| ensures Foreign(values, start.names[v]) {
      assert Foreign(values, values[v].preset);
    }
    forall s ensures CreatedOf(start, s) == {} && HeldOf(start, s) == {} {
    }
  }

  ghost predicate Consistent(values: seq<Value>, steps: seq<Step>, state: State, history: seq<State>) {
    && Invariant(values, state) && state.position <= |steps|
    && Sufficient(history, state) && AllGood(values, steps, history)
  }

  ghost predicate AllGood(values: seq<Value>, steps: seq<Step>, history: seq<State>) {
    forall h :: h in history ==> GoodPoint(values, steps, h)
  }

  /** A sound point can be added to the recorded ones. */
  lemma HistoryGrows(values: seq<Value>, steps: seq<Step>, history: seq<State>, state: State)
    requires IsWalk(values, steps) && AllGood(values, steps, history)
    requires Invariant(values, state) && Tracked(values, steps, state) && state.position <= |steps|
    ensures AllGood(values, steps, history + [state])
  {
    TrackedIsGood(values, steps, state);
  }

  lemma NamingKeepsReady(a: State, b: State, shape: ShardedShape, time: int, name: string)
    requires Ready(a.store, time) && PoolsWithout(a, b, name)
    ensures Ready(b.store, time)
  {
    forall s, u | s != NoShape && u in Free(b.store, s) ensures u.available <= time {
      assert u.name != name && u in Free(a.store, s);
    }
  }

  lemma NamedIsNonempty(values: seq<Value>, state: State, v: nat)
    requires WellNamed(values) && Invariant(values, state) && v in state.named
    ensures state.names[v] != ""
  {
    CreatedIsNotForeign(values, state, state.names[v]);
  }

  lemma NamingKeeps(values: seq<Value>, steps: seq<Step>, history: seq<State>, a: State, b: State,
                    v: nat, shape: ShardedShape, time: int, use: Option<BufferUse>)
    requires IsWalk(values, steps) && Consistent(values, steps, a, history) && Tracked(values, steps, a)
    requires v < |values| && Names(values, a, b, v, shape, time, use)
    ensures Consistent(values, steps, b, history + [b]) && Tracked(values, steps, b) && b.names[v] != ""
    ensures Tight(history, a) && Ready(a.store, time) ==> Tight(history + [b], b) && Ready(b.store, time)
  {
    NamesKeepsInvariant(values, a, b, v, shape, time, use);
    NamedIsNonempty(values, b, v);
    HistoryGrows(values, steps, history, b);
    NamesKeepsPeak(values, history, a, b, v, shape, time, use);
    NameIsUnused(values, a, b, v, shape, time, use);
    if Ready(a.store, time) {
      NamingKeepsReady(a, b, shape, time, b.names[v]);
    }
  }

  ghost function Naming(a: State, store: Store, v: nat, shape: ShardedShape, name: string): State
    requires v < |a.names|
  {
    State(store, a.names[v := name], a.visits, a.named + {v}, a.held[v := shape], a.place[name := HeldBy(v)], a.position)
  }

  lemma NamingNames(values: seq<Value>, a: State, store: Store, v: nat, shape: ShardedShape, time: int, name: string, use: Option<BufferUse>)
    requires Sized(values, a) && v < |values| && IsTemp(values[v]) && v !in a.named && shape != NoShape
    requires Allocates(a.store, store, shape, time, values[v].name, name, use)
    ensures Names(values, a, Naming(a, store, v, shape, name), v, shape, time, use)
  {
  }

  lemma AllocationKeeps(values: seq<Value>, steps: seq<Step>, history: seq<State>, a: State, b: State,
                        v: nat, shape: ShardedShape, time: int, use: Option<BufferUse>)
    requires IsWalk(values, steps) && Consistent(values, steps, a, history) && Tracked(values, steps, a)
    requires v < |values| && IsTemp(values[v]) && v !in a.named && shape != NoShape && v < |b.names|
    requires Allocates(a.store, b.store, shape, time, values[v].name, b.names[v], use)
    requires b == Naming(a, b.store, v, shape, b.names[v])
    ensures Names(values, a, b, v, shape, time, use)
    ensures Consistent(values, steps, b, history + [b]) && Tracked(values, steps, b) && b.names[v] != ""
    ensures Tight(history, a) && Ready(a.store, time) ==> Tight(history + [b], b) && Ready(b.store, time)
    ensures PresetsKept(values, a.names) ==> PresetsKept(values, b.names)
  {
    NamingNames(values, a, b.store, v, shape, time, b.names[v], use);
    NamingKeeps(values, steps, history, a, b, v, shape, time, use);
  }

  lemma RootKeeps(values: seq<Value>, steps: seq<Step>, history: seq<State>, a: State, b: State, v: nat)
    requires IsWalk(values, steps) && Consistent(values, steps, a, history) && Tracked(values, steps, a)
    requires v < |values| && NamesRoot(values, a, b, v)
    ensures Consistent(values, steps, b, history) && Tracked(values, steps, b)
    ensures Tight(history, a) ==> Tight(history, b)
  {
    NamesRootKeeps(values, a, b, v);
    SameCounts(history, a, b);
  }

  lemma VisitsKeeps(values: seq<Value>, steps: seq<Step>, history: seq<State>, a: State, b: State, v: nat, time: int)
    requires Consistent(values, steps, a, history) && v < |values| && Visits(values, a, b, v, time)
    ensures Consistent(values, steps, b, history)
    ensures Tight(history, a) ==> Tight(history, b)
    ensures Ready(a.store, time) ==> Ready(b.store, time)
  {
    VisitsKeepsInvariant(values, a, b, v, time);
    if b.visits[v] == values[v].users {
      FreesIsWaiting(a, b, time, a.names[v]);
    }
    SameCounts(history, a, b);
  }

  lemma SameCounts(history: seq<State>, a: State, b: State)
    requires b.place.Keys == a.place.Keys && forall c :: ShapeOf(b.store, c) == ShapeOf(a.store, c)
    ensures Sufficient(history, a) ==> Sufficient(history, b)
    ensures Tight(history, a) ==> Tight(history, b)
  {
    forall s ensures CreatedOf(b, s) == CreatedOf(a, s) {
    }
  }

  // ---- the walk ----

  /** The ghost state agrees with the allocator and the graph. */
  ghost predicate Agrees(state: State, store: Store, names: seq<string>, visits: seq<nat>) {
    state.store == store && state.names == names && state.visits == visits
  }

  /** How one output gets its name: an earlier name stays, the root's outputs keep their own, others are allocated. */
  ghost predicate NamesOutput(values: seq<Value>, a: State, b: State, v: nat, mesh: nat, time: int)
    requires Sized(values, a) && v < |values|
  {
    if a.names[v] != "" then b == a
    else if values[v].feedsRoot then NamesRoot(values, a, b, v)
    else exists use :: Names(values, a, b, v, ShapeOn(values[v], mesh), time, use)
  }

  /** Give an output a scheduling name: its own when the root returns it, otherwise a buffer of its shape. */
  method VisitOutput(values: seq<Value>, ghost steps: seq<Step>, allocator: BufferAllocator, names: seq<string>,
                     time: int, v: nat, mesh: nat, ghost state: State, ghost history: seq<State>)
    returns (newNames: seq<string>, ghost newState: State, ghost newHistory: seq<State>)
    requires IsWalk(values, steps) && Consistent(values, steps, state, history) && Tracked(values, steps, state)
    requires state.store == allocator.Contents() && state.names == names && PresetsKept(values, names)
    requires v < |values| && values[v].kind == Output
    modifies allocator
    ensures Consistent(values, steps, newState, newHistory) && Tracked(values, steps, newState)
    ensures newState.store == allocator.Contents() && newState.names == newNames && PresetsKept(values, newNames)
    ensures newNames[v] != "" && newNames == names[v := newNames[v]]
    ensures newState.visits == state.visits && newState.position == state.position
    ensures NamesOutput(values, state, newState, v, mesh, time)
    ensures names[v] == "" && !values[v].feedsRoot ==> newHistory == history + [newState]
    ensures names[v] != "" || values[v].feedsRoot ==> newHistory == history
    ensures Tight(history, state) && Ready(state.store, time) ==> Tight(newHistory, newState) && Ready(newState.store, time)
  {
    newNames, newState, newHistory := names, state, history;
    if names[v] != "" {
      return;
    }
    UnnamedIsNew(values, state, v);
    if values[v].feedsRoot {
      newNames := names[v := values[v].name];
      newState := state.(names := newNames);
      RootKeeps(values, steps, history, state, newState, v);
    } else {
      var name;
      ghost var use;
      name, use := allocator.AllocateAtTime(ShapeOn(values[v], mesh), time, values[v].name);
      newNames := names[v := name];
      newState := Naming(state, allocator.Contents(), v, ShapeOn(values[v], mesh), name);
      newHistory := history + [newState];
      AllocationKeeps(values, steps, history, state, newState, v, ShapeOn(values[v], mesh), time, use);
    }
  }

  ghost function Parting(a: State, store: Store, v: nat, time: int): State
    requires v < |a.names|
  {
    a.(store := store, held := a.held - {v},
       place := if v in a.held then a.place[a.names[v] := Waiting(BufferUse(a.names[v], time))] else a.place)
  }

  /** Count one more finished user of an operand, and release its buffer after the last one. */
  method FreeOperand(values: seq<Value>, ghost steps: seq<Step>, allocator: BufferAllocator, names: seq<string>, visits: seq<nat>,
                     time: int, v: nat, ghost state: State, ghost history: seq<State>)
    returns (ok: bool, newVisits: seq<nat>, ghost newState: State)
    requires IsWalk(values, steps) && Consistent(values, steps, state, history)
    requires Agrees(state, allocator.Contents(), names, visits) && v < |values|
    modifies allocator
    ensures Agrees(newState, allocator.Contents(), names, newVisits) && Consistent(values, steps, newState, history)
    ensures newState.position == state.position
    ensures ok <==> (values[v].kind == Output ==> names[v] != "")
    ensures ok && values[v].kind == Output ==> Visits(values, state, newState, v, time)
    ensures !ok || values[v].kind != Output ==> newState == state
    ensures Tight(history, state) ==> Tight(history, newState)
    ensures Ready(state.store, time) ==> Ready(newState.store, time)
  {
    ok, newVisits, newState := true, visits, state;
    if values[v].kind == SliceOffset || values[v].kind == Parameter {
      return;
    }
    if names[v] == "" {
      ok := false;
      return;
    }
    newVisits := visits[v := visits[v] + 1];
    newState := state.(visits := newVisits);
    if newVisits[v] == values[v].users {
      allocator.FreeAtTime(time, names[v]);
      newState := Parting(newState, allocator.Contents(), v, time);
    }
    VisitsKeeps(values, steps, history, state, newState, v, time);
  }

  // ---- one call ----

  /** The outputs have names, collected in `outputNames`; values that had a name keep it. */
  ghost predicate OutputsNamed(names: seq<string>, newNames: seq<string>, outputs: seq<nat>, outputNames: set<string>) {
    && |newNames| == |names|
    && (forall v :: 0 <= v < |names| && (v !in outputs || names[v] != "") ==> newNames[v] == names[v])
    && (forall v :: v in outputs ==> v < |names| && newNames[v] != "" && newNames[v] in outputNames)
    && (forall n :: n in outputNames ==> NamesSome(newNames, outputs, n))
  }

  ghost predicate NamesSome(names: seq<string>, outputs: seq<nat>, name: string) {
    exists v :: v in outputs && v < |names| && names[v] == name
  }

  lemma OutputsNamedStep(names: seq<string>, before: seq<string>, after: seq<string>, outputs: seq<nat>, outputNames: set<string>, v: nat)
    requires OutputsNamed(names, before, outputs, outputNames)
    requires v < |names| == |before| == |after| && after == before[v := after[v]] && after[v] != "" && (before[v] != "" ==> after == before)
    ensures OutputsNamed(names, after, outputs + [v], outputNames + {after[v]})
  {
    assert forall w :: w in outputs ==> after[w] == before[w];
    assert forall w :: w in outputs + [v] <==> w in outputs || w == v;
    forall n | n in outputNames + {after[v]} ensures NamesSome(after, outputs + [v], n) {
      if n in outputNames {
        assert NamesSome(before, outputs, n);
        var w :| w in outputs && w < |before| && before[w] == n;
        assert w in outputs + [v] && after[w] == n;
      } else {
        assert v in outputs + [v];
      }
    }
  }

  /** Outputs become available when the call is done. */
  ghost predicate Stamped(available: seq<int>, newAvailable: seq<int>, outputs: seq<nat>, time: int) {
    && |newAvailable| == |available|
    && forall v :: 0 <= v < |available| ==> newAvailable[v] == if v in outputs then time else available[v]
  }

  lemma StampedStep(available: seq<int>, newAvailable: seq<int>, outputs: seq<nat>, time: int, v: nat)
    requires Stamped(available, newAvailable, outputs, time) && v < |available|
    ensures Stamped(available, newAvailable[v := time], outputs + [v], time)
  {
  }

  /** The outputs of a call are named one after the other. */
  ghost predicate NamesInTurn(values: seq<Value>, a: State, b: State, outputs: seq<nat>, mesh: nat, time: int)
    decreases |outputs|
  {
    if outputs == [] then b == a
    else
      var n := |outputs| - 1;
      exists mid ::
        && NamesInTurn(values, a, mid, outputs[..n], mesh, time) && Sized(values, mid) && outputs[n] < |values|
        && NamesOutput(values, mid, b, outputs[n], mesh, time)
  }

  lemma NamesNext(values: seq<Value>, a: State, mid: State, b: State, outputs: seq<nat>, v: nat, mesh: nat, time: int)
    requires NamesInTurn(values, a, mid, outputs, mesh, time) && Sized(values, mid) && v < |values| && NamesOutput(values, mid, b, v, mesh, time)
    ensures NamesInTurn(values, a, b, outputs + [v], mesh, time)
  {
    assert (outputs + [v])[..|outputs|] == outputs;
  }

  method NameOutput(values: seq<Value>, ghost steps: seq<Step>, allocator: BufferAllocator, ghost names: seq<string>, before: seq<string>,
                    ghost outputs: seq<nat>, outputNames: set<string>, start: int, v: nat, mesh: nat,
                    ghost first: State, ghost state: State, ghost history: seq<State>)
    returns (after: seq<string>, allNames: set<string>, ghost newState: State, ghost newHistory: seq<State>)
    requires IsWalk(values, steps) && Consistent(values, steps, state, history) && Tracked(values, steps, state)
    requires state.store == allocator.Contents() && state.names == before && PresetsKept(values, before)
    requires OutputsNamed(names, before, outputs, outputNames) && v < |values| && values[v].kind == Output
    requires NamesInTurn(values, first, state, outputs, mesh, start)
    modifies allocator
    ensures Consistent(values, steps, newState, newHistory) && Tracked(values, steps, newState)
    ensures newState.store == allocator.Contents() && newState.names == after && PresetsKept(values, after)
    ensures newState.visits == state.visits && newState.position == state.position && history <= newHistory
    ensures NamesInTurn(values, first, newState, outputs + [v], mesh, start)
    ensures OutputsNamed(names, after, outputs + [v], allNames)
    ensures Tight(history, state) && Ready(state.store, start) ==> Tight(newHistory, newState) && Ready(newState.store, start)
  {
    after, newState, newHistory := VisitOutput(values, steps, allocator, before, start, v, mesh, state, history);
    OutputsNamedStep(names, before, after, outputs, outputNames, v);
    NamesNext(values, first, state, newState, outputs, v, mesh, start);
    allNames := outputNames + {after[v]};
  }

  method NameOutputs(values: seq<Value>, ghost steps: seq<Step>, allocator: BufferAllocator, names: seq<string>, available: seq<int>,
                     outputs: seq<nat>, start: int, mesh: nat, ghost state: State, ghost history: seq<State>)
    returns (newNames: seq<string>, newAvailable: seq<int>, outputNames: set<string>, ghost newState: State, ghost newHistory: seq<State>)
    requires IsWalk(values, steps) && Consistent(values, steps, state, history) && Tracked(values, steps, state)
    requires state.store == allocator.Contents() && state.names == names && PresetsKept(values, names)
    requires |available| == |values| && forall v :: v in outputs ==> v < |values| && values[v].kind == Output
    modifies allocator
    ensures Consistent(values, steps, newState, newHistory) && Tracked(values, steps, newState)
    ensures newState.store == allocator.Contents() && newState.names == newNames && PresetsKept(values, newNames)
    ensures newState.visits == state.visits && newState.position == state.position && history <= newHistory
    ensures NamesInTurn(values, state, newState, outputs, mesh, start)
    ensures OutputsNamed(names, newNames, outputs, outputNames)
    ensures Stamped(available, newAvailable, outputs, start + 1)
    ensures Tight(history, state) && Ready(state.store, start) ==> Tight(newHistory, newState) && Ready(newState.store, start)
  {
    newNames, newAvailable, outputNames, newState, newHistory := names, available, {}, state, history;
    for i := 0 to |outputs|
      invariant Consistent(values, steps, newState, newHistory) && Tracked(values, steps, newState)
      invariant newState.store == allocator.Contents() && newState.names == newNames && PresetsKept(values, newNames)
      invariant newState.visits == state.visits && newState.position == state.position && history <= newHistory
      invariant NamesInTurn(values, state, newState, outputs[..i], mesh, start)
      invariant OutputsNamed(names, newNames, outputs[..i], outputNames)
      invariant Stamped(available, newAvailable, outputs[..i], start + 1)
      invariant Tight(history, state) && Ready(state.store, start) ==> Tight(newHistory, newState) && Ready(newState.store, start)
    {
      var v := outputs[i];
      TakeNext(outputs, i);
      StampedStep(available, newAvailable, outputs[..i], start + 1, v);
      newAvailable := newAvailable[v := start + 1];
      newNames, outputNames, newState, newHistory :=
        NameOutput(values, steps, allocator, names, newNames, outputs[..i], outputNames, start, v, mesh, state, newState, newHistory);
    }
    TakeAll(outputs);
  }

  /** The first `n` operands of the running step have been counted, unless something was released early. */
  ghost predicate TrackedDuring(values: seq<Value>, steps: seq<Step>, state: State, n: nat)
    requires Sized(values, state) && state.position < |steps| && n <= |Operands(steps[state.position])|
  {
    TimelyBelow(values, steps, state.position + 1) ==>
      forall v :: 0 <= v < |values| && IsTemp(values[v]) ==>
        state.visits[v] == Occurrences(steps, v, state.position) + multiset(Operands(steps[state.position])[..n])[v]
  }

  /** The names that the outputs of a step have. */
  ghost predicate AreOutputNames(values: seq<Value>, steps: seq<Step>, state: State, outputNames: set<string>)
    requires Sized(values, state) && state.position < |steps|
  {
    && (forall o :: o in Outputs(steps[state.position]) && o < |values| ==> state.names[o] != "")
    && (forall c :: c in outputNames <==> NamesSome(state.names, Outputs(steps[state.position]), c))
  }

  /** The outputs of a step do not take the buffers of its own operands, so no visit is skipped. */
  lemma OutputsAvoidOperands(values: seq<Value>, steps: seq<Step>, state: State, x: nat, outputNames: set<string>)
    requires IsWalk(values, steps) && Invariant(values, state) && state.position < |steps|
    requires Tracked(values, steps, state) && TimelyBelow(values, steps, state.position + 1)
    requires AreOutputNames(values, steps, state, outputNames) && x in Operands(steps[state.position])
    ensures x < |values| && (IsTemp(values[x]) ==> state.names[x] !in outputNames)
  {
    var k := state.position;
    if IsTemp(values[x]) && state.names[x] in outputNames {
      assert NamesSome(state.names, Outputs(steps[k]), state.names[x]);
      var o :| o in Outputs(steps[k]) && o < |values| && state.names[o] == state.names[x];
      StillHeld(values, steps, state, x);
      NewlyHeld(values, steps, state, o, state.names[x]);
    }
  }

  /** An operand of the next step is still held. */
  lemma StillHeld(values: seq<Value>, steps: seq<Step>, state: State, x: nat)
    requires IsWalk(values, steps) && Invariant(values, state) && state.position < |steps|
    requires Tracked(values, steps, state) && TimelyBelow(values, steps, state.position + 1)
    requires x < |values| && IsTemp(values[x]) && state.names[x] != "" && x in Operands(steps[state.position])
    ensures x in state.held && state.names[x] in state.place && Uses(steps, x, state.position + 1) > 0
  {
    assert TimelyAt(values, steps, state.position) && UsedFrom(steps, x, state.position);
    assert x in state.named;
  }

  /** An output of the next step that has a created name is held. */
  lemma NewlyHeld(values: seq<Value>, steps: seq<Step>, state: State, o: nat, name: string)
    requires IsWalk(values, steps) && Invariant(values, state) && state.position < |steps|
    requires Exact(values, steps, state)
    requires o in Outputs(steps[state.position]) && o < |values| && state.names[o] == name && name in state.place
    ensures o in state.held && Uses(steps, o, state.position + 1) == 0
  {
    CreatedIsNotForeign(values, state, name);
    assert o in state.named;
    UsesOccur(steps, o, state.position);
    UsesMonotone(steps, o, state.position, state.position + 1);
  }

  lemma TrackedStep(values: seq<Value>, steps: seq<Step>, a: State, b: State, n: nat, x: nat)
    requires IsWalk(values, steps) && Sized(values, a) && Sized(values, b) && a.position == b.position < |steps|
    requires n < |Operands(steps[a.position])| && x == Operands(steps[a.position])[n] && x < |values|
    requires TrackedDuring(values, steps, a, n)
    requires b.visits == a.visits[x := b.visits[x]]
    requires TimelyBelow(values, steps, a.position + 1) && IsTemp(values[x]) ==> b.visits[x] == a.visits[x] + 1
    ensures TrackedDuring(values, steps, b, n + 1)
  {
    var operands := Operands(steps[a.position]);
    forall v: nat ensures multiset(operands[..n + 1])[v] == multiset(operands[..n])[v] + if x == v then 1 else 0 {
      TakeNextCount(operands, n, v);
    }
  }

  lemma TrackedAfter(values: seq<Value>, steps: seq<Step>, a: State)
    requires Sized(values, a) && a.position < |steps|
    requires TrackedDuring(values, steps, a, |Operands(steps[a.position])|)
    ensures Tracked(values, steps, a.(position := a.position + 1))
  {
    var operands := Operands(steps[a.position]);
    assert operands[..|operands|] == operands;
  }

  lemma TrackedBefore(values: seq<Value>, steps: seq<Step>, a: State)
    requires Sized(values, a) && a.position < |steps| && Tracked(values, steps, a)
    ensures TrackedDuring(values, steps, a, 0)
  {
    if TimelyBelow(values, steps, a.position + 1) {
      assert TimelyBelow(values, steps, a.position);
    }
  }

  ghost predicate AllNamed(values: seq<Value>, names: seq<string>, operands: seq<nat>)
    requires |names| == |values|
  {
    forall x :: x in operands && x < |values| && values[x].kind == Output ==> names[x] != ""
  }

  /** How one operand is treated: skipped when an output has its name, otherwise one more of its users is done. */
  ghost predicate ReleasesOperand(values: seq<Value>, a: State, b: State, x: nat, outputs: seq<nat>, time: int)
    requires Sized(values, a) && x < |values|
  {
    if values[x].kind != Output || NamesSome(a.names, outputs, a.names[x]) then b == a else Visits(values, a, b, x, time)
  }

  /** The operands of a call are released one after the other. */
  ghost predicate ReleasesInTurn(values: seq<Value>, a: State, b: State, operands: seq<nat>, outputs: seq<nat>, time: int)
    decreases |operands|
  {
    if operands == [] then b == a
    else
      var n := |operands| - 1;
      exists mid ::
        && ReleasesInTurn(values, a, mid, operands[..n], outputs, time) && Sized(values, mid) && operands[n] < |values|
        && ReleasesOperand(values, mid, b, operands[n], outputs, time)
  }

  lemma ReleasesNext(values: seq<Value>, a: State, mid: State, b: State, operands: seq<nat>, x: nat, outputs: seq<nat>, time: int)
    requires ReleasesInTurn(values, a, mid, operands, outputs, time) && Sized(values, mid) && x < |values|
    requires ReleasesOperand(values, mid, b, x, outputs, time)
    ensures ReleasesInTurn(values, a, b, operands + [x], outputs, time)
  {
    assert (operands + [x])[..|operands|] == operands;
  }

  lemma ReleasesAt(values: seq<Value>, a: State, mid: State, b: State, operands: seq<nat>, n: nat, outputs: seq<nat>, time: int)
    requires n < |operands| && ReleasesInTurn(values, a, mid, operands[..n], outputs, time) && Sized(values, mid) && operands[n] < |values|
    ensures ReleasesOperand(values, mid, b, operands[n], outputs, time) ==> ReleasesInTurn(values, a, b, operands[..n + 1], outputs, time)
  {
    if ReleasesOperand(values, mid, b, operands[n], outputs, time) {
      ReleasesNext(values, a, mid, b, operands[..n], operands[n], outputs, time);
    }
    TakeNext(operands, n);
  }

  lemma ReleasesOne(values: seq<Value>, a: State, b: State, x: nat, outputs: seq<nat>, time: int)
    requires Sized(values, a) && x < |values| && ReleasesOperand(values, a, b, x, outputs, time)
    ensures ReleasesInTurn(values, a, b, [x], outputs, time)
  {
    ReleasesNext(values, a, a, b, [], x, outputs, time);
    assert [] + [x] == [x];
  }

  ghost predicate NoneSkipped(values: seq<Value>, names: seq<string>, operands: seq<nat>, outputNames: set<string>)
    requires |names| == |values|
  {
    forall x :: x in operands ==> x < |values| && (IsTemp(values[x]) ==> names[x] !in outputNames)
  }

  method ReleaseOperand(values: seq<Value>, ghost steps: seq<Step>, allocator: BufferAllocator, names: seq<string>, visits: seq<nat>,
                        ghost n: nat, x: nat, outputNames: set<string>, done: int, ghost first: State, ghost state: State, ghost history: seq<State>)
    returns (ok: bool, newVisits: seq<nat>, ghost newState: State)
    requires IsWalk(values, steps) && Consistent(values, steps, state, history)
    requires Agrees(state, allocator.Contents(), names, visits) && state.position < |steps| && AreOutputNames(values, steps, state, outputNames)
    requires n < |Operands(steps[state.position])| && x == Operands(steps[state.position])[n] && x < |values|
    requires TrackedDuring(values, steps, state, n)
    requires ReleasesInTurn(values, first, state, Operands(steps[state.position])[..n], Outputs(steps[state.position]), done)
    requires TimelyBelow(values, steps, state.position + 1) && IsTemp(values[x]) ==> names[x] !in outputNames
    modifies allocator
    ensures Consistent(values, steps, newState, history) && newState.position == state.position
    ensures Agrees(newState, allocator.Contents(), names, newVisits)
    ensures ok ==> TrackedDuring(values, steps, newState, n + 1)
    ensures ok ==> ReleasesInTurn(values, first, newState, Operands(steps[state.position])[..n + 1], Outputs(steps[state.position]), done)
    ensures (values[x].kind == Output ==> names[x] != "") ==> ok
    ensures Tight(history, state) ==> Tight(history, newState)
    ensures Ready(state.store, done) ==> Ready(newState.store, done)
  {
    ok, newVisits, newState := true, visits, state;
    if names[x] !in outputNames {
      ok, newVisits, newState := FreeOperand(values, steps, allocator, names, visits, done, x, state, history);
      if !ok {
        return;
      }
    }
    TrackedStep(values, steps, state, newState, n, x);
    ReleasesAt(values, first, state, newState, Operands(steps[state.position]), n, Outputs(steps[state.position]), done);
  }

  method ReleaseOperands(values: seq<Value>, ghost steps: seq<Step>, allocator: BufferAllocator, names: seq<string>, visits: seq<nat>,
                         operands: seq<nat>, outputNames: set<string>, done: int, ghost state: State, ghost history: seq<State>)
    returns (ok: bool, newVisits: seq<nat>, ghost newState: State)
    requires IsWalk(values, steps) && Consistent(values, steps, state, history) && Tracked(values, steps, state)
    requires Agrees(state, allocator.Contents(), names, visits)
    requires state.position < |steps| && operands == Operands(steps[state.position])
    requires AreOutputNames(values, steps, state, outputNames)
    modifies allocator
    ensures Consistent(values, steps, newState, history) && newState.position == state.position
    ensures Agrees(newState, allocator.Contents(), names, newVisits)
    ensures ok ==> TrackedDuring(values, steps, newState, |operands|)
    ensures ok ==> ReleasesInTurn(values, state, newState, operands, Outputs(steps[state.position]), done)
    ensures AllNamed(values, names, operands) ==> ok
    ensures Tight(history, state) ==> Tight(history, newState)
    ensures Ready(state.store, done) ==> Ready(newState.store, done)
  {
    ok, newVisits, newState := true, visits, state;
    TrackedBefore(values, steps, state);
    StepInRange(values, steps, state.position);
    NothingSkipped(values, steps, state, outputNames);
    for i := 0 to |operands|
      invariant Consistent(values, steps, newState, history) && newState.position == state.position
      invariant Agrees(newState, allocator.Contents(), names, newVisits)
      invariant TrackedDuring(values, steps, newState, i)
      invariant ReleasesInTurn(values, state, newState, operands[..i], Outputs(steps[state.position]), done)
      invariant Tight(history, state) ==> Tight(history, newState)
      invariant Ready(state.store, done) ==> Ready(newState.store, done)
    {
      var x := operands[i];
      TakeNext(operands, i);
      ok, newVisits, newState := ReleaseOperand(values, steps, allocator, names, newVisits, i, x, outputNames, done, state, newState, history);
      if !ok {
        return;
      }
    }
    TakeAll(operands);
  }

  lemma NothingSkipped(values: seq<Value>, steps: seq<Step>, state: State, outputNames: set<string>)
    requires IsWalk(values, steps) && Invariant(values, state) && state.position < |steps|
    requires Tracked(values, steps, state) && AreOutputNames(values, steps, state, outputNames)
    ensures TimelyBelow(values, steps, state.position + 1) ==> NoneSkipped(values, state.names, Operands(steps[state.position]), outputNames)
  {
    if TimelyBelow(values, steps, state.position + 1) {
      forall x | x in Operands(steps[state.position]) ensures x < |values| && (IsTemp(values[x]) ==> state.names[x] !in outputNames) {
        OutputsAvoidOperands(values, steps, state, x, outputNames);
      }
    }
  }

  // ---- whole steps ----

  /** The end of a step: one more step is done, and this point is recorded. */
  lemma StepEnds(values: seq<Value>, steps: seq<Step>, state: State, history: seq<State>)
    requires IsWalk(values, steps) && Consistent(values, steps, state, history) && state.position < |steps|
    requires TrackedDuring(values, steps, state, |Operands(steps[state.position])|)
    ensures var after := state.(position := state.position + 1);
            && Consistent(values, steps, after, history + [after]) && Tracked(values, steps, after)
            && (Tight(history, state) ==> Tight(history + [after], after))
  {
    var after := state.(position := state.position + 1);
    SameStoreKeeps(values, state, after);
    TrackedAfter(values, steps, state);
    HistoryGrows(values, steps, history, after);
    SameCounts(history, state, after);
    forall s | s != NoShape
      ensures Peak(history + [after], s) <= |CreatedOf(after, s)|
      ensures Tight(history, after) ==> |CreatedOf(after, s)| == Peak(history + [after], s)
    {
      PeakAppend(history, after, s);
    }
  }

  /** The latest of the mesh's time and the operands' times. */
  method Latest(available: seq<int>, ready: int, operands: seq<nat>) returns (start: int)
    ensures start == StartTime(available, ready, operands)
  {
    start := ready;
    for i := 0 to |operands|
      invariant start == StartTime(available, ready, operands[..i])
    {
      assert operands[..i + 1][..i] == operands[..i];
      start := Max(AvailableAt(available, operands[i]), start);
    }
    assert operands[..|operands|] == operands;
  }

  lemma ReadyLater(store: Store, time: int, later: int)
    requires Ready(store, time) && time <= later
    ensures Ready(store, later)
  {
    forall s, u | s != NoShape && u in Free(store, s) ensures u.available <= later {
    }
  }

  lemma NamedOutputs(names: seq<string>, newNames: seq<string>, outputs: seq<nat>, outputNames: set<string>)
    requires OutputsNamed(names, newNames, outputs, outputNames)
    ensures forall o :: o in outputs && o < |newNames| ==> newNames[o] != ""
    ensures forall c :: c in outputNames <==> NamesSome(newNames, outputs, c)
    ensures SomeNamed(names, newNames, outputs)
    ensures forall v :: 0 <= v < |names| && names[v] != "" ==> newNames[v] != ""
  {
  }

  /** The outputs have names and no name was taken away. */
  ghost predicate SomeNamed(names: seq<string>, newNames: seq<string>, outputs: seq<nat>) {
    exists outputNames :: OutputsNamed(names, newNames, outputs, outputNames)
  }

  lemma StepInRange(values: seq<Value>, steps: seq<Step>, k: nat)
    requires IsWalk(values, steps) && k < |steps|
    ensures forall v :: v in Outputs(steps[k]) ==> v < |values| && values[v].kind == Output
    ensures forall v :: v in Operands(steps[k]) ==> v < |values|
  {
  }

  /** A call names its outputs, then releases its operands. */
  ghost predicate CallRuns(values: seq<Value>, step: Step, mesh: nat, start: int, a: State, b: State)
    requires step.Call?
  {
    exists named :: CallPasses(values, step, mesh, start, a, named, b)
  }

  ghost predicate CallPasses(values: seq<Value>, step: Step, mesh: nat, start: int, a: State, named: State, b: State)
    requires step.Call?
  {
    && NamesInTurn(values, a, named, step.outputs, mesh, start)
    && ReleasesInTurn(values, named, b, step.operands, step.outputs, start + 1)
  }

  /** Name the outputs of a call at its start, then release what its operands no longer need. */
  method RunCall(values: seq<Value>, ghost steps: seq<Step>, allocator: BufferAllocator, step: Step, mesh: nat, start: int,
                 names: seq<string>, visits: seq<nat>, available: seq<int>, ghost state: State, ghost history: seq<State>)
    returns (ok: bool, newNames: seq<string>, newVisits: seq<nat>, newAvailable: seq<int>, ghost newState: State, ghost newHistory: seq<State>)
    requires IsWalk(values, steps) && Consistent(values, steps, state, history) && Tracked(values, steps, state)
    requires Agrees(state, allocator.Contents(), names, visits) && PresetsKept(values, names) && |available| == |values|
    requires state.position < |steps| && step == steps[state.position] && step.Call?
    modifies allocator
    ensures Consistent(values, steps, newState, newHistory) && history <= newHistory
    ensures Agrees(newState, allocator.Contents(), newNames, newVisits) && PresetsKept(values, newNames)
    ensures newState.position == state.position
    ensures ok ==> TrackedDuring(values, steps, newState, |Operands(step)|)
    ensures ok ==> CallRuns(values, step, mesh, start, state, newState)
    ensures Stamped(available, newAvailable, step.outputs, start + 1)
    ensures SomeNamed(names, newNames, step.outputs)
    ensures AllNamed(values, names, step.operands) ==> ok
    ensures Tight(history, state) && Ready(state.store, start) ==> Tight(newHistory, newState) && Ready(newState.store, start + 1)
  {
    StepInRange(values, steps, state.position);
    var outputNames;
    newNames, newAvailable, outputNames, newState, newHistory :=
      NameOutputs(values, steps, allocator, names, available, step.outputs, start, mesh, state, history);
    ghost var named := newState;
    NamedOutputs(names, newNames, step.outputs, outputNames);
    if Ready(newState.store, start) {
      ReadyLater(newState.store, start, start + 1);
    }
    ok, newVisits, newState :=
      ReleaseOperands(values, steps, allocator, newNames, visits, step.operands, outputNames, start + 1, newState, newHistory);
    assert ok ==> CallPasses(values, step, mesh, start, state, named, newState);
  }

  /** A reshard names its output, then releases its operand. */
  ghost predicate ReshardRuns(values: seq<Value>, step: Step, mesh: nat, start: int, a: State, b: State)
    requires step.Reshard?
  {
    exists named :: ReshardPasses(values, step, mesh, start, a, named, b)
  }

  ghost predicate ReshardPasses(values: seq<Value>, step: Step, mesh: nat, start: int, a: State, named: State, b: State)
    requires step.Reshard?
  {
    && NamesInTurn(values, a, named, [step.output], mesh, start)
    && ReleasesInTurn(values, named, b, [step.operand], [], start + 2)
  }

  /** A transfer reads a parameter or a value with a color. */
  ghost predicate ReadsColored(values: seq<Value>, step: Step) {
    step.Reshard? ==> step.operand < |values| && (values[step.operand].kind == Parameter || values[step.operand].colored)
  }

  /** Release the operand of a reshard, unless it is a parameter. */
  method ReleaseSource(values: seq<Value>, ghost steps: seq<Step>, allocator: BufferAllocator, step: Step, names: seq<string>, visits: seq<nat>,
                       done: int, ghost state: State, ghost history: seq<State>)
    returns (ok: bool, newVisits: seq<nat>, ghost newState: State)
    requires IsWalk(values, steps) && Consistent(values, steps, state, history) && Tracked(values, steps, state)
    requires Agrees(state, allocator.Contents(), names, visits)
    requires state.position < |steps| && step == steps[state.position] && step.Reshard? && step.operand < |values|
    modifies allocator
    ensures Consistent(values, steps, newState, history) && newState.position == state.position
    ensures Agrees(newState, allocator.Contents(), names, newVisits)
    ensures ok ==> TrackedDuring(values, steps, newState, 1)
    ensures ok ==> ReleasesInTurn(values, state, newState, [step.operand], [], done)
    ensures ok ==> ReadsColored(values, step)
    ensures AllNamed(values, names, [step.operand]) && (values[step.operand].kind == Parameter || values[step.operand].colored) ==> ok
  {
    ok, newVisits, newState := true, visits, state;
    TrackedBefore(values, steps, state);
    assert step.operand in [step.operand];
    if values[step.operand].kind != Parameter {
      if !values[step.operand].colored {
        ok := false;
        return;
      }
      ok, newVisits, newState := FreeOperand(values, steps, allocator, names, visits, done, step.operand, state, history);
      if !ok {
        return;
      }
    }
    TrackedStep(values, steps, state, newState, 0, step.operand);
    ReleasesOne(values, state, newState, step.operand, [], done);
  }

  /** Name the output of a reshard when its operand is ready; the transfer takes two time units. */
  method RunReshard(values: seq<Value>, ghost steps: seq<Step>, allocator: BufferAllocator, step: Step, mesh: nat, start: int,
                    names: seq<string>, visits: seq<nat>, ghost state: State, ghost history: seq<State>)
    returns (ok: bool, newNames: seq<string>, newVisits: seq<nat>, ghost newState: State, ghost newHistory: seq<State>)
    requires IsWalk(values, steps) && Consistent(values, steps, state, history) && Tracked(values, steps, state)
    requires Agrees(state, allocator.Contents(), names, visits) && PresetsKept(values, names)
    requires state.position < |steps| && step == steps[state.position] && step.Reshard?
    requires step.operand < |values| && step.output < |values|
    modifies allocator
    ensures Consistent(values, steps, newState, newHistory) && history <= newHistory
    ensures Agrees(newState, allocator.Contents(), newNames, newVisits) && PresetsKept(values, newNames)
    ensures newState.position == state.position
    ensures ok ==> TrackedDuring(values, steps, newState, |Operands(step)|)
    ensures ok ==> ReshardRuns(values, step, mesh, start, state, newState) && ReadsColored(values, step)
    ensures SomeNamed(names, newNames, [step.output])
    ensures AllNamed(values, names, [step.operand]) && (values[step.operand].kind == Parameter || values[step.operand].colored) ==> ok
  {
    StepInRange(values, steps, state.position);
    assert step.output in Outputs(step) && step.operand in [step.operand];
    var outputNames;
    newNames, outputNames, newState, newHistory :=
      NameOutput(values, steps, allocator, names, names, [], {}, start, step.output, mesh, state, state, history);
    assert [] + [step.output] == [step.output];
    assert SomeNamed(names, newNames, [step.output]);
    if AllNamed(values, names, [step.operand]) {
      StaysNamed(values, names, newNames, [step.output], [step.operand]);
    }
    ghost var named := newState;
    ok, newVisits, newState := ReleaseSource(values, steps, allocator, step, newNames, visits, start + 2, newState, newHistory);
    assert ok ==> ReshardPasses(values, step, mesh, start, state, named, newState);
  }

  lemma StaysNamed(values: seq<Value>, names: seq<string>, newNames: seq<string>, outputs: seq<nat>, operands: seq<nat>)
    requires |names| == |values| == |newNames| && SomeNamed(names, newNames, outputs) && AllNamed(values, names, operands)
    ensures AllNamed(values, newNames, operands)
  {
    var outputNames :| OutputsNamed(names, newNames, outputs, outputNames);
  }

  // ---- the pass ----

  /** An earlier pass or one of the first `n` steps names the value. */
  ghost predicate Provided(values: seq<Value>, steps: seq<Step>, v: nat, n: nat)
    requires v < |values| && n <= |steps|
  {
    values[v].preset != "" || exists j :: 0 <= j < n && v in Outputs(steps[j])
  }

  ghost predicate ProvidedAreNamed(values: seq<Value>, steps: seq<Step>, names: seq<string>, n: nat)
    requires |names| == |values| && n <= |steps|
  {
    forall v :: 0 <= v < |values| && values[v].kind == Output && Provided(values, steps, v, n) ==> names[v] != ""
  }

  /** Every step has a color, and every operand that needs a name gets one before it is used. */
  ghost predicate IsComplete(values: seq<Value>, steps: seq<Step>)
    requires IsWalk(values, steps)
  {
    forall k :: 0 <= k < |steps| ==> StepIsComplete(values, steps, k)
  }

  ghost predicate StepIsComplete(values: seq<Value>, steps: seq<Step>, k: nat)
    requires IsWalk(values, steps) && k < |steps|
  {
    && steps[k].devices.Some?
    && (forall v :: v in Operands(steps[k]) && values[v].kind == Output ==> Provided(values, steps, v, k))
    && (forall v :: v in Operands(steps[k]) && steps[k].Reshard? ==> values[v].kind == Parameter || values[v].colored)
  }

  lemma ProvidedStep(values: seq<Value>, steps: seq<Step>, names: seq<string>, newNames: seq<string>, n: nat)
    requires n < |steps| && |names| == |values| == |newNames| && ProvidedAreNamed(values, steps, names, n)
    requires SomeNamed(names, newNames, Outputs(steps[n]))
    ensures ProvidedAreNamed(values, steps, newNames, n + 1)
  {
    var outputNames :| OutputsNamed(names, newNames, Outputs(steps[n]), outputNames);
    forall v | 0 <= v < |values| && values[v].kind == Output && Provided(values, steps, v, n + 1) ensures newNames[v] != "" {
      if v !in Outputs(steps[n]) {
        assert Provided(values, steps, v, n);
      }
    }
  }

  lemma CompleteIsNamed(values: seq<Value>, steps: seq<Step>, names: seq<string>, k: nat)
    requires IsWalk(values, steps) && k < |steps| && |names| == |values| && ProvidedAreNamed(values, steps, names, k)
    ensures IsComplete(values, steps) ==> steps[k].devices.Some?
    ensures IsComplete(values, steps) && steps[k].Call? ==> AllNamed(values, names, steps[k].operands)
    ensures IsComplete(values, steps) && steps[k].Reshard? ==>
              && steps[k].operand < |values| && AllNamed(values, names, [steps[k].operand])
              && (values[steps[k].operand].kind == Parameter || values[steps[k].operand].colored)
  {
    if IsComplete(values, steps) {
      assert StepIsComplete(values, steps, k);
      assert steps[k].Reshard? ==> steps[k].operand in Operands(steps[k]);
    }
  }

  /** Only calls, all on one mesh. */
  ghost predicate SingleMesh(steps: seq<Step>, mesh: nat) {
    forall k :: 0 <= k < |steps| ==> steps[k].Call? && steps[k].devices == Some(mesh)
  }

  /** Every waiting buffer and every value is ready when the mesh is, and no buffer was made in vain. */
  ghost predicate Immediate(state: State, history: seq<State>, available: seq<int>, ready: int) {
    ready >= 0 && Tight(history, state) && Ready(state.store, ready) && NoneLater(available, ready)
  }

  ghost predicate NoneLater(available: seq<int>, ready: int) {
    forall v :: 0 <= v < |available| ==> available[v] <= ready
  }

  lemma StartOnSingleMesh(available: seq<int>, ready: int, operands: seq<nat>)
    requires NoneLater(available, ready) && ready >= 0
    ensures StartTime(available, ready, operands) == ready
  {
  }

  lemma StampedNoneLater(available: seq<int>, newAvailable: seq<int>, outputs: seq<nat>, ready: int)
    requires NoneLater(available, ready) && Stamped(available, newAvailable, outputs, ready + 1)
    ensures NoneLater(newAvailable, ready + 1)
  {
  }

  lemma StampedOne(available: seq<int>, v: nat, time: int)
    requires v < |available|
    ensures Stamped(available, available[v := time], [v], time)
  {
  }

  lemma ReshardInRange(values: seq<Value>, steps: seq<Step>, k: nat)
    requires IsWalk(values, steps) && k < |steps| && steps[k].Reshard?
    ensures steps[k].operand < |values| && steps[k].output < |values|
  {
    assert steps[k].operand in Operands(steps[k]) && steps[k].output in Outputs(steps[k]);
  }

  /** The maps that the walk updates. */
  datatype Progress = Progress(names: seq<string>, visits: seq<nat>, available: seq<int>, timeOnMesh: map<nat, int>)

  /** Between steps: the ghost state agrees with the maps, and everything that should have a name has one. */
  ghost predicate Settled(values: seq<Value>, steps: seq<Step>, progress: Progress, store: Store, state: State, k: nat)
    requires k <= |steps|
  {
    && Sized(values, state) && Tracked(values, steps, state) && state.position == k
    && Agrees(state, store, progress.names, progress.visits) && PresetsKept(values, progress.names)
    && |progress.available| == |values|
    && ProvidedAreNamed(values, steps, progress.names, k)
  }

  /** What is known when the operands of a step are released. */
  ghost predicate Finished(values: seq<Value>, steps: seq<Step>, names: seq<string>, progress: Progress, store: Store, state: State, history: seq<State>) {
    && Consistent(values, steps, state, history) && state.position < |steps|
    && TrackedDuring(values, steps, state, |Operands(steps[state.position])|)
    && Agrees(state, store, progress.names, progress.visits) && PresetsKept(values, progress.names)
    && |names| == |values| == |progress.available| && ProvidedAreNamed(values, steps, names, state.position)
    && SomeNamed(names, progress.names, Outputs(steps[state.position]))
  }

  lemma StepDone(values: seq<Value>, steps: seq<Step>, names: seq<string>, progress: Progress, store: Store,
                 state: State, history: seq<State>, after: State)
    requires IsWalk(values, steps) && after == state.(position := state.position + 1)
    ensures Finished(values, steps, names, progress, store, state, history) ==>
              && Consistent(values, steps, after, history + [after]) && Settled(values, steps, progress, store, after, after.position)
              && (Tight(history, state) ==> Tight(history + [after], after))
  {
    if Finished(values, steps, names, progress, store, state, history) {
      StepEnds(values, steps, state, history);
      ProvidedStep(values, steps, names, progress.names, state.position);
    }
  }

  /** The time at which the step starts and the time at which its outputs are available. */
  ghost predicate Timed(step: Step, before: Progress, after: Progress)
    requires step.devices.Some?
  {
    if step.Call? then
      var start := StartTime(before.available, TimeOn(before.timeOnMesh, step.devices.value), step.operands);
      && Stamped(before.available, after.available, step.outputs, start + 1)
      && after.timeOnMesh == before.timeOnMesh[step.devices.value := start + 1]
    else
      && Stamped(before.available, after.available, [step.output], AvailableAt(before.available, step.operand) + 2)
      && after.timeOnMesh == before.timeOnMesh
  }

  /** One step of the walk: its times, and what it does to names and buffers. */
  ghost predicate StepRuns(values: seq<Value>, step: Step, before: Progress, after: Progress, a: State, b: State) {
    && step.devices.Some? && ReadsColored(values, step) && Timed(step, before, after) && b.position == a.position + 1
    && StepChanges(values, step, before, a, b.(position := a.position))
  }

  ghost predicate StepChanges(values: seq<Value>, step: Step, before: Progress, a: State, b: State)
    requires step.devices.Some?
  {
    var mesh := step.devices.value;
    if step.Call? then CallRuns(values, step, mesh, StartTime(before.available, TimeOn(before.timeOnMesh, mesh), step.operands), a, b)
    else ReshardRuns(values, step, mesh, AvailableAt(before.available, step.operand), a, b)
  }

  lemma CallStepRuns(values: seq<Value>, step: Step, before: Progress, after: Progress, a: State, b: State, start: int)
    requires step.Call? && step.devices.Some? && start == StartTime(before.available, TimeOn(before.timeOnMesh, step.devices.value), step.operands)
    ensures Timed(step, before, after) && b.position == a.position && CallRuns(values, step, step.devices.value, start, a, b) ==>
              StepRuns(values, step, before, after, a, b.(position := b.position + 1))
  {
    assert b.position == a.position ==> b.(position := b.position + 1).(position := a.position) == b;
  }

  lemma ReshardStepRuns(values: seq<Value>, step: Step, before: Progress, after: Progress, a: State, b: State, start: int)
    requires step.Reshard? && step.devices.Some? && start == AvailableAt(before.available, step.operand)
    ensures ReadsColored(values, step) && Timed(step, before, after) && b.position == a.position &&
            ReshardRuns(values, step, step.devices.value, start, a, b) ==>
              StepRuns(values, step, before, after, a, b.(position := b.position + 1))
  {
    assert b.position == a.position ==> b.(position := b.position + 1).(position := a.position) == b;
  }

  method VisitCall(values: seq<Value>, ghost steps: seq<Step>, allocator: BufferAllocator, step: Step, progress: Progress,
                   ghost k: nat, ghost state: State, ghost history: seq<State>)
    returns (ok: bool, after: Progress, ghost newState: State, ghost newHistory: seq<State>)
    requires IsWalk(values, steps) && k < |steps| && step == steps[k] && step.Call? && step.devices.Some?
    requires Consistent(values, steps, state, history) && Settled(values, steps, progress, allocator.Contents(), state, k)
    modifies allocator
    ensures Consistent(values, steps, newState, newHistory) && history <= newHistory
    ensures ok ==> StepRuns(values, step, progress, after, state, newState)
    ensures ok ==> Settled(values, steps, after, allocator.Contents(), newState, k + 1)
    ensures AllNamed(values, progress.names, step.operands) ==> ok
    ensures ok && Immediate(state, history, progress.available, TimeOn(progress.timeOnMesh, step.devices.value)) ==>
              Immediate(newState, newHistory, after.available, TimeOn(after.timeOnMesh, step.devices.value))
  {
    StepInRange(values, steps, k);
    var mesh := step.devices.value;
    var start := Latest(progress.available, TimeOn(progress.timeOnMesh, mesh), step.operands);
    ghost var immediate := Immediate(state, history, progress.available, TimeOn(progress.timeOnMesh, mesh));
    var names, visits, available;
    ok, names, visits, available, newState, newHistory :=
      RunCall(values, steps, allocator, step, mesh, start, progress.names, progress.visits, progress.available, state, history);
    after := Progress(names, visits, available, progress.timeOnMesh[mesh := start + 1]);
    if ok {
      ghost var done := newState.(position := newState.position + 1);
      StepDone(values, steps, progress.names, after, allocator.Contents(), newState, newHistory, done);
      CallStepRuns(values, step, progress, after, state, newState, start);
      newState, newHistory := done, newHistory + [done];
      if immediate {
        StartOnSingleMesh(progress.available, TimeOn(progress.timeOnMesh, mesh), step.operands);
        StampedNoneLater(progress.available, available, step.outputs, start);
      }
    }
  }

  method VisitReshard(values: seq<Value>, ghost steps: seq<Step>, allocator: BufferAllocator, step: Step, progress: Progress,
                      ghost k: nat, ghost state: State, ghost history: seq<State>)
    returns (ok: bool, after: Progress, ghost newState: State, ghost newHistory: seq<State>)
    requires IsWalk(values, steps) && k < |steps| && step == steps[k] && step.Reshard? && step.devices.Some?
    requires Consistent(values, steps, state, history) && Settled(values, steps, progress, allocator.Contents(), state, k)
    modifies allocator
    ensures Consistent(values, steps, newState, newHistory) && history <= newHistory
    ensures ok ==> StepRuns(values, step, progress, after, state, newState)
    ensures ok ==> Settled(values, steps, after, allocator.Contents(), newState, k + 1)
    ensures step.operand < |values|
    ensures AllNamed(values, progress.names, [step.operand]) && (values[step.operand].kind == Parameter || values[step.operand].colored) ==> ok
  {
    ReshardInRange(values, steps, k);
    var start := AvailableAt(progress.available, step.operand);
    var names, visits;
    ok, names, visits, newState, newHistory :=
      RunReshard(values, steps, allocator, step, step.devices.value, start, progress.names, progress.visits, state, history);
    after := Progress(names, visits, progress.available[step.output := start + 2], progress.timeOnMesh);
    StampedOne(progress.available, step.output, start + 2);
    if ok {
      ghost var done := newState.(position := newState.position + 1);
      StepDone(values, steps, progress.names, after, allocator.Contents(), newState, newHistory, done);
      ReshardStepRuns(values, step, progress, after, state, newState, start);
      newState, newHistory := done, newHistory + [done];
    }
  }

  lemma SingleMeshStep(steps: seq<Step>, mesh: nat, k: nat)
    requires SingleMesh(steps, mesh) && k < |steps|
    ensures steps[k].Call? && steps[k].devices == Some(mesh)
  {
  }

  /** A point between two steps. */
  datatype Point = Point(state: State, progress: Progress)

  function StartProgress(values: seq<Value>): Progress {
    Progress(InitialNames(values), Zeros(|values|), Zeros(|values|), map[])
  }

  /** A run so far: it begins at the start, and each point follows from the one before by one step. */
  ghost predicate IsRun(values: seq<Value>, steps: seq<Step>, run: seq<Point>) {
    && 0 < |run| <= |steps| + 1 && run[0] == Point(Start(values), StartProgress(values))
    && forall k :: 0 <= k < |run| - 1 ==> RunsAt(values, steps, run, k)
  }

  ghost predicate RunsAt(values: seq<Value>, steps: seq<Step>, run: seq<Point>, k: nat)
    requires k < |run| - 1 && |run| <= |steps| + 1
  {
    StepRuns(values, steps[k], run[k].progress, run[k + 1].progress, run[k].state, run[k + 1].state)
  }

  lemma RunGrows(values: seq<Value>, steps: seq<Step>, run: seq<Point>, next: Point)
    requires 0 < |run| <= |steps|
    ensures IsRun(values, steps, run) && StepRuns(values, steps[|run| - 1], run[|run| - 1].progress, next.progress, run[|run| - 1].state, next.state) ==>
              IsRun(values, steps, run + [next])
    ensures SoundSoFar(values, steps, run) && SoundAt(values, steps, next.state, |run|) ==> SoundSoFar(values, steps, run + [next])
  {
    if IsRun(values, steps, run) && StepRuns(values, steps[|run| - 1], run[|run| - 1].progress, next.progress, run[|run| - 1].state, next.state) {
      forall k | 0 <= k < |run| ensures RunsAt(values, steps, run + [next], k) {
        assert k < |run| - 1 ==> RunsAt(values, steps, run, k);
      }
    }
  }

  ghost function States(run: seq<Point>): (r: seq<State>)
    ensures |r| == |run| && forall k :: 0 <= k < |r| ==> r[k] == run[k].state
  {
    seq(|run|, k requires 0 <= k < |run| => run[k].state)
  }

  /** The invariants hold at every point of the run. */
  ghost predicate SoundSoFar(values: seq<Value>, steps: seq<Step>, run: seq<Point>) {
    forall k :: 0 <= k < |run| ==> SoundAt(values, steps, run[k].state, k)
  }

  ghost predicate SoundAt(values: seq<Value>, steps: seq<Step>, state: State, k: nat) {
    Invariant(values, state) && state.position == k && Tracked(values, steps, state)
  }

  lemma SoundRun(values: seq<Value>, steps: seq<Step>, run: seq<Point>)
    requires SoundSoFar(values, steps, run) && |run| == |steps| + 1
    ensures SoundPoints(values, steps, States(run))
  {
    forall k | 0 <= k < |run| ensures Invariant(values, States(run)[k]) && States(run)[k].position == k && Tracked(values, steps, States(run)[k]) {
      assert SoundAt(values, steps, run[k].state, k);
    }
  }

  /** Nothing released early, so no recorded point has live temporaries that share a buffer. */
  lemma TimelyIsGood(values: seq<Value>, steps: seq<Step>, history: seq<State>)
    requires AllGood(values, steps, history) && Timely(values, steps)
    ensures forall h :: h in history ==> Sized(values, h) && NoSharing(values, steps, h)
  {
    forall h | h in history ensures Sized(values, h) && NoSharing(values, steps, h) {
      assert GoodPoint(values, steps, h);
      assert TimelyAt(values, steps, |steps|);
    }
  }

  /**
   * Names every buffer. Buffers are held exactly while they are needed if and only if no value is read
   * so often before its last user that its users are used up; then no two temporaries that still have a
   * user to come share a buffer at any recorded point: after every name given out and after every step.
   * On a single mesh without reshards the buffers created of each shape are exactly the most that were
   * held at once.
   */
  method Run(values: seq<Value>, steps: seq<Step>)
    returns (r: Result<seq<string>>, ghost last: State, ghost history: seq<State>, ghost run: seq<Point>)
    requires IsWalk(values, steps)
    ensures Timely(values, steps) ==> forall h :: h in history ==> Sized(values, h) && NoSharing(values, steps, h)
    ensures Invariant(values, last) && Sufficient(history, last)
    ensures IsRun(values, steps, run) && SoundSoFar(values, steps, run)
    ensures r.Success? ==> |run| == |steps| + 1 && last == run[|steps|].state && last.names == r.value
    ensures r.Success? ==> (AlwaysHeldWhileLive(values, steps, States(run)) <==> Timely(values, steps))
    ensures IsComplete(values, steps) ==> r.Success?
    ensures r.Success? ==> forall mesh :: SingleMesh(steps, mesh) ==> Tight(history, last)
  {
    r, last, history, run := Walk(values, steps);
    if Timely(values, steps) {
      TimelyIsGood(values, steps, history);
    }
    if r.Success? {
      SoundRun(values, steps, run);
      HeldWhileLiveIff(values, steps, States(run));
    }
  }

  /** One step, whichever it is; it fails when the instruction has no color or an operand has no name. */
  method VisitStep(values: seq<Value>, ghost steps: seq<Step>, allocator: BufferAllocator, step: Step, progress: Progress,
                   ghost k: nat, ghost state: State, ghost history: seq<State>)
    returns (ok: bool, after: Progress, ghost newState: State, ghost newHistory: seq<State>)
    requires IsWalk(values, steps) && k < |steps| && step == steps[k]
    requires Consistent(values, steps, state, history) && Settled(values, steps, progress, allocator.Contents(), state, k)
    modifies allocator
    ensures Consistent(values, steps, newState, newHistory)
    ensures ok ==> StepRuns(values, step, progress, after, state, newState) && SoundAt(values, steps, newState, k + 1)
    ensures ok ==> Settled(values, steps, after, allocator.Contents(), newState, k + 1)
    ensures IsComplete(values, steps) ==> ok
    ensures ok ==> ImmediateOn(steps, state, history, progress) ==> ImmediateOn(steps, newState, newHistory, after)
  {
    CompleteIsNamed(values, steps, progress.names, k);
    if step.devices == None {
      return false, progress, state, history;
    }
    if step.Call? {
      ok, after, newState, newHistory := VisitCall(values, steps, allocator, step, progress, k, state, history);
    } else {
      ok, after, newState, newHistory := VisitReshard(values, steps, allocator, step, progress, k, state, history);
    }
    forall mesh: nat | SingleMesh(steps, mesh) ensures step.Call? && step.devices == Some(mesh) {
      SingleMeshStep(steps, mesh, k);
    }
  }

  /** On a single mesh, everything is ready in time. */
  ghost predicate ImmediateOn(steps: seq<Step>, state: State, history: seq<State>, progress: Progress) {
    forall mesh :: SingleMesh(steps, mesh) ==> Immediate(state, history, progress.available, TimeOn(progress.timeOnMesh, mesh))
  }

  method Walk(values: seq<Value>, steps: seq<Step>)
    returns (r: Result<seq<string>>, ghost last: State, ghost history: seq<State>, ghost run: seq<Point>)
    requires IsWalk(values, steps)
    ensures AllGood(values, steps, history)
    ensures Invariant(values, last) && Sufficient(history, last)
    ensures IsRun(values, steps, run) && SoundSoFar(values, steps, run)
    ensures r.Success? ==> |run| == |steps| + 1 && last == run[|steps|].state && last.names == r.value
    ensures IsComplete(values, steps) ==> r.Success?
    ensures r.Success? ==> forall mesh :: SingleMesh(steps, mesh) ==> Tight(history, last)
  {
    var allocator := new BufferAllocator();
    var progress := StartProgress(values);
    last, history := Start(values), [];
    run := [Point(last, progress)];
    StartIsValid(values, steps);
    for k := 0 to |steps|
      invariant Consistent(values, steps, last, history) && Settled(values, steps, progress, allocator.Contents(), last, k)
      invariant IsRun(values, steps, run) && SoundSoFar(values, steps, run) && |run| == k + 1 && run[k] == Point(last, progress)
      invariant ImmediateOn(steps, last, history, progress)
    {
      var ok, after;
      ok, after, last, history := VisitStep(values, steps, allocator, steps[k], progress, k, last, history);
      if !ok {
        return Failure(InvalidArgument), last, history, run;
      }
      progress := after;
      RunGrows(values, steps, run, Point(last, progress));
      run := run + [Point(last, progress)];
    }
    r := Success(progress.names);
  }
}
