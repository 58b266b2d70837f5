/** What the buffer of a temporary fits: the layout of its value on the mesh of the step that produces it. */
module BufferShapes {
  import opened Wrappers
  import opened BufferPools
  import opened BufferLiveness
  import opened BufferNaming

  /** The shapes of a value with this layout on the meshes of those of the first `k` steps that produce it. */
  ghost function ShapesMade(steps: seq<Step>, layout: int, v: nat, k: nat): set<ShardedShape>
    requires k <= |steps|
  {
    if k == 0 then {}
    else
      ShapesMade(steps, layout, v, k - 1) +
      if v in Outputs(steps[k - 1]) && steps[k - 1].devices.Some? then {ShardedShape(steps[k - 1].devices.value, layout)} else {}
  }

  /** One of the first `k` steps produces the value on this mesh. */
  ghost predicate IsMadeOn(steps: seq<Step>, v: nat, mesh: nat, k: nat) {
    exists i :: 0 <= i < |steps| && i < k && v in Outputs(steps[i]) && steps[i].devices == Some(mesh)
  }

  lemma {:induction false} ShapesMadeIff(steps: seq<Step>, layout: int, v: nat, k: nat, shape: ShardedShape)
    requires k <= |steps|
    ensures shape in ShapesMade(steps, layout, v, k) <==> shape != NoShape && shape.layout == layout && IsMadeOn(steps, v, shape.devices, k)
  {
    if k > 0 {
      ShapesMadeIff(steps, layout, v, k - 1, shape);
    }
  }

  lemma {:induction false} ShapesGrow(steps: seq<Step>, layout: int, v: nat, k: nat, n: nat)
    requires k <= n <= |steps|
    ensures ShapesMade(steps, layout, v, k) <= ShapesMade(steps, layout, v, n)
  {
    if k < n {
      ShapesGrow(steps, layout, v, k, n - 1);
    }
  }

  /** The name of the value was allocated for its layout on the mesh that produces it. */
  ghost predicate Fits(values: seq<Value>, steps: seq<Step>, state: State, v: nat, k: nat) {
    && k <= |steps| && v < |values| && v < |state.names|
    && ShapeOf(state.store, state.names[v]) in ShapesMade(steps, values[v].layout, v, k)
  }

  ghost predicate AllFit(values: seq<Value>, steps: seq<Step>, state: State, k: nat) {
    forall v {:trigger Fits(values, steps, state, v, k)} :: v in state.named ==> Fits(values, steps, state, v, k)
  }

  /** The names of the earlier temporaries keep their shapes. */
  ghost predicate KeepsShapes(a: State, b: State) {
    a.named <= b.named && |a.names| == |b.names| &&
    forall v :: v in a.named && v < |a.names| ==> b.names[v] == a.names[v] && ShapeOf(b.store, b.names[v]) == ShapeOf(a.store, a.names[v])
  }

  lemma FitsStay(values: seq<Value>, steps: seq<Step>, a: State, b: State, v: nat, k: nat, n: nat)
    requires v in a.named && Fits(values, steps, a, v, k) && KeepsShapes(a, b) && k <= n <= |steps|
    ensures Fits(values, steps, b, v, n)
  {
    ShapesGrow(steps, values[v].layout, v, k, n);
  }

  /** A name is handed out again only for its shape. */
  lemma NamesKeepsShapes(values: seq<Value>, a: State, b: State, v: nat, shape: ShardedShape, time: int, use: Option<BufferUse>)
    requires WellNamed(values) && Invariant(values, a) && v < |values| && Names(values, a, b, v, shape, time, use)
    ensures KeepsShapes(a, b) && ShapeOf(b.store, b.names[v]) == shape
  {
    NameIsUnused(values, a, b, v, shape, time, use);
    forall w | w in a.named ensures b.names[w] == a.names[w] && ShapeOf(b.store, b.names[w]) == ShapeOf(a.store, a.names[w]) {
      assert a.names[w] in a.place;
    }
  }

  lemma RootKeepsShapes(values: seq<Value>, a: State, b: State, v: nat)
    requires WellNamed(values) && Invariant(values, a) && v < |values| && NamesRoot(values, a, b, v) && a.names[v] == ""
    ensures Invariant(values, b) && KeepsShapes(a, b) && b.named == a.named
  {
    UnnamedIsNew(values, a, v);
    NamesRootKeeps(values, a, b, v);
  }

  lemma OutputKeepsShapes(values: seq<Value>, a: State, b: State, v: nat, mesh: nat, time: int)
    requires WellNamed(values) && Invariant(values, a) && v < |values| && NamesOutput(values, a, b, v, mesh, time)
    ensures Invariant(values, b) && KeepsShapes(a, b)
    ensures forall w :: w in b.named && w !in a.named ==>
              w == v && v < |b.names| && ShapeOf(b.store, b.names[v]) == ShardedShape(mesh, values[v].layout)
  {
    if a.names[v] == "" {
      if values[v].feedsRoot {
        RootKeepsShapes(values, a, b, v);
      } else {
        var use :| Names(values, a, b, v, ShapeOn(values[v], mesh), time, use);
        NamesKeepsInvariant(values, a, b, v, ShapeOn(values[v], mesh), time, use);
        NamesKeepsShapes(values, a, b, v, ShapeOn(values[v], mesh), time, use);
      }
    }
  }

  lemma {:induction false} TurnFits(values: seq<Value>, steps: seq<Step>, a: State, b: State, outputs: seq<nat>, mesh: nat, time: int, k: nat)
    requires WellNamed(values) && Invariant(values, a) && k < |steps| && AllFit(values, steps, a, k + 1)
    requires NamesInTurn(values, a, b, outputs, mesh, time)
    requires steps[k].devices == Some(mesh) && forall v :: v in outputs ==> v in Outputs(steps[k])
    ensures Invariant(values, b) && AllFit(values, steps, b, k + 1)
    decreases |outputs|
  {
    if outputs != [] {
      var n := |outputs| - 1;
      var v := outputs[n];
      var mid :| NamesInTurn(values, a, mid, outputs[..n], mesh, time) && Sized(values, mid) && v < |values| && NamesOutput(values, mid, b, v, mesh, time);
      assert v in outputs;
      TurnFits(values, steps, a, mid, outputs[..n], mesh, time, k);
      OutputKeepsShapes(values, mid, b, v, mesh, time);
      forall w | w in b.named ensures Fits(values, steps, b, w, k + 1) {
        if w in mid.named {
          FitsStay(values, steps, mid, b, w, k + 1, k + 1);
        }
      }
    }
  }

  lemma {:induction false} ReleasesKeepShapes(values: seq<Value>, a: State, b: State, operands: seq<nat>, outputs: seq<nat>, time: int)
    requires ReleasesInTurn(values, a, b, operands, outputs, time)
    ensures b.names == a.names && b.named == a.named && forall c :: ShapeOf(b.store, c) == ShapeOf(a.store, c)
    decreases |operands|
  {
    if operands != [] {
      var n := |operands| - 1;
      var mid :| ReleasesInTurn(values, a, mid, operands[..n], outputs, time) && Sized(values, mid) && operands[n] < |values| &&
        ReleasesOperand(values, mid, b, operands[n], outputs, time);
      ReleasesKeepShapes(values, a, mid, operands[..n], outputs, time);
    }
  }

  /** The first `k` steps of a run, each from a sound point. */
  ghost predicate StepsTo(values: seq<Value>, steps: seq<Step>, run: seq<Point>, k: nat) {
    && k < |run| <= |steps| + 1
    && if k == 0 then run[0].state == Start(values)
       else
         && StepsTo(values, steps, run, k - 1) && Invariant(values, run[k - 1].state)
         && StepRuns(values, steps[k - 1], run[k - 1].progress, run[k].progress, run[k - 1].state, run[k].state)
  }

  lemma StepOfRun(values: seq<Value>, steps: seq<Step>, run: seq<Point>, k: nat)
    requires IsRun(values, steps, run) && SoundSoFar(values, steps, run) && k < |run| - 1
    ensures StepRuns(values, steps[k], run[k].progress, run[k + 1].progress, run[k].state, run[k + 1].state)
    ensures Invariant(values, run[k].state)
  {
    assert RunsAt(values, steps, run, k) && SoundAt(values, steps, run[k].state, k);
  }

  lemma {:induction false} RunSteps(values: seq<Value>, steps: seq<Step>, run: seq<Point>, k: nat)
    requires IsRun(values, steps, run) && SoundSoFar(values, steps, run) && k < |run|
    ensures StepsTo(values, steps, run, k)
  {
    if k > 0 {
      RunSteps(values, steps, run, k - 1);
      StepOfRun(values, steps, run, k - 1);
    }
  }

  lemma StepRunsFits(values: seq<Value>, steps: seq<Step>, a: State, b: State, before: Progress, after: Progress, k: nat)
    requires WellNamed(values) && k < |steps| && Invariant(values, a) && AllFit(values, steps, a, k)
    requires StepRuns(values, steps[k], before, after, a, b)
    ensures AllFit(values, steps, b, k + 1)
  {
    var mesh, done := steps[k].devices.value, b.(position := a.position);
    forall v | v in a.named ensures Fits(values, steps, a, v, k + 1) {
      FitsStay(values, steps, a, a, v, k, k + 1);
    }
    var named, start;
    if steps[k].Call? {
      start := StartTime(before.available, TimeOn(before.timeOnMesh, mesh), steps[k].operands);
      named :| CallPasses(values, steps[k], mesh, start, a, named, done);
      ReleasesKeepShapes(values, named, done, steps[k].operands, steps[k].outputs, start + 1);
    } else {
      start := AvailableAt(before.available, steps[k].operand);
      named :| ReshardPasses(values, steps[k], mesh, start, a, named, done);
      ReleasesKeepShapes(values, named, done, [steps[k].operand], [], start + 2);
    }
    TurnFits(values, steps, a, named, Outputs(steps[k]), mesh, start, k);
    forall v | v in b.named ensures Fits(values, steps, b, v, k + 1) {
      FitsStay(values, steps, named, b, v, k + 1, k + 1);
    }
  }

  lemma StepFits(values: seq<Value>, steps: seq<Step>, a: State, b: State, before: Progress, after: Progress, k: nat)
    requires 0 < k <= |steps|
    ensures WellNamed(values) && Invariant(values, a) && AllFit(values, steps, a, k - 1) && StepRuns(values, steps[k - 1], before, after, a, b) ==>
              AllFit(values, steps, b, k)
  {
    if WellNamed(values) && Invariant(values, a) && AllFit(values, steps, a, k - 1) && StepRuns(values, steps[k - 1], before, after, a, b) {
      StepRunsFits(values, steps, a, b, before, after, k - 1);
    }
  }

  /** At every point of a run, every temporary named so far has a buffer of its own layout and mesh. */
  lemma {:induction false} RunFits(values: seq<Value>, steps: seq<Step>, run: seq<Point>, k: nat)
    requires WellNamed(values) && StepsTo(values, steps, run, k)
    ensures AllFit(values, steps, run[k].state, k)
  {
    if k > 0 {
      RunFits(values, steps, run, k - 1);
      StepFits(values, steps, run[k - 1].state, run[k].state, run[k - 1].progress, run[k].progress, k);
    }
  }

  /** Temporaries that use one buffer, at the same time or one after the other, have one layout and are made on one mesh. */
  lemma SharersAgree(values: seq<Value>, steps: seq<Step>, run: seq<Point>, k: nat, v: nat, w: nat)
    requires IsWalk(values, steps) && IsRun(values, steps, run) && SoundSoFar(values, steps, run) && k < |run|
    requires v in run[k].state.named && w in run[k].state.named
    requires v < |run[k].state.names| && w < |run[k].state.names| && run[k].state.names[v] == run[k].state.names[w]
    ensures v < |values| && w < |values| && values[v].layout == values[w].layout
    ensures exists mesh :: IsMadeOn(steps, v, mesh, k) && IsMadeOn(steps, w, mesh, k)
  {
    RunSteps(values, steps, run, k);
    RunFits(values, steps, run, k);
    assert Fits(values, steps, run[k].state, v, k) && Fits(values, steps, run[k].state, w, k);
    var shape := ShapeOf(run[k].state.store, run[k].state.names[v]);
    ShapesMadeIff(steps, values[v].layout, v, k, shape);
    ShapesMadeIff(steps, values[w].layout, w, k, shape);
  }
}
