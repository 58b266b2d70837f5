/** When fusing calls preserves meaning. */
module FusionMeaning {
  import opened CallFusion
  import opened CallGraph
  import opened FusionRewrite
  import opened Sequences

  /** Values after fusion: new outputs take over from the exports they replace. */
  ghost function Renamed<V>(f: Fusion, vals: nat -> V): nat -> V
    requires |f.exports| == |f.outputs|
  {
    (x: nat) => vals(RenameId(x, f.outputs, f.exports))
  }

  lemma RenamedFacts<V>(g: Graph, f: Fusion, vals: nat -> V, x: nat)
    requires |f.exports| == |f.outputs| && Distinct(f.outputs) && Distinct(f.exports)
    requires forall o :: o in f.outputs ==> o !in g.nodes
    requires forall e :: e in f.exports ==> e in g.nodes
    ensures x in g.nodes ==> Renamed(f, vals)(x) == vals(x)
    ensures x in g.nodes ==> Renamed(f, vals)(RenameId(x, f.exports, f.outputs)) == vals(x)
    ensures forall k :: 0 <= k < |f.outputs| ==> Renamed(f, vals)(f.outputs[k]) == vals(f.exports[k])
  {
    RenameIdFacts(x, f.exports, f.outputs);
    RenameIdFacts(x, f.outputs, f.exports);
    RenameIdFacts(RenameId(x, f.exports, f.outputs), f.outputs, f.exports);
    forall k | 0 <= k < |f.outputs| ensures Renamed(f, vals)(f.outputs[k]) == vals(f.exports[k]) {
      RenameIdFacts(f.outputs[k], f.outputs, f.exports);
    }
    if x in f.exports {
      var k :| 0 <= k < |f.exports| && f.exports[k] == x;
      assert RenameId(x, f.exports, f.outputs) == f.outputs[k];
    }
  }

  /** Call number `i` is the last run of the task that produced the needed output `x`. */
  ghost predicate RunsLastFor(g: Graph, calls: seq<nat>, i: int, x: nat)
    requires AreCalls(g, calls) && 0 <= i < |calls|
  {
    Exported(g, calls, x) && IsLastRun(g, calls, i, |calls|) && TaskOf(g, calls[i]) == RootOf(g, x).0
  }

  /** For every needed output, the last listed run of its task computes the value of the output. */
  ghost predicate LastRunsAgree<V>(g: Graph, calls: seq<nat>, sem: (nat, seq<V>) -> V, vals: nat -> V)
    requires AreCalls(g, calls)
  {
    forall i, x :: 0 <= i < |calls| && RunsLastFor(g, calls, i, x) ==> DeliveredBy(g, sem, vals, x, vals(x), calls[i])
  }

  /** What a caller can see in the computation: no task of a needed output runs again later in the list, or
      only on the same operands. */
  ghost predicate RerunsRepeat(g: Graph, calls: seq<nat>)
    requires AreCalls(g, calls)
  {
    forall i, x :: 0 <= i < |calls| && RunsLastFor(g, calls, i, x) ==>
      g.nodes[x].call in g.nodes && g.nodes[calls[i]].Operands() == g.nodes[g.nodes[x].call].Operands()
  }

  lemma RepeatedRunsAgree<V>(g: Graph, calls: seq<nat>, sem: (nat, seq<V>) -> V, vals: nat -> V)
    requires AreCalls(g, calls) && Evaluates(g, sem, vals) && RerunsRepeat(g, calls)
    ensures LastRunsAgree(g, calls, sem, vals)
  {
    forall i, x | 0 <= i < |calls| && RunsLastFor(g, calls, i, x) ensures DeliveredBy(g, sem, vals, x, vals(x), calls[i]) {
      var producer := g.nodes[x].call;
      assert g.IsOutputOf(x, producer);
      assert g.tasks[g.nodes[producer].task].Valid();
      assert vals(x) == OutputValue(g, sem, vals, x);
      assert CallValues(g, sem, vals, calls[i]) == CallValues(g, sem, vals, producer);
    }
  }

  /** Which value the fused computation returns for an export: that of the last run of its task. */
  lemma ExportIsLastRun<V>(g: Graph, calls: seq<nat>, g': Graph, f: Fusion, sem: (nat, seq<V>) -> V, vals: nat -> V, k: nat, i: nat)
    requires IsFusionOf(g, calls, g', f, sem, vals)
    requires k < |f.exports| && i < |calls| && RunsLastFor(g, calls, i, f.exports[k])
    ensures f.fused.outputs[k] < |f.fused.code|
    ensures DeliveredBy(g, sem, vals, f.exports[k], CodeValues(f.fused.code, sem, Values(vals, f.parameters))[f.fused.outputs[k]], calls[i])
  {
    var x := f.exports[k];
    var code, args, output := f.fused.code, Values(vals, f.parameters), f.fused.outputs[k];
    assert DeliversAt(g, calls, sem, vals, x, code, args, output);
    var value := CodeValues(code, sem, args)[output];
    var j :| 0 <= j < |calls| && IsLastRun(g, calls, j, |calls|) && DeliveredBy(g, sem, vals, x, value, calls[j]);
    assert TaskOf(g, calls[i]) == TaskOf(g, calls[j]);
    assert i == j;
  }

  /** If the last runs agree, the fused computation returns the old value of every output that is still needed. */
  lemma ExportsKeepValues<V>(g: Graph, calls: seq<nat>, g': Graph, f: Fusion, sem: (nat, seq<V>) -> V, vals: nat -> V, k: nat)
    requires IsFusionOf(g, calls, g', f, sem, vals) && Evaluates(g, sem, vals) && LastRunsAgree(g, calls, sem, vals)
    requires k < |f.exports|
    ensures f.fused.outputs[k] < |f.fused.code|
    ensures CodeValues(f.fused.code, sem, Values(vals, f.parameters))[f.fused.outputs[k]] == vals(f.exports[k])
  {
    var x := f.exports[k];
    assert x in f.exports;
    var producer := g.nodes[x].call;
    assert g.IsOutputOf(x, producer);
    var j :| 0 <= j < |calls| && calls[j] == producer;
    var i := SomeLastRun(g, calls, j, |calls|);
    assert RunsLastFor(g, calls, i, x);
    ExportIsLastRun(g, calls, g', f, sem, vals, k, i);
  }

  lemma KeptOperand(g: Graph, calls: seq<nat>, g': Graph, f: Fusion, x: nat, o: nat)
    requires AreCalls(g, calls) && IsFused(g, calls, f.parameters, f.exports, f.fused, g', f.task, f.call, f.outputs)
    requires forall e :: e in f.exports <==> Exported(g, calls, e)
    requires x in g.nodes && !Removed(g, calls, x) && o in g.nodes[x].Operands()
    ensures RenameId(o, f.exports, f.outputs) in g'.nodes
    ensures o in f.exports || (!Removed(g, calls, o) && RenameId(o, f.exports, f.outputs) == o)
  {
    RenameIdFacts(o, f.exports, f.outputs);
    if o !in f.exports {
      assert !IsMemberOutput(g, calls, o);
      assert g.nodes[x].Output? ==> g.IsOutputOf(x, g.nodes[x].call);
      OutsideCalls(g, calls, o);
    } else {
      var k :| 0 <= k < |f.exports| && f.exports[k] == o;
    }
  }

  lemma NewOutput(g: Graph, calls: seq<nat>, g': Graph, f: Fusion, x: nat)
    requires IsFused(g, calls, f.parameters, f.exports, f.fused, g', f.task, f.call, f.outputs)
    ensures x in f.outputs ==> x in g'.nodes && g'.nodes[x].Output? && g'.nodes[x].call == f.call && g'.nodes[x].index < |f.exports|
    ensures x in g'.nodes && x !in g.nodes && x != f.call ==> x in f.outputs
  {
    if x in f.outputs {
      var k :| 0 <= k < |f.outputs| && f.outputs[k] == x;
    }
  }

  lemma FusedCalls(g: Graph, calls: seq<nat>, g': Graph, f: Fusion)
    requires g.Valid() && IsFused(g, calls, f.parameters, f.exports, f.fused, g', f.task, f.call, f.outputs)
    requires |f.fused.parameters| == |f.parameters|
    ensures forall x :: x in g'.nodes && g'.nodes[x].Call? ==>
      g'.nodes[x].task in g'.tasks && |g'.nodes[x].operands| == |g'.tasks[g'.nodes[x].task].parameters|
  {
    forall x | x in g'.nodes && g'.nodes[x].Call?
      ensures g'.nodes[x].task in g'.tasks && |g'.nodes[x].operands| == |g'.tasks[g'.nodes[x].task].parameters|
    {
      NewOutput(g, calls, g', f, x);
    }
  }

  lemma FusedOperands(g: Graph, calls: seq<nat>, g': Graph, f: Fusion)
    requires AreCalls(g, calls) && IsFused(g, calls, f.parameters, f.exports, f.fused, g', f.task, f.call, f.outputs)
    requires forall e :: e in f.exports <==> Exported(g, calls, e)
    requires forall e :: e in f.parameters ==> e in g.nodes && !g.nodes[e].Call? && !IsMemberOutput(g, calls, e)
    ensures forall x, o :: x in g'.nodes && o in g'.nodes[x].Operands() ==> o in g'.nodes
    ensures forall x, o :: x in g'.nodes && !g'.nodes[x].Output? && o in g'.nodes[x].Operands() ==> !g'.nodes[o].Call?
  {
    forall x, o | x in g'.nodes && o in g'.nodes[x].Operands()
      ensures o in g'.nodes && (!g'.nodes[x].Output? ==> !g'.nodes[o].Call?)
    {
      FusedOperand(g, calls, g', f, x, o);
    }
  }

  lemma FusedOutputs(g: Graph, calls: seq<nat>, g': Graph, f: Fusion)
    requires AreCalls(g, calls) && IsFused(g, calls, f.parameters, f.exports, f.fused, g', f.task, f.call, f.outputs)
    requires (forall e :: e in f.exports <==> Exported(g, calls, e)) && |f.fused.outputs| == |f.exports|
    ensures forall x :: x in g'.nodes && g'.nodes[x].Output? ==> g'.IsOutputOf(x, g'.nodes[x].call)
  {
    forall x | x in g'.nodes && g'.nodes[x].Output? ensures g'.IsOutputOf(x, g'.nodes[x].call) {
      FusedOutput(g, calls, g', f, x);
    }
  }

  /** The result is again a well-formed computation. */
  lemma FusedIsValid<V>(g: Graph, calls: seq<nat>, g': Graph, f: Fusion, sem: (nat, seq<V>) -> V, vals: nat -> V)
    requires Fusible(g, calls) && IsFusionOf(g, calls, g', f, sem, vals)
    ensures g'.Valid()
  {
    ImportsAreOutside(g, calls, f.parameters);
    RootKept(g, calls, g', f);
    FusedOperands(g, calls, g', f);
    FusedCalls(g, calls, g', f);
    FusedOutputs(g, calls, g', f);
  }

  lemma RootKept(g: Graph, calls: seq<nat>, g': Graph, f: Fusion)
    requires AreCalls(g, calls) && IsFused(g, calls, f.parameters, f.exports, f.fused, g', f.task, f.call, f.outputs)
    requires forall e :: e in f.exports <==> Exported(g, calls, e)
    ensures g'.root in g'.nodes && !g'.nodes[g'.root].Call?
  {
    RenameIdFacts(g.root, f.exports, f.outputs);
    if g.root in f.exports {
      var k :| 0 <= k < |f.exports| && f.exports[k] == g.root;
    }
    OutsideCalls(g, calls, g.root);
  }

  lemma FusedOperand(g: Graph, calls: seq<nat>, g': Graph, f: Fusion, x: nat, o: nat)
    requires AreCalls(g, calls) && IsFused(g, calls, f.parameters, f.exports, f.fused, g', f.task, f.call, f.outputs)
    requires forall e :: e in f.exports <==> Exported(g, calls, e)
    requires forall e :: e in f.parameters ==> e in g.nodes && !g.nodes[e].Call? && !IsMemberOutput(g, calls, e)
    requires x in g'.nodes && o in g'.nodes[x].Operands()
    ensures o in g'.nodes && (!g'.nodes[x].Output? ==> !g'.nodes[o].Call?)
  {
    if x in g.nodes {
      var renamed := g'.nodes[x].Operands();
      var k :| 0 <= k < |renamed| && renamed[k] == o;
      var original := g.nodes[x].Operands()[k];
      assert original in g.nodes[x].Operands();
      assert o == RenameId(original, f.exports, f.outputs);
      KeptOperand(g, calls, g', f, x, original);
      RenameIdFacts(original, f.exports, f.outputs);
    } else if x == f.call {
      OutsideCalls(g, calls, o);
    } else {
      NewOutput(g, calls, g', f, x);
    }
  }

  lemma OutsideCalls(g: Graph, calls: seq<nat>, x: nat)
    requires AreCalls(g, calls)
    ensures x in calls ==> x in g.nodes && g.nodes[x].Call?
  {
    if x in calls {
      var i :| 0 <= i < |calls| && calls[i] == x;
    }
  }

  lemma FusedOutput(g: Graph, calls: seq<nat>, g': Graph, f: Fusion, x: nat)
    requires AreCalls(g, calls) && IsFused(g, calls, f.parameters, f.exports, f.fused, g', f.task, f.call, f.outputs)
    requires forall e :: e in f.exports <==> Exported(g, calls, e)
    requires |f.fused.outputs| == |f.exports|
    requires x in g'.nodes && g'.nodes[x].Output?
    ensures g'.IsOutputOf(x, g'.nodes[x].call)
    ensures x in g.nodes ==> g'.nodes[x] == g.nodes[x] && g'.nodes[g.nodes[x].call].task == g.nodes[g.nodes[x].call].task
    ensures x !in g.nodes ==> x in f.outputs
  {
    if x in g.nodes {
      var producer := g.nodes[x].call;
      assert g.IsOutputOf(x, producer);
      assert producer in g.nodes[x].Operands();
      KeptOperand(g, calls, g', f, x, producer);
    } else {
      NewOutput(g, calls, g', f, x);
    }
  }

  /** Old instructions keep their values under their new names. */
  ghost predicate KeepsOldValues<V>(g: Graph, f: Fusion, vals: nat -> V)
    requires |f.exports| == |f.outputs|
  {
    forall x :: x in g.nodes ==>
      Renamed(f, vals)(x) == vals(x) && Renamed(f, vals)(RenameId(x, f.exports, f.outputs)) == vals(x)
  }

  /** The exact condition. With the old values, and new outputs standing for the exports they replace,
      every instruction of the fused computation has the value its operands determine if and only if
      the last run of each needed task computes what the fused run is needed for. */
  lemma FusionPreservesMeaningIff<V>(g: Graph, calls: seq<nat>, g': Graph, f: Fusion, sem: (nat, seq<V>) -> V, vals: nat -> V)
    requires Fusible(g, calls) && IsFusionOf(g, calls, g', f, sem, vals) && Evaluates(g, sem, vals)
    ensures g'.Valid() && (Evaluates(g', sem, Renamed(f, vals)) <==> LastRunsAgree(g, calls, sem, vals))
    ensures Renamed(f, vals)(g'.root) == vals(g.root)
    ensures forall x :: x in g.nodes ==> Renamed(f, vals)(x) == vals(x)
  {
    FusedIsValid(g, calls, g', f, sem, vals);
    forall x ensures x in g.nodes ==> Renamed(f, vals)(x) == vals(x) && Renamed(f, vals)(RenameId(x, f.exports, f.outputs)) == vals(x) {
      RenamedFacts(g, f, vals, x);
    }
    assert KeepsOldValues(g, f, vals);
    if LastRunsAgree(g, calls, sem, vals) {
      AgreeingRunsEvaluate(g, calls, g', f, sem, vals);
    }
    if Evaluates(g', sem, Renamed(f, vals)) {
      EvaluatedRunsAgree(g, calls, g', f, sem, vals);
    }
  }

  lemma AgreeingRunsEvaluate<V>(g: Graph, calls: seq<nat>, g': Graph, f: Fusion, sem: (nat, seq<V>) -> V, vals: nat -> V)
    requires Fusible(g, calls) && IsFusionOf(g, calls, g', f, sem, vals) && Evaluates(g, sem, vals) && g'.Valid()
    requires LastRunsAgree(g, calls, sem, vals) && KeepsOldValues(g, f, vals)
    ensures Evaluates(g', sem, Renamed(f, vals))
  {
    forall k | 0 <= k < |f.outputs|
      ensures f.outputs[k] in g'.nodes && g'.nodes[f.outputs[k]].Output? && HasItsValue(g', sem, Renamed(f, vals), f.outputs[k])
    {
      NewOutputHasValue(g, calls, g', f, sem, vals, k);
    }
    forall x | x in g'.nodes && !g'.nodes[x].Call? ensures HasItsValue(g', sem, Renamed(f, vals), x) {
      NewOutput(g, calls, g', f, x);
      if x in g.nodes {
        KeptInstructionHasValue(g, calls, g', f, sem, vals, x);
      }
    }
    EvaluatesEverywhere(g', sem, Renamed(f, vals));
  }

  lemma EvaluatedRunsAgree<V>(g: Graph, calls: seq<nat>, g': Graph, f: Fusion, sem: (nat, seq<V>) -> V, vals: nat -> V)
    requires Fusible(g, calls) && IsFusionOf(g, calls, g', f, sem, vals) && g'.Valid()
    requires Evaluates(g', sem, Renamed(f, vals)) && KeepsOldValues(g, f, vals)
    ensures LastRunsAgree(g, calls, sem, vals)
  {
    forall i, x | 0 <= i < |calls| && RunsLastFor(g, calls, i, x) ensures DeliveredBy(g, sem, vals, x, vals(x), calls[i]) {
      var k :| 0 <= k < |f.exports| && f.exports[k] == x;
      ExportIsLastRun(g, calls, g', f, sem, vals, k, i);
      ReturnedValue(g, calls, g', f, sem, vals, k);
    }
  }

  /** What the k-th new output evaluates to. */
  lemma ReturnedValue<V>(g: Graph, calls: seq<nat>, g': Graph, f: Fusion, sem: (nat, seq<V>) -> V, vals: nat -> V, k: nat)
    requires Fusible(g, calls) && IsFusionOf(g, calls, g', f, sem, vals) && g'.Valid()
    requires Evaluates(g', sem, Renamed(f, vals)) && KeepsOldValues(g, f, vals) && k < |f.exports|
    ensures f.fused.outputs[k] < |f.fused.code|
    ensures CodeValues(f.fused.code, sem, Values(vals, f.parameters))[f.fused.outputs[k]] == vals(f.exports[k])
  {
    ImportsAreOutside(g, calls, f.parameters);
    ExportsAreNodes(g, calls, f.exports);
    RenamedFacts(g, f, vals, f.exports[k]);
    SameParameters(g, f, vals);
    assert g'.nodes[f.outputs[k]] == Output(f.call, k);
    assert Renamed(f, vals)(f.outputs[k]) == OutputValue(g', sem, Renamed(f, vals), f.outputs[k]);
  }

  /** Meaning is preserved, under every semantics, when needed tasks are not run again on other operands. */
  lemma FusionPreservesMeaning<V>(g: Graph, calls: seq<nat>, g': Graph, f: Fusion, sem: (nat, seq<V>) -> V, vals: nat -> V)
    requires Fusible(g, calls) && IsFusionOf(g, calls, g', f, sem, vals) && Evaluates(g, sem, vals)
    requires RerunsRepeat(g, calls)
    ensures g'.Valid() && Evaluates(g', sem, Renamed(f, vals))
    ensures Renamed(f, vals)(g'.root) == vals(g.root)
  {
    RepeatedRunsAgree(g, calls, sem, vals);
    FusionPreservesMeaningIff(g, calls, g', f, sem, vals);
  }

  ghost predicate HasItsValue<V>(g: Graph, sem: (nat, seq<V>) -> V, vals: nat -> V, x: nat)
    requires g.Valid() && x in g.nodes && !g.nodes[x].Call?
  {
    vals(x) == if g.nodes[x].Plain? then sem(g.nodes[x].op, Values(vals, g.nodes[x].operands)) else OutputValue(g, sem, vals, x)
  }

  lemma EvaluatesEverywhere<V>(g: Graph, sem: (nat, seq<V>) -> V, vals: nat -> V)
    requires g.Valid() && forall x :: x in g.nodes && !g.nodes[x].Call? ==> HasItsValue(g, sem, vals, x)
    ensures Evaluates(g, sem, vals)
  {
  }

  /** A kept instruction reads the values it always read. */
  lemma SameArguments<V>(g: Graph, g': Graph, f: Fusion, vals: nat -> V, x: nat)
    requires g.Valid() && x in g.nodes && x in g'.nodes && !g.nodes[x].Output? && |f.exports| == |f.outputs|
    requires g'.nodes[x] == RenameNode(g.nodes[x], f.exports, f.outputs) && KeepsOldValues(g, f, vals)
    ensures Values(Renamed(f, vals), g'.nodes[x].operands) == Values(vals, g.nodes[x].operands)
  {
    var operands := g.nodes[x].operands;
    forall k | 0 <= k < |operands| ensures Values(Renamed(f, vals), g'.nodes[x].operands)[k] == Values(vals, operands)[k] {
      assert operands[k] in g.nodes[x].Operands();
    }
  }

  lemma KeptInstructionHasValue<V>(g: Graph, calls: seq<nat>, g': Graph, f: Fusion, sem: (nat, seq<V>) -> V, vals: nat -> V, x: nat)
    requires AreCalls(g, calls) && Evaluates(g, sem, vals) && g'.Valid() && |f.exports| == |f.outputs| && KeepsOldValues(g, f, vals)
    requires IsFused(g, calls, f.parameters, f.exports, f.fused, g', f.task, f.call, f.outputs)
    requires (forall e :: e in f.exports <==> Exported(g, calls, e)) && |f.fused.outputs| == |f.exports|
    requires x in g.nodes && x in g'.nodes && !g'.nodes[x].Call?
    ensures HasItsValue(g', sem, Renamed(f, vals), x)
  {
    if g.nodes[x].Plain? {
      SameArguments(g, g', f, vals, x);
    } else {
      FusedOutput(g, calls, g', f, x);
      var producer := g.nodes[x].call;
      assert g.IsOutputOf(x, producer) && g'.IsOutputOf(x, producer);
      assert vals(x) == OutputValue(g, sem, vals, x);
      assert producer != f.call && producer !in f.outputs;
      SameArguments(g, g', f, vals, producer);
    }
  }

  lemma NewOutputHasValue<V>(g: Graph, calls: seq<nat>, g': Graph, f: Fusion, sem: (nat, seq<V>) -> V, vals: nat -> V, k: nat)
    requires Fusible(g, calls) && IsFusionOf(g, calls, g', f, sem, vals) && Evaluates(g, sem, vals) && g'.Valid()
    requires LastRunsAgree(g, calls, sem, vals) && KeepsOldValues(g, f, vals)
    requires k < |f.outputs|
    ensures f.outputs[k] in g'.nodes && g'.nodes[f.outputs[k]].Output? && HasItsValue(g', sem, Renamed(f, vals), f.outputs[k])
  {
    ImportsAreOutside(g, calls, f.parameters);
    ExportsKeepValues(g, calls, g', f, sem, vals, k);
    ExportsAreNodes(g, calls, f.exports);
    DeliveredValue(g, calls, g', f, sem, vals, k);
  }

  lemma ExportsAreNodes(g: Graph, calls: seq<nat>, exports: seq<nat>)
    requires forall e :: e in exports <==> Exported(g, calls, e)
    ensures forall e :: e in exports ==> e in g.nodes
  {
  }

  lemma DeliveredValue<V>(g: Graph, calls: seq<nat>, g': Graph, f: Fusion, sem: (nat, seq<V>) -> V, vals: nat -> V, k: nat)
    requires g'.Valid() && f.fused.Valid() && |f.fused.parameters| == |f.parameters| && |f.fused.outputs| == |f.exports| == |f.outputs|
    requires IsFused(g, calls, f.parameters, f.exports, f.fused, g', f.task, f.call, f.outputs) && KeepsOldValues(g, f, vals)
    requires Distinct(f.exports) && (forall e :: e in f.exports ==> e in g.nodes) && (forall e :: e in f.parameters ==> e in g.nodes)
    requires k < |f.exports| && f.fused.outputs[k] < |f.fused.code|
    requires CodeValues(f.fused.code, sem, Values(vals, f.parameters))[f.fused.outputs[k]] == vals(f.exports[k])
    ensures f.outputs[k] in g'.nodes && g'.nodes[f.outputs[k]].Output? && HasItsValue(g', sem, Renamed(f, vals), f.outputs[k])
  {
    RenamedFacts(g, f, vals, f.exports[k]);
    SameParameters(g, f, vals);
    assert g'.nodes[f.outputs[k]] == Output(f.call, k);
  }

  lemma SameParameters<V>(g: Graph, f: Fusion, vals: nat -> V)
    requires |f.exports| == |f.outputs| && KeepsOldValues(g, f, vals) && forall e :: e in f.parameters ==> e in g.nodes
    ensures Values(Renamed(f, vals), f.parameters) == Values(vals, f.parameters)
  {
    forall i | 0 <= i < |f.parameters| ensures Renamed(f, vals)(f.parameters[i]) == vals(f.parameters[i]) {
      assert f.parameters[i] in f.parameters;
    }
  }
}
