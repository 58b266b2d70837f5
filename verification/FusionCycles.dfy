/** When fusing calls goes wrong: cycles, and tasks that run twice. */
module FusionCycles {
  import opened CallFusion
  import opened CallGraph
  import opened FusionMeaning
  import opened FusionRewrite
  import opened Sequences

  // ---- convexity ----

  /** Each instruction of the path reads the next one. */
  ghost predicate ReadsAlong(g: Graph, path: seq<nat>) {
    path != [] && (forall i :: 0 <= i < |path| ==> path[i] in g.nodes) &&
    (forall i :: 0 <= i < |path| - 1 ==> path[i + 1] in g.nodes[path[i]].Operands())
  }

  ghost predicate NeedPath(g: Graph, calls: seq<nat>, path: seq<nat>, x: nat) {
    ReadsAlong(g, path) && Removed(g, calls, path[0]) && path[|path| - 1] == x
  }

  /** The set depends, directly or not, on `x`. */
  ghost predicate SetNeeds(g: Graph, calls: seq<nat>, x: nat) {
    exists path :: NeedPath(g, calls, path, x)
  }

  /** Nothing outside the set lies between two of its calls. */
  ghost predicate Convex(g: Graph, calls: seq<nat>) {
    forall x, o :: x in g.nodes && !Removed(g, calls, x) && SetNeeds(g, calls, x) && o in g.nodes[x].Operands() ==> !Removed(g, calls, o)
  }

  lemma NeedsNext(g: Graph, calls: seq<nat>, x: nat, o: nat)
    requires x in g.nodes && o in g.nodes && SetNeeds(g, calls, x) && o in g.nodes[x].Operands()
    ensures SetNeeds(g, calls, o)
  {
    var path :| NeedPath(g, calls, path, x);
    assert NeedPath(g, calls, path + [o], o);
  }

  lemma ImportIsNeeded(g: Graph, calls: seq<nat>, x: nat)
    requires g.Valid() && Imported(g, calls, x)
    ensures SetNeeds(g, calls, x)
  {
    var c :| c in calls && c in g.nodes && x in g.nodes[c].Operands();
    assert NeedPath(g, calls, [c, x], x);
  }

  lemma {:induction false} RankBound(s: set<nat>, rank: nat -> nat) returns (bound: nat)
    ensures forall x :: x in s ==> rank(x) < bound
    decreases |s|
  {
    if s == {} {
      bound := 0;
    } else {
      var x :| x in s;
      bound := RankBound(s - {x}, rank);
      if rank(x) >= bound {
        bound := rank(x) + 1;
      }
    }
  }

  /** What the set needs stays below the fused call, everything else moves above it. */
  ghost function FusedRank(g: Graph, calls: seq<nat>, f: Fusion, rank: nat -> nat, bound: nat): nat -> nat {
    (x: nat) => if x == f.call then bound
                else if x in f.outputs then bound + 1
                else if SetNeeds(g, calls, x) then rank(x)
                else bound + 2 + rank(x)
  }

  lemma FusedEdge<V>(g: Graph, calls: seq<nat>, g': Graph, f: Fusion, sem: (nat, seq<V>) -> V, vals: nat -> V, rank: nat -> nat, bound: nat,
                     x: nat, o: nat)
    requires Fusible(g, calls) && IsFusionOf(g, calls, g', f, sem, vals)
    requires g.RankedBy(rank) && (forall x :: x in g.nodes ==> rank(x) < bound) && Convex(g, calls)
    requires x in g'.nodes && o in g'.nodes[x].Operands()
    ensures var r := FusedRank(g, calls, f, rank, bound); r(o) < r(x)
  {
    ImportsAreOutside(g, calls, f.parameters);
    if x == f.call {
      ImportIsNeeded(g, calls, o);
    } else if x in f.outputs {
      NewOutput(g, calls, g', f, x);
    } else {
      KeptEdge(g, calls, g', f, rank, bound, x, o);
    }
  }

  lemma KeptEdge(g: Graph, calls: seq<nat>, g': Graph, f: Fusion, rank: nat -> nat, bound: nat, x: nat, o: nat)
    requires AreCalls(g, calls) && IsFused(g, calls, f.parameters, f.exports, f.fused, g', f.task, f.call, f.outputs)
    requires forall e :: e in f.exports <==> Exported(g, calls, e)
    requires g.RankedBy(rank) && (forall x :: x in g.nodes ==> rank(x) < bound) && Convex(g, calls)
    requires x in g.nodes && !Removed(g, calls, x) && o in g'.nodes[x].Operands()
    ensures var r := FusedRank(g, calls, f, rank, bound); r(o) < r(x)
  {
    var original := OriginalOperand(g.nodes[x], f.exports, f.outputs, o);
    KeptOperand(g, calls, g', f, x, original);
    RenameIdFacts(original, f.exports, f.outputs);
    if SetNeeds(g, calls, x) {
      NeedsNext(g, calls, x, original);
    }
  }

  lemma OriginalOperand(node: Node, exports: seq<nat>, outputs: seq<nat>, o: nat) returns (original: nat)
    requires |exports| == |outputs| && o in RenameNode(node, exports, outputs).Operands()
    ensures original in node.Operands() && o == RenameId(original, exports, outputs)
  {
    var renamed := RenameNode(node, exports, outputs).Operands();
    var k :| 0 <= k < |renamed| && renamed[k] == o;
    original := node.Operands()[k];
  }

  // ---- a set that is not convex closes a cycle ----

  lemma Suffix(g: Graph, path: seq<nat>, i: nat)
    requires ReadsAlong(g, path) && i < |path|
    ensures ReadsAlong(g, path[i..])
  {
  }

  lemma ExitIsCall(g: Graph, calls: seq<nat>, c: nat, x: nat)
    requires AreCalls(g, calls) && Removed(g, calls, c) && c in g.nodes && x in g.nodes[c].Operands() && !Removed(g, calls, x)
    ensures c in calls
  {
  }

  /** The part of a path after it leaves the set for good. */
  lemma {:induction false} LastExit(g: Graph, calls: seq<nat>, path: seq<nat>) returns (c: nat, outside: seq<nat>)
    requires AreCalls(g, calls) && ReadsAlong(g, path) && Removed(g, calls, path[0]) && !Removed(g, calls, path[|path| - 1])
    ensures c in calls && c in g.nodes && ReadsAlong(g, outside) && outside[0] in g.nodes[c].Operands()
    ensures outside[|outside| - 1] == path[|path| - 1]
    ensures forall i :: 0 <= i < |outside| ==> !Removed(g, calls, outside[i])
    decreases |path|
  {
    assert |path| > 1;
    var rest := path[1..];
    Suffix(g, path, 1);
    if i: nat :| i < |rest| && Removed(g, calls, rest[i]) {
      Suffix(g, rest, i);
      c, outside := LastExit(g, calls, rest[i..]);
    } else {
      assert path[1] in g.nodes[path[0]].Operands() && path[1] == rest[0];
      assert !Removed(g, calls, rest[0]);
      ExitIsCall(g, calls, path[0], rest[0]);
      c, outside := path[0], rest;
    }
  }

  lemma RenamedOperandIsRead(g: Graph, calls: seq<nat>, g': Graph, f: Fusion, x: nat, o: nat)
    requires IsFused(g, calls, f.parameters, f.exports, f.fused, g', f.task, f.call, f.outputs)
    requires x in g.nodes && !Removed(g, calls, x) && o in g.nodes[x].Operands()
    ensures x in g'.nodes && RenameId(o, f.exports, f.outputs) in g'.nodes[x].Operands()
  {
    var operands := g.nodes[x].Operands();
    var k :| 0 <= k < |operands| && operands[k] == o;
    assert g'.nodes[x].Operands()[k] == RenameId(o, f.exports, f.outputs);
  }

  lemma KeptStep(g: Graph, calls: seq<nat>, g': Graph, f: Fusion, x: nat, o: nat)
    requires IsFused(g, calls, f.parameters, f.exports, f.fused, g', f.task, f.call, f.outputs)
    requires forall e :: e in f.exports <==> Exported(g, calls, e)
    requires x in g.nodes && !Removed(g, calls, x) && o in g.nodes[x].Operands() && !Removed(g, calls, o)
    ensures x in g'.nodes && o in g'.nodes[x].Operands()
  {
    RenamedOperandIsRead(g, calls, g', f, x, o);
    RenameIdFacts(o, f.exports, f.outputs);
  }

  /** Along instructions that stay, ranks only go down. */
  lemma {:induction false} KeptPathDescends(g: Graph, calls: seq<nat>, g': Graph, f: Fusion, rank: nat -> nat, path: seq<nat>)
    requires IsFused(g, calls, f.parameters, f.exports, f.fused, g', f.task, f.call, f.outputs)
    requires forall e :: e in f.exports <==> Exported(g, calls, e)
    requires g'.RankedBy(rank) && ReadsAlong(g, path) && forall i :: 0 <= i < |path| ==> !Removed(g, calls, path[i])
    ensures rank(path[|path| - 1]) <= rank(path[0])
    decreases |path|
  {
    if |path| > 1 {
      Suffix(g, path, 1);
      KeptPathDescends(g, calls, g', f, rank, path[1..]);
      assert path[1] in g.nodes[path[0]].Operands();
      KeptStep(g, calls, g', f, path[0], path[1]);
    }
  }

  /** An outside instruction that reads the set reads an output of the fused call instead. */
  lemma ReadsNewOutput(g: Graph, calls: seq<nat>, g': Graph, f: Fusion, x: nat, o: nat) returns (output: nat)
    requires AreCalls(g, calls) && IsFused(g, calls, f.parameters, f.exports, f.fused, g', f.task, f.call, f.outputs)
    requires forall e :: e in f.exports <==> Exported(g, calls, e)
    requires x in g.nodes && !Removed(g, calls, x) && o in g.nodes[x].Operands() && Removed(g, calls, o)
    ensures x in g'.nodes && output in g'.nodes[x].Operands() && output in f.outputs
  {
    ReadFromOutside(g, calls, x, o);
    assert o in f.exports;
    output := RenameId(o, f.exports, f.outputs);
    RenamedOperandIsRead(g, calls, g', f, x, o);
    RenameIdFacts(o, f.exports, f.outputs);
  }

  lemma OutputReadsCall(g: Graph, calls: seq<nat>, g': Graph, f: Fusion, output: nat)
    requires IsFused(g, calls, f.parameters, f.exports, f.fused, g', f.task, f.call, f.outputs) && output in f.outputs
    ensures output in g'.nodes && f.call in g'.nodes[output].Operands()
  {
    NewOutput(g, calls, g', f, output);
  }

  /** The cycle: the fused call, its import, the path outside, and an output of the fused call. */
  lemma CycleFromGap(g: Graph, calls: seq<nat>, g': Graph, f: Fusion)
    returns (outside: seq<nat>, output: nat)
    requires AreCalls(g, calls) && IsFused(g, calls, f.parameters, f.exports, f.fused, g', f.task, f.call, f.outputs) && !Convex(g, calls)
    requires (forall x :: x in f.parameters <==> Imported(g, calls, x)) && forall x :: x in f.exports <==> Exported(g, calls, x)
    ensures f.call in g'.nodes && output in g'.nodes && ReadsAlong(g, outside)
    ensures forall i :: 0 <= i < |outside| ==> !Removed(g, calls, outside[i]) && outside[i] in g'.nodes
    ensures outside[0] in g'.nodes[f.call].Operands()
    ensures output in g'.nodes[outside[|outside| - 1]].Operands() && f.call in g'.nodes[output].Operands()
  {
    var x, o :| x in g.nodes && !Removed(g, calls, x) && SetNeeds(g, calls, x) && o in g.nodes[x].Operands() && Removed(g, calls, o);
    var path :| NeedPath(g, calls, path, x);
    var c;
    c, outside := LastExit(g, calls, path);
    IsImported(g, calls, c, outside[0]);
    output := ReadsNewOutput(g, calls, g', f, x, o);
    OutputReadsCall(g, calls, g', f, output);
  }

  lemma NotConvexCycles<V>(g: Graph, calls: seq<nat>, g': Graph, f: Fusion, sem: (nat, seq<V>) -> V, vals: nat -> V, rank: nat -> nat)
    requires AreCalls(g, calls) && IsFusionOf(g, calls, g', f, sem, vals) && !Convex(g, calls)
    ensures !g'.RankedBy(rank)
  {
    var outside, output := CycleFromGap(g, calls, g', f);
    if g'.RankedBy(rank) {
      KeptPathDescends(g, calls, g', f, rank, outside);
      CycleHasNoRank(g', rank, f.call, outside[0], outside[|outside| - 1], output);
    }
  }

  lemma CycleHasNoRank(g: Graph, rank: nat -> nat, call: nat, first: nat, last: nat, output: nat)
    requires call in g.nodes && last in g.nodes && output in g.nodes
    requires first in g.nodes[call].Operands() && output in g.nodes[last].Operands() && call in g.nodes[output].Operands()
    ensures rank(last) <= rank(first) ==> !g.RankedBy(rank)
  {
  }

  lemma IsImported(g: Graph, calls: seq<nat>, c: nat, x: nat)
    requires c in calls && c in g.nodes && x in g.nodes[c].Operands() && !Removed(g, calls, x)
    ensures Imported(g, calls, x)
  {
  }

  lemma ReadFromOutside(g: Graph, calls: seq<nat>, x: nat, o: nat)
    requires AreCalls(g, calls) && x in g.nodes && !Removed(g, calls, x) && o in g.nodes[x].Operands() && Removed(g, calls, o)
    ensures Exported(g, calls, o)
  {
    OutsideCalls(g, calls, o);
    assert g.nodes[x].Output? ==> g.IsOutputOf(x, g.nodes[x].call);
  }

  /** The fused computation is acyclic exactly when the fused set is convex. */
  lemma AcyclicIffConvex<V>(g: Graph, calls: seq<nat>, g': Graph, f: Fusion, sem: (nat, seq<V>) -> V, vals: nat -> V, rank: nat -> nat)
    requires Fusible(g, calls) && IsFusionOf(g, calls, g', f, sem, vals) && g.RankedBy(rank)
    ensures (exists rank' :: g'.RankedBy(rank')) <==> Convex(g, calls)
  {
    if Convex(g, calls) {
      var bound := RankBound(g.nodes.Keys, rank);
      var rank' := FusedRank(g, calls, f, rank, bound);
      forall x, o | x in g'.nodes && o in g'.nodes[x].Operands() ensures rank'(o) < rank'(x) {
        FusedEdge(g, calls, g', f, sem, vals, rank, bound, x, o);
      }
      assert g'.RankedBy(rank');
    } else {
      forall rank': nat -> nat ensures !g'.RankedBy(rank') {
        NotConvexCycles(g, calls, g', f, sem, vals, rank');
      }
    }
  }

  // ---- a task that runs twice in the fused set ----

  /** Two calls of the same task on different arguments; the result of the first is the root. */
  ghost function TwoRuns(): Graph {
    Graph(map x: nat | x < 5 :: TwoRunsNode(x), 3, map[0 := ADD_TEN_TASK])
  }

  function TwoRunsNode(x: nat): Node {
    match x
    case 0 => Plain(0, [])
    case 1 => Plain(1, [])
    case 2 => Call(0, [0])
    case 3 => Output(2, 0)
    case _ => Call(0, [1])
  }

  ghost function AddTen(): (nat, seq<nat>) -> nat {
    (op: nat, args: seq<nat>) => if op == 3 && |args| == 1 then args[0] + 10 else op
  }

  ghost function TwoRunValues(): nat -> nat {
    (x: nat) => if x == 3 then 10 else x
  }

  const ADD_TEN_TASK: Task := Task([Parameter(0), Op(3, [0])], [0], [1])

  lemma AddTenAdds(a: nat)
    ensures CodeValid(ADD_TEN_TASK.code, 1) && CodeValues(ADD_TEN_TASK.code, AddTen(), [a]) == [a, a + 10]
  {
    var code := ADD_TEN_TASK.code;
    CodeValueAt(code, AddTen(), [a], 0);
    CodeValueAt(code, AddTen(), [a], 1);
    assert CodeValues(code, AddTen(), [a])[..1] == [a];
    assert Pick([a], [0]) == [a];
  }

  ghost predicate IsTwoRuns(g: Graph) {
    && (forall x: nat :: x in g.nodes <==> x < 5) && (forall x :: x in g.nodes ==> g.nodes[x] == TwoRunsNode(x))
    && g.root == 3 && (forall t: nat :: t in g.tasks <==> t == 0) && (0 in g.tasks ==> g.tasks[0] == ADD_TEN_TASK)
  }

  lemma TwoRunsValid(g: Graph)
    requires IsTwoRuns(g)
    ensures g.Valid()
  {
    assert ADD_TEN_TASK.Valid();
    forall x, o | x in g.nodes && o in g.nodes[x].Operands()
      ensures o in g.nodes && (!g.nodes[x].Output? ==> !g.nodes[o].Call?)
    {
      match x
      case 0 =>
      case 1 =>
      case 2 =>
      case 3 =>
      case _ =>
    }
    forall x | x in g.nodes && g.nodes[x].Output? ensures x == 3 {}
    forall x | x in g.nodes && g.nodes[x].Call? ensures (x == 2 || x == 4) {}
  }

  lemma TwoRunsFusible(g: Graph)
    requires IsTwoRuns(g)
    ensures Fusible(g, [2, 4])
  {
    TwoRunsValid(g);
    var calls := [2, 4];
    assert AreCalls(g, calls);
    forall i, j, o | 0 <= i < |calls| && 0 <= j < |calls| && o in g.nodes[calls[j]].operands ensures !g.IsOutputOf(o, calls[i]) {
      assert calls[j] == 2 || calls[j] == 4;
      assert o == 0 || o == 1;
    }
    assert Distinct(calls);
  }

  lemma TwoRunsEvaluate(g: Graph)
    requires IsTwoRuns(g) && g.Valid()
    ensures Evaluates(g, AddTen(), TwoRunValues())
    ensures 4 in g.nodes && g.nodes[4].Call? && CallValues(g, AddTen(), TwoRunValues(), 4) == [1, 11]
  {
    AddTenAdds(0);
    AddTenAdds(1);
    assert Values(TwoRunValues(), [0]) == [0] && Values(TwoRunValues(), [1]) == [1];
    assert CallValues(g, AddTen(), TwoRunValues(), 2) == [0, 10];
    assert OutputValue(g, AddTen(), TwoRunValues(), 3) == 10;
    forall x | x in g.nodes && g.nodes[x].Plain? ensures x == 0 || x == 1 {}
    forall x | x in g.nodes && g.nodes[x].Output? ensures x == 3 {}
  }

  /** The two runs are fusible and their values are as the tasks compute them. */
  lemma TwoRunsAreOrdinary()
    ensures IsTwoRuns(TwoRuns()) && Fusible(TwoRuns(), [2, 4]) && Evaluates(TwoRuns(), AddTen(), TwoRunValues())
  {
    TwoRunsFusible(TwoRuns());
    TwoRunsEvaluate(TwoRuns());
  }

  /** The values of the copied instructions are keyed by task instruction, so fusing two runs of one task
      makes the first result (here 10) come out as the second (here 11). */
  lemma RerunTaskLosesOutput(g: Graph, g': Graph, f: Fusion, k: nat)
    requires IsTwoRuns(g) && Fusible(g, [2, 4]) && IsFusionOf(g, [2, 4], g', f, AddTen(), TwoRunValues())
    requires k < |f.exports| && f.exports[k] == 3
    ensures f.fused.outputs[k] < |f.fused.code|
    ensures CodeValues(f.fused.code, AddTen(), Values(TwoRunValues(), f.parameters))[f.fused.outputs[k]] == 11
    ensures TwoRunValues()(f.exports[k]) == 10
  {
    TwoRunsEvaluate(g);
    LastRunWins(g, g', f, k);
  }

  lemma LastRunWins(g: Graph, g': Graph, f: Fusion, k: nat)
    requires IsTwoRuns(g) && g.Valid() && IsFusionOf(g, [2, 4], g', f, AddTen(), TwoRunValues())
    requires k < |f.exports| && f.exports[k] == 3
    requires 4 in g.nodes && g.nodes[4].Call? && CallValues(g, AddTen(), TwoRunValues(), 4) == [1, 11]
    ensures f.fused.outputs[k] < |f.fused.code|
    ensures CodeValues(f.fused.code, AddTen(), Values(TwoRunValues(), f.parameters))[f.fused.outputs[k]] == 11
  {
    var sem, vals, calls := AddTen(), TwoRunValues(), [2, 4];
    var code, args, output := f.fused.code, Values(vals, f.parameters), f.fused.outputs[k];
    assert DeliversAt(g, calls, sem, vals, f.exports[k], code, args, output);
    var value := CodeValues(code, sem, args)[output];
    var i :| 0 <= i < |calls| && IsLastRun(g, calls, i, |calls|) && DeliveredBy(g, sem, vals, 3, value, calls[i]);
    assert TaskOf(g, calls[0]) == TaskOf(g, calls[1]);
    assert i == 1;
  }
}
