/** Fusing several calls into one. */
module CallFusion {
  import opened CallGraph
  import opened Sequences
  import opened Wrappers

  // ---- the set to fuse ----

  /** The calls to fuse, producers before consumers. */
  ghost predicate Fusible(g: Graph, calls: seq<nat>) {
    && AreCalls(g, calls) && Distinct(calls)
    && (forall i, j, o :: 0 <= i < |calls| && 0 <= j < |calls| && o in g.nodes[calls[j]].operands && g.IsOutputOf(o, calls[i]) ==> i < j)
  }

  ghost predicate IsMemberOutput(g: Graph, calls: seq<nat>, x: nat) {
    x in g.nodes && g.nodes[x].Output? && g.nodes[x].call in calls
  }

  ghost predicate AreCalls(g: Graph, calls: seq<nat>) {
    g.Valid() && forall i :: 0 <= i < |calls| ==> calls[i] in g.nodes && g.nodes[calls[i]].Call?
  }

  /** An output that somebody outside the set still reads. */
  ghost predicate Exported(g: Graph, calls: seq<nat>, x: nat) {
    IsMemberOutput(g, calls, x) &&
    (x == g.root || exists u :: u in g.nodes && u !in calls && x in g.nodes[u].Operands())
  }

  /** An operand that the set does not produce itself. */
  ghost predicate Imported(g: Graph, calls: seq<nat>, x: nat) {
    !IsMemberOutput(g, calls, x) && exists c :: c in calls && c in g.nodes && x in g.nodes[c].Operands()
  }

  // ---- the boundary of the set ----

  ghost predicate ImportedUpTo(g: Graph, calls: seq<nat>, i: int, k: int, x: nat)
    requires Fusible(g, calls) && 0 <= i <= |calls|
  {
    && !IsMemberOutput(g, calls, x)
    && ((exists j :: 0 <= j < i && x in g.nodes[calls[j]].operands) ||
        (i < |calls| && 0 <= k <= |g.nodes[calls[i]].operands| && x in g.nodes[calls[i]].operands[..k]))
  }

  method IsExported(g: Graph, calls: seq<nat>, x: nat) returns (b: bool)
    requires IsMemberOutput(g, calls, x)
    ensures b <==> Exported(g, calls, x)
  {
    if x == g.root {
      return true;
    }
    var users := set u | u in g.nodes && x in g.nodes[u].Operands();
    ghost var all := users;
    while users != {}
      invariant users <= all
      invariant forall u :: u in all && u !in users ==> u in calls
      decreases |users|
    {
      var user :| user in users;
      if user !in calls {
        return true;
      }
      users := users - {user};
    }
    return false;
  }

  /** Walks the calls once: operands not produced so far become parameters of the fused call, outputs
      still read from outside become its outputs. */
  method CollectBoundary(g: Graph, calls: seq<nat>) returns (parameters: seq<nat>, exports: seq<nat>)
    requires Fusible(g, calls)
    ensures Distinct(parameters) && forall x :: x in parameters <==> Imported(g, calls, x)
    ensures Distinct(exports) && forall x :: x in exports <==> Exported(g, calls, x)
  {
    parameters, exports := [], [];
    var produced: set<nat> := {};
    for i := 0 to |calls|
      invariant Distinct(parameters) && Distinct(exports)
      invariant forall x :: x in produced <==> IsMemberOutput(g, calls[..i], x)
      invariant forall x :: x in parameters <==> ImportedUpTo(g, calls, i, 0, x)
      invariant forall x :: x in exports <==> IsMemberOutput(g, calls[..i], x) && Exported(g, calls, x)
    {
      var call := calls[i];
      assert call in calls;
      var operands := g.nodes[call].operands;
      for k := 0 to |operands|
        invariant Distinct(parameters)
        invariant forall x :: x in parameters <==> ImportedUpTo(g, calls, i, k, x)
      {
        var operand := operands[k];
        assert operands[..k + 1] == operands[..k] + [operand];
        ProducedBefore(g, calls, i, operand);
        if operand !in produced && operand !in parameters {
          parameters := parameters + [operand];
        }
      }
      assert operands[..|operands|] == operands;
      produced, exports := CollectOutputs(g, calls, i, produced, exports);
    }
    assert calls[..|calls|] == calls;
    forall x ensures x in parameters <==> Imported(g, calls, x) {
      if x in parameters {
        var j :| 0 <= j < |calls| && x in g.nodes[calls[j]].operands;
        assert calls[j] in calls;
      }
      if Imported(g, calls, x) {
        var c :| c in calls && c in g.nodes && x in g.nodes[c].Operands();
        var j :| 0 <= j < |calls| && calls[j] == c;
      }
    }
  }

  /** Since producers come first, an operand is produced by the set exactly when it was produced already. */
  lemma ProducedBefore(g: Graph, calls: seq<nat>, i: nat, operand: nat)
    requires Fusible(g, calls) && i < |calls| && operand in g.nodes[calls[i]].operands
    ensures IsMemberOutput(g, calls, operand) <==> IsMemberOutput(g, calls[..i], operand)
  {
    if IsMemberOutput(g, calls, operand) {
      var c := g.nodes[operand].call;
      var j :| 0 <= j < |calls| && calls[j] == c;
      assert g.IsOutputOf(operand, calls[j]);
      assert calls[..i][j] == c;
    }
  }

  method CollectOutputs(g: Graph, calls: seq<nat>, i: nat, seen: set<nat>, before: seq<nat>) returns (produced: set<nat>, exports: seq<nat>)
    requires Fusible(g, calls) && i < |calls| && Distinct(before)
    requires forall x :: x in seen <==> IsMemberOutput(g, calls[..i], x)
    requires forall x :: x in before <==> IsMemberOutput(g, calls[..i], x) && Exported(g, calls, x)
    ensures Distinct(exports)
    ensures forall x :: x in produced <==> IsMemberOutput(g, calls[..i + 1], x)
    ensures forall x :: x in exports <==> IsMemberOutput(g, calls[..i + 1], x) && Exported(g, calls, x)
  {
    produced, exports := seen, before;
    var outputs := set x | x in g.nodes && g.nodes[x].Output? && g.nodes[x].call == calls[i];
    ghost var all := outputs;
    assert forall x :: IsMemberOutput(g, calls[..i + 1], x) <==> IsMemberOutput(g, calls[..i], x) || x in all by {
      assert calls[..i + 1] == calls[..i] + [calls[i]];
    }
    assert forall x :: x in all ==> !IsMemberOutput(g, calls[..i], x);
    while outputs != {}
      invariant outputs <= all && Distinct(exports)
      invariant forall x :: x in produced <==> x in seen || x in all - outputs
      invariant forall x :: x in exports <==> x in before || (x in all - outputs && Exported(g, calls, x))
      decreases |outputs|
    {
      var x :| x in outputs;
      assert calls[i] in calls;
      produced := produced + {x};
      var isRoot := IsExported(g, calls, x);
      if isRoot {
        exports := exports + [x];
      }
      outputs := outputs - {x};
    }
  }

  // ---- the fused computation ----

  ghost predicate Means<V>(code: seq<TaskInstruction>, sem: (nat, seq<V>) -> V, args: seq<V>, id: nat, value: V)
    requires CodeValid(code, |args|)
  {
    id < |code| && CodeValues(code, sem, args)[id] == value
  }

  lemma MeansStays<V>(code: seq<TaskInstruction>, i: TaskInstruction, sem: (nat, seq<V>) -> V, args: seq<V>)
    requires CodeValid(code, |args|) && (i.Parameter? ==> i.number < |args|) && forall o :: o in i.Operands() ==> o < |code|
    ensures CodeValid(code + [i], |args|)
    ensures forall id, value :: Means(code, sem, args, id, value) ==> Means(code + [i], sem, args, id, value)
    ensures Means(code + [i], sem, args, |code|, InstructionValue(i, CodeValues(code, sem, args), sem, args))
  {
    CodeValuesAppend(code, i, sem, args);
  }

  ghost function TaskOf(g: Graph, call: nat): nat
    requires g.Valid() && call in g.nodes && g.nodes[call].Call?
  {
    g.nodes[call].task
  }

  /** No later call among the first `n` runs the same task as call number `i`. */
  ghost predicate IsLastRun(g: Graph, calls: seq<nat>, i: int, n: int)
    requires AreCalls(g, calls) && 0 <= i < n <= |calls|
  {
    forall j :: i < j < n ==> TaskOf(g, calls[j]) != TaskOf(g, calls[i])
  }

  /** `copy` lists, for the instructions of a call's task, where their values are found in the fused computation. */
  ghost predicate IsCopy<V>(values: seq<V>, sem: (nat, seq<V>) -> V, code: seq<TaskInstruction>, args: seq<V>, copy: seq<nat>)
    requires CodeValid(code, |args|)
  {
    |copy| <= |values| && forall pos :: 0 <= pos < |copy| ==> Means(code, sem, args, copy[pos], values[pos])
  }

  ghost predicate CopiedAs<V>(g: Graph, sem: (nat, seq<V>) -> V, vals: nat -> V, call: nat,
                              code: seq<TaskInstruction>, args: seq<V>, copy: seq<nat>)
    requires g.Valid() && call in g.nodes && g.nodes[call].Call? && CodeValid(code, |args|)
  {
    IsCopy(CallValues(g, sem, vals, call), sem, code, args, copy) && |copy| == |CallValues(g, sem, vals, call)|
  }

  /** After the first `n` calls: one clone per task instruction, holding the value of the last run of the task. */
  ghost predicate ClonesMatch<V>(g: Graph, calls: seq<nat>, sem: (nat, seq<V>) -> V, vals: nat -> V, n: nat,
                                 code: seq<TaskInstruction>, args: seq<V>, clones: map<nat, seq<nat>>)
    requires AreCalls(g, calls) && n <= |calls| && CodeValid(code, |args|)
  {
    forall i :: 0 <= i < n && IsLastRun(g, calls, i, n) ==>
      TaskOf(g, calls[i]) in clones && CopiedAs(g, sem, vals, calls[i], code, args, clones[TaskOf(g, calls[i])])
  }

  /** What is known about each operand of the calls still to come. */
  ghost predicate OperandsMatch<V>(g: Graph, calls: seq<nat>, sem: (nat, seq<V>) -> V, vals: nat -> V, parameters: seq<nat>, n: nat,
                                   code: seq<TaskInstruction>, args: seq<V>, known: map<nat, nat>)
    requires CodeValid(code, |args|) && n <= |calls|
  {
    && AllMean(code, sem, args, vals, known)
    && (forall x :: x in parameters || IsMemberOutput(g, calls[..n], x) ==> x in known)
  }

  ghost predicate AllMean<V>(code: seq<TaskInstruction>, sem: (nat, seq<V>) -> V, args: seq<V>, vals: nat -> V, known: map<nat, nat>)
    requires CodeValid(code, |args|)
  {
    forall x :: x in known ==> Means(code, sem, args, known[x], vals(x))
  }

  /** The first instructions of the fused computation are its parameters. */
  method AddParameters<V>(parameters: seq<nat>, ghost sem: (nat, seq<V>) -> V, ghost vals: nat -> V)
    returns (code: seq<TaskInstruction>, known: map<nat, nat>)
    ensures CodeValid(code, |parameters|) && |code| == |parameters|
    ensures forall i :: 0 <= i < |parameters| ==> code[i] == Parameter(i)
    ensures forall x :: x in known <==> x in parameters
    ensures AllMean(code, sem, Values(vals, parameters), vals, known)
  {
    code, known := [], map[];
    ghost var args := Values(vals, parameters);
    for i := 0 to |parameters|
      invariant CodeValid(code, |parameters|) && |code| == i
      invariant forall j :: 0 <= j < i ==> code[j] == Parameter(j)
      invariant forall x :: x in known <==> x in parameters[..i]
      invariant AllMean(code, sem, args, vals, known)
    {
      assert parameters[..i + 1] == parameters[..i] + [parameters[i]];
      MeansStays(code, Parameter(i), sem, args);
      code := code + [Parameter(i)];
      known := known[parameters[i] := i];
    }
    assert parameters[..|parameters|] == parameters;
  }

  /** One copied instruction has the value of the original. */
  lemma CopyMeans<V>(task: Task, callArgs: seq<V>, sem: (nat, seq<V>) -> V, pos: nat, code: seq<TaskInstruction>, args: seq<V>,
                     copy: seq<nat>, cloned: seq<nat>)
    requires task.Valid() && |callArgs| == |task.parameters| && CodeValid(code, |args|)
    requires pos < |task.code| && |copy| == pos && task.code[pos].Op?
    requires IsCopy(CodeValues(task.code, sem, callArgs), sem, code, args, copy)
    requires cloned == Pick(copy, task.code[pos].Operands())
    ensures forall o :: o in cloned ==> o < |code|
    ensures sem(task.code[pos].op, Pick(CodeValues(code, sem, args), cloned)) == CodeValues(task.code, sem, callArgs)[pos]
  {
    var values := CodeValues(task.code, sem, callArgs);
    var operands := task.code[pos].operands;
    CodeValueAt(task.code, sem, callArgs, pos);
    forall k | 0 <= k < |operands| ensures operands[k] < pos && Means(code, sem, args, cloned[k], values[operands[k]]) {
      assert operands[k] in task.code[pos].Operands();
    }
    assert Pick(CodeValues(code, sem, args), cloned) == Pick(values[..pos], operands);
  }

  method CloneOperands(operands: seq<nat>, copy: seq<nat>) returns (cloned: seq<nat>)
    requires forall o :: o in operands ==> o < |copy|
    ensures cloned == Pick(copy, operands)
  {
    cloned := [];
    for k := 0 to |operands|
      invariant cloned == Pick(copy, operands)[..k]
    {
      assert operands[k] in operands;
      cloned := cloned + [copy[operands[k]]];
    }
  }

  /** Copies the task of one call; its parameters become whatever feeds the call. */
  method CloneTask<V>(task: Task, operands: seq<nat>, before: seq<TaskInstruction>, known: map<nat, nat>,
                      ghost sem: (nat, seq<V>) -> V, ghost vals: nat -> V, ghost args: seq<V>)
    returns (code: seq<TaskInstruction>, copy: seq<nat>)
    requires task.Valid() && |operands| == |task.parameters| && CodeValid(before, |args|)
    requires forall o :: o in operands ==> o in known
    requires AllMean(before, sem, args, vals, known)
    ensures before <= code && CodeValid(code, |args|)
    ensures IsCopy(CodeValues(task.code, sem, Values(vals, operands)), sem, code, args, copy) && |copy| == |task.code|
    ensures AllMean(code, sem, args, vals, known)
  {
    code, copy := before, [];
    ghost var callArgs := Values(vals, operands);
    for pos := 0 to |task.code|
      invariant before <= code && CodeValid(code, |args|) && |copy| == pos
      invariant AllMean(code, sem, args, vals, known)
      invariant IsCopy(CodeValues(task.code, sem, callArgs), sem, code, args, copy)
    {
      CodeValueAt(task.code, sem, callArgs, pos);
      match task.code[pos] {
        case Parameter(number) =>
          assert operands[number] in operands;
          copy := copy + [known[operands[number]]];
        case Op(op, inner) =>
          assert task.code[pos].Operands() == inner;
          var cloned := CloneOperands(inner, copy);
          CopyMeans(task, callArgs, sem, pos, code, args, copy, cloned);
          MeansStays(code, Op(op, cloned), sem, args);
          copy := copy + [|code|];
          code := code + [Op(op, cloned)];
      }
    }
  }

  /** The copy of a task's output has the value of the call's output. */
  lemma OutputMeans<V>(g: Graph, call: nat, copy: seq<nat>, code: seq<TaskInstruction>, sem: (nat, seq<V>) -> V, vals: nat -> V, args: seq<V>, x: nat)
    requires g.Valid() && CodeValid(code, |args|) && Evaluates(g, sem, vals)
    requires call in g.nodes && g.nodes[call].Call? && CopiedAs(g, sem, vals, call, code, args, copy)
    requires x in g.nodes && g.nodes[x].Output? && g.nodes[x].call == call
    ensures g.nodes[call].task in g.tasks && g.nodes[x].index < |g.tasks[g.nodes[call].task].outputs|
    ensures g.tasks[g.nodes[call].task].outputs[g.nodes[x].index] < |copy|
    ensures Means(code, sem, args, copy[g.tasks[g.nodes[call].task].outputs[g.nodes[x].index]], vals(x))
  {
    assert g.IsOutputOf(x, call);
    assert g.tasks[g.nodes[call].task].Valid();
    assert vals(x) == OutputValue(g, sem, vals, x);
  }

  /** Records which copied instruction now stands for each output of a call. */
  method RecordOutputs<V>(g: Graph, call: nat, before: map<nat, nat>, copy: seq<nat>,
                          ghost code: seq<TaskInstruction>, ghost sem: (nat, seq<V>) -> V, ghost vals: nat -> V, ghost args: seq<V>)
    returns (known: map<nat, nat>)
    requires g.Valid() && CodeValid(code, |args|) && Evaluates(g, sem, vals)
    requires call in g.nodes && g.nodes[call].Call? && CopiedAs(g, sem, vals, call, code, args, copy)
    requires AllMean(code, sem, args, vals, before)
    ensures AllMean(code, sem, args, vals, known)
    ensures forall x :: x in before || IsMemberOutput(g, [call], x) ==> x in known
  {
    known := before;
    var task := g.tasks[g.nodes[call].task];
    assert task.Valid();
    var outputs := set x | x in g.nodes && g.nodes[x].Output? && g.nodes[x].call == call;
    ghost var all := outputs;
    while outputs != {}
      invariant outputs <= all
      invariant AllMean(code, sem, args, vals, known)
      invariant forall x :: x in before || x in all - outputs ==> x in known
      decreases |outputs|
    {
      var x :| x in outputs;
      OutputMeans(g, call, copy, code, sem, vals, args, x);
      known := known[x := copy[task.outputs[g.nodes[x].index]]];
      outputs := outputs - {x};
    }
  }

  /** Cloning call number `n` replaces the clones of its task and leaves the others alone. */
  lemma ClonesAdvance<V>(g: Graph, calls: seq<nat>, sem: (nat, seq<V>) -> V, vals: nat -> V, n: nat, before: seq<TaskInstruction>,
                         code: seq<TaskInstruction>, args: seq<V>, clones: map<nat, seq<nat>>, copy: seq<nat>)
    requires AreCalls(g, calls) && n < |calls| && CodeValid(before, |args|) && CodeValid(code, |args|) && before <= code
    requires ClonesMatch(g, calls, sem, vals, n, before, args, clones)
    requires CopiedAs(g, sem, vals, calls[n], code, args, copy)
    ensures ClonesMatch(g, calls, sem, vals, n + 1, code, args, clones[TaskOf(g, calls[n]) := copy])
  {
    forall i | 0 <= i < n && IsLastRun(g, calls, i, n + 1)
      ensures TaskOf(g, calls[i]) != TaskOf(g, calls[n]) && TaskOf(g, calls[i]) in clones
      ensures CopiedAs(g, sem, vals, calls[i], code, args, clones[TaskOf(g, calls[i])])
    {
      assert IsLastRun(g, calls, i, n);
      CopiedGrows(g, sem, vals, calls[i], before, code, args, clones[TaskOf(g, calls[i])]);
    }
  }

  lemma CopiedGrows<V>(g: Graph, sem: (nat, seq<V>) -> V, vals: nat -> V, call: nat, before: seq<TaskInstruction>,
                       code: seq<TaskInstruction>, args: seq<V>, copy: seq<nat>)
    requires g.Valid() && call in g.nodes && g.nodes[call].Call?
    requires CodeValid(before, |args|) && CodeValid(code, |args|) && before <= code
    requires CopiedAs(g, sem, vals, call, before, args, copy)
    ensures CopiedAs(g, sem, vals, call, code, args, copy)
  {
    CodeValuesPrefix(code, sem, args, |before|);
    assert code[..|before|] == before;
    var values := CallValues(g, sem, vals, call);
    forall pos | 0 <= pos < |copy| ensures Means(code, sem, args, copy[pos], values[pos]) {
      assert Means(before, sem, args, copy[pos], values[pos]);
    }
  }

  /** The task an output belongs to, and the instruction of that task it reads. */
  function RootOf(g: Graph, x: nat): (nat, nat)
    requires g.Valid() && x in g.nodes && g.nodes[x].Output?
  {
    assert g.IsOutputOf(x, g.nodes[x].call);
    var task := g.nodes[g.nodes[x].call].task;
    (task, g.tasks[task].outputs[g.nodes[x].index])
  }

  /** The value the fused computation delivers for export `x`: that of the last listed call running the same task. */
  ghost predicate Delivers<V>(g: Graph, calls: seq<nat>, sem: (nat, seq<V>) -> V, vals: nat -> V, x: nat, value: V)
    requires AreCalls(g, calls) && x in g.nodes && g.nodes[x].Output?
  {
    exists i :: 0 <= i < |calls| && IsLastRun(g, calls, i, |calls|) && DeliveredBy(g, sem, vals, x, value, calls[i])
  }

  ghost predicate DeliveredBy<V>(g: Graph, sem: (nat, seq<V>) -> V, vals: nat -> V, x: nat, value: V, call: nat)
    requires g.Valid() && x in g.nodes && g.nodes[x].Output? && call in g.nodes && g.nodes[call].Call?
  {
    var (task, root) := RootOf(g, x);
    TaskOf(g, call) == task && root < |CallValues(g, sem, vals, call)| && CallValues(g, sem, vals, call)[root] == value
  }

  ghost predicate AllDelivered<V>(g: Graph, calls: seq<nat>, sem: (nat, seq<V>) -> V, vals: nat -> V, exports: seq<nat>,
                                  code: seq<TaskInstruction>, args: seq<V>, outputs: seq<nat>)
    requires AreCalls(g, calls) && CodeValid(code, |args|) && |outputs| <= |exports|
  {
    forall k :: 0 <= k < |outputs| ==> DeliversAt(g, calls, sem, vals, exports[k], code, args, outputs[k])
  }

  ghost predicate DeliversAt<V>(g: Graph, calls: seq<nat>, sem: (nat, seq<V>) -> V, vals: nat -> V, x: nat,
                                code: seq<TaskInstruction>, args: seq<V>, output: nat)
    requires AreCalls(g, calls) && CodeValid(code, |args|)
  {
    x in g.nodes && g.nodes[x].Output? && output < |code| && Delivers(g, calls, sem, vals, x, CodeValues(code, sem, args)[output])
  }

  lemma {:induction false} SomeLastRun(g: Graph, calls: seq<nat>, i: nat, n: nat) returns (last: nat)
    requires AreCalls(g, calls) && i < n <= |calls|
    ensures i <= last < n && IsLastRun(g, calls, last, n) && TaskOf(g, calls[last]) == TaskOf(g, calls[i])
    decreases n - i
  {
    if IsLastRun(g, calls, i, n) {
      last := i;
    } else {
      var j :| i < j < n && TaskOf(g, calls[j]) == TaskOf(g, calls[i]);
      last := SomeLastRun(g, calls, j, n);
    }
  }

  /** Builds the fused computation: parameters, then the copied tasks, then the exported results. */
  method BuildFused<V>(g: Graph, calls: seq<nat>, parameters: seq<nat>, exports: seq<nat>, ghost sem: (nat, seq<V>) -> V, ghost vals: nat -> V)
    returns (fused: Task)
    requires Fusible(g, calls) && Evaluates(g, sem, vals)
    requires forall x :: x in parameters <==> Imported(g, calls, x)
    requires forall x :: x in exports <==> Exported(g, calls, x)
    ensures fused.Valid() && |fused.parameters| == |parameters| && |fused.outputs| == |exports|
    ensures AllDelivered(g, calls, sem, vals, exports, fused.code, Values(vals, parameters), fused.outputs)
  {
    ghost var args := Values(vals, parameters);
    var code, known := AddParameters(parameters, sem, vals);
    var clones: map<nat, seq<nat>> := map[];
    for i := 0 to |calls|
      invariant CodeValid(code, |args|) && |parameters| <= |code|
      invariant forall j :: 0 <= j < |parameters| ==> code[j] == Parameter(j)
      invariant OperandsMatch(g, calls, sem, vals, parameters, i, code, args, known)
      invariant ClonesMatch(g, calls, sem, vals, i, code, args, clones)
    {
      code, known, clones := FuseNext(g, calls, i, parameters, code, known, clones, sem, vals, args);
    }
    var outputs := CollectRoots(g, calls, exports, clones, code, sem, vals, args);
    fused := Task(code, seq(|parameters|, i => i), outputs);
  }

  method FuseNext<V>(g: Graph, calls: seq<nat>, i: nat, ghost parameters: seq<nat>, before: seq<TaskInstruction>, seen: map<nat, nat>,
                     cloned: map<nat, seq<nat>>, ghost sem: (nat, seq<V>) -> V, ghost vals: nat -> V, ghost args: seq<V>)
    returns (code: seq<TaskInstruction>, known: map<nat, nat>, clones: map<nat, seq<nat>>)
    requires Fusible(g, calls) && Evaluates(g, sem, vals) && i < |calls|
    requires forall x :: x in parameters <==> Imported(g, calls, x)
    requires CodeValid(before, |args|)
    requires OperandsMatch(g, calls, sem, vals, parameters, i, before, args, seen)
    requires ClonesMatch(g, calls, sem, vals, i, before, args, cloned)
    ensures before <= code && CodeValid(code, |args|)
    ensures OperandsMatch(g, calls, sem, vals, parameters, i + 1, code, args, known)
    ensures ClonesMatch(g, calls, sem, vals, i + 1, code, args, clones)
  {
    var call := calls[i];
    OperandsKnown(g, calls, sem, vals, parameters, i, before, args, seen);
    var task := g.tasks[g.nodes[call].task];
    assert task.Valid();
    var copy;
    code, copy := CloneTask(task, g.nodes[call].operands, before, seen, sem, vals, args);
    ClonesAdvance(g, calls, sem, vals, i, before, code, args, cloned, copy);
    clones := cloned[g.nodes[call].task := copy];
    known := RecordOutputs(g, call, seen, copy, code, sem, vals, args);
    assert calls[..i + 1] == calls[..i] + [call];
  }

  lemma OperandsKnown<V>(g: Graph, calls: seq<nat>, sem: (nat, seq<V>) -> V, vals: nat -> V, parameters: seq<nat>, i: nat,
                         code: seq<TaskInstruction>, args: seq<V>, known: map<nat, nat>)
    requires Fusible(g, calls) && i < |calls| && CodeValid(code, |args|)
    requires forall x :: x in parameters <==> Imported(g, calls, x)
    requires OperandsMatch(g, calls, sem, vals, parameters, i, code, args, known)
    ensures forall o :: o in g.nodes[calls[i]].operands ==> o in known
  {
    assert calls[i] in calls;
    forall o | o in g.nodes[calls[i]].operands ensures o in known {
      ProducedBefore(g, calls, i, o);
      assert o in g.nodes[calls[i]].Operands();
    }
  }

  method CollectRoots<V>(g: Graph, calls: seq<nat>, exports: seq<nat>, clones: map<nat, seq<nat>>,
                         ghost code: seq<TaskInstruction>, ghost sem: (nat, seq<V>) -> V, ghost vals: nat -> V, ghost args: seq<V>)
    returns (outputs: seq<nat>)
    requires AreCalls(g, calls) && CodeValid(code, |args|)
    requires forall x :: x in exports ==> IsMemberOutput(g, calls, x)
    requires ClonesMatch(g, calls, sem, vals, |calls|, code, args, clones)
    ensures |outputs| == |exports| && AllDelivered(g, calls, sem, vals, exports, code, args, outputs)
  {
    outputs := [];
    for k := 0 to |exports|
      invariant |outputs| == k && AllDelivered(g, calls, sem, vals, exports, code, args, outputs)
    {
      var x := exports[k];
      assert x in exports;
      RootIsCloned(g, calls, sem, vals, x, code, args, clones);
      var (task, root) := RootOf(g, x);
      outputs := outputs + [clones[task][root]];
    }
  }

  lemma RootIsCloned<V>(g: Graph, calls: seq<nat>, sem: (nat, seq<V>) -> V, vals: nat -> V, x: nat,
                        code: seq<TaskInstruction>, args: seq<V>, clones: map<nat, seq<nat>>)
    requires AreCalls(g, calls) && CodeValid(code, |args|) && IsMemberOutput(g, calls, x)
    requires ClonesMatch(g, calls, sem, vals, |calls|, code, args, clones)
    ensures var (task, root) := RootOf(g, x);
            task in clones && root < |clones[task]| && DeliversAt(g, calls, sem, vals, x, code, args, clones[task][root])
  {
    assert g.IsOutputOf(x, g.nodes[x].call);
    assert g.tasks[RootOf(g, x).0].Valid();
    var i :| 0 <= i < |calls| && calls[i] == g.nodes[x].call;
    var last := SomeLastRun(g, calls, i, |calls|);
    var (task, root) := RootOf(g, x);
    assert DeliveredBy(g, sem, vals, x, CallValues(g, sem, vals, calls[last])[root], calls[last]);
  }
}
