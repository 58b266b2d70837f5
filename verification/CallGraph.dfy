/** A computation made of calls: each call runs a task computation and its outputs are read through
    get-tuple-element. */
module CallGraph {

  // ---- task computations ----

  datatype TaskInstruction = Parameter(number: nat) | Op(op: nat, operands: seq<nat>) {
    function Operands(): seq<nat> {
      if Op? then operands else []
    }
  }

  /** The instructions of a task in postorder, where each parameter sits, and the operands of the root tuple. */
  datatype Task = Task(code: seq<TaskInstruction>, parameters: seq<nat>, outputs: seq<nat>) {
    ghost predicate Valid() {
      && CodeValid(code, |parameters|)
      && (forall i :: 0 <= i < |parameters| ==> parameters[i] < |code| && code[parameters[i]] == Parameter(i))
      && (forall i :: 0 <= i < |outputs| ==> outputs[i] < |code|)
    }
  }

  ghost predicate CodeValid(code: seq<TaskInstruction>, arity: nat) {
    && (forall k, o :: 0 <= k < |code| && o in code[k].Operands() ==> o < k)
    && (forall k :: 0 <= k < |code| && code[k].Parameter? ==> code[k].number < arity)
  }

  ghost function Pick<V>(values: seq<V>, ids: seq<nat>): (r: seq<V>)
    requires forall o :: o in ids ==> o < |values|
    ensures |r| == |ids|
    ensures forall k {:trigger r[k]} :: 0 <= k < |r| ==> ids[k] in ids && r[k] == values[ids[k]]
  {
    seq(|ids|, k requires 0 <= k < |ids| => assert ids[k] in ids; values[ids[k]])
  }

  ghost function InstructionValue<V>(i: TaskInstruction, before: seq<V>, sem: (nat, seq<V>) -> V, args: seq<V>): V
    requires (i.Parameter? ==> i.number < |args|) && forall o :: o in i.Operands() ==> o < |before|
  {
    match i
    case Parameter(number) => args[number]
    case Op(op, operands) => sem(op, Pick(before, operands))
  }

  ghost function CodeValues<V>(code: seq<TaskInstruction>, sem: (nat, seq<V>) -> V, args: seq<V>): (values: seq<V>)
    requires CodeValid(code, |args|)
    ensures |values| == |code|
  {
    if code == [] then []
    else
      var before := CodeValues(code[..|code| - 1], sem, args);
      before + [InstructionValue(code[|code| - 1], before, sem, args)]
  }

  lemma CodeValuesAppend<V>(code: seq<TaskInstruction>, i: TaskInstruction, sem: (nat, seq<V>) -> V, args: seq<V>)
    requires CodeValid(code, |args|) && CodeValid(code + [i], |args|)
    requires (i.Parameter? ==> i.number < |args|) && forall o :: o in i.Operands() ==> o < |code|
    ensures CodeValues(code + [i], sem, args) ==
            CodeValues(code, sem, args) + [InstructionValue(i, CodeValues(code, sem, args), sem, args)]
  {
    assert (code + [i])[..|code|] == code;
  }

  lemma {:induction false} CodeValuesPrefix<V>(code: seq<TaskInstruction>, sem: (nat, seq<V>) -> V, args: seq<V>, n: nat)
    requires CodeValid(code, |args|) && n <= |code|
    ensures CodeValues(code[..n], sem, args) == CodeValues(code, sem, args)[..n]
    decreases |code|
  {
    if n == |code| {
      assert code[..n] == code;
    } else {
      var init := code[..|code| - 1];
      CodeValuesPrefix(init, sem, args, n);
      assert init[..n] == code[..n];
    }
  }

  lemma CodeValueAt<V>(code: seq<TaskInstruction>, sem: (nat, seq<V>) -> V, args: seq<V>, k: nat)
    requires CodeValid(code, |args|) && k < |code|
    ensures var values := CodeValues(code, sem, args);
            values[k] == InstructionValue(code[k], values[..k], sem, args)
  {
    CodeValuesPrefix(code, sem, args, k + 1);
    CodeValuesPrefix(code, sem, args, k);
    assert code[..k + 1][..k] == code[..k];
  }

  // ---- the computation that calls them ----

  datatype Node =
    | Plain(op: nat, operands: seq<nat>)
    | Call(task: nat, operands: seq<nat>)
    | Output(call: nat, index: nat)
  {
    function Operands(): seq<nat> {
      match this
      case Plain(_, operands) => operands
      case Call(_, operands) => operands
      case Output(call, _) => [call]
    }
  }

  datatype Graph = Graph(nodes: map<nat, Node>, root: nat, tasks: map<nat, Task>) {
    /** Calls match their tasks, and the result of a call is only read through its outputs. */
    ghost predicate Valid() {
      && root in nodes && !nodes[root].Call?
      && (forall t :: t in tasks ==> tasks[t].Valid())
      && (forall x, o :: x in nodes && o in nodes[x].Operands() ==> o in nodes)
      && (forall x, o :: x in nodes && !nodes[x].Output? && o in nodes[x].Operands() ==> !nodes[o].Call?)
      && (forall x :: x in nodes && nodes[x].Call? ==>
           nodes[x].task in tasks && |nodes[x].operands| == |tasks[nodes[x].task].parameters|)
      && (forall x :: x in nodes && nodes[x].Output? ==> IsOutputOf(x, nodes[x].call))
    }

    ghost predicate IsOutputOf(x: nat, call: nat) {
      && x in nodes && nodes[x].Output? && nodes[x].call == call && call in nodes && nodes[call].Call?
      && nodes[call].task in tasks && nodes[x].index < |tasks[nodes[call].task].outputs|
    }

    /** Operands have smaller rank: the computation has no cycle. */
    ghost predicate RankedBy(rank: nat -> nat) {
      forall x, o :: x in nodes && o in nodes[x].Operands() ==> rank(o) < rank(x)
    }
  }

  ghost function Values<V>(vals: nat -> V, ids: seq<nat>): (r: seq<V>)
    ensures |r| == |ids| && forall k :: 0 <= k < |ids| ==> r[k] == vals(ids[k])
  {
    seq(|ids|, k requires 0 <= k < |ids| => vals(ids[k]))
  }

  /** The values of all instructions of the task that `call` runs. */
  ghost function CallValues<V>(g: Graph, sem: (nat, seq<V>) -> V, vals: nat -> V, call: nat): seq<V>
    requires g.Valid() && call in g.nodes && g.nodes[call].Call?
  {
    CodeValues(g.tasks[g.nodes[call].task].code, sem, Values(vals, g.nodes[call].operands))
  }

  /** The value of output `x` of a call. */
  ghost function OutputValue<V>(g: Graph, sem: (nat, seq<V>) -> V, vals: nat -> V, x: nat): V
    requires g.Valid() && x in g.nodes && g.nodes[x].Output?
  {
    assert g.IsOutputOf(x, g.nodes[x].call);
    var call := g.nodes[x].call;
    CallValues(g, sem, vals, call)[g.tasks[g.nodes[call].task].outputs[g.nodes[x].index]]
  }

  /** `vals` gives every instruction the value its operands determine. */
  ghost predicate Evaluates<V>(g: Graph, sem: (nat, seq<V>) -> V, vals: nat -> V)
    requires g.Valid()
  {
    && (forall x :: x in g.nodes && g.nodes[x].Plain? ==> vals(x) == sem(g.nodes[x].op, Values(vals, g.nodes[x].operands)))
    && (forall x :: x in g.nodes && g.nodes[x].Output? ==> vals(x) == OutputValue(g, sem, vals, x))
  }
}
