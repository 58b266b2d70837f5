/** Unrolling a microbatch loop: the while loop is replaced by copies of its body. */
module LoopUnroll {
  import opened Wrappers

  // ---- values and their meaning ----

  /** An array value, a tuple, or the result of a projection that does not exist. */
  datatype Value<V> = Array(v: V) | Tuple(elements: seq<Value<V>>) | Undefined

  function Project<V>(value: Value<V>, index: nat): Value<V> {
    if value.Tuple? && index < |value.elements| then value.elements[index] else Undefined
  }

  /** The meaning of everything a loop body may contain besides tuples: called computations, the
      literal slice offset, and placeholder operations. */
  datatype Semantics<!V> = Semantics(call: (nat, seq<Value<V>>) -> Value<V>, slice: int -> Value<V>, dummy: nat -> Value<V>)

  // ---- the loop body ----

  /** Instructions of a loop body; operands are positions in its postorder. */
  datatype Instruction =
    | Parameter
    | GetTupleElement(operand: nat, index: nat)
    | Call(callee: nat, operands: seq<nat>, nonCritical: bool)
    | TupleOf(operands: seq<nat>)
    | SliceOffset
    | Dummy(id: nat)
    | Other(operands: seq<nat>)
  {
    function Operands(): seq<nat> {
      match this
      case GetTupleElement(operand, _) => [operand]
      case Call(_, operands, _) => operands
      case TupleOf(operands) => operands
      case Other(operands) => operands
      case _ => []
    }
  }

  datatype Body = Body(code: seq<Instruction>, root: nat) {
    /** A well-formed loop body over a state of `width` elements. */
    ghost predicate Valid(width: nat) {
      && root < |code|
      && (forall k, o :: 0 <= k < |code| && o in code[k].Operands() ==> o < k)
      && (forall k :: 0 <= k < |code| && code[k].GetTupleElement? && code[k].operand < k && code[code[k].operand].Parameter? ==> code[k].index < width)
      && (code[root].TupleOf? ==> |code[root].operands| == width)
    }
  }

  ghost function Pick<V>(values: seq<Value<V>>, operands: seq<nat>): (r: seq<Value<V>>)
    requires forall o :: o in operands ==> o < |values|
    ensures |r| == |operands|
    ensures forall k {:trigger r[k]} :: 0 <= k < |r| ==> operands[k] in operands && r[k] == values[operands[k]]
  {
    seq(|operands|, k requires 0 <= k < |operands| => assert operands[k] in operands; values[operands[k]])
  }

  /** The values of the first instructions of a body, run on loop state `state` at slice offset `offset`. */
  ghost function BodyValues<V>(code: seq<Instruction>, sem: Semantics<V>, state: seq<Value<V>>, offset: int): (values: seq<Value<V>>)
    requires forall k, o :: 0 <= k < |code| && o in code[k].Operands() ==> o < k
    ensures |values| == |code|
  {
    if code == [] then []
    else
      var before := BodyValues(code[..|code| - 1], sem, state, offset);
      before + [BodyValue(code[|code| - 1], before, sem, state, offset)]
  }

  ghost function BodyValue<V>(i: Instruction, before: seq<Value<V>>, sem: Semantics<V>, state: seq<Value<V>>, offset: int): Value<V>
    requires forall o :: o in i.Operands() ==> o < |before|
  {
    match i
    case Parameter => Tuple(state)
    case GetTupleElement(operand, index) => assert operand in i.Operands(); Project(before[operand], index)
    case Call(f, operands, _) => sem.call(f, Pick(before, operands))
    case TupleOf(operands) => Tuple(Pick(before, operands))
    case SliceOffset => sem.slice(offset)
    case Dummy(id) => sem.dummy(id)
    case Other(_) => Undefined
  }

  lemma {:induction false} BodyValuesPrefix<V>(code: seq<Instruction>, sem: Semantics<V>, state: seq<Value<V>>, offset: int, n: nat)
    requires forall k, o :: 0 <= k < |code| && o in code[k].Operands() ==> o < k
    requires n <= |code|
    ensures BodyValues(code[..n], sem, state, offset) == BodyValues(code, sem, state, offset)[..n]
    decreases |code|
  {
    if n == |code| {
      assert code[..n] == code;
    } else {
      var init := code[..|code| - 1];
      BodyValuesPrefix(init, sem, state, offset, n);
      assert init[..n] == code[..n];
    }
  }

  /** A value of the body follows from the values of its operands. */
  lemma BodyValueAt<V>(code: seq<Instruction>, sem: Semantics<V>, state: seq<Value<V>>, offset: int, k: nat)
    requires forall k, o :: 0 <= k < |code| && o in code[k].Operands() ==> o < k
    requires k < |code|
    ensures var values := BodyValues(code, sem, state, offset);
            values[k] == BodyValue(code[k], values[..k], sem, state, offset)
  {
    BodyValuesPrefix(code, sem, state, offset, k + 1);
    BodyValuesPrefix(code, sem, state, offset, k);
    assert code[..k + 1][..k] == code[..k];
  }

  /** The loop state after `k` iterations: the microbatch loop starts at offset 0 and adds the
      microbatch size in every iteration. */
  ghost function Iterate<V>(body: Body, sem: Semantics<V>, state: seq<Value<V>>, size: int, k: nat): (r: (seq<Value<V>>, int))
    requires body.Valid(|state|)
    ensures |r.0| == |state|
  {
    if k == 0 then (state, 0)
    else
      var (previous, offset) := Iterate(body, sem, state, size, k - 1);
      var result := BodyValues(body.code, sem, previous, offset)[body.root];
      (if result.Tuple? && |result.elements| == |state| then result.elements else previous,
       offset + size)
  }

  /** The offset that the loop carries equals the literal written into each copy of the body. */
  lemma {:induction false} OffsetIsLiteral<V>(body: Body, sem: Semantics<V>, state: seq<Value<V>>, size: int, k: nat)
    requires body.Valid(|state|)
    ensures Iterate(body, sem, state, size, k).1 == k * size
  {
    if k > 0 {
      OffsetIsLiteral(body, sem, state, size, k - 1);
    }
  }

  // ---- the computation that the loop is unrolled into ----

  /** Instructions of the flat computation. `Input` stands for whatever was there before. */
  datatype Node =
    | Input(id: nat)
    | NodeElement(operand: nat, index: nat)
    | NodeCall(callee: nat, operands: seq<nat>)
    | NodeTuple(operands: seq<nat>)
    | NodeSlice(offset: int)
    | NodeDummy(id: nat)
  {
    function Operands(): seq<nat> {
      match this
      case NodeElement(operand, _) => [operand]
      case NodeCall(_, operands) => operands
      case NodeTuple(operands) => operands
      case _ => []
    }
  }

  ghost predicate OperandsFirst(nodes: seq<Node>) {
    forall k, o :: 0 <= k < |nodes| && o in nodes[k].Operands() ==> o < k
  }

  ghost function NodeValue<V>(node: Node, before: seq<Value<V>>, sem: Semantics<V>, env: nat -> Value<V>): Value<V>
    requires forall o :: o in node.Operands() ==> o < |before|
  {
    match node
    case Input(id) => env(id)
    case NodeElement(operand, index) => assert operand in node.Operands(); Project(before[operand], index)
    case NodeCall(f, operands) => sem.call(f, Pick(before, operands))
    case NodeTuple(operands) => Tuple(Pick(before, operands))
    case NodeSlice(offset) => sem.slice(offset)
    case NodeDummy(id) => sem.dummy(id)
  }

  ghost function NodeValues<V>(nodes: seq<Node>, sem: Semantics<V>, env: nat -> Value<V>): (values: seq<Value<V>>)
    requires OperandsFirst(nodes)
    ensures |values| == |nodes|
  {
    if nodes == [] then []
    else
      var before := NodeValues(nodes[..|nodes| - 1], sem, env);
      before + [NodeValue(nodes[|nodes| - 1], before, sem, env)]
  }

  class HloComputation {
    var nodes: seq<Node>

    constructor (initial: seq<Node>)
      ensures nodes == initial
    {
      nodes := initial;
    }

    method AddInstruction(node: Node) returns (id: nat)
      requires OperandsFirst(nodes) && forall o :: o in node.Operands() ==> o < |nodes|
      modifies this
      ensures nodes == old(nodes) + [node] && id == |old(nodes)| && OperandsFirst(nodes)
    {
      id := |nodes|;
      nodes := nodes + [node];
    }
  }

  /** Appending an instruction computes its value and disturbs no other. */
  lemma AppendedValue<V>(nodes: seq<Node>, node: Node, sem: Semantics<V>, env: nat -> Value<V>)
    requires OperandsFirst(nodes) && OperandsFirst(nodes + [node])
    requires forall o :: o in node.Operands() ==> o < |nodes|
    ensures NodeValues(nodes + [node], sem, env) ==
            NodeValues(nodes, sem, env) + [NodeValue(node, NodeValues(nodes, sem, env), sem, env)]
  {
    assert (nodes + [node])[..|nodes|] == nodes;
  }

  ghost predicate Denotes<V>(nodes: seq<Node>, sem: Semantics<V>, env: nat -> Value<V>, id: nat, value: Value<V>)
    requires OperandsFirst(nodes)
  {
    id < |nodes| && NodeValues(nodes, sem, env)[id] == value
  }

  /** `ids` name the elements of a tuple value. */
  ghost predicate DenotesAll<V>(nodes: seq<Node>, sem: Semantics<V>, env: nat -> Value<V>, ids: seq<nat>, values: seq<Value<V>>)
    requires OperandsFirst(nodes)
  {
    |ids| == |values| && forall k :: 0 <= k < |ids| ==> Denotes(nodes, sem, env, ids[k], values[k])
  }

  /** Every clone recorded for this iteration, up to the body root, has the value of its original. */
  ghost predicate ClonesMatch<V>(nodes: seq<Node>, sem: Semantics<V>, env: nat -> Value<V>, clones: map<(nat, nat), nat>, iter: nat,
                                 bound: nat, expected: seq<Value<V>>)
    requires OperandsFirst(nodes)
  {
    forall j: nat :: j < bound && j < |expected| && (j, iter) in clones ==>
      Denotes(nodes, sem, env, clones[(j, iter)], expected[j])
  }

  ghost predicate ClonesExist(nodes: seq<Node>, clones: map<(nat, nat), nat>) {
    forall key :: key in clones ==> clones[key] < |nodes|
  }

  lemma DenotesStays<V>(nodes: seq<Node>, node: Node, sem: Semantics<V>, env: nat -> Value<V>)
    requires OperandsFirst(nodes) && OperandsFirst(nodes + [node])
    requires forall o :: o in node.Operands() ==> o < |nodes|
    ensures forall id, value :: Denotes(nodes, sem, env, id, value) ==> Denotes(nodes + [node], sem, env, id, value)
    ensures Denotes(nodes + [node], sem, env, |nodes|, NodeValue(node, NodeValues(nodes, sem, env), sem, env))
  {
    AppendedValue(nodes, node, sem, env);
  }

  /** Later instructions never change what an earlier one denotes. */
  lemma {:induction false} DenotesGrows<V>(nodes: seq<Node>, grown: seq<Node>, sem: Semantics<V>, env: nat -> Value<V>)
    requires OperandsFirst(nodes) && OperandsFirst(grown) && nodes <= grown
    ensures forall id, value :: Denotes(nodes, sem, env, id, value) ==> Denotes(grown, sem, env, id, value)
    decreases |grown|
  {
    if |nodes| == |grown| {
      assert nodes == grown;
    } else {
      var init, last := grown[..|grown| - 1], grown[|grown| - 1];
      assert grown == init + [last];
      DenotesGrows(nodes, init, sem, env);
      DenotesStays(init, last, sem, env);
    }
  }

  // ---- unrolling ----

  /** The state a copy of the body actually reads: elements that are not loop-carried are taken from
      the input of the loop, not from the previous copy. */
  ghost function Reset<V>(input: seq<Value<V>>, carried: seq<bool>, previous: seq<Value<V>>): (r: seq<Value<V>>)
    requires |input| == |carried| == |previous|
    ensures |r| == |input|
    ensures forall k :: 0 <= k < |r| ==> r[k] == if carried[k] then previous[k] else input[k]
  {
    seq(|input|, k requires 0 <= k < |input| => if carried[k] then previous[k] else input[k])
  }

  /** The tuple that the unrolled copies compute. */
  ghost function Unrolled<V>(body: Body, sem: Semantics<V>, input: seq<Value<V>>, carried: seq<bool>, size: int, k: nat): (r: seq<Value<V>>)
    requires body.Valid(|input|) && |carried| == |input|
    ensures |r| == |input|
  {
    if k == 0 then input
    else
      var previous := Unrolled(body, sem, input, carried, size, k - 1);
      var values := BodyValues(body.code, sem, Reset(input, carried, previous), (k - 1) * size);
      BodyValueAt(body.code, sem, Reset(input, carried, previous), (k - 1) * size, body.root);
      if body.code[body.root].TupleOf? then values[body.root].elements else previous
  }

  /** The operands of `ids` found among the clones of this iteration. */
  method GetClones(clones: map<(nat, nat), nat>, operands: seq<nat>, iter: nat) returns (r: Result<seq<nat>>)
    ensures r.Success? <==> forall o :: o in operands ==> (o, iter) in clones
    ensures r.Success? ==> |r.value| == |operands|
    ensures r.Success? ==> forall k :: 0 <= k < |operands| ==> (operands[k], iter) in clones && r.value[k] == clones[(operands[k], iter)]
  {
    var found := [];
    for k := 0 to |operands|
      invariant |found| == k
      invariant forall i :: 0 <= i < k ==> (operands[i], iter) in clones && found[i] == clones[(operands[i], iter)]
    {
      if (operands[k], iter) !in clones {
        assert operands[k] in operands;
        return Failure(InvalidArgument);
      }
      found := found + [clones[(operands[k], iter)]];
    }
    return Success(found);
  }

  /** Reading the clones of some operands gives the values the body computes for them. */
  lemma ClonedOperands<V>(nodes: seq<Node>, sem: Semantics<V>, env: nat -> Value<V>, clones: map<(nat, nat), nat>, iter: nat,
                          k: nat, expected: seq<Value<V>>, operands: seq<nat>, cloned: seq<nat>)
    requires OperandsFirst(nodes) && k <= |expected| && ClonesMatch(nodes, sem, env, clones, iter, k, expected)
    requires forall o :: o in operands ==> o < k
    requires |cloned| == |operands|
    requires forall i :: 0 <= i < |operands| ==> (operands[i], iter) in clones && cloned[i] == clones[(operands[i], iter)]
    ensures forall o :: o in cloned ==> o < |nodes|
    ensures Pick(NodeValues(nodes, sem, env), cloned) == Pick(expected[..k], operands)
  {
    forall i | 0 <= i < |operands| ensures operands[i] < k && Denotes(nodes, sem, env, cloned[i], expected[operands[i]]) {
      assert operands[i] in operands;
    }
    var a, b := Pick(NodeValues(nodes, sem, env), cloned), Pick(expected[..k], operands);
    forall i | 0 <= i < |operands| ensures a[i] == b[i] {
    }
  }

  /** What unrolling knows while it copies the body for one iteration. */
  datatype Progress = Progress(clones: map<(nat, nat), nat>, previous: seq<nat>, row: seq<nat>)

  /** The calls of the body, in postorder. */
  ghost function Calls(code: seq<Instruction>): (r: seq<nat>)
    ensures forall i :: 0 <= i < |r| ==> r[i] < |code| && code[r[i]].Call?
  {
    if code == [] then []
    else
      var last := |code| - 1;
      Calls(code[..last]) + if code[last].Call? then [last] else []
  }

  /** `row` lists the copies of the given calls, oldest first. */
  ghost predicate CopiesCalls(nodes: seq<Node>, body: Body, k: nat, first: nat, row: seq<nat>)
    requires k <= |body.code|
  {
    var calls := Calls(body.code[..k]);
    && |row| == |calls|
    && (forall i :: 0 <= i < |row| ==>
         first <= row[i] < |nodes| && nodes[row[i]].NodeCall? && nodes[row[i]].callee == body.code[calls[i]].callee)
    && (forall i, j :: 0 <= i < j < |row| ==> row[i] < row[j])
  }

  /** One pass over the body: iteration `iter` reads `state` at `offset`; the tuple it starts from has
      the values `before` and the tuple it ends with the values `after`. */
  datatype Pass<!V> = Pass(sem: Semantics<V>, env: nat -> Value<V>, body: Body, iter: nat, state: seq<Value<V>>,
                           before: seq<Value<V>>, after: seq<Value<V>>, offset: int)
  {
    ghost predicate Valid() {
      && body.Valid(|state|) && |before| == |state| && |after| == |state|
      && (if body.code[body.root].TupleOf? then Expected()[body.root] == Tuple(after) else before == after)
    }

    ghost function Expected(): (r: seq<Value<V>>)
      requires body.Valid(|state|)
      ensures |r| == |body.code|
    {
      BodyValues(body.code, sem, state, offset)
    }
  }

  /** What holds before visiting instruction `k` of a pass. */
  ghost predicate Consistent<V>(nodes: seq<Node>, pass: Pass<V>, k: nat, p: Progress)
    requires OperandsFirst(nodes) && pass.Valid() && k <= |pass.body.code|
  {
    var root := pass.body.root;
    && ClonesMatch(nodes, pass.sem, pass.env, p.clones, pass.iter, if k <= root then k else root + 1, pass.Expected())
    && ClonesExist(nodes, p.clones)
    && (forall key :: key in p.clones ==> key.1 <= pass.iter && (key.1 == pass.iter ==> key.0 < k))
    && DenotesAll(nodes, pass.sem, pass.env, p.previous, if k <= root then pass.before else pass.after)
  }

  lemma ConsistentStays<V>(nodes: seq<Node>, node: Node, pass: Pass<V>, k: nat, p: Progress)
    requires OperandsFirst(nodes) && pass.Valid() && k <= |pass.body.code| && OperandsFirst(nodes + [node])
    requires forall o :: o in node.Operands() ==> o < |nodes|
    requires Consistent(nodes, pass, k, p)
    ensures Consistent(nodes + [node], pass, k, p)
  {
    DenotesStays(nodes, node, pass.sem, pass.env);
  }

  /** Recording a clone with the right value keeps the pass consistent. */
  lemma RecordClone<V>(nodes: seq<Node>, pass: Pass<V>, k: nat, p: Progress, clone: nat)
    requires OperandsFirst(nodes) && pass.Valid() && k < |pass.body.code| && !pass.body.code[k].TupleOf?
    requires Consistent(nodes, pass, k, p) && clone < |nodes|
    requires k <= pass.body.root ==> Denotes(nodes, pass.sem, pass.env, clone, pass.Expected()[k])
    ensures Consistent(nodes, pass, k + 1, p.(clones := p.clones[(k, pass.iter) := clone]))
  {
  }

  lemma SkipParameter<V>(nodes: seq<Node>, pass: Pass<V>, k: nat, p: Progress)
    requires OperandsFirst(nodes) && pass.Valid() && k < |pass.body.code| && pass.body.code[k].Parameter?
    requires Consistent(nodes, pass, k, p)
    ensures Consistent(nodes, pass, k + 1, p)
  {
  }

  /** `node` is instruction `i` over cloned operands, with its slice offset written out. */
  ghost predicate IsCopyOf(node: Node, i: Instruction, cloned: seq<nat>, offset: int) {
    match i
    case GetTupleElement(_, index) => |cloned| == 1 && node == NodeElement(cloned[0], index)
    case Call(callee, _, _) => node == NodeCall(callee, cloned)
    case TupleOf(_) => node == NodeTuple(cloned)
    case SliceOffset => cloned == [] && node == NodeSlice(offset)
    case Dummy(id) => cloned == [] && node == NodeDummy(id)
    case _ => false
  }

  ghost predicate ClonedFrom(p: Progress, iter: nat, operands: seq<nat>, cloned: seq<nat>) {
    && |cloned| == |operands|
    && forall i :: 0 <= i < |operands| ==> (operands[i], iter) in p.clones && cloned[i] == p.clones[(operands[i], iter)]
  }

  lemma CopyIsWellFormed(nodes: seq<Node>, node: Node, i: Instruction, iter: nat, p: Progress, cloned: seq<nat>, offset: int)
    requires OperandsFirst(nodes) && ClonesExist(nodes, p.clones)
    requires ClonedFrom(p, iter, i.Operands(), cloned) && IsCopyOf(node, i, cloned, offset)
    ensures OperandsFirst(nodes + [node]) && forall o :: o in node.Operands() ==> o < |nodes|
  {
    assert node.Operands() == cloned;
  }

  /** A copy of instruction `k` has the value of instruction `k`. */
  lemma CopyHasValue<V>(nodes: seq<Node>, node: Node, pass: Pass<V>, k: nat, p: Progress, cloned: seq<nat>)
    requires OperandsFirst(nodes) && pass.Valid() && k < |pass.body.code| && k <= pass.body.root
    requires Consistent(nodes, pass, k, p) && OperandsFirst(nodes + [node])
    requires ClonedFrom(p, pass.iter, pass.body.code[k].Operands(), cloned)
    requires IsCopyOf(node, pass.body.code[k], cloned, pass.offset)
    ensures Denotes(nodes + [node], pass.sem, pass.env, |nodes|, pass.Expected()[k])
    ensures DenotesAll(nodes, pass.sem, pass.env, cloned, Pick(pass.Expected()[..k], pass.body.code[k].Operands()))
  {
    var i, expected := pass.body.code[k], pass.Expected();
    ClonedOperands(nodes, pass.sem, pass.env, p.clones, pass.iter, k, expected, i.Operands(), cloned);
    BodyValueAt(pass.body.code, pass.sem, pass.state, pass.offset, k);
    assert node.Operands() == cloned;
    DenotesStays(nodes, node, pass.sem, pass.env);
    var picked := Pick(NodeValues(nodes, pass.sem, pass.env), cloned);
    forall j | 0 <= j < |cloned| ensures Denotes(nodes, pass.sem, pass.env, cloned[j], picked[j]) {
    }
  }

  /** The bookkeeping after adding node number `clone`. */
  function Advance(p: Progress, i: Instruction, k: nat, iter: nat, clone: nat, cloned: seq<nat>): Progress {
    match i
    case Call(_, _, _) => Progress(p.clones[(k, iter) := clone], p.previous, p.row + [clone])
    case TupleOf(_) => p.(previous := cloned)
    case _ => p.(clones := p.clones[(k, iter) := clone])
  }

  lemma CopyKeepsConsistency<V>(nodes: seq<Node>, node: Node, pass: Pass<V>, k: nat, p: Progress, cloned: seq<nat>)
    requires OperandsFirst(nodes) && pass.Valid() && k < |pass.body.code|
    requires Consistent(nodes, pass, k, p) && OperandsFirst(nodes + [node])
    requires forall o :: o in node.Operands() ==> o < |nodes|
    requires ClonedFrom(p, pass.iter, pass.body.code[k].Operands(), cloned)
    requires IsCopyOf(node, pass.body.code[k], cloned, pass.offset)
    requires pass.body.code[k].TupleOf? ==> k == pass.body.root
    ensures Consistent(nodes + [node], pass, k + 1, Advance(p, pass.body.code[k], k, pass.iter, |nodes|, cloned))
  {
    if k <= pass.body.root {
      CopyHasValue(nodes, node, pass, k, p, cloned);
    }
    ConsistentStays(nodes, node, pass, k, p);
    DenotesStays(nodes, node, pass.sem, pass.env);
    if pass.body.code[k].TupleOf? {
      BodyValueAt(pass.body.code, pass.sem, pass.state, pass.offset, k);
    } else {
      RecordClone(nodes + [node], pass, k, p, |nodes|);
    }
  }

  lemma CopyKeepsCalls(nodes: seq<Node>, node: Node, body: Body, k: nat, iter: nat, first: nat, p: Progress, cloned: seq<nat>, offset: int)
    requires k < |body.code| && CopiesCalls(nodes, body, k, first, p.row) && first <= |nodes|
    requires IsCopyOf(node, body.code[k], cloned, offset)
    ensures CopiesCalls(nodes + [node], body, k + 1, first, Advance(p, body.code[k], k, iter, |nodes|, cloned).row)
  {
    assert body.code[..k + 1][..k] == body.code[..k];
  }

  // ---- the check on calls tagged non-critical ----

  ghost function Users(code: seq<Instruction>, k: nat): (r: set<nat>)
    ensures forall u: nat :: u in r <==> u < |code| && k in code[u].Operands()
  {
    set u: nat | u < |code| && k in code[u].Operands()
  }

  /** Every output of call `k` goes to the root tuple and nowhere else. */
  ghost predicate FeedsOnlyRoot(body: Body, k: nat) {
    forall u :: u in Users(body.code, k) ==> Users(body.code, u) == {body.root}
  }

  method UsersOf(code: seq<Instruction>, k: nat) returns (users: set<nat>)
    ensures users == Users(code, k)
  {
    users := {};
    for u := 0 to |code|
      invariant forall i: nat :: i in users <==> i < u && k in code[i].Operands()
    {
      if k in code[u].Operands() {
        users := users + {u};
      }
    }
  }

  method IsNonCritical(body: Body, k: nat) returns (b: bool)
    ensures b <==> FeedsOnlyRoot(body, k)
  {
    var users := UsersOf(body.code, k);
    ghost var all := users;
    ghost var cleared := {};
    while users != {}
      invariant users + cleared == all
      invariant forall u :: u in cleared ==> Users(body.code, u) == {body.root}
      decreases |users|
    {
      var user :| user in users;
      var userUsers := UsersOf(body.code, user);
      if |userUsers| != 1 {
        return false;
      }
      var next :| next in userUsers;
      SingleElement(userUsers, next);
      if next != body.root {
        return false;
      }
      users := users - {user};
      cleared := cleared + {user};
    }
    return true;
  }

  lemma SingleElement<T>(s: set<T>, x: T)
    requires |s| == 1 && x in s
    ensures s == {x}
  {
    assert |s - {x}| == 0;
    assert s == (s - {x}) + {x};
  }

  /** No other call of the same iteration reads an output of a call that passes the check. */
  lemma NonCriticalHasNoReaders(body: Body, width: nat, k: nat, output: nat, reader: nat)
    requires body.Valid(width) && body.code[body.root].TupleOf? && FeedsOnlyRoot(body, k)
    requires output < |body.code| && reader < |body.code|
    requires k in body.code[output].Operands() && output in body.code[reader].Operands()
    ensures !body.code[reader].Call?
  {
    assert output in Users(body.code, k);
    assert reader in Users(body.code, output);
  }

  // ---- the switch over opcodes ----

  /** Parameters are never copied as such, and the root tuple is only remembered as the next input. */
  ghost predicate HasClone(body: Body, j: int)
    requires 0 <= j < |body.code|
  {
    !body.code[j].Parameter? && !body.code[j].TupleOf?
  }

  /** What the switch accepts. */
  ghost predicate Supported(body: Body, k: int)
    requires 0 <= k < |body.code|
  {
    var i := body.code[k];
    && !i.Other? && (i.TupleOf? ==> k == body.root) && (i.Call? && i.nonCritical ==> FeedsOnlyRoot(body, k))
    && ((i.GetTupleElement? && ReadsParameter(body, k)) || forall o :: o in i.Operands() ==> o < k && HasClone(body, o))
  }

  ghost predicate SupportedUpTo(body: Body, k: nat)
    requires k <= |body.code|
  {
    forall j :: 0 <= j < k ==> Supported(body, j)
  }

  /** The loop input is in place, and the pass reads it wherever an element is not loop-carried. */
  ghost predicate InputsReady<V>(nodes: seq<Node>, pass: Pass<V>, inputs: seq<nat>, carried: seq<bool>)
    requires OperandsFirst(nodes)
  {
    && |inputs| == |carried| == |pass.state| == |pass.before|
    && (forall i :: 0 <= i < |inputs| ==> inputs[i] < |nodes|)
    && (forall i :: 0 <= i < |inputs| && carried[i] ==> pass.state[i] == pass.before[i])
    && (forall i :: 0 <= i < |inputs| && !carried[i] ==> Denotes(nodes, pass.sem, pass.env, inputs[i], pass.state[i]))
  }

  /** Everything known before visiting instruction `k`. */
  ghost predicate Visiting<V>(nodes: seq<Node>, pass: Pass<V>, k: nat, first: nat, p: Progress)
    requires OperandsFirst(nodes) && pass.Valid() && k <= |pass.body.code|
  {
    && Consistent(nodes, pass, k, p) && CopiesCalls(nodes, pass.body, k, first, p.row)
    && first <= |nodes| && SupportedUpTo(pass.body, k)
    && (forall j: nat :: j < k ==> ((j, pass.iter) in p.clones <==> HasClone(pass.body, j)))
  }

  /** What the first cases of the switch decide. */
  lemma SupportedCases(body: Body, k: nat)
    requires k < |body.code|
    ensures body.code[k].Parameter? ==> Supported(body, k)
    ensures body.code[k].GetTupleElement? && ReadsParameter(body, k) ==> Supported(body, k)
    ensures body.code[k].Other? || (body.code[k].TupleOf? && k != body.root) ==> !Supported(body, k)
    ensures body.code[k].Call? && body.code[k].nonCritical && !FeedsOnlyRoot(body, k) ==> !Supported(body, k)
  {
  }

  /** An element of the loop input is the previous iteration's output, or the input of the loop. */
  method AliasElement<V>(ghost nodes: seq<Node>, body: Body, k: nat, iter: nat, inputs: seq<nat>, carried: seq<bool>,
                         p: Progress, ghost pass: Pass<V>, ghost first: nat) returns (after: Progress)
    requires OperandsFirst(nodes) && pass.Valid() && pass.body == body && pass.iter == iter
    requires k < |body.code| && Visiting(nodes, pass, k, first, p) && InputsReady(nodes, pass, inputs, carried)
    requires body.code[k].GetTupleElement? && ReadsParameter(body, k)
    ensures Visiting(nodes, pass, k + 1, first, after)
  {
    var i := body.code[k];
    AliasHasValue(nodes, pass, k, p, inputs, carried);
    var alias := if carried[i.index] then p.previous[i.index] else inputs[i.index];
    RecordClone(nodes, pass, k, p, alias);
    NoCopyKeepsCalls(nodes, body, k, first, p.row);
    after := p.(clones := p.clones[(k, iter) := alias]);
  }

  /** Copies instruction `k` of the body for one iteration. */
  method CloneInstruction<V>(computation: HloComputation, body: Body, k: nat, iter: nat, inputs: seq<nat>, carried: seq<bool>, size: int,
                             p: Progress, ghost pass: Pass<V>, ghost first: nat)
    returns (r: Result<Progress>)
    modifies computation
    requires OperandsFirst(computation.nodes)
    requires pass.Valid() && pass.body == body && pass.iter == iter && pass.offset == iter * size
    requires k < |body.code| && Visiting(computation.nodes, pass, k, first, p)
    requires InputsReady(computation.nodes, pass, inputs, carried)
    ensures old(computation.nodes) <= computation.nodes && OperandsFirst(computation.nodes)
    ensures r.Success? ==> Visiting(computation.nodes, pass, k + 1, first, r.value)
    ensures r.Success? <==> Supported(body, k)
  {
    ghost var nodes := computation.nodes;
    var i := body.code[k];
    SupportedCases(body, k);
    if i.Parameter? {
      SkipParameter(nodes, pass, k, p);
      NoCopyKeepsCalls(nodes, body, k, first, p.row);
      return Success(p);
    }
    if i.GetTupleElement? && ReadsParameter(body, k) {
      var aliased := AliasElement(nodes, body, k, iter, inputs, carried, p, pass, first);
      return Success(aliased);
    }
    if i.Call? && i.nonCritical {
      var feedsRoot := IsNonCritical(body, k);
      if !feedsRoot {
        return Failure(InvalidArgument);
      }
    }
    if (i.TupleOf? && k != body.root) || i.Other? {
      return Failure(InvalidArgument);
    }
    r := AppendCopy(computation, body, k, iter, size, p, pass, first);
  }

  /** The copied node: the slice offset becomes a literal. */
  function CopyOf(i: Instruction, cloned: seq<nat>, offset: int): (node: Node)
    requires !i.Parameter? && !i.Other? && |cloned| == |i.Operands()|
    ensures IsCopyOf(node, i, cloned, offset)
  {
    match i
    case GetTupleElement(_, index) => NodeElement(cloned[0], index)
    case Call(callee, _, _) => NodeCall(callee, cloned)
    case TupleOf(_) => NodeTuple(cloned)
    case SliceOffset => NodeSlice(offset)
    case Dummy(id) => NodeDummy(id)
  }

  /** Once its opcode is accepted, an instruction is supported exactly when all its operands have clones. */
  lemma CopySupported<V>(nodes: seq<Node>, body: Body, k: nat, first: nat, p: Progress, pass: Pass<V>)
    requires OperandsFirst(nodes) && pass.Valid() && pass.body == body && k < |body.code| && Visiting(nodes, pass, k, first, p)
    requires !body.code[k].Parameter? && !body.code[k].Other? && (body.code[k].TupleOf? ==> k == body.root)
    requires body.code[k].Call? && body.code[k].nonCritical ==> FeedsOnlyRoot(body, k)
    requires body.code[k].GetTupleElement? ==> !ReadsParameter(body, k)
    ensures Supported(body, k) <==> forall o :: o in body.code[k].Operands() ==> (o, pass.iter) in p.clones
  {
    forall o | o in body.code[k].Operands() ensures o < k {}
  }

  /** A copy takes the pass one instruction further. */
  lemma CopyAdvances<V>(nodes: seq<Node>, node: Node, body: Body, k: nat, first: nat, p: Progress, pass: Pass<V>, cloned: seq<nat>)
    requires OperandsFirst(nodes) && pass.Valid() && pass.body == body && k < |body.code| && Visiting(nodes, pass, k, first, p)
    requires Supported(body, k) && !body.code[k].Parameter? && (body.code[k].TupleOf? ==> k == body.root)
    requires body.code[k].GetTupleElement? ==> !ReadsParameter(body, k)
    requires ClonedFrom(p, pass.iter, body.code[k].Operands(), cloned) && IsCopyOf(node, body.code[k], cloned, pass.offset)
    ensures OperandsFirst(nodes + [node]) && forall o :: o in node.Operands() ==> o < |nodes|
    ensures Visiting(nodes + [node], pass, k + 1, first, Advance(p, body.code[k], k, pass.iter, |nodes|, cloned))
  {
    CopyIsWellFormed(nodes, node, body.code[k], pass.iter, p, cloned, pass.offset);
    CopyKeepsConsistency(nodes, node, pass, k, p, cloned);
    CopyKeepsCalls(nodes, node, body, k, pass.iter, first, p, cloned, pass.offset);
  }

  /** Adds a copy of instruction `k` over the clones of its operands. */
  method AppendCopy<V>(computation: HloComputation, body: Body, k: nat, iter: nat, size: int, p: Progress, ghost pass: Pass<V>, ghost first: nat)
    returns (r: Result<Progress>)
    modifies computation
    requires OperandsFirst(computation.nodes)
    requires pass.Valid() && pass.body == body && pass.iter == iter && pass.offset == iter * size
    requires k < |body.code| && Visiting(computation.nodes, pass, k, first, p)
    requires !body.code[k].Parameter? && !body.code[k].Other? && (body.code[k].TupleOf? ==> k == body.root)
    requires body.code[k].Call? && body.code[k].nonCritical ==> FeedsOnlyRoot(body, k)
    requires body.code[k].GetTupleElement? ==> !ReadsParameter(body, k)
    ensures old(computation.nodes) <= computation.nodes && OperandsFirst(computation.nodes)
    ensures r.Success? ==> Visiting(computation.nodes, pass, k + 1, first, r.value)
    ensures r.Success? <==> Supported(body, k)
  {
    ghost var nodes := computation.nodes;
    var i := body.code[k];
    CopySupported(nodes, body, k, first, p, pass);
    var operands := GetClones(p.clones, i.Operands(), iter);
    if operands.Failure? {
      return Failure(InvalidArgument);
    }
    var cloned := operands.value;
    var node := CopyOf(i, cloned, iter * size);
    CopyAdvances(nodes, node, body, k, first, p, pass, cloned);
    var clone := computation.AddInstruction(node);
    r := Success(Advance(p, i, k, iter, clone, cloned));
  }

  lemma NoCopyKeepsCalls(nodes: seq<Node>, body: Body, k: nat, first: nat, row: seq<nat>)
    requires k < |body.code| && CopiesCalls(nodes, body, k, first, row) && !body.code[k].Call?
    ensures CopiesCalls(nodes, body, k + 1, first, row)
  {
    assert body.code[..k + 1][..k] == body.code[..k];
  }

  predicate ReadsParameter(body: Body, k: nat)
    requires k < |body.code| && body.code[k].GetTupleElement?
  {
    body.code[k].operand < |body.code| && body.code[body.code[k].operand].Parameter?
  }

  /** Loop-carried elements come from the previous copy, all others from the input of the loop. */
  lemma AliasHasValue<V>(nodes: seq<Node>, pass: Pass<V>, k: nat, p: Progress, inputs: seq<nat>, carried: seq<bool>)
    requires OperandsFirst(nodes) && pass.Valid() && k < |pass.body.code|
    requires pass.body.code[k].GetTupleElement? && ReadsParameter(pass.body, k)
    requires Consistent(nodes, pass, k, p) && InputsReady(nodes, pass, inputs, carried)
    ensures pass.body.code[k].index < |carried| && |p.previous| == |carried|
    ensures var index := pass.body.code[k].index;
            var alias := if carried[index] then p.previous[index] else inputs[index];
            alias < |nodes| && (k <= pass.body.root ==> Denotes(nodes, pass.sem, pass.env, alias, pass.Expected()[k]))
  {
    var i := pass.body.code[k];
    assert i.operand in i.Operands();
    BodyValueAt(pass.body.code, pass.sem, pass.state, pass.offset, k);
    BodyValueAt(pass.body.code, pass.sem, pass.state, pass.offset, i.operand);
  }

  // ---- the whole loop ----

  /** The result of unrolling: the operands of the final output tuple, and the copied calls of every iteration. */
  datatype UnrolledLoop = UnrolledLoop(outputs: seq<nat>, tasks: seq<seq<nat>>)

  lemma PassIsValid<V>(body: Body, sem: Semantics<V>, env: nat -> Value<V>, input: seq<Value<V>>, carried: seq<bool>, size: int, iter: nat)
    requires body.Valid(|input|) && |carried| == |input|
    ensures PassOf(body, sem, env, input, carried, size, iter).Valid()
  {
    var pass := PassOf(body, sem, env, input, carried, size, iter);
    BodyValueAt(body.code, sem, pass.state, pass.offset, body.root);
  }

  ghost function PassOf<V>(body: Body, sem: Semantics<V>, env: nat -> Value<V>, input: seq<Value<V>>, carried: seq<bool>, size: int, iter: nat): Pass<V>
    requires body.Valid(|input|) && |carried| == |input|
  {
    var before := Unrolled(body, sem, input, carried, size, iter);
    Pass(sem, env, body, iter, Reset(input, carried, before), before, Unrolled(body, sem, input, carried, size, iter + 1), iter * size)
  }

  ghost predicate CopiesIteration(nodes: seq<Node>, body: Body, row: seq<nat>) {
    CopiesCalls(nodes, body, |body.code|, 0, row)
  }

  /** Everything known between two iterations. */
  ghost predicate Iterating<V>(nodes: seq<Node>, sem: Semantics<V>, env: nat -> Value<V>, body: Body, inputs: seq<nat>, input: seq<Value<V>>,
                               carried: seq<bool>, size: int, iter: nat, clones: map<(nat, nat), nat>, previous: seq<nat>)
    requires OperandsFirst(nodes) && body.Valid(|input|) && |carried| == |input|
  {
    && DenotesAll(nodes, sem, env, inputs, input)
    && DenotesAll(nodes, sem, env, previous, Unrolled(body, sem, input, carried, size, iter))
    && ClonesExist(nodes, clones) && (forall key :: key in clones ==> key.1 < iter)
  }

  /** The copied calls, iteration after iteration, oldest first. */
  ghost predicate TaskGrid(nodes: seq<Node>, body: Body, tasks: seq<seq<nat>>) {
    && (forall m :: 0 <= m < |tasks| ==> CopiesIteration(nodes, body, tasks[m]))
    && (forall m, m', i, j :: 0 <= m < m' < |tasks| && 0 <= i < |tasks[m]| && 0 <= j < |tasks[m']| ==> tasks[m][i] < tasks[m'][j])
  }

  lemma TaskGridGrows(nodes: seq<Node>, grown: seq<Node>, body: Body, tasks: seq<seq<nat>>, row: seq<nat>)
    requires TaskGrid(nodes, body, tasks) && nodes <= grown && CopiesCalls(grown, body, |body.code|, |nodes|, row)
    ensures TaskGrid(grown, body, tasks + [row])
  {
    var tasks' := tasks + [row];
    forall m | 0 <= m < |tasks'| ensures CopiesIteration(grown, body, tasks'[m]) {
      if m < |tasks| {
        assert CopiesIteration(nodes, body, tasks[m]);
      }
    }
    forall m, m', i, j | 0 <= m < m' < |tasks'| && 0 <= i < |tasks'[m]| && 0 <= j < |tasks'[m']| ensures tasks'[m][i] < tasks'[m'][j] {
      assert CopiesIteration(nodes, body, tasks[m]);
    }
  }

  method Unroll<V>(computation: HloComputation, body: Body, inputs: seq<nat>, carried: seq<bool>, iterations: nat, size: int,
                   ghost sem: Semantics<V>, ghost env: nat -> Value<V>)
    returns (r: Result<UnrolledLoop>)
    modifies computation
    requires OperandsFirst(computation.nodes) && forall i :: 0 <= i < |inputs| ==> inputs[i] < |computation.nodes|
    requires forall o :: o in inputs ==> o < |computation.nodes|
    requires body.Valid(|inputs|) && |carried| == |inputs|
    ensures old(computation.nodes) <= computation.nodes && OperandsFirst(computation.nodes)
    ensures var input := Pick(NodeValues(old(computation.nodes), sem, env), inputs);
            r.Success? ==> DenotesAll(computation.nodes, sem, env, r.value.outputs, Unrolled(body, sem, input, carried, size, iterations))
    ensures var input := Pick(NodeValues(old(computation.nodes), sem, env), inputs);
            r.Success? && body.code[body.root].TupleOf? && FollowsMarks(body, carried) ==>
              DenotesAll(computation.nodes, sem, env, r.value.outputs, Iterate(body, sem, input, size, iterations).0)
    ensures r.Success? ==> |r.value.tasks| == iterations && TaskGrid(computation.nodes, body, r.value.tasks)
    ensures r.Success? <==> iterations == 0 || SupportedUpTo(body, |body.code|)
  {
    ghost var input := Pick(NodeValues(computation.nodes, sem, env), inputs);
    var clones, previous, tasks := map[], inputs, [];
    for iter := 0 to iterations
      invariant old(computation.nodes) <= computation.nodes && OperandsFirst(computation.nodes)
      invariant Iterating(computation.nodes, sem, env, body, inputs, input, carried, size, iter, clones, previous)
      invariant |tasks| == iter && TaskGrid(computation.nodes, body, tasks)
      invariant iter > 0 ==> SupportedUpTo(body, |body.code|)
    {
      PassIsValid(body, sem, env, input, carried, size, iter);
      ghost var pass := PassOf(body, sem, env, input, carried, size, iter);
      ghost var nodes := computation.nodes;
      var p := CloneBody(computation, body, iter, inputs, carried, size, clones, previous, pass);
      if p.Failure? {
        return Failure(InvalidArgument);
      }
      DenotesGrows(nodes, computation.nodes, sem, env);
      TaskGridGrows(nodes, computation.nodes, body, tasks, p.value.row);
      clones, previous, tasks := p.value.clones, p.value.previous, tasks + [p.value.row];
    }
    if iterations > 0 && body.code[body.root].TupleOf? && FollowsMarks(body, carried) {
      SupportedUnpacks(body);
      UnrollingPreservesMeaning(body, sem, input, carried, size, iterations);
    }
    r := Success(UnrolledLoop(previous, tasks));
  }

  /** One copy of the body, in postorder. */
  method CloneBody<V>(computation: HloComputation, body: Body, iter: nat, inputs: seq<nat>, carried: seq<bool>, size: int,
                      clones: map<(nat, nat), nat>, previous: seq<nat>, ghost pass: Pass<V>)
    returns (r: Result<Progress>)
    modifies computation
    requires OperandsFirst(computation.nodes)
    requires pass.Valid() && pass.body == body && pass.iter == iter && pass.offset == iter * size
    requires ClonesExist(computation.nodes, clones) && forall key :: key in clones ==> key.1 < iter
    requires DenotesAll(computation.nodes, pass.sem, pass.env, previous, pass.before)
    requires InputsReady(computation.nodes, pass, inputs, carried)
    ensures old(computation.nodes) <= computation.nodes && OperandsFirst(computation.nodes)
    ensures r.Success? ==> Visiting(computation.nodes, pass, |body.code|, |old(computation.nodes)|, r.value)
    ensures r.Success? <==> SupportedUpTo(body, |body.code|)
  {
    var p := Progress(clones, previous, []);
    ghost var first := |computation.nodes|;
    for k := 0 to |body.code|
      invariant old(computation.nodes) <= computation.nodes && OperandsFirst(computation.nodes)
      invariant Visiting(computation.nodes, pass, k, first, p)
      invariant InputsReady(computation.nodes, pass, inputs, carried)
    {
      ghost var nodes := computation.nodes;
      var step := CloneInstruction(computation, body, k, iter, inputs, carried, size, p, pass, first);
      if step.Failure? {
        return Failure(InvalidArgument);
      }
      DenotesGrows(nodes, computation.nodes, pass.sem, pass.env);
      p := step.value;
    }
    r := Success(p);
  }

  // ---- which elements are loop-carried ----

  /** Instruction `k` reads element `i` of the loop state. */
  predicate ReadsElement(body: Body, k: nat, i: nat) {
    k < |body.code| && body.code[k].GetTupleElement? && ReadsParameter(body, k) && body.code[k].index == i
  }

  /** Reading element `i` marks it, unless the root returns that very instruction at the same place. */
  predicate MarksElement(body: Body, k: nat, i: nat) {
    ReadsElement(body, k, i) &&
    !(body.root < |body.code| && body.code[body.root].TupleOf? && i < |body.code[body.root].operands| && body.code[body.root].operands[i] == k)
  }

  /** Every element that some read marks is loop-carried. Others may be too: marks belong to loop inputs,
      and one input can feed several elements. */
  ghost predicate FollowsMarks(body: Body, carried: seq<bool>) {
    forall k: nat, i: nat :: i < |carried| && MarksElement(body, k, i) ==> carried[i]
  }

  method MarkCarried(body: Body, width: nat) returns (carried: seq<bool>)
    requires body.Valid(width)
    ensures |carried| == width && FollowsMarks(body, carried)
    ensures forall i :: 0 <= i < width && carried[i] ==> exists k: nat :: MarksElement(body, k, i)
  {
    carried := seq(width, _ => false);
    for k := 0 to |body.code|
      invariant |carried| == width
      invariant forall j: nat, i: nat :: j < k && i < width && MarksElement(body, j, i) ==> carried[i]
      invariant forall i :: 0 <= i < width && carried[i] ==> exists j: nat :: MarksElement(body, j, i)
    {
      if body.code[k].GetTupleElement? && ReadsParameter(body, k) {
        var index := body.code[k].index;
        assert body.code[k].operand in body.code[k].Operands();
        if MarksElement(body, k, index) {
          carried := carried[index := true];
        }
      }
    }
  }

  // ---- meaning ----

  /** The loop parameter is only read through get-tuple-element. */
  ghost predicate ParameterIsUnpacked(body: Body) {
    forall k, o :: 0 <= k < |body.code| && o in body.code[k].Operands() && o < |body.code| && body.code[o].Parameter? ==>
      body.code[k].GetTupleElement?
  }

  /** The switch accepts no other reader of the parameter. */
  lemma SupportedUnpacks(body: Body)
    requires SupportedUpTo(body, |body.code|)
    ensures ParameterIsUnpacked(body)
  {
    forall k, o | 0 <= k < |body.code| && o in body.code[k].Operands() && o < |body.code| && body.code[o].Parameter?
      ensures body.code[k].GetTupleElement?
    {
      assert Supported(body, k);
    }
  }

  /** The root returns element `i` of the loop state where it found it. */
  predicate ReturnsElement(body: Body, i: nat) {
    && body.root < |body.code| && body.code[body.root].TupleOf? && i < |body.code[body.root].operands|
    && ReadsElement(body, body.code[body.root].operands[i], i)
  }

  lemma ReturnedElementStays<V>(body: Body, sem: Semantics<V>, state: seq<Value<V>>, offset: int, i: nat)
    requires body.Valid(|state|) && i < |state| && ReturnsElement(body, i)
    ensures var result := BodyValues(body.code, sem, state, offset)[body.root];
            result.Tuple? && |result.elements| == |state| && result.elements[i] == state[i]
  {
    var element := body.code[body.root].operands[i];
    assert element in body.code[body.root].Operands();
    BodyValueAt(body.code, sem, state, offset, body.root);
    BodyValueAt(body.code, sem, state, offset, element);
    assert body.code[element].operand in body.code[element].Operands();
    BodyValueAt(body.code, sem, state, offset, body.code[element].operand);
  }

  lemma {:induction false} ElementStays<V>(body: Body, sem: Semantics<V>, input: seq<Value<V>>, size: int, k: nat, i: nat)
    requires body.Valid(|input|) && i < |input| && ReturnsElement(body, i)
    ensures Iterate(body, sem, input, size, k).0[i] == input[i]
  {
    if k > 0 {
      var (previous, offset) := Iterate(body, sem, input, size, k - 1);
      ElementStays(body, sem, input, size, k - 1, i);
      ReturnedElementStays(body, sem, previous, offset, i);
    }
  }

  /** Two states agree on every element that the body reads. */
  ghost predicate AgreeOnReads<V>(body: Body, a: seq<Value<V>>, b: seq<Value<V>>) {
    |a| == |b| && forall k: nat, i: nat :: i < |a| && ReadsElement(body, k, i) ==> a[i] == b[i]
  }

  /** What the body computes depends only on the elements it reads. */
  lemma {:induction false} SameReadsSameValue<V>(body: Body, sem: Semantics<V>, a: seq<Value<V>>, b: seq<Value<V>>, offset: int, k: nat)
    requires body.Valid(|a|) && AgreeOnReads(body, a, b) && ParameterIsUnpacked(body)
    requires k < |body.code| && !body.code[k].Parameter?
    ensures BodyValues(body.code, sem, a, offset)[k] == BodyValues(body.code, sem, b, offset)[k]
    decreases k
  {
    var va, vb, i := BodyValues(body.code, sem, a, offset), BodyValues(body.code, sem, b, offset), body.code[k];
    BodyValueAt(body.code, sem, a, offset, k);
    BodyValueAt(body.code, sem, b, offset, k);
    forall o | o in i.Operands() && !body.code[o].Parameter? ensures va[o] == vb[o] {
      SameReadsSameValue(body, sem, a, b, offset, o);
    }
    if i.GetTupleElement? {
      assert i.operand in i.Operands();
      if ReadsParameter(body, k) {
        BodyValueAt(body.code, sem, a, offset, i.operand);
        BodyValueAt(body.code, sem, b, offset, i.operand);
        assert ReadsElement(body, k, i.index);
      }
    } else {
      assert Pick(va[..k], i.Operands()) == Pick(vb[..k], i.Operands());
    }
  }

  /** Elements that are not loop-carried are returned in place, or nobody reads them. */
  lemma ResetAgrees<V>(body: Body, sem: Semantics<V>, input: seq<Value<V>>, carried: seq<bool>, size: int, k: nat)
    requires body.Valid(|input|) && |carried| == |input| && body.code[body.root].TupleOf? && FollowsMarks(body, carried)
    ensures AgreeOnReads(body, Reset(input, carried, Iterate(body, sem, input, size, k).0), Iterate(body, sem, input, size, k).0)
  {
    forall j: nat, i: nat | i < |input| && ReadsElement(body, j, i)
      ensures Reset(input, carried, Iterate(body, sem, input, size, k).0)[i] == Iterate(body, sem, input, size, k).0[i]
    {
      if !carried[i] {
        assert !MarksElement(body, j, i);
        ElementStays(body, sem, input, size, k, i);
      }
    }
  }

  /** Unrolling preserves meaning: the tuple that replaces the loop is the loop body applied
      `iterations` times, for every body, input and interpretation of its calls. */
  lemma {:induction false} UnrollingPreservesMeaning<V>(body: Body, sem: Semantics<V>, input: seq<Value<V>>, carried: seq<bool>, size: int, iterations: nat)
    requires body.Valid(|input|) && |carried| == |input| && body.code[body.root].TupleOf?
    requires ParameterIsUnpacked(body) && FollowsMarks(body, carried)
    ensures Unrolled(body, sem, input, carried, size, iterations) == Iterate(body, sem, input, size, iterations).0
    decreases iterations
  {
    if iterations > 0 {
      var k := iterations - 1;
      UnrollingPreservesMeaning(body, sem, input, carried, size, k);
      var previous := Iterate(body, sem, input, size, k).0;
      ResetAgrees(body, sem, input, carried, size, k);
      OffsetIsLiteral(body, sem, input, size, k);
      SameReadsSameValue(body, sem, Reset(input, carried, previous), previous, k * size, body.root);
      BodyValueAt(body.code, sem, previous, k * size, body.root);
    }
  }
}
