/** Replacing the fused calls in their computation. */
module FusionRewrite {
  import opened CallFusion
  import opened CallGraph
  import opened Sequences
  import opened Wrappers

  // ---- renaming ----

  /** Exported outputs are replaced by the outputs of the fused call. */
  function RenameId(x: nat, exports: seq<nat>, outputs: seq<nat>): nat
    requires |exports| == |outputs|
  {
    if exports == [] then x
    else
      var last := |exports| - 1;
      if x == exports[last] then outputs[last] else RenameId(x, exports[..last], outputs[..last])
  }

  function RenameAll(ids: seq<nat>, exports: seq<nat>, outputs: seq<nat>): (r: seq<nat>)
    requires |exports| == |outputs|
    ensures |r| == |ids| && forall k :: 0 <= k < |r| ==> r[k] == RenameId(ids[k], exports, outputs)
  {
    seq(|ids|, k requires 0 <= k < |ids| => RenameId(ids[k], exports, outputs))
  }

  function RenameNode(node: Node, exports: seq<nat>, outputs: seq<nat>): Node
    requires |exports| == |outputs|
  {
    match node
    case Plain(op, operands) => Plain(op, RenameAll(operands, exports, outputs))
    case Call(task, operands) => Call(task, RenameAll(operands, exports, outputs))
    case Output(call, index) => Output(RenameId(call, exports, outputs), index)
  }

  lemma {:induction false} RenameIdFacts(x: nat, exports: seq<nat>, outputs: seq<nat>)
    requires |exports| == |outputs|
    ensures x !in exports ==> RenameId(x, exports, outputs) == x
    ensures x in exports ==> RenameId(x, exports, outputs) in outputs
    ensures Distinct(exports) ==> forall k :: 0 <= k < |exports| && exports[k] == x ==> RenameId(x, exports, outputs) == outputs[k]
    decreases |exports|
  {
    if exports != [] {
      var last := |exports| - 1;
      assert exports == exports[..last] + [exports[last]];
      assert outputs == outputs[..last] + [outputs[last]];
      RenameIdFacts(x, exports[..last], outputs[..last]);
    }
  }

  function ReplaceId(x: nat, a: nat, b: nat): nat {
    if x == a then b else x
  }

  lemma RenameNext(x: nat, exports: seq<nat>, outputs: seq<nat>, a: nat, b: nat)
    requires |exports| == |outputs| && a !in exports && a !in outputs
    ensures ReplaceId(RenameId(x, exports, outputs), a, b) == RenameId(x, exports + [a], outputs + [b])
  {
    assert (exports + [a])[..|exports|] == exports && (outputs + [b])[..|outputs|] == outputs;
    RenameIdFacts(x, exports, outputs);
  }

  function ReplaceInNode(node: Node, a: nat, b: nat): Node {
    RenameNode(node, [a], [b])
  }

  lemma ReplaceOnce(x: nat, a: nat, b: nat)
    ensures RenameId(x, [a], [b]) == ReplaceId(x, a, b)
  {
    assert RenameId(x, [a][..0], [b][..0]) == x;
  }

  lemma RenameNodeNext(node: Node, exports: seq<nat>, outputs: seq<nat>, a: nat, b: nat)
    requires |exports| == |outputs| && a !in exports && a !in outputs
    ensures ReplaceInNode(RenameNode(node, exports, outputs), a, b) == RenameNode(node, exports + [a], outputs + [b])
  {
    forall x ensures RenameId(RenameId(x, exports, outputs), [a], [b]) == RenameId(x, exports + [a], outputs + [b]) {
      ReplaceOnce(RenameId(x, exports, outputs), a, b);
      RenameNext(x, exports, outputs, a, b);
    }
    match node
    case Plain(op, operands) =>
      assert RenameAll(RenameAll(operands, exports, outputs), [a], [b]) == RenameAll(operands, exports + [a], outputs + [b]);
    case Call(task, operands) =>
      assert RenameAll(RenameAll(operands, exports, outputs), [a], [b]) == RenameAll(operands, exports + [a], outputs + [b]);
    case Output(_, _) =>
  }

  // ---- the rewritten computation ----

  ghost predicate Removed(g: Graph, calls: seq<nat>, x: nat) {
    x in calls || IsMemberOutput(g, calls, x)
  }

  /** The computation after fusion. */
  ghost predicate IsFused(g: Graph, calls: seq<nat>, parameters: seq<nat>, exports: seq<nat>, fused: Task,
                          g': Graph, task: nat, call: nat, outputs: seq<nat>)
  {
    && task !in g.tasks && g'.tasks == g.tasks[task := fused]
    && call !in g.nodes && call !in outputs && Distinct(outputs) && |outputs| == |exports|
    && (forall x :: x in outputs ==> x !in g.nodes)
    && (forall x :: x in g'.nodes <==> (x in g.nodes && !Removed(g, calls, x)) || x == call || x in outputs)
    && (forall x :: x in g.nodes && !Removed(g, calls, x) ==> g'.nodes[x] == RenameNode(g.nodes[x], exports, outputs))
    && (call in g'.nodes && g'.nodes[call] == Call(task, parameters))
    && (forall k :: 0 <= k < |outputs| ==> outputs[k] in g'.nodes && g'.nodes[outputs[k]] == Output(call, k))
    && g'.root == RenameId(g.root, exports, outputs)
  }

  class HloComputation {
    var graph: Graph
    var nextId: nat

    ghost predicate Fresh()
      reads this
    {
      forall x :: x in graph.nodes ==> x < nextId
    }

    constructor (initial: Graph, bound: nat)
      requires forall x :: x in initial.nodes ==> x < bound
      ensures graph == initial && Fresh()
    {
      graph := initial;
      nextId := bound;
    }

    method AddInstruction(node: Node) returns (id: nat)
      requires Fresh()
      modifies this
      ensures Fresh() && id == old(nextId) && id !in old(graph.nodes)
      ensures graph == old(graph).(nodes := old(graph).nodes[id := node])
    {
      id := nextId;
      graph := graph.(nodes := graph.nodes[id := node]);
      nextId := nextId + 1;
    }

    /** All users of `a`, and the root, read `b` instead. */
    method ReplaceAllUsesWith(a: nat, b: nat)
      requires Fresh()
      modifies this`graph
      ensures Fresh() && graph.tasks == old(graph).tasks && graph.root == ReplaceId(old(graph).root, a, b)
      ensures graph.nodes.Keys == old(graph).nodes.Keys
      ensures forall x :: x in graph.nodes ==> graph.nodes[x] == ReplaceInNode(old(graph).nodes[x], a, b)
    {
      var nodes := map x | x in graph.nodes :: ReplaceInNode(graph.nodes[x], a, b);
      graph := graph.(nodes := nodes, root := ReplaceId(graph.root, a, b));
    }

    /** Removes an instruction without users; anything else is an internal error. */
    method RemoveInstruction(x: nat) returns (ok: bool)
      requires Fresh() && x in graph.nodes
      modifies this`graph
      ensures ok <==> old(graph).root != x && forall u :: u in old(graph).nodes ==> x !in old(graph).nodes[u].Operands()
      ensures ok ==> Fresh() && graph == old(graph).(nodes := old(graph).nodes - {x})
      ensures !ok ==> graph == old(graph)
    {
      var users := set u | u in graph.nodes && x in graph.nodes[u].Operands();
      ok := graph.root != x && users == {};
      if ok {
        assert forall u :: u in graph.nodes && x in graph.nodes[u].Operands() ==> u in users;
        graph := graph.(nodes := graph.nodes - {x});
      }
    }
  }

  // ---- adding the fused call ----

  /** The computation once the first `|outputs|` exports have been redirected, before anything is removed. */
  ghost predicate Redirected(g: Graph, parameters: seq<nat>, exports: seq<nat>, fused: Task, g': Graph, task: nat, call: nat, outputs: seq<nat>)
    requires |outputs| <= |exports|
  {
    var done := exports[..|outputs|];
    && g'.tasks == g.tasks[task := fused]
    && call !in g.nodes && call !in outputs && Distinct(outputs) && (forall x :: x in outputs ==> x !in g.nodes)
    && (forall x :: x in g'.nodes <==> x in g.nodes || x == call || x in outputs)
    && (forall x :: x in g.nodes ==> g'.nodes[x] == RenameNode(g.nodes[x], done, outputs))
    && (call in g'.nodes && g'.nodes[call] == Call(task, parameters))
    && (forall k :: 0 <= k < |outputs| ==> outputs[k] in g'.nodes && g'.nodes[outputs[k]] == Output(call, k))
    && g'.root == RenameId(g.root, done, outputs)
  }

  lemma RenameNothing(node: Node)
    ensures RenameNode(node, [], []) == node
  {
    match node
    case Plain(_, operands) => assert RenameAll(operands, [], []) == operands;
    case Call(_, operands) => assert RenameAll(operands, [], []) == operands;
    case Output(_, _) =>
  }

  lemma UnrenamedOperands(ids: seq<nat>, a: nat, b: nat)
    requires a !in ids
    ensures RenameAll(ids, [a], [b]) == ids
  {
    forall k | 0 <= k < |ids| ensures RenameId(ids[k], [a], [b]) == ids[k] {
      ReplaceOnce(ids[k], a, b);
      assert ids[k] in ids;
    }
  }

  lemma RedirectNext(g: Graph, parameters: seq<nat>, exports: seq<nat>, fused: Task, before: Graph, after: Graph, task: nat, call: nat,
                     outputs: seq<nat>, output: nat)
    requires |outputs| < |exports| && Distinct(exports) && Redirected(g, parameters, exports, fused, before, task, call, outputs)
    requires forall x :: x in exports ==> x in g.nodes && x !in parameters
    requires output !in before.nodes
    requires after.tasks == before.tasks
    requires after.nodes.Keys == before.nodes.Keys + {output}
    requires forall x :: x in before.nodes ==> after.nodes[x] == ReplaceInNode(before.nodes[x], exports[|outputs|], output)
    requires after.nodes[output] == ReplaceInNode(Output(call, |outputs|), exports[|outputs|], output)
    requires after.root == ReplaceId(before.root, exports[|outputs|], output)
    ensures Redirected(g, parameters, exports, fused, after, task, call, outputs + [output])
  {
    var n := |outputs|;
    var x0 := exports[n];
    assert x0 in exports && x0 != call && x0 !in exports[..n];
    RedirectNodes(g, exports, outputs, before.nodes, after.nodes, output);
    RenameNext(g.root, exports[..n], outputs, x0, output);
    assert exports[..n + 1] == exports[..n] + [x0];
    UnrenamedOperands(parameters, x0, output);
    ReplaceOnce(call, x0, output);
    assert after.nodes[call] == Call(task, parameters);
  }

  lemma RedirectNodes(g: Graph, exports: seq<nat>, outputs: seq<nat>, before: map<nat, Node>, after: map<nat, Node>, output: nat)
    requires |outputs| < |exports| && Distinct(exports)
    requires forall x :: x in g.nodes ==> x in before && before[x] == RenameNode(g.nodes[x], exports[..|outputs|], outputs)
    requires forall x :: x in before ==> x in after && after[x] == ReplaceInNode(before[x], exports[|outputs|], output)
    requires exports[|outputs|] !in outputs
    ensures forall x :: x in g.nodes ==> after[x] == RenameNode(g.nodes[x], exports[..|outputs| + 1], outputs + [output])
  {
    var n := |outputs|;
    assert exports[..n + 1] == exports[..n] + [exports[n]];
    forall x | x in g.nodes ensures after[x] == RenameNode(g.nodes[x], exports[..n + 1], outputs + [output]) {
      RenameNodeNext(g.nodes[x], exports[..n], outputs, exports[n], output);
    }
  }

  method Redirect(c: HloComputation, parameters: seq<nat>, exports: seq<nat>, fused: Task, task: nat) returns (call: nat, outputs: seq<nat>)
    modifies c
    requires c.Fresh() && task !in c.graph.tasks && Distinct(exports)
    requires forall x :: x in exports ==> x in c.graph.nodes && x !in parameters
    ensures c.Fresh() && |outputs| == |exports|
    ensures Redirected(old(c.graph), parameters, exports, fused, c.graph, task, call, outputs)
  {
    ghost var g := c.graph;
    c.graph := c.graph.(tasks := c.graph.tasks[task := fused]);
    call := c.AddInstruction(Call(task, parameters));
    outputs := [];
    forall x | x in g.nodes ensures RenameNode(g.nodes[x], [], []) == g.nodes[x] {
      RenameNothing(g.nodes[x]);
    }
    for k := 0 to |exports|
      invariant c.Fresh() && |outputs| == k
      invariant Redirected(g, parameters, exports, fused, c.graph, task, call, outputs)
    {
      ghost var before := c.graph;
      var output := c.AddInstruction(Output(call, k));
      c.ReplaceAllUsesWith(exports[k], output);
      RedirectNext(g, parameters, exports, fused, before, c.graph, task, call, outputs, output);
      outputs := outputs + [output];
    }
    assert exports[..|exports|] == exports;
  }

  // ---- removing the fused calls ----

  /** A redirected operand is either a new output or the original operand, not exported. */
  lemma RenamedOperand(node: Node, exports: seq<nat>, outputs: seq<nat>, o: nat)
    requires |exports| == |outputs|
    ensures o in RenameNode(node, exports, outputs).Operands() ==> o in outputs || (o in node.Operands() && o !in exports)
  {
    var renamed := RenameNode(node, exports, outputs).Operands();
    if o in renamed {
      var k :| 0 <= k < |renamed| && renamed[k] == o;
      assert renamed[k] == RenameId(node.Operands()[k], exports, outputs);
      RenameIdFacts(node.Operands()[k], exports, outputs);
      assert node.Operands()[k] in node.Operands();
    }
  }

  /** Inside the set, outputs are read by later calls only. */
  lemma ReaderIsLater(g: Graph, calls: seq<nat>, j: nat, x: nat, u: nat)
    requires Fusible(g, calls) && j < |calls| && g.IsOutputOf(x, calls[j]) && u in g.nodes
    ensures x in g.nodes[u].Operands() && !Exported(g, calls, x) ==> exists m :: j < m < |calls| && calls[m] == u
  {
    if x in g.nodes[u].Operands() && !Exported(g, calls, x) {
      assert u in calls;
      var m :| 0 <= m < |calls| && calls[m] == u;
      assert x in g.nodes[calls[m]].operands;
    }
  }

  /** Once its later consumers are gone, nothing reads an output of call number `j` any more. */
  lemma NoReaders(g: Graph, calls: seq<nat>, parameters: seq<nat>, exports: seq<nat>, fused: Task, g': Graph, task: nat, call: nat,
                  outputs: seq<nat>, j: nat, x: nat, u: nat)
    requires Fusible(g, calls) && j < |calls| && g.IsOutputOf(x, calls[j])
    requires |outputs| == |exports| && Redirected(g, parameters, exports, fused, g', task, call, outputs)
    requires forall e :: e in exports <==> Exported(g, calls, e)
    requires forall e :: e in parameters ==> !IsMemberOutput(g, calls, e)
    requires u in g'.nodes && forall m :: j < m < |calls| ==> u != calls[m]
    ensures x !in g'.nodes[u].Operands() && g'.root != x
  {
    assert exports[..|outputs|] == exports;
    assert IsMemberOutput(g, calls, x) && x !in outputs;
    RenameIdFacts(g.root, exports, outputs);
    if u in g.nodes {
      RenamedOperand(g.nodes[u], exports, outputs, x);
      ReaderIsLater(g, calls, j, x, u);
    }
  }

  /** A call of the set is read only by its own outputs. */
  lemma OnlyOutputsRead(g: Graph, calls: seq<nat>, parameters: seq<nat>, exports: seq<nat>, fused: Task, g': Graph, task: nat, call: nat,
                        outputs: seq<nat>, j: nat, u: nat)
    requires Fusible(g, calls) && j < |calls| && u in g'.nodes
    requires |outputs| == |exports| && Redirected(g, parameters, exports, fused, g', task, call, outputs)
    requires forall e :: e in exports ==> Exported(g, calls, e)
    requires forall e :: e in parameters ==> e in g.nodes && !g.nodes[e].Call?
    ensures calls[j] in g'.nodes[u].Operands() ==> g.IsOutputOf(u, calls[j])
    ensures g'.root != calls[j]
  {
    assert exports[..|outputs|] == exports;
    RenameIdFacts(g.root, exports, outputs);
    if u in g.nodes {
      RenamedOperand(g.nodes[u], exports, outputs, calls[j]);
      assert calls[j] in g.nodes[u].Operands() ==> g.nodes[u].Output?;
      assert g.nodes[u].Output? ==> g.IsOutputOf(u, g.nodes[u].call);
    }
  }

  /** Calls `calls[j..]` and their outputs. */
  ghost predicate Gone(g: Graph, calls: seq<nat>, j: nat, x: nat)
    requires j <= |calls|
  {
    x in calls[j..] || IsMemberOutput(g, calls[j..], x)
  }

  /** Removes the calls, consumers first; the test for remaining users never fails. */
  method RemoveCalls(c: HloComputation, ghost g: Graph, calls: seq<nat>, ghost parameters: seq<nat>, ghost exports: seq<nat>, ghost fused: Task,
                     ghost task: nat, ghost call: nat, ghost outputs: seq<nat>)
    returns (ok: bool)
    modifies c
    requires c.Fresh() && Fusible(g, calls) && |outputs| == |exports|
    requires Redirected(g, parameters, exports, fused, c.graph, task, call, outputs)
    requires forall e :: e in exports <==> Exported(g, calls, e)
    requires forall e :: e in parameters <==> Imported(g, calls, e)
    ensures ok && c.Fresh() && c.graph.tasks == old(c.graph).tasks && c.graph.root == old(c.graph).root
    ensures forall x :: x in c.graph.nodes <==> x in old(c.graph).nodes && !Removed(g, calls, x)
    ensures forall x :: x in c.graph.nodes ==> c.graph.nodes[x] == old(c.graph).nodes[x]
  {
    ghost var before := c.graph;
    ImportsAreOutside(g, calls, parameters);
    var j := |calls|;
    while j > 0
      invariant 0 <= j <= |calls| && c.Fresh() && Without(before, g, calls, j, c.graph)
    {
      j := j - 1;
      var removed := RemoveCall(c, before, g, calls, j, parameters, exports, fused, task, call, outputs);
      if !removed {
        return false;
      }
    }
    assert calls[0..] == calls;
    return true;
  }

  lemma ImportsAreOutside(g: Graph, calls: seq<nat>, parameters: seq<nat>)
    requires Fusible(g, calls) && forall e :: e in parameters <==> Imported(g, calls, e)
    ensures forall e :: e in parameters ==> e in g.nodes && !g.nodes[e].Call? && !IsMemberOutput(g, calls, e)
  {
    forall e | e in parameters ensures e in g.nodes && !g.nodes[e].Call? {
      var c :| c in calls && c in g.nodes && e in g.nodes[c].Operands();
      var j :| 0 <= j < |calls| && calls[j] == c;
    }
  }

  method RemoveCall(c: HloComputation, ghost before: Graph, ghost g: Graph, calls: seq<nat>, j: nat, ghost parameters: seq<nat>,
                    ghost exports: seq<nat>, ghost fused: Task, ghost task: nat, ghost call: nat, ghost outputs: seq<nat>)
    returns (ok: bool)
    modifies c
    requires c.Fresh() && Fusible(g, calls) && |outputs| == |exports| && j < |calls|
    requires Redirected(g, parameters, exports, fused, before, task, call, outputs)
    requires forall e :: e in exports <==> Exported(g, calls, e)
    requires forall e :: e in parameters ==> e in g.nodes && !g.nodes[e].Call? && !IsMemberOutput(g, calls, e)
    requires Without(before, g, calls, j + 1, c.graph)
    ensures ok && c.Fresh() && Without(before, g, calls, j, c.graph)
  {
    ghost var start := c.graph;
    var users := set u | u in c.graph.nodes && c.graph.nodes[u].Output? && c.graph.nodes[u].call == calls[j];
    UsersOfCall(g, calls, parameters, exports, fused, before, task, call, outputs, j, start, users);
    UsersUnread(g, calls, parameters, exports, fused, before, task, call, outputs, j, start, users);
    ok := RemoveOutputs(c, users);
    CallUnread(g, calls, parameters, exports, fused, before, task, call, outputs, j, c.graph, users);
    RemovedNodes(before, g, calls, j, start, users);
    ok := c.RemoveInstruction(calls[j]);
  }

  /** `after` is `before` without the calls from number `j` on and their outputs. */
  ghost predicate Without(before: Graph, g: Graph, calls: seq<nat>, j: nat, after: Graph)
    requires j <= |calls|
  {
    && after.tasks == before.tasks && after.root == before.root
    && (forall x :: x in after.nodes <==> x in before.nodes && !Gone(g, calls, j, x))
    && (forall x :: x in after.nodes ==> after.nodes[x] == before.nodes[x])
  }

  /** Taking out one more call and its outputs. */
  lemma RemovedNodes(before: Graph, g: Graph, calls: seq<nat>, j: nat, start: Graph, users: set<nat>)
    requires Fusible(g, calls) && j < |calls| && Without(before, g, calls, j + 1, start)
    requires (forall u :: u in users <==> g.IsOutputOf(u, calls[j])) && users <= start.nodes.Keys && calls[j] in before.nodes
    ensures calls[j] in (start.nodes - users)
    ensures Without(before, g, calls, j, start.(nodes := start.nodes - users - {calls[j]}))
  {
    GoneNext(g, calls, j);
  }

  /** When a call is removed, nothing reads its outputs any more. */
  lemma UsersUnread(g: Graph, calls: seq<nat>, parameters: seq<nat>, exports: seq<nat>, fused: Task, before: Graph, task: nat, call: nat,
                    outputs: seq<nat>, j: nat, start: Graph, users: set<nat>)
    requires Fusible(g, calls) && |outputs| == |exports| && j < |calls|
    requires Redirected(g, parameters, exports, fused, before, task, call, outputs)
    requires forall e :: e in exports <==> Exported(g, calls, e)
    requires forall e :: e in parameters ==> !IsMemberOutput(g, calls, e)
    requires start.root == before.root && forall x :: x in start.nodes <==> x in before.nodes && !Gone(g, calls, j + 1, x)
    requires forall x :: x in start.nodes ==> start.nodes[x] == before.nodes[x]
    requires forall u :: u in users <==> g.IsOutputOf(u, calls[j])
    ensures forall user, u :: user in users && u in start.nodes ==> user !in start.nodes[u].Operands()
    ensures start.root !in users
  {
    forall user, u | user in users && u in start.nodes ensures user !in start.nodes[u].Operands() && start.root != user {
      forall m | j < m < |calls| ensures u != calls[m] {
        assert calls[m] in calls[j + 1..];
      }
      NoReaders(g, calls, parameters, exports, fused, before, task, call, outputs, j, user, u);
    }
    if start.root in users {
      NoReaders(g, calls, parameters, exports, fused, before, task, call, outputs, j, start.root, call);
    }
  }

  /** Without its outputs, nothing reads a call. */
  lemma CallUnread(g: Graph, calls: seq<nat>, parameters: seq<nat>, exports: seq<nat>, fused: Task, before: Graph, task: nat, call: nat,
                   outputs: seq<nat>, j: nat, current: Graph, users: set<nat>)
    requires Fusible(g, calls) && |outputs| == |exports| && j < |calls|
    requires Redirected(g, parameters, exports, fused, before, task, call, outputs)
    requires forall e :: e in exports ==> Exported(g, calls, e)
    requires forall e :: e in parameters ==> e in g.nodes && !g.nodes[e].Call?
    requires current.root == before.root && forall x :: x in current.nodes ==> x in before.nodes && x !in users && current.nodes[x] == before.nodes[x]
    requires forall u :: u in users <==> g.IsOutputOf(u, calls[j])
    ensures forall u :: u in current.nodes ==> calls[j] !in current.nodes[u].Operands()
    ensures current.root != calls[j]
  {
    forall u | u in current.nodes ensures calls[j] !in current.nodes[u].Operands() {
      OnlyOutputsRead(g, calls, parameters, exports, fused, before, task, call, outputs, j, u);
    }
    OnlyOutputsRead(g, calls, parameters, exports, fused, before, task, call, outputs, j, call);
  }

  /** Removes outputs that nothing reads. */
  method RemoveOutputs(c: HloComputation, outputs: set<nat>) returns (ok: bool)
    modifies c
    requires c.Fresh() && outputs <= c.graph.nodes.Keys
    requires forall x, u :: x in outputs && u in c.graph.nodes ==> x !in c.graph.nodes[u].Operands()
    requires c.graph.root !in outputs
    ensures ok && c.Fresh() && c.graph == old(c.graph).(nodes := old(c.graph).nodes - outputs)
  {
    var todo := outputs;
    ghost var start := c.graph;
    assert start.nodes - {} == start.nodes;
    while todo != {}
      invariant todo <= outputs && c.Fresh()
      invariant c.graph == start.(nodes := start.nodes - (outputs - todo))
      decreases |todo|
    {
      var x :| x in todo;
      var removed := c.RemoveInstruction(x);
      assert start.nodes - (outputs - todo) - {x} == start.nodes - (outputs - (todo - {x}));
      todo := todo - {x};
    }
    assert outputs - todo == outputs;
    return true;
  }

  lemma GoneNext(g: Graph, calls: seq<nat>, j: nat)
    requires Fusible(g, calls) && j < |calls|
    ensures forall x :: Gone(g, calls, j, x) <==> Gone(g, calls, j + 1, x) || x == calls[j] || g.IsOutputOf(x, calls[j])
    ensures !Gone(g, calls, j + 1, calls[j])
    ensures forall x :: g.IsOutputOf(x, calls[j]) ==> !Gone(g, calls, j + 1, x)
  {
    assert calls[j..] == [calls[j]] + calls[j + 1..];
    forall x | x in g.nodes && g.nodes[x].Output? ensures g.IsOutputOf(x, g.nodes[x].call) {}
    assert forall k :: j < k < |calls| ==> calls[j] != calls[k];
    assert calls[j] !in calls[j + 1..];
  }

  lemma UsersOfCall(g: Graph, calls: seq<nat>, parameters: seq<nat>, exports: seq<nat>, fused: Task, before: Graph, task: nat, call: nat,
                    outputs: seq<nat>, j: nat, current: Graph, users: set<nat>)
    requires Fusible(g, calls) && |outputs| == |exports| && j < |calls|
    requires Redirected(g, parameters, exports, fused, before, task, call, outputs)
    requires forall e :: e in exports ==> Exported(g, calls, e)
    requires forall x :: x in current.nodes <==> x in before.nodes && !Gone(g, calls, j + 1, x)
    requires forall x :: x in current.nodes ==> current.nodes[x] == before.nodes[x]
    requires users == set u | u in current.nodes && current.nodes[u].Output? && current.nodes[u].call == calls[j]
    ensures forall u :: u in users <==> g.IsOutputOf(u, calls[j])
  {
    GoneNext(g, calls, j);
    assert exports[..|outputs|] == exports;
    forall u | u in g.nodes && g.nodes[u].Output? ensures before.nodes[u] == g.nodes[u] {
      assert g.IsOutputOf(u, g.nodes[u].call);
      RenameIdFacts(g.nodes[u].call, exports, outputs);
      assert g.nodes[u].call !in exports;
    }
    assert calls[j] in g.nodes && calls[j] !in outputs && calls[j] != call;
  }

  // ---- the whole pass ----

  /** Everything that describes one fusion. */
  datatype Fusion = Fusion(parameters: seq<nat>, exports: seq<nat>, fused: Task, task: nat, call: nat, outputs: seq<nat>)

  /** `g'` is `g` with the calls replaced; the fused call reads each outside operand once and returns
      exactly the outputs still needed. */
  ghost predicate IsFusionOf<V>(g: Graph, calls: seq<nat>, g': Graph, f: Fusion, sem: (nat, seq<V>) -> V, vals: nat -> V) {
    && AreCalls(g, calls)
    && Distinct(f.parameters) && (forall x :: x in f.parameters <==> Imported(g, calls, x))
    && Distinct(f.exports) && (forall x :: x in f.exports <==> Exported(g, calls, x))
    && f.fused.Valid() && |f.fused.parameters| == |f.parameters| && |f.fused.outputs| == |f.exports|
    && IsFused(g, calls, f.parameters, f.exports, f.fused, g', f.task, f.call, f.outputs)
    && AllDelivered(g, calls, sem, vals, f.exports, f.fused.code, Values(vals, f.parameters), f.fused.outputs)
  }

  method FuseCalls<V>(c: HloComputation, calls: seq<nat>, task: nat, ghost sem: (nat, seq<V>) -> V, ghost vals: nat -> V)
    returns (r: Result<nat>, ghost f: Fusion)
    modifies c
    requires c.Fresh() && Fusible(c.graph, calls) && task !in c.graph.tasks && Evaluates(c.graph, sem, vals)
    ensures r.Failure? <==> calls == []
    ensures r.Failure? ==> c.graph == old(c.graph)
    ensures r.Success? ==> c.Fresh() && r.value == f.call && IsFusionOf(old(c.graph), calls, c.graph, f, sem, vals)
  {
    ghost var g := c.graph;
    if calls == [] {
      return Failure(InvalidArgument), Fusion([], [], Task([], [], []), 0, 0, []);
    }
    var parameters, exports := CollectBoundary(c.graph, calls);
    var fused := BuildFused(c.graph, calls, parameters, exports, sem, vals);
    ImportsAreOutside(g, calls, parameters);
    var call, outputs := Redirect(c, parameters, exports, fused, task);
    ghost var redirected := c.graph;
    var ok := RemoveCalls(c, g, calls, parameters, exports, fused, task, call, outputs);
    f := Fusion(parameters, exports, fused, task, call, outputs);
    FusedShape(g, calls, redirected, c.graph, f);
    r := Success(call);
  }

  lemma FusedShape(g: Graph, calls: seq<nat>, redirected: Graph, g': Graph, f: Fusion)
    requires Fusible(g, calls) && |f.outputs| == |f.exports|
    requires Redirected(g, f.parameters, f.exports, f.fused, redirected, f.task, f.call, f.outputs) && f.task !in g.tasks
    requires g'.tasks == redirected.tasks && g'.root == redirected.root
    requires forall x :: x in g'.nodes <==> x in redirected.nodes && !Removed(g, calls, x)
    requires forall x :: x in g'.nodes ==> g'.nodes[x] == redirected.nodes[x]
    ensures IsFused(g, calls, f.parameters, f.exports, f.fused, g', f.task, f.call, f.outputs)
  {
    assert f.exports[..|f.outputs|] == f.exports;
    forall x | x in calls ensures x in g.nodes {
      var i :| 0 <= i < |calls| && calls[i] == x;
    }
  }
}
