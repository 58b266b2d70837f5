/** Building the tasks of a computation, and replacing what they compute by calls. */
module TaskCalls {
  import opened Sequences
  import opened TaskGrouping
  import opened Wrappers

  /** Inside a task: a parameter, or the result of an earlier clone. */
  datatype Ref = Parameter(index: nat) | Result(index: nat)

  datatype Clone = Clone(code: int, operands: seq<Ref>)

  /** `parameters` lists the instructions that are passed in. */
  datatype Body = Body(parameters: seq<nat>, clones: seq<Clone>)

  /** A reference inside the first `k` clones stands for this instruction. */
  ghost predicate RefersTo(dfs: seq<nat>, parameters: seq<nat>, k: nat, ref: Ref, o: nat) {
    match ref
    case Parameter(p) => p < |parameters| && parameters[p] == o
    case Result(m) => m < k && m < |dfs| && dfs[m] == o
  }

  /** The clone of an instruction: same code, and each operand stands for the original operand. */
  ghost predicate IsClone(nodes: seq<Node>, dfs: seq<nat>, parameters: seq<nat>, i: nat, clone: Clone) {
    && i < |dfs| && dfs[i] < |nodes| && clone.code == nodes[dfs[i]].code && |clone.operands| == |nodes[dfs[i]].operands|
    && forall k :: 0 <= k < |clone.operands| ==> RefersTo(dfs, parameters, i, clone.operands[k], nodes[dfs[i]].operands[k])
  }

  /** An operand that task `j` must be given: an outside operand, or the result of an earlier task. */
  ghost predicate IsArgument(nodes: seq<Node>, dfs: seq<nat>, j: nat, p: nat) {
    && p < |nodes| && p !in dfs && IsOperand(nodes, dfs, p)
    && (nodes[p].kind == AlwaysOperand || (nodes[p].kind.Direct? && TaskOf(nodes, p) < j))
  }

  /** The clones of the first `k` instructions of task `j`; each outside operand is one parameter. */
  ghost predicate IsBody(nodes: seq<Node>, dfs: seq<nat>, j: nat, body: Body, k: nat)
    requires k <= |dfs|
  {
    && |body.clones| == k && (forall i :: 0 <= i < k ==> IsClone(nodes, dfs, body.parameters, i, body.clones[i]))
    && Distinct(body.parameters) && (forall p :: p in body.parameters ==> IsArgument(nodes, dfs, j, p))
  }

  /** Where the instructions cloned or passed in so far are found. */
  ghost predicate Tracks(dfs: seq<nat>, refs: map<nat, Ref>, parameters: seq<nat>, k: nat)
    requires k <= |dfs|
  {
    && (forall o :: o in refs <==> o in dfs[..k] || o in parameters)
    && (forall o :: o in refs ==> RefersTo(dfs, parameters, k, refs[o], o))
  }

  /** Every operand that comes from an earlier task is a root of that task. */
  ghost predicate ProducersRooted(contexts: seq<BuildContext>, assignment: map<nat, nat>, parameters: seq<nat>) {
    forall p :: p in parameters ==> IsRecorded(contexts, assignment, p)
  }

  /**
   * Why a task returns a value: the computation returns it, or it is computed in one task and read by
   * a loop, as a recolored output, or in another task.
   */
  ghost predicate IsNeeded(nodes: seq<Node>, contexts: seq<BuildContext>, r: nat) {
    r < |nodes| && (nodes[r].isRoot || IsReadOutside(nodes, r) || (nodes[r].kind.Direct? && IsReadElsewhere(nodes, contexts, r)))
  }

  /** A task reads the instruction and does not list it. */
  ghost predicate IsReadElsewhere(nodes: seq<Node>, contexts: seq<BuildContext>, r: nat) {
    exists u :: 0 <= u < |contexts| && r !in contexts[u].dfs && IsOperand(nodes, contexts[u].dfs, r)
  }

  /** No task returns more than what is needed. */
  ghost predicate RootsNeeded(nodes: seq<Node>, contexts: seq<BuildContext>) {
    forall t, r :: 0 <= t < |contexts| && r in contexts[t].roots ==> IsNeeded(nodes, contexts, r)
  }

  lemma OnlyReadIsNeeded(nodes: seq<Node>, contexts: seq<BuildContext>)
    requires OnlyRead(nodes, contexts)
    ensures RootsNeeded(nodes, contexts)
  {
    forall t, r | 0 <= t < |contexts| && r in contexts[t].roots ensures IsNeeded(nodes, contexts, r) {
      assert IsReadOutside(nodes, r);
    }
  }

  lemma NeededAdd(nodes: seq<Node>, contexts: seq<BuildContext>, t: nat, r: nat)
    requires RootsNeeded(nodes, contexts) && t < |contexts| && IsNeeded(nodes, contexts, r)
    ensures RootsNeeded(nodes, contexts[t := AddRoot(contexts[t], r)])
  {
    var after := contexts[t := AddRoot(contexts[t], r)];
    forall x | IsNeeded(nodes, contexts, x) ensures IsNeeded(nodes, after, x) {
      if IsReadElsewhere(nodes, contexts, x) {
        var u :| 0 <= u < |contexts| && x !in contexts[u].dfs && IsOperand(nodes, contexts[u].dfs, x);
        assert after[u].dfs == contexts[u].dfs;
      }
    }
  }

  lemma MoreParameters(nodes: seq<Node>, dfs: seq<nat>, j: nat, body: Body, k: nat, refs: map<nat, Ref>, o: nat)
    requires k < |dfs| && IsBody(nodes, dfs, j, body, k) && Tracks(dfs, refs, body.parameters, k)
    requires o !in refs && IsArgument(nodes, dfs, j, o)
    ensures IsBody(nodes, dfs, j, body.(parameters := body.parameters + [o]), k)
    ensures Tracks(dfs, refs[o := Parameter(|body.parameters|)], body.parameters + [o], k)
  {
    var more := body.parameters + [o];
    forall i | 0 <= i < k ensures IsClone(nodes, dfs, more, i, body.clones[i]) {
      assert IsClone(nodes, dfs, body.parameters, i, body.clones[i]);
      forall m | 0 <= m < |body.clones[i].operands| ensures RefersTo(dfs, more, i, body.clones[i].operands[m], nodes[dfs[i]].operands[m]) {
        assert RefersTo(dfs, body.parameters, i, body.clones[i].operands[m], nodes[dfs[i]].operands[m]);
      }
    }
    forall x | x in refs ensures RefersTo(dfs, more, k, refs[x], x) {
      assert RefersTo(dfs, body.parameters, k, refs[x], x);
    }
  }

  /** The operands of the clone that is being made. */
  ghost predicate OperandsDone(dfs: seq<nat>, parameters: seq<nat>, i: nat, operands: seq<nat>, refs: seq<Ref>) {
    |refs| <= |operands| && forall k :: 0 <= k < |refs| ==> RefersTo(dfs, parameters, i, refs[k], operands[k])
  }

  lemma OperandIsArgument(nodes: seq<Node>, context: BuildContext, j: nat, i: nat, o: nat, refs: map<nat, Ref>, parameters: seq<nat>)
    requires IsPostOrder(nodes) && IsTask(nodes, context, j) && i < |context.dfs|
    requires context.dfs[i] < |nodes| && o in nodes[context.dfs[i]].operands
    requires Tracks(context.dfs, refs, parameters, i) && o !in refs
    ensures IsArgument(nodes, context.dfs, j, o)
  {
    var x := context.dfs[i];
    assert IsNode(nodes, x) && OperandsReady(nodes, context.dfs, j, i);
    assert InTask(nodes[x].kind);
  }

  /** Passes the operand in when it is not cloned yet; its producer then returns it. */
  method CloneOperands(nodes: seq<Node>, contexts: seq<BuildContext>, assignment: map<nat, nat>, j: nat, i: nat, before: Body, refsBefore: map<nat, Ref>)
    returns (operands: seq<Ref>, body: Body, refs: map<nat, Ref>, after: seq<BuildContext>)
    requires IsPostOrder(nodes) && Cut(nodes, contexts, assignment, |nodes|) && j < |contexts| && i < |contexts[j].dfs|
    requires IsBody(nodes, contexts[j].dfs, j, before, i) && Tracks(contexts[j].dfs, refsBefore, before.parameters, i)
    requires ProducersRooted(contexts, assignment, before.parameters) && RootsNeeded(nodes, contexts)
    ensures Cut(nodes, after, assignment, |nodes|) && RootsKept(contexts, after) && SameTasks(contexts, after)
    ensures RootsNeeded(nodes, after)
    ensures IsBody(nodes, contexts[j].dfs, j, body, i) && Tracks(contexts[j].dfs, refs, body.parameters, i)
    ensures ProducersRooted(after, assignment, body.parameters) && body.clones == before.clones && contexts[j].dfs[i] < |nodes|
    ensures |operands| == |nodes[contexts[j].dfs[i]].operands|
    ensures OperandsDone(contexts[j].dfs, body.parameters, i, nodes[contexts[j].dfs[i]].operands, operands)
  {
    var dfs := contexts[j].dfs;
    assert IsTask(nodes, contexts[j], j);
    operands, body, refs, after := [], before, refsBefore, contexts;
    var originals := nodes[dfs[i]].operands;
    for k := 0 to |originals|
      invariant Cut(nodes, after, assignment, |nodes|) && RootsKept(contexts, after) && SameTasks(contexts, after)
      invariant RootsNeeded(nodes, after)
      invariant IsBody(nodes, dfs, j, body, i) && Tracks(dfs, refs, body.parameters, i)
      invariant ProducersRooted(after, assignment, body.parameters) && body.clones == before.clones
      invariant |operands| == k && OperandsDone(dfs, body.parameters, i, originals, operands)
    {
      body, refs, after := CloneOperand(nodes, after, assignment, j, i, body, refs, originals[k], originals, operands);
      NextDone(dfs, body.parameters, i, originals, operands, refs);
      operands := operands + [refs[originals[k]]];
    }
  }

  method CloneOperand(nodes: seq<Node>, contexts: seq<BuildContext>, assignment: map<nat, nat>, j: nat, i: nat, before: Body, refsBefore: map<nat, Ref>,
                      o: nat, ghost originals: seq<nat>, ghost operands: seq<Ref>)
    returns (body: Body, refs: map<nat, Ref>, after: seq<BuildContext>)
    requires IsPostOrder(nodes) && Cut(nodes, contexts, assignment, |nodes|) && j < |contexts| && i < |contexts[j].dfs|
    requires IsBody(nodes, contexts[j].dfs, j, before, i) && Tracks(contexts[j].dfs, refsBefore, before.parameters, i)
    requires ProducersRooted(contexts, assignment, before.parameters) && RootsNeeded(nodes, contexts)
    requires contexts[j].dfs[i] < |nodes| && o in nodes[contexts[j].dfs[i]].operands
    requires OperandsDone(contexts[j].dfs, before.parameters, i, originals, operands)
    ensures Cut(nodes, after, assignment, |nodes|) && RootsKept(contexts, after) && SameTasks(contexts, after)
    ensures RootsNeeded(nodes, after)
    ensures IsBody(nodes, contexts[j].dfs, j, body, i) && Tracks(contexts[j].dfs, refs, body.parameters, i)
    ensures ProducersRooted(after, assignment, body.parameters) && body.clones == before.clones
    ensures o in refs && OperandsDone(contexts[j].dfs, body.parameters, i, originals, operands)
  {
    body, refs, after := before, refsBefore, contexts;
    if o in refs {
      return;
    }
    assert IsTask(nodes, contexts[j], j);
    OperandIsArgument(nodes, contexts[j], j, i, o, refs, before.parameters);
    MoreParameters(nodes, contexts[j].dfs, j, before, i, refs, o);
    MoreDone(contexts[j].dfs, before.parameters, i, originals, operands, o);
    refs := refs[o := Parameter(|body.parameters|)];
    body := body.(parameters := body.parameters + [o]);
    if o in assignment {
      RootKeepsCut(nodes, contexts, assignment, |nodes|, o);
      NeededAdd(nodes, contexts, assignment[o], o);
      after := contexts[assignment[o] := AddRoot(contexts[assignment[o]], o)];
    }
    StillRooted(contexts, after, assignment, before.parameters, o);
  }

  lemma NextDone(dfs: seq<nat>, parameters: seq<nat>, i: nat, originals: seq<nat>, operands: seq<Ref>, refs: map<nat, Ref>)
    requires OperandsDone(dfs, parameters, i, originals, operands) && |operands| < |originals| && i <= |dfs|
    requires Tracks(dfs, refs, parameters, i) && originals[|operands|] in refs
    ensures OperandsDone(dfs, parameters, i, originals, operands + [refs[originals[|operands|]]])
  {
  }

  lemma MoreDone(dfs: seq<nat>, parameters: seq<nat>, i: nat, originals: seq<nat>, operands: seq<Ref>, o: nat)
    requires OperandsDone(dfs, parameters, i, originals, operands)
    ensures OperandsDone(dfs, parameters + [o], i, originals, operands)
  {
    forall k | 0 <= k < |operands| ensures RefersTo(dfs, parameters + [o], i, operands[k], originals[k]) {
      assert RefersTo(dfs, parameters, i, operands[k], originals[k]);
    }
  }

  lemma StillRooted(contexts: seq<BuildContext>, after: seq<BuildContext>, assignment: map<nat, nat>, parameters: seq<nat>, o: nat)
    requires ProducersRooted(contexts, assignment, parameters) && RootsKept(contexts, after) && IsRecorded(after, assignment, o)
    ensures ProducersRooted(after, assignment, parameters + [o])
  {
    forall p | p in parameters + [o] ensures IsRecorded(after, assignment, p) {
      if p in parameters {
        assert IsRecorded(contexts, assignment, p);
      }
    }
  }

  lemma MoreClones(nodes: seq<Node>, dfs: seq<nat>, j: nat, body: Body, i: nat, refs: map<nat, Ref>, clone: Clone)
    requires IsListed(nodes, dfs) && i < |dfs| && IsBody(nodes, dfs, j, body, i) && Tracks(dfs, refs, body.parameters, i)
    requires IsClone(nodes, dfs, body.parameters, i, clone)
    ensures IsBody(nodes, dfs, j, body.(clones := body.clones + [clone]), i + 1)
    ensures Tracks(dfs, refs[dfs[i] := Result(i)], body.parameters, i + 1)
  {
    assert dfs[..i + 1] == dfs[..i] + [dfs[i]];
    forall o | o in refs ensures RefersTo(dfs, body.parameters, i + 1, refs[o], o) {
      assert RefersTo(dfs, body.parameters, i, refs[o], o);
    }
  }

  /** What the computation returns is a root of the task that computes it. */
  ghost predicate ReturnsRooted(nodes: seq<Node>, context: BuildContext, k: nat)
    requires k <= |context.dfs|
  {
    forall i :: 0 <= i < k && context.dfs[i] < |nodes| && nodes[context.dfs[i]].isRoot ==> context.dfs[i] in context.roots
  }

  lemma ReturnsStay(nodes: seq<Node>, a: seq<BuildContext>, b: seq<BuildContext>, j: nat, k: nat)
    requires j < |a| && RootsKept(a, b) && b[j].dfs == a[j].dfs && k <= |a[j].dfs| && ReturnsRooted(nodes, a[j], k)
    ensures ReturnsRooted(nodes, b[j], k)
  {
  }

  /** A root of its own task changes nothing else. */
  lemma OwnRootKeepsCut(nodes: seq<Node>, contexts: seq<BuildContext>, assignment: map<nat, nat>, j: nat, root: nat)
    requires Cut(nodes, contexts, assignment, |nodes|) && j < |contexts| && root in contexts[j].dfs
    ensures Cut(nodes, contexts[j := AddRoot(contexts[j], root)], assignment, |nodes|)
    ensures RootsKept(contexts, contexts[j := AddRoot(contexts[j], root)])
  {
    AddRootSameTasks(contexts, j, root);
    SameTasksCut(nodes, contexts, contexts[j := AddRoot(contexts[j], root)], assignment, |nodes|);
  }

  lemma RootedStay(contexts: seq<BuildContext>, after: seq<BuildContext>, assignment: map<nat, nat>, parameters: seq<nat>)
    requires ProducersRooted(contexts, assignment, parameters) && RootsKept(contexts, after)
    ensures ProducersRooted(after, assignment, parameters)
  {
    forall p | p in parameters ensures IsRecorded(after, assignment, p) {
      assert IsRecorded(contexts, assignment, p);
    }
  }

  /** Task `j` is built: its clones, its parameters, and the roots that they need. */
  ghost predicate IsBuilt(nodes: seq<Node>, contexts: seq<BuildContext>, assignment: map<nat, nat>, j: nat, body: Body, k: nat)
    requires j < |contexts| && k <= |contexts[j].dfs|
  {
    IsBody(nodes, contexts[j].dfs, j, body, k) && ProducersRooted(contexts, assignment, body.parameters) && ReturnsRooted(nodes, contexts[j], k)
  }

  lemma StaysBuilt(nodes: seq<Node>, a: seq<BuildContext>, b: seq<BuildContext>, assignment: map<nat, nat>, j: nat, body: Body, k: nat)
    requires j < |a| && RootsKept(a, b) && b[j].dfs == a[j].dfs && k <= |a[j].dfs| && IsBuilt(nodes, a, assignment, j, body, k)
    ensures IsBuilt(nodes, b, assignment, j, body, k)
  {
    RootedStay(a, b, assignment, body.parameters);
  }

  /** One more instruction of task `j`. */
  method CloneInstruction(nodes: seq<Node>, contexts: seq<BuildContext>, assignment: map<nat, nat>, j: nat, i: nat, before: Body, refsBefore: map<nat, Ref>)
    returns (body: Body, refs: map<nat, Ref>, after: seq<BuildContext>)
    requires IsPostOrder(nodes) && Cut(nodes, contexts, assignment, |nodes|) && j < |contexts| && i < |contexts[j].dfs|
    requires IsBuilt(nodes, contexts, assignment, j, before, i) && Tracks(contexts[j].dfs, refsBefore, before.parameters, i)
    requires RootsNeeded(nodes, contexts)
    ensures Cut(nodes, after, assignment, |nodes|) && RootsKept(contexts, after) && SameTasks(contexts, after)
    ensures RootsNeeded(nodes, after)
    ensures IsBuilt(nodes, after, assignment, j, body, i + 1) && Tracks(contexts[j].dfs, refs, body.parameters, i + 1)
  {
    assert IsTask(nodes, contexts[j], j);
    var source := contexts[j].dfs[i];
    var rooted := contexts;
    if nodes[source].isRoot {
      OwnRootKeepsCut(nodes, contexts, assignment, j, source);
      NeededAdd(nodes, contexts, j, source);
      rooted := contexts[j := AddRoot(contexts[j], source)];
    }
    StaysBuilt(nodes, contexts, rooted, assignment, j, before, i);
    var operands;
    operands, body, refs, after := CloneOperands(nodes, rooted, assignment, j, i, before, refsBefore);
    ReturnsStay(nodes, rooted, after, j, i);
    MoreClones(nodes, contexts[j].dfs, j, body, i, refs, Clone(nodes[source].code, operands));
    body := body.(clones := body.clones + [Clone(nodes[source].code, operands)]);
    refs := refs[source := Result(i)];
  }

  method Build(nodes: seq<Node>, contexts: seq<BuildContext>, assignment: map<nat, nat>, j: nat) returns (body: Body, after: seq<BuildContext>)
    requires IsPostOrder(nodes) && Cut(nodes, contexts, assignment, |nodes|) && j < |contexts| && RootsNeeded(nodes, contexts)
    ensures Cut(nodes, after, assignment, |nodes|) && RootsKept(contexts, after) && SameTasks(contexts, after)
    ensures RootsNeeded(nodes, after)
    ensures IsBuilt(nodes, after, assignment, j, body, |after[j].dfs|)
  {
    var refs: map<nat, Ref> := map[];
    body, after := Body([], []), contexts;
    ghost var dfs := contexts[j].dfs;
    for i := 0 to |contexts[j].dfs|
      invariant Cut(nodes, after, assignment, |nodes|) && RootsKept(contexts, after) && SameTasks(contexts, after) && after[j].dfs == dfs
      invariant RootsNeeded(nodes, after)
      invariant IsBuilt(nodes, after, assignment, j, body, i) && Tracks(dfs, refs, body.parameters, i)
    {
      ghost var before := after;
      body, refs, after := CloneInstruction(nodes, after, assignment, j, i, body, refs);
      Follows(contexts, before, after, j);
    }
  }

  lemma Follows(a: seq<BuildContext>, b: seq<BuildContext>, c: seq<BuildContext>, j: nat)
    requires RootsKept(a, b) && SameTasks(a, b) && RootsKept(b, c) && SameTasks(b, c) && j < |a|
    ensures RootsKept(a, c) && SameTasks(a, c) && c[j].dfs == b[j].dfs == a[j].dfs
  {
    KeptTrans(a, b, c);
    SameTrans(a, b, c);
    SameDfs(a, b, j);
    SameDfs(b, c, j);
  }

  ghost predicate AllBuilt(nodes: seq<Node>, contexts: seq<BuildContext>, assignment: map<nat, nat>, bodies: seq<Body>) {
    |bodies| <= |contexts| && forall j :: 0 <= j < |bodies| ==> IsBuilt(nodes, contexts, assignment, j, bodies[j], |contexts[j].dfs|)
  }

  lemma AllStayBuilt(nodes: seq<Node>, a: seq<BuildContext>, b: seq<BuildContext>, assignment: map<nat, nat>, bodies: seq<Body>)
    requires AllBuilt(nodes, a, assignment, bodies) && RootsKept(a, b) && SameTasks(a, b)
    ensures AllBuilt(nodes, b, assignment, bodies)
  {
    forall j | 0 <= j < |bodies| ensures IsBuilt(nodes, b, assignment, j, bodies[j], |b[j].dfs|) {
      StaysBuilt(nodes, a, b, assignment, j, bodies[j], |a[j].dfs|);
    }
  }

  /** Build every task in order; producers are told which results later tasks need. */
  method BuildAll(nodes: seq<Node>, contexts: seq<BuildContext>, assignment: map<nat, nat>) returns (bodies: seq<Body>, after: seq<BuildContext>)
    requires IsPostOrder(nodes) && Cut(nodes, contexts, assignment, |nodes|) && RootsNeeded(nodes, contexts)
    ensures Cut(nodes, after, assignment, |nodes|) && RootsKept(contexts, after) && SameTasks(contexts, after)
    ensures RootsNeeded(nodes, after)
    ensures |bodies| == |after| && AllBuilt(nodes, after, assignment, bodies)
  {
    bodies, after := [], contexts;
    for j := 0 to |contexts|
      invariant Cut(nodes, after, assignment, |nodes|) && RootsKept(contexts, after) && SameTasks(contexts, after)
      invariant RootsNeeded(nodes, after)
      invariant |bodies| == j && AllBuilt(nodes, after, assignment, bodies)
    {
      ghost var before := after;
      var body;
      body, after := Build(nodes, after, assignment, j);
      KeptTrans(contexts, before, after);
      SameTrans(contexts, before, after);
      AllStayBuilt(nodes, before, after, assignment, bodies);
      bodies := bodies + [body];
    }
  }

  // ---- calls ----

  /** Where a value is found outside the tasks: the instruction itself, or an output of a task. */
  datatype Source = Outside(n: nat) | Output(task: nat, index: nat)

  datatype Call = Call(arguments: seq<Source>, outputs: seq<nat>)

  /** The source of an instruction's value among the first `j` calls. */
  ghost predicate IsSource(nodes: seq<Node>, calls: seq<Call>, source: Source, n: nat) {
    match source
    case Outside(m) => m == n && n < |nodes| && nodes[n].kind == AlwaysOperand
    case Output(t, i) => t < |calls| && i < |calls[t].outputs| && calls[t].outputs[i] == n
  }

  ghost predicate AreSources(nodes: seq<Node>, calls: seq<Call>, clones: map<nat, Source>) {
    forall n :: n in clones ==> IsSource(nodes, calls, clones[n], n)
  }

  /** The arguments of a call are found in earlier calls or outside. */
  ghost predicate IsCall(nodes: seq<Node>, calls: seq<Call>, j: nat, context: BuildContext, body: Body)
    requires j < |calls|
  {
    if calls[j].outputs == [] then context.roots == [] && calls[j].arguments == []
    else
      && calls[j].outputs == context.roots && |calls[j].arguments| == |body.parameters|
      && forall k :: 0 <= k < |body.parameters| ==> IsSource(nodes, calls[..j], calls[j].arguments[k], body.parameters[k])
  }

  /** Outside operands and the outputs of the first `j` tasks are known. */
  ghost predicate Knows(nodes: seq<Node>, contexts: seq<BuildContext>, clones: map<nat, Source>, j: nat)
    requires j <= |contexts|
  {
    && (forall n :: 0 <= n < |nodes| && nodes[n].kind == AlwaysOperand ==> n in clones)
    && (forall t, r :: 0 <= t < j && r in contexts[t].roots ==> r in clones)
  }

  function OutsideOperands(nodes: seq<Node>, n: nat): (r: map<nat, Source>)
    requires n <= |nodes|
    ensures forall m :: m in r <==> 0 <= m < n && nodes[m].kind == AlwaysOperand
    ensures forall m :: m in r ==> r[m] == Outside(m)
  {
    if n == 0 then map[]
    else if nodes[n - 1].kind == AlwaysOperand then OutsideOperands(nodes, n - 1)[n - 1 := Outside(n - 1)]
    else OutsideOperands(nodes, n - 1)
  }

  lemma SourcesStay(nodes: seq<Node>, calls: seq<Call>, call: Call, clones: map<nat, Source>)
    requires AreSources(nodes, calls, clones)
    ensures AreSources(nodes, calls + [call], clones)
  {
    forall n | n in clones ensures IsSource(nodes, calls + [call], clones[n], n) {
      assert IsSource(nodes, calls, clones[n], n);
    }
  }

  lemma ParameterIsKnown(nodes: seq<Node>, contexts: seq<BuildContext>, assignment: map<nat, nat>, clones: map<nat, Source>, j: nat, body: Body, p: nat)
    requires Cut(nodes, contexts, assignment, |nodes|) && j < |contexts| && IsBuilt(nodes, contexts, assignment, j, body, |contexts[j].dfs|)
    requires Knows(nodes, contexts, clones, j) && p in body.parameters
    ensures p in clones
  {
    assert IsArgument(nodes, contexts[j].dfs, j, p) && IsRecorded(contexts, assignment, p);
    if nodes[p].kind.Direct? {
      assert assignment[p] == TaskOf(nodes, p);
    }
  }

  /** Creates the call of task `j`, and gives each of its roots an output unless it has a source already. */
  method ReplaceWithCall(nodes: seq<Node>, contexts: seq<BuildContext>, ghost assignment: map<nat, nat>, j: nat, body: Body,
                         ghost calls: seq<Call>, clonesBefore: map<nat, Source>)
    returns (call: Call, clones: map<nat, Source>)
    requires Cut(nodes, contexts, assignment, |nodes|) && j < |contexts| && IsBuilt(nodes, contexts, assignment, j, body, |contexts[j].dfs|)
    requires |calls| == j && AreSources(nodes, calls, clonesBefore) && Knows(nodes, contexts, clonesBefore, j)
    ensures AreSources(nodes, calls + [call], clones) && Knows(nodes, contexts, clones, j + 1)
    ensures IsCall(nodes, calls + [call], j, contexts[j], body) && call.outputs == contexts[j].roots
    ensures forall n :: n in clonesBefore ==> n in clones && clones[n] == clonesBefore[n]
  {
    clones := clonesBefore;
    var roots := contexts[j].roots;
    if roots == [] {
      call := Call([], []);
      SourcesStay(nodes, calls, call, clones);
      return;
    }
    var arguments: seq<Source> := [];
    for k := 0 to |body.parameters|
      invariant |arguments| == k && forall i :: 0 <= i < k ==> IsSource(nodes, calls, arguments[i], body.parameters[i])
    {
      assert body.parameters[k] in body.parameters;
      ParameterIsKnown(nodes, contexts, assignment, clones, j, body, body.parameters[k]);
      arguments := arguments + [clones[body.parameters[k]]];
    }
    call := Call(arguments, roots);
    SourcesStay(nodes, calls, call, clones);
    for index := 0 to |roots|
      invariant AreSources(nodes, calls + [call], clones)
      invariant forall i :: 0 <= i < index ==> roots[i] in clones
      invariant forall n :: n in clonesBefore ==> n in clones && clones[n] == clonesBefore[n]
    {
      if roots[index] !in clones {
        clones := clones[roots[index] := Output(j, index)];
      }
    }
    assert (calls + [call])[..j] == calls;
  }

  ghost predicate AllCalls(nodes: seq<Node>, contexts: seq<BuildContext>, bodies: seq<Body>, calls: seq<Call>) {
    |calls| <= |contexts| && |calls| <= |bodies| &&
    forall j :: 0 <= j < |calls| ==> calls[j].outputs == contexts[j].roots && IsCall(nodes, calls, j, contexts[j], bodies[j])
  }

  /** The parameters of a task are the operands of its instructions that it does not list. */
  lemma ParametersIff(nodes: seq<Node>, dfs: seq<nat>, j: nat, body: Body, p: nat)
    requires IsBody(nodes, dfs, j, body, |dfs|)
    ensures p in body.parameters <==> p !in dfs && IsOperand(nodes, dfs, p)
  {
    if p !in dfs && IsOperand(nodes, dfs, p) {
      var y :| y in dfs && y < |nodes| && p in nodes[y].operands;
      var i :| 0 <= i < |dfs| && dfs[i] == y;
      var k :| 0 <= k < |nodes[y].operands| && nodes[y].operands[k] == p;
      assert IsClone(nodes, dfs, body.parameters, i, body.clones[i]);
      assert RefersTo(dfs, body.parameters, i, body.clones[i].operands[k], p);
    }
  }

  /** A task returns exactly what it lists and is needed. */
  ghost predicate RootsExact(nodes: seq<Node>, contexts: seq<BuildContext>) {
    forall t, r :: 0 <= t < |contexts| ==> (r in contexts[t].roots <==> r in contexts[t].dfs && IsNeeded(nodes, contexts, r))
  }

  lemma RootsAreExact(nodes: seq<Node>, contexts: seq<BuildContext>, assignment: map<nat, nat>, bodies: seq<Body>)
    requires Cut(nodes, contexts, assignment, |nodes|) && RootsRecorded(nodes, contexts, assignment, |nodes|)
    requires |bodies| == |contexts| && AllBuilt(nodes, contexts, assignment, bodies) && RootsNeeded(nodes, contexts)
    ensures RootsExact(nodes, contexts)
  {
    forall t, r | 0 <= t < |contexts| ensures r in contexts[t].roots <==> r in contexts[t].dfs && IsNeeded(nodes, contexts, r) {
      assert IsTask(nodes, contexts[t], t);
      if r in contexts[t].dfs && IsNeeded(nodes, contexts, r) {
        NeededIsRoot(nodes, contexts, assignment, bodies, t, r);
      }
    }
  }

  lemma NeededIsRoot(nodes: seq<Node>, contexts: seq<BuildContext>, assignment: map<nat, nat>, bodies: seq<Body>, t: nat, r: nat)
    requires Cut(nodes, contexts, assignment, |nodes|) && RootsRecorded(nodes, contexts, assignment, |nodes|)
    requires |bodies| == |contexts| && AllBuilt(nodes, contexts, assignment, bodies)
    requires t < |contexts| && r in contexts[t].dfs && IsNeeded(nodes, contexts, r)
    ensures r in contexts[t].roots
  {
    assert IsTask(nodes, contexts[t], t) && IsBuilt(nodes, contexts, assignment, t, bodies[t], |contexts[t].dfs|);
    if nodes[r].isRoot {
      var i :| 0 <= i < |contexts[t].dfs| && contexts[t].dfs[i] == r;
    } else if IsReadOutside(nodes, r) {
      var m :| 0 <= m < |nodes| && Roots(nodes, m, r);
      assert IsRecorded(contexts, assignment, r);
    } else {
      var u :| 0 <= u < |contexts| && r !in contexts[u].dfs && IsOperand(nodes, contexts[u].dfs, r);
      assert IsBuilt(nodes, contexts, assignment, u, bodies[u], |contexts[u].dfs|);
      ParametersIff(nodes, contexts[u].dfs, u, bodies[u], r);
      assert IsRecorded(contexts, assignment, r);
    }
  }

  lemma MoreCalls(nodes: seq<Node>, contexts: seq<BuildContext>, bodies: seq<Body>, calls: seq<Call>, call: Call)
    requires AllCalls(nodes, contexts, bodies, calls) && |calls| < |contexts| && |calls| < |bodies|
    requires call.outputs == contexts[|calls|].roots && IsCall(nodes, calls + [call], |calls|, contexts[|calls|], bodies[|calls|])
    ensures AllCalls(nodes, contexts, bodies, calls + [call])
  {
    forall j | 0 <= j < |calls| ensures IsCall(nodes, calls + [call], j, contexts[j], bodies[j]) {
      assert IsCall(nodes, calls, j, contexts[j], bodies[j]);
      assert (calls + [call])[..j] == calls[..j];
    }
  }

  /**
   * The computation in tasks: one call per task, each given outside operands and outputs of strictly
   * earlier calls; every loop input, recolored output, and returned value of a task has a source.
   */
  method GroupComputationIntoTasks(nodes: seq<Node>)
    returns (r: Result<(seq<BuildContext>, map<nat, nat>)>, bodies: seq<Body>, calls: seq<Call>, clones: map<nat, Source>)
    requires IsPostOrder(nodes)
    ensures r.Failure? <==> exists n :: 0 <= n < |nodes| && !RecolorsDirect(nodes, n)
    ensures r.Success? ==> Cut(nodes, r.value.0, r.value.1, |nodes|) && RootsRecorded(nodes, r.value.0, r.value.1, |nodes|)
    ensures r.Success? ==> |bodies| == |calls| == |r.value.0| && AllBuilt(nodes, r.value.0, r.value.1, bodies)
    ensures r.Success? ==> RootsExact(nodes, r.value.0)
    ensures r.Success? ==> AllCalls(nodes, r.value.0, bodies, calls) && AreSources(nodes, calls, clones)
    ensures r.Success? ==> Knows(nodes, r.value.0, clones, |r.value.0|)
  {
    bodies, calls, clones := [], [], map[];
    r := CutIntoTasks(nodes);
    if r.Failure? {
      return;
    }
    var cut, assignment := r.value.0, r.value.1;
    OnlyReadIsNeeded(nodes, cut);
    var contexts;
    bodies, contexts := BuildAll(nodes, cut, assignment);
    RecordedKept(nodes, cut, assignment, contexts, assignment, |nodes|);
    clones := OutsideOperands(nodes, |nodes|);
    for j := 0 to |contexts|
      invariant |calls| == j && AllCalls(nodes, contexts, bodies, calls)
      invariant AreSources(nodes, calls, clones) && Knows(nodes, contexts, clones, j)
    {
      var call;
      call, clones := ReplaceWithCall(nodes, contexts, assignment, j, bodies[j], calls, clones);
      MoreCalls(nodes, contexts, bodies, calls, call);
      calls := calls + [call];
    }
    RootsAreExact(nodes, contexts, assignment, bodies);
    r := Success((contexts, assignment));
  }
}
