/** The calls that replace a computation compute the values of the computation. */
module GroupMeaning {
  import opened Sequences
  import opened TaskCalls
  import opened TaskGrouping
  import opened Wrappers

  /** What instructions compute from the values of their operands. */
  type Semantics = (int, seq<int>) -> int

  function ValueAt(values: seq<int>, n: nat): int {
    if n < |values| then values[n] else 0
  }

  ghost function OperandValues(values: seq<int>, operands: seq<nat>): (r: seq<int>)
    ensures |r| == |operands| && forall k :: 0 <= k < |r| ==> r[k] == ValueAt(values, operands[k])
  {
    seq(|operands|, k requires 0 <= k < |operands| => ValueAt(values, operands[k]))
  }

  /** The values of the instructions inside tasks; those of outside operands are given. */
  ghost predicate IsValuation(nodes: seq<Node>, semantics: Semantics, values: seq<int>) {
    |values| == |nodes| &&
    forall n :: 0 <= n < |nodes| && InTask(nodes[n].kind) ==> values[n] == semantics(nodes[n].code, OperandValues(values, nodes[n].operands))
  }

  // ---- running calls ----

  function RefValue(arguments: seq<int>, results: seq<int>, ref: Ref): int {
    match ref
    case Parameter(p) => ValueAt(arguments, p)
    case Result(m) => ValueAt(results, m)
  }

  ghost function RefValues(arguments: seq<int>, results: seq<int>, refs: seq<Ref>): (r: seq<int>)
    ensures |r| == |refs| && forall k :: 0 <= k < |r| ==> r[k] == RefValue(arguments, results, refs[k])
  {
    seq(|refs|, k requires 0 <= k < |refs| => RefValue(arguments, results, refs[k]))
  }

  /** The results of the clones of a task, one after the other. */
  ghost function Results(semantics: Semantics, clones: seq<Clone>, arguments: seq<int>): (r: seq<int>)
    ensures |r| == |clones|
  {
    if clones == [] then []
    else
      var n := |clones| - 1;
      var before := Results(semantics, clones[..n], arguments);
      before + [semantics(clones[n].code, RefValues(arguments, before, clones[n].operands))]
  }

  function IndexOf(s: seq<nat>, x: nat): (k: nat)
    requires x in s
    ensures k < |s| && s[k] == x
  {
    if s[0] == x then 0 else 1 + IndexOf(s[1..], x)
  }

  /** The value of one output: the result of the root's clone. */
  ghost function OutputValue(dfs: seq<nat>, results: seq<int>, root: nat): int {
    if root in dfs then ValueAt(results, IndexOf(dfs, root)) else 0
  }

  /** What the calls up to task `j` make of a source; `outside` gives the values of outside operands. */
  ghost function SourceValue(semantics: Semantics, contexts: seq<BuildContext>, bodies: seq<Body>, calls: seq<Call>, outside: seq<int>, j: nat, source: Source): int
    requires |bodies| == |contexts| == |calls|
    decreases j, 0
  {
    match source
    case Outside(n) => ValueAt(outside, n)
    case Output(t, i) =>
      if t < j && t < |calls| && i < |calls[t].outputs|
      then OutputValue(contexts[t].dfs, CallResults(semantics, contexts, bodies, calls, outside, t), calls[t].outputs[i])
      else 0
  }

  /** What task `j` computes from its arguments. */
  ghost function CallResults(semantics: Semantics, contexts: seq<BuildContext>, bodies: seq<Body>, calls: seq<Call>, outside: seq<int>, j: nat): seq<int>
    requires |bodies| == |contexts| == |calls| && j < |calls|
    decreases j, 2
  {
    Results(semantics, bodies[j].clones, ArgumentValues(semantics, contexts, bodies, calls, outside, j, calls[j].arguments))
  }

  ghost function ArgumentValues(semantics: Semantics, contexts: seq<BuildContext>, bodies: seq<Body>, calls: seq<Call>, outside: seq<int>, j: nat, arguments: seq<Source>): (r: seq<int>)
    requires |bodies| == |contexts| == |calls|
    ensures |r| == |arguments|
    ensures forall k :: 0 <= k < |r| ==> r[k] == SourceValue(semantics, contexts, bodies, calls, outside, j, arguments[k])
    decreases j, 1
  {
    seq(|arguments|, k requires 0 <= k < |arguments| => SourceValue(semantics, contexts, bodies, calls, outside, j, arguments[k]))
  }

  /** Given the right arguments, every clone has the value of its source. */
  lemma {:induction false} ResultsMean(nodes: seq<Node>, semantics: Semantics, values: seq<int>, dfs: seq<nat>, j: nat, body: Body, arguments: seq<int>, k: nat)
    requires IsValuation(nodes, semantics, values) && IsListed(nodes, dfs) && IsBody(nodes, dfs, j, body, |dfs|) && k <= |dfs|
    requires |arguments| == |body.parameters| && forall p :: 0 <= p < |arguments| ==> arguments[p] == ValueAt(values, body.parameters[p])
    ensures forall i :: 0 <= i < k ==> Results(semantics, body.clones[..k], arguments)[i] == ValueAt(values, dfs[i])
  {
    if k > 0 {
      var n := k - 1;
      ResultsMean(nodes, semantics, values, dfs, j, body, arguments, n);
      assert body.clones[..k][..n] == body.clones[..n];
      var before := Results(semantics, body.clones[..n], arguments);
      var clone := body.clones[n];
      assert IsClone(nodes, dfs, body.parameters, n, clone);
      forall m | 0 <= m < |clone.operands| ensures RefValue(arguments, before, clone.operands[m]) == ValueAt(values, nodes[dfs[n]].operands[m]) {
        assert RefersTo(dfs, body.parameters, n, clone.operands[m], nodes[dfs[n]].operands[m]);
      }
      assert RefValues(arguments, before, clone.operands) == OperandValues(values, nodes[dfs[n]].operands);
    }
  }

  /** The finished grouping of a computation. */
  ghost predicate IsGrouped(nodes: seq<Node>, contexts: seq<BuildContext>, assignment: map<nat, nat>, bodies: seq<Body>, calls: seq<Call>) {
    && Cut(nodes, contexts, assignment, |nodes|)
    && |bodies| == |contexts| == |calls| && AllBuilt(nodes, contexts, assignment, bodies) && AllCalls(nodes, contexts, bodies, calls)
  }

  /** Calls read outside operands and the outputs of strictly earlier calls: there is no cycle. */
  lemma CallsAreAcyclic(nodes: seq<Node>, contexts: seq<BuildContext>, assignment: map<nat, nat>, bodies: seq<Body>, calls: seq<Call>, j: nat, k: nat)
    requires IsGrouped(nodes, contexts, assignment, bodies, calls) && j < |calls| && calls[j].outputs != [] && k < |calls[j].arguments|
    ensures match calls[j].arguments[k]
            case Outside(n) => n < |nodes| && nodes[n].kind == AlwaysOperand
            case Output(t, i) => t < j && i < |contexts[t].roots| && contexts[t].roots[i] == bodies[j].parameters[k]
  {
    assert IsCall(nodes, calls, j, contexts[j], bodies[j]);
    assert IsSource(nodes, calls[..j], calls[j].arguments[k], bodies[j].parameters[k]);
  }

  /** Every task root keeps its value. */
  lemma {:induction false} CallMeans(nodes: seq<Node>, contexts: seq<BuildContext>, assignment: map<nat, nat>, bodies: seq<Body>, calls: seq<Call>,
                                     semantics: Semantics, values: seq<int>, j: nat)
    requires IsGrouped(nodes, contexts, assignment, bodies, calls) && IsValuation(nodes, semantics, values)
    requires j < |calls| && calls[j].outputs != []
    ensures forall i :: 0 <= i < |contexts[j].dfs| ==>
              ValueAt(CallResults(semantics, contexts, bodies, calls, values, j), i) == ValueAt(values, contexts[j].dfs[i])
    decreases j, 1
  {
    var body, dfs := bodies[j], contexts[j].dfs;
    assert IsTask(nodes, contexts[j], j) && IsBuilt(nodes, contexts, assignment, j, body, |dfs|) && IsCall(nodes, calls, j, contexts[j], body);
    var arguments := ArgumentValues(semantics, contexts, bodies, calls, values, j, calls[j].arguments);
    forall k | 0 <= k < |body.parameters| ensures arguments[k] == ValueAt(values, body.parameters[k]) {
      assert IsSource(nodes, calls[..j], calls[j].arguments[k], body.parameters[k]);
      SourceMeans(nodes, contexts, assignment, bodies, calls, semantics, values, j, calls[j].arguments[k], body.parameters[k]);
    }
    ResultsMean(nodes, semantics, values, dfs, j, body, arguments, |dfs|);
    assert body.clones[..|dfs|] == body.clones;
  }

  /** The value found at a source is the value of the instruction it stands for. */
  lemma {:induction false} SourceMeans(nodes: seq<Node>, contexts: seq<BuildContext>, assignment: map<nat, nat>, bodies: seq<Body>, calls: seq<Call>,
                                       semantics: Semantics, values: seq<int>, j: nat, source: Source, n: nat)
    requires IsGrouped(nodes, contexts, assignment, bodies, calls) && IsValuation(nodes, semantics, values)
    requires j <= |calls| && IsSource(nodes, calls[..j], source, n)
    ensures SourceValue(semantics, contexts, bodies, calls, values, j, source) == ValueAt(values, n)
    decreases j, 0
  {
    match source {
      case Outside(m) =>
      case Output(t, i) =>
        CallMeans(nodes, contexts, assignment, bodies, calls, semantics, values, t);
        assert IsTask(nodes, contexts[t], t) && calls[t].outputs == contexts[t].roots;
        assert n in contexts[t].roots;
    }
  }

  /**
   * Grouping preserves meaning: whatever instructions compute and whatever the outside operands are,
   * every instruction that has a source outside the tasks keeps its value.
   */
  lemma GroupingPreservesMeaning(nodes: seq<Node>, contexts: seq<BuildContext>, assignment: map<nat, nat>, bodies: seq<Body>, calls: seq<Call>,
                                 clones: map<nat, Source>, semantics: Semantics, values: seq<int>, n: nat)
    requires IsGrouped(nodes, contexts, assignment, bodies, calls) && AreSources(nodes, calls, clones)
    requires IsValuation(nodes, semantics, values) && n in clones
    ensures SourceValue(semantics, contexts, bodies, calls, values, |calls|, clones[n]) == ValueAt(values, n)
  {
    assert calls[..|calls|] == calls;
    assert IsSource(nodes, calls, clones[n], n);
    SourceMeans(nodes, contexts, assignment, bodies, calls, semantics, values, |calls|, clones[n], n);
  }

  /** What the computation returns from a task, and what a loop reads from a task, has a source. */
  lemma ReadersHaveSources(nodes: seq<Node>, contexts: seq<BuildContext>, assignment: map<nat, nat>, bodies: seq<Body>, calls: seq<Call>,
                           clones: map<nat, Source>, n: nat)
    requires IsGrouped(nodes, contexts, assignment, bodies, calls) && Knows(nodes, contexts, clones, |contexts|)
    requires RootsRecorded(nodes, contexts, assignment, |nodes|)
    requires n < |nodes| && nodes[n].kind.Direct? && (nodes[n].isRoot || exists m :: 0 <= m < |nodes| && Roots(nodes, m, n))
    ensures n in clones
  {
    var j := assignment[n];
    assert InContext(nodes, contexts, j, n);
    assert IsBuilt(nodes, contexts, assignment, j, bodies[j], |contexts[j].dfs|);
    if !nodes[n].isRoot {
      var m :| 0 <= m < |nodes| && Roots(nodes, m, n);
      assert IsRecorded(contexts, assignment, n);
    }
  }
}
