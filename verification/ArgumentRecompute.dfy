/** Recomputing an operand from the arguments of a computation instead of sending it between meshes. */
module ArgumentRecompute {
  import opened Sequences
  import opened Wrappers

  datatype Opcode = Dot | ArgumentRecolor | ShardingCall | SliceOffset | OtherCustomCall | Parameter | Call | While | Cheap | Reduce | OtherOpcode

  /**
   * `code` identifies what the instruction computes; `isInput` marks parameters, their aliases, and
   * replicated copies; `tiles` is the device count of a tiled sharding.
   */
  datatype Node = Node(op: Opcode, code: int, operands: seq<nat>, isInput: bool, isTuple: bool, elements: nat, tiles: Option<nat>, color: Option<string>)

  ghost predicate IsNode(nodes: seq<Node>, rank: seq<nat>, n: nat)
    requires n < |nodes| == |rank|
  {
    && (forall o :: o in nodes[n].operands ==> o < |nodes| && rank[o] < rank[n])
    && (nodes[n].op == ArgumentRecolor || nodes[n].op == ShardingCall || nodes[n].op == Reduce ==> nodes[n].operands != [])
  }

  /** The rank decreases along operands: there is no cycle. */
  ghost predicate IsGraph(nodes: seq<Node>, rank: seq<nat>) {
    |nodes| == |rank| && forall n :: 0 <= n < |nodes| ==> IsNode(nodes, rank, n)
  }

  // ---- meaning ----

  /** What instructions compute from the values of their operands. */
  type Semantics = (int, seq<int>) -> int

  function ValueAt(values: seq<int>, n: nat): int {
    if n < |values| then values[n] else 0
  }

  function OperandValues(values: seq<int>, operands: seq<nat>): (r: seq<int>)
    ensures |r| == |operands| && forall k :: 0 <= k < |r| ==> r[k] == ValueAt(values, operands[k])
  {
    seq(|operands|, k requires 0 <= k < |operands| => ValueAt(values, operands[k]))
  }

  ghost predicate IsValuation(nodes: seq<Node>, semantics: Semantics, values: seq<int>) {
    |values| == |nodes| &&
    forall n :: 0 <= n < |nodes| ==> values[n] == semantics(nodes[n].code, OperandValues(values, nodes[n].operands))
  }

  /** An acyclic graph has one valuation. */
  lemma ValuationIsUnique(nodes: seq<Node>, rank: seq<nat>, semantics: Semantics, a: seq<int>, b: seq<int>)
    requires IsGraph(nodes, rank) && IsValuation(nodes, semantics, a) && IsValuation(nodes, semantics, b)
    ensures a == b
  {
    forall n: nat | n < |nodes| ensures a[n] == b[n] {
      SameValue(nodes, rank, semantics, a, b, n);
    }
  }

  lemma {:induction false} SameValue(nodes: seq<Node>, rank: seq<nat>, semantics: Semantics, a: seq<int>, b: seq<int>, n: nat)
    requires IsGraph(nodes, rank) && IsValuation(nodes, semantics, a) && IsValuation(nodes, semantics, b) && n < |nodes|
    ensures a[n] == b[n]
    decreases rank[n]
  {
    assert IsNode(nodes, rank, n);
    forall k | 0 <= k < |nodes[n].operands| ensures ValueAt(a, nodes[n].operands[k]) == ValueAt(b, nodes[n].operands[k]) {
      assert nodes[n].operands[k] in nodes[n].operands;
      SameValue(nodes, rank, semantics, a, b, nodes[n].operands[k]);
    }
    assert OperandValues(a, nodes[n].operands) == OperandValues(b, nodes[n].operands);
  }

  // ---- cost ----

  /** What recomputing one instruction costs. */
  function Cost(nodes: seq<Node>, n: nat): nat {
    if n >= |nodes| then 0
    else match nodes[n].op
      case Cheap => 0
      case SliceOffset => 0
      case Parameter => 0
      case ArgumentRecolor => 0
      case ShardingCall => 0
      case Reduce => if nodes[n].operands != [] && nodes[n].operands[0] < |nodes| then nodes[nodes[n].operands[0]].elements else 0
      case _ => if nodes[n].isTuple then 0 else nodes[n].elements
  }

  /** The cost of the members of a set below `n`. */
  ghost function Total(nodes: seq<Node>, s: set<nat>, n: nat): nat {
    if n == 0 then 0 else Total(nodes, s, n - 1) + if n - 1 in s then Cost(nodes, n - 1) else 0
  }

  lemma {:induction false} TotalAdd(nodes: seq<Node>, s: set<nat>, x: nat, n: nat)
    requires x !in s
    ensures Total(nodes, s + {x}, n) == Total(nodes, s, n) + if x < n then Cost(nodes, x) else 0
  {
    if n > 0 {
      TotalAdd(nodes, s, x, n - 1);
    }
  }

  lemma {:induction false} TotalMonotone(nodes: seq<Node>, s: set<nat>, t: set<nat>, n: nat)
    requires forall x :: x in s && x < n ==> x in t
    ensures Total(nodes, s, n) <= Total(nodes, t, n)
  {
    if n > 0 {
      TotalMonotone(nodes, s, t, n - 1);
    }
  }

  // ---- what recomputation needs ----

  /** Available without further work: cloned already, or an input. */
  predicate Have(nodes: seq<Node>, clones: map<nat, nat>, n: nat) {
    n in clones || (n < |nodes| && nodes[n].isInput)
  }

  /** The operands that recomputing `n` needs in turn. */
  function Pending(nodes: seq<Node>, clones: map<nat, nat>, operands: seq<nat>): (r: seq<nat>)
    ensures forall o :: o in r <==> o in operands && !Have(nodes, clones, o)
  {
    if operands == [] then []
    else (if Have(nodes, clones, operands[0]) then [] else [operands[0]]) + Pending(nodes, clones, operands[1..])
  }

  /** Recomputing `a` directly needs `b`. */
  ghost predicate Leads(nodes: seq<Node>, clones: map<nat, nat>, a: nat, b: nat) {
    a < |nodes| && b < |nodes| && nodes[a].op != SliceOffset && b in nodes[a].operands && !Have(nodes, clones, b)
  }

  ghost predicate IsPath(nodes: seq<Node>, clones: map<nat, nat>, path: seq<nat>) {
    path != [] && forall i :: 0 <= i < |path| - 1 ==> Leads(nodes, clones, path[i], path[i + 1])
  }

  /** Recomputing `root` needs `n`. */
  ghost predicate Needs(nodes: seq<Node>, clones: map<nat, nat>, root: nat, n: nat) {
    exists path :: IsPath(nodes, clones, path) && path[0] == root && path[|path| - 1] == n
  }

  lemma NeedsNext(nodes: seq<Node>, clones: map<nat, nat>, root: nat, n: nat, o: nat)
    requires Needs(nodes, clones, root, n) && Leads(nodes, clones, n, o)
    ensures Needs(nodes, clones, root, o)
  {
    var path :| IsPath(nodes, clones, path) && path[0] == root && path[|path| - 1] == n;
    assert IsPath(nodes, clones, path + [o]);
  }

  /** The instructions that recomputing `root` needs. */
  ghost function NeededSet(nodes: seq<Node>, clones: map<nat, nat>, root: nat, n: nat): (r: set<nat>)
    ensures forall x: nat :: x in r <==> x < n && Needs(nodes, clones, root, x)
  {
    if n == 0 then {}
    else NeededSet(nodes, clones, root, n - 1) + if Needs(nodes, clones, root, n - 1) then {n - 1} else {}
  }

  /** An instruction that may be recomputed beside the consumer. */
  predicate Passes(nodes: seq<Node>, consumer: nat, n: nat) {
    && n < |nodes| && consumer < |nodes|
    && (nodes[n].tiles.Some? && nodes[consumer].tiles.Some? ==> nodes[n].tiles == nodes[consumer].tiles)
    && nodes[n].op != Dot && nodes[n].op != OtherCustomCall && nodes[n].op != Parameter && nodes[n].op != Call && nodes[n].op != While
  }

  /** Everything needed may be recomputed, within the cost limit. */
  ghost predicate IsAffordable(nodes: seq<Node>, clones: map<nat, nat>, consumer: nat, root: nat, cutoff: int) {
    && (forall n :: 0 <= n < |nodes| && Needs(nodes, clones, root, n) ==> Passes(nodes, consumer, n))
    && Total(nodes, NeededSet(nodes, clones, root, |nodes|), |nodes|) <= cutoff
  }

  lemma {:induction false} MemberCosts(nodes: seq<Node>, s: set<nat>, x: nat, n: nat)
    requires x in s && x < n
    ensures Cost(nodes, x) <= Total(nodes, s, n)
  {
    if x < n - 1 {
      MemberCosts(nodes, s, x, n - 1);
    }
  }

  /**
   * What is recomputed is no product, call, loop, foreign parameter or unknown custom call, and is spread
   * over as many devices as the consumer; no array that has to be computed again is larger than the limit,
   * and no reduce reads a larger one.
   */
  lemma AffordableIsSmall(nodes: seq<Node>, clones: map<nat, nat>, consumer: nat, root: nat, cutoff: int, n: nat)
    requires IsAffordable(nodes, clones, consumer, root, cutoff) && n < |nodes| && Needs(nodes, clones, root, n)
    ensures nodes[n].op !in {Dot, OtherCustomCall, Parameter, Call, While}
    ensures consumer < |nodes| && (nodes[n].tiles == None || nodes[consumer].tiles == None || nodes[n].tiles == nodes[consumer].tiles)
    ensures nodes[n].op == OtherOpcode && !nodes[n].isTuple ==> nodes[n].elements <= cutoff
    ensures nodes[n].op == Reduce && nodes[n].operands != [] && nodes[n].operands[0] < |nodes| ==> nodes[nodes[n].operands[0]].elements <= cutoff
  {
    MemberCosts(nodes, NeededSet(nodes, clones, root, |nodes|), n, |nodes|);
  }

  lemma {:induction false} FreeTotal(nodes: seq<Node>, s: set<nat>, n: nat)
    requires forall x :: x in s && x < n ==> Cost(nodes, x) == 0
    ensures Total(nodes, s, n) == 0
  {
    if n > 0 {
      FreeTotal(nodes, s, n - 1);
    }
  }

  /** Trees of constants, broadcasts, reshapes, recolored arguments and tuples are affordable under any limit. */
  lemma FreeIsAffordable(nodes: seq<Node>, clones: map<nat, nat>, consumer: nat, root: nat, cutoff: int)
    requires cutoff >= 0 && consumer < |nodes|
    requires forall n :: 0 <= n < |nodes| && Needs(nodes, clones, root, n) ==>
               nodes[n].tiles == None || nodes[consumer].tiles == None || nodes[n].tiles == nodes[consumer].tiles
    requires forall n :: 0 <= n < |nodes| && Needs(nodes, clones, root, n) ==>
               nodes[n].op in {Cheap, SliceOffset, ArgumentRecolor, ShardingCall} || (nodes[n].op == OtherOpcode && nodes[n].isTuple)
    ensures IsAffordable(nodes, clones, consumer, root, cutoff)
  {
    FreeTotal(nodes, NeededSet(nodes, clones, root, |nodes|), |nodes|);
  }

  // ---- the traversal ----

  predicate Done(visiting: map<nat, bool>, n: nat) {
    n in visiting && visiting[n]
  }

  /** An instruction being visited waits at stack position `i` for operands that are done or above it. */
  ghost predicate WaitsAt(nodes: seq<Node>, rank: seq<nat>, clones: map<nat, nat>, stack: seq<nat>, visiting: map<nat, bool>, x: nat, i: nat) {
    && i < |stack| && stack[i] == x && x < |nodes| && x < |rank|
    && (forall j :: i < j < |stack| ==> stack[j] < |rank| && rank[stack[j]] < rank[x])
    && (forall o :: o in nodes[x].operands && !Have(nodes, clones, o) ==> Done(visiting, o) || o in stack[i + 1..])
  }

  ghost predicate Waits(nodes: seq<Node>, rank: seq<nat>, clones: map<nat, nat>, stack: seq<nat>, visiting: map<nat, bool>, x: nat) {
    exists i :: WaitsAt(nodes, rank, clones, stack, visiting, x, i)
  }

  ghost predicate AllWait(nodes: seq<Node>, rank: seq<nat>, clones: map<nat, nat>, stack: seq<nat>, visiting: map<nat, bool>) {
    forall x :: x in visiting && !visiting[x] ==> Waits(nodes, rank, clones, stack, visiting, x)
  }

  /** The tree holds the finished instructions, operands first. */
  ghost predicate IsTree(nodes: seq<Node>, clones: map<nat, nat>, visiting: map<nat, bool>, tree: seq<nat>) {
    && Distinct(tree)
    && (forall x: nat :: x in tree <==> x < |nodes| && Done(visiting, x) && nodes[x].op != SliceOffset)
    && (forall i :: 0 <= i < |tree| ==> OperandsReady(nodes, clones, tree, i))
    && (forall i :: 0 <= i < |tree| ==> OperandsDone(nodes, clones, visiting, tree[i]))
  }

  ghost predicate OperandsDone(nodes: seq<Node>, clones: map<nat, nat>, visiting: map<nat, bool>, n: nat) {
    n < |nodes| ==> forall o :: o in nodes[n].operands && !Have(nodes, clones, o) ==> Done(visiting, o)
  }

  ghost predicate OperandsReady(nodes: seq<Node>, clones: map<nat, nat>, tree: seq<nat>, i: nat)
    requires i < |tree|
  {
    tree[i] < |nodes| &&
    forall o :: o in nodes[tree[i]].operands ==> Have(nodes, clones, o) || o in tree[..i] || (o < |nodes| && nodes[o].op == SliceOffset)
  }

  ghost predicate OnlyNeeded(nodes: seq<Node>, clones: map<nat, nat>, root: nat, stack: seq<nat>, visiting: map<nat, bool>) {
    && (forall k :: 0 <= k < |stack| ==> stack[k] < |nodes| && Needs(nodes, clones, root, stack[k]) && !Have(nodes, clones, stack[k]))
    && (forall x :: x in visiting ==> x < |nodes| && Needs(nodes, clones, root, x) && !Have(nodes, clones, x))
    && (Done(visiting, root) || root in stack)
  }

  ghost predicate Traversing(nodes: seq<Node>, rank: seq<nat>, clones: map<nat, nat>, consumer: nat, root: nat, stack: seq<nat>,
                             visiting: map<nat, bool>, tree: seq<nat>, total: int) {
    && AllWait(nodes, rank, clones, stack, visiting)
    && IsTree(nodes, clones, visiting, tree)
    && OnlyNeeded(nodes, clones, root, stack, visiting)
    && (forall x :: x in visiting ==> Passes(nodes, consumer, x) && (nodes[x].op == SliceOffset ==> visiting[x]))
    && total == Total(nodes, visiting.Keys, |nodes|)
  }

  /** Pushing operands of smaller rank above a waiting instruction keeps it waiting. */
  lemma WaitsBelow(nodes: seq<Node>, rank: seq<nat>, clones: map<nat, nat>, stack: seq<nat>, visiting: map<nat, bool>,
                   pushed: seq<nat>, x: nat, after: map<nat, bool>)
    requires Waits(nodes, rank, clones, stack, visiting, x) && stack != [] && stack[|stack| - 1] != x
    requires stack[|stack| - 1] < |rank| && forall j :: 0 <= j < |pushed| ==> pushed[j] < |rank| && rank[pushed[j]] < rank[stack[|stack| - 1]]
    requires forall o :: Done(visiting, o) ==> Done(after, o)
    ensures Waits(nodes, rank, clones, stack + pushed, after, x)
  {
    var i: nat :| WaitsAt(nodes, rank, clones, stack, visiting, x, i);
    var stack' := stack + pushed;
    assert rank[stack[|stack| - 1]] < rank[x];
    assert stack'[i + 1..] == stack[i + 1..] + pushed;
    assert WaitsAt(nodes, rank, clones, stack', after, x, i);
  }

  lemma ExpandWaits(nodes: seq<Node>, rank: seq<nat>, clones: map<nat, nat>, stack: seq<nat>, visiting: map<nat, bool>, pushed: seq<nat>)
    requires |rank| == |nodes| && AllWait(nodes, rank, clones, stack, visiting)
    requires stack != [] && stack[|stack| - 1] < |nodes| && stack[|stack| - 1] !in visiting
    requires IsNode(nodes, rank, stack[|stack| - 1])
    requires forall o :: o in nodes[stack[|stack| - 1]].operands && !Have(nodes, clones, o) ==> o in pushed
    requires forall o :: o in pushed ==> o in nodes[stack[|stack| - 1]].operands
    ensures AllWait(nodes, rank, clones, stack + pushed, visiting[stack[|stack| - 1] := false])
  {
    var next := stack[|stack| - 1];
    var after := visiting[next := false];
    assert (stack + pushed)[|stack|..] == pushed;
    forall j | 0 <= j < |pushed| ensures pushed[j] < |rank| && rank[pushed[j]] < rank[next] {
      assert pushed[j] in pushed;
    }
    forall x | x in after && !after[x] ensures Waits(nodes, rank, clones, stack + pushed, after, x) {
      if x == next {
        assert WaitsAt(nodes, rank, clones, stack + pushed, after, next, |stack| - 1);
      } else {
        WaitsBelow(nodes, rank, clones, stack, visiting, pushed, x, after);
      }
    }
  }

  lemma PopWaits(nodes: seq<Node>, rank: seq<nat>, clones: map<nat, nat>, stack: seq<nat>, visiting: map<nat, bool>)
    requires AllWait(nodes, rank, clones, stack, visiting) && stack != [] && stack[|stack| - 1] in visiting
    ensures AllWait(nodes, rank, clones, stack[..|stack| - 1], visiting[stack[|stack| - 1] := true])
  {
    var last := |stack| - 1;
    var popped, visiting' := stack[..last], visiting[stack[last] := true];
    forall x | x in visiting' && !visiting'[x] ensures Waits(nodes, rank, clones, popped, visiting', x) {
      WaitsAbove(nodes, rank, clones, stack, visiting, x, visiting');
    }
  }

  /** Dropping a done instruction keeps the others waiting. */
  lemma WaitsAbove(nodes: seq<Node>, rank: seq<nat>, clones: map<nat, nat>, stack: seq<nat>, visiting: map<nat, bool>, x: nat, after: map<nat, bool>)
    requires Waits(nodes, rank, clones, stack, visiting, x) && stack != [] && stack[|stack| - 1] != x
    requires Done(after, stack[|stack| - 1]) && forall o :: Done(visiting, o) ==> Done(after, o)
    ensures Waits(nodes, rank, clones, stack[..|stack| - 1], after, x)
  {
    var last := |stack| - 1;
    var i: nat :| WaitsAt(nodes, rank, clones, stack, visiting, x, i);
    assert stack[i + 1..] == stack[..last][i + 1..] + [stack[last]];
    assert WaitsAt(nodes, rank, clones, stack[..last], after, x, i);
  }

  /** An instruction on top of the stack that is being visited has all its operands done. */
  lemma TopIsReady(nodes: seq<Node>, rank: seq<nat>, clones: map<nat, nat>, stack: seq<nat>, visiting: map<nat, bool>)
    requires AllWait(nodes, rank, clones, stack, visiting) && stack != []
    requires stack[|stack| - 1] in visiting && !visiting[stack[|stack| - 1]]
    ensures stack[|stack| - 1] < |nodes|
    ensures forall o :: o in nodes[stack[|stack| - 1]].operands && !Have(nodes, clones, o) ==> Done(visiting, o)
  {
    var last := |stack| - 1;
    var i: nat :| WaitsAt(nodes, rank, clones, stack, visiting, stack[last], i);
    assert i == last;
    assert stack[last + 1..] == [];
  }

  lemma ExpandStep(nodes: seq<Node>, rank: seq<nat>, clones: map<nat, nat>, consumer: nat, root: nat, stack: seq<nat>,
                   visiting: map<nat, bool>, tree: seq<nat>, total: int, pushed: seq<nat>)
    requires IsGraph(nodes, rank) && Traversing(nodes, rank, clones, consumer, root, stack, visiting, tree, total)
    requires stack != [] && stack[|stack| - 1] !in visiting && Passes(nodes, consumer, stack[|stack| - 1])
    requires nodes[stack[|stack| - 1]].op != SliceOffset
    requires forall o :: o in pushed <==> o in nodes[stack[|stack| - 1]].operands && !Have(nodes, clones, o)
    ensures Traversing(nodes, rank, clones, consumer, root, stack + pushed, visiting[stack[|stack| - 1] := false], tree,
                       total + Cost(nodes, stack[|stack| - 1]))
  {
    var next := stack[|stack| - 1];
    assert IsNode(nodes, rank, next);
    ExpandWaits(nodes, rank, clones, stack, visiting, pushed);
    ExpandNeeded(nodes, rank, clones, root, stack, visiting, pushed);
    TreeSame(nodes, clones, visiting, visiting[next := false], tree);
    TotalAdd(nodes, visiting.Keys, next, |nodes|);
    assert visiting[next := false].Keys == visiting.Keys + {next};
  }

  lemma ExpandNeeded(nodes: seq<Node>, rank: seq<nat>, clones: map<nat, nat>, root: nat, stack: seq<nat>, visiting: map<nat, bool>, pushed: seq<nat>)
    requires IsGraph(nodes, rank) && OnlyNeeded(nodes, clones, root, stack, visiting) && stack != [] && stack[|stack| - 1] !in visiting
    requires nodes[stack[|stack| - 1]].op != SliceOffset
    requires forall o :: o in pushed <==> o in nodes[stack[|stack| - 1]].operands && !Have(nodes, clones, o)
    ensures OnlyNeeded(nodes, clones, root, stack + pushed, visiting[stack[|stack| - 1] := false])
  {
    var next := stack[|stack| - 1];
    assert IsNode(nodes, rank, next);
    forall k | |stack| <= k < |stack + pushed|
      ensures (stack + pushed)[k] < |nodes| && Needs(nodes, clones, root, (stack + pushed)[k]) && !Have(nodes, clones, (stack + pushed)[k])
    {
      var o := (stack + pushed)[k];
      assert o in pushed;
      NeedsNext(nodes, clones, root, next, o);
    }
  }

  /** More visited instructions, none of them newly done outside the tree. */
  lemma TreeSame(nodes: seq<Node>, clones: map<nat, nat>, a: map<nat, bool>, b: map<nat, bool>, tree: seq<nat>)
    requires IsTree(nodes, clones, a, tree)
    requires forall x: nat :: Done(a, x) ==> Done(b, x)
    requires forall x: nat :: x < |nodes| && nodes[x].op != SliceOffset && Done(b, x) ==> Done(a, x)
    ensures IsTree(nodes, clones, b, tree)
  {
    forall i | 0 <= i < |tree| ensures OperandsReady(nodes, clones, tree, i) && OperandsDone(nodes, clones, b, tree[i]) {
      assert OperandsReady(nodes, clones, tree, i) && OperandsDone(nodes, clones, a, tree[i]);
    }
  }

  lemma SliceStep(nodes: seq<Node>, rank: seq<nat>, clones: map<nat, nat>, consumer: nat, root: nat, stack: seq<nat>,
                  visiting: map<nat, bool>, tree: seq<nat>, total: int)
    requires Traversing(nodes, rank, clones, consumer, root, stack, visiting, tree, total)
    requires stack != [] && stack[|stack| - 1] !in visiting && Passes(nodes, consumer, stack[|stack| - 1])
    requires nodes[stack[|stack| - 1]].op == SliceOffset
    ensures Traversing(nodes, rank, clones, consumer, root, stack, visiting[stack[|stack| - 1] := true], tree, total)
  {
    var next := stack[|stack| - 1];
    var after := visiting[next := true];
    forall x | x in after && !after[x] ensures Waits(nodes, rank, clones, stack, after, x) {
      var i: nat :| WaitsAt(nodes, rank, clones, stack, visiting, x, i);
      assert WaitsAt(nodes, rank, clones, stack, after, x, i);
    }
    TreeSame(nodes, clones, visiting, after, tree);
    TotalAdd(nodes, visiting.Keys, next, |nodes|);
    assert after.Keys == visiting.Keys + {next};
  }

  lemma PopStep(nodes: seq<Node>, rank: seq<nat>, clones: map<nat, nat>, consumer: nat, root: nat, stack: seq<nat>,
                visiting: map<nat, bool>, tree: seq<nat>, total: int)
    requires Traversing(nodes, rank, clones, consumer, root, stack, visiting, tree, total)
    requires stack != [] && Done(visiting, stack[|stack| - 1])
    ensures Traversing(nodes, rank, clones, consumer, root, stack[..|stack| - 1], visiting, tree, total)
  {
    PopWaits(nodes, rank, clones, stack, visiting);
    assert visiting[stack[|stack| - 1] := true] == visiting;
    assert stack == stack[..|stack| - 1] + [stack[|stack| - 1]];
  }

  lemma FinishStep(nodes: seq<Node>, rank: seq<nat>, clones: map<nat, nat>, consumer: nat, root: nat, stack: seq<nat>,
                   visiting: map<nat, bool>, tree: seq<nat>, total: int)
    requires Traversing(nodes, rank, clones, consumer, root, stack, visiting, tree, total)
    requires stack != [] && stack[|stack| - 1] in visiting && !visiting[stack[|stack| - 1]]
    requires nodes[stack[|stack| - 1]].op != SliceOffset
    ensures Traversing(nodes, rank, clones, consumer, root, stack[..|stack| - 1], visiting[stack[|stack| - 1] := true],
                       tree + [stack[|stack| - 1]], total)
  {
    var next := stack[|stack| - 1];
    var after := visiting[next := true];
    TopIsReady(nodes, rank, clones, stack, visiting);
    PopWaits(nodes, rank, clones, stack, visiting);
    TreeGrows(nodes, clones, visiting, tree, next);
    assert stack == stack[..|stack| - 1] + [next];
    assert after.Keys == visiting.Keys;
  }

  lemma TreeGrows(nodes: seq<Node>, clones: map<nat, nat>, visiting: map<nat, bool>, tree: seq<nat>, next: nat)
    requires IsTree(nodes, clones, visiting, tree) && next < |nodes| && next in visiting && !visiting[next] && nodes[next].op != SliceOffset
    requires forall x :: x in visiting ==> x < |nodes|
    requires forall o :: o in nodes[next].operands && !Have(nodes, clones, o) ==> Done(visiting, o)
    ensures IsTree(nodes, clones, visiting[next := true], tree + [next])
  {
    var after, grown := visiting[next := true], tree + [next];
    forall i | 0 <= i < |grown| ensures OperandsReady(nodes, clones, grown, i) && OperandsDone(nodes, clones, after, grown[i]) {
      if i < |tree| {
        assert OperandsReady(nodes, clones, tree, i) && OperandsDone(nodes, clones, visiting, tree[i]);
        assert grown[..i] == tree[..i];
      } else {
        assert grown[..i] == tree;
      }
    }
    forall x: nat ensures x in grown <==> x < |nodes| && Done(after, x) && nodes[x].op != SliceOffset {
      assert x in grown <==> x in tree || x == next;
    }
  }

  /** When the stack is empty, everything needed is done. */
  lemma {:induction false} PathDone(nodes: seq<Node>, clones: map<nat, nat>, visiting: map<nat, bool>, tree: seq<nat>, path: seq<nat>)
    requires IsTree(nodes, clones, visiting, tree) && IsPath(nodes, clones, path) && Done(visiting, path[0])
    ensures Done(visiting, path[|path| - 1])
    decreases |path|
  {
    if |path| > 1 {
      assert Leads(nodes, clones, path[0], path[1]);
      assert path[0] in tree;
      var i :| 0 <= i < |tree| && tree[i] == path[0];
      assert OperandsDone(nodes, clones, visiting, tree[i]);
      forall k | 0 <= k < |path[1..]| - 1 ensures Leads(nodes, clones, path[1..][k], path[1..][k + 1]) {
        assert Leads(nodes, clones, path[k + 1], path[k + 2]);
      }
      PathDone(nodes, clones, visiting, tree, path[1..]);
    }
  }

  lemma FinishedIsAffordable(nodes: seq<Node>, rank: seq<nat>, clones: map<nat, nat>, consumer: nat, root: nat,
                             visiting: map<nat, bool>, tree: seq<nat>, total: int, cutoff: int)
    requires Traversing(nodes, rank, clones, consumer, root, [], visiting, tree, total) && total <= cutoff
    ensures IsAffordable(nodes, clones, consumer, root, cutoff)
    ensures forall n: nat :: n < |nodes| && Needs(nodes, clones, root, n) ==> Done(visiting, n)
  {
    forall n: nat | n < |nodes| && Needs(nodes, clones, root, n) ensures Done(visiting, n) {
      var path :| IsPath(nodes, clones, path) && path[0] == root && path[|path| - 1] == n;
      PathDone(nodes, clones, visiting, tree, path);
    }
    TotalMonotone(nodes, NeededSet(nodes, clones, root, |nodes|), visiting.Keys, |nodes|);
  }

  lemma TooExpensive(nodes: seq<Node>, clones: map<nat, nat>, consumer: nat, root: nat, visited: set<nat>, total: int, cutoff: int)
    requires total == Total(nodes, visited, |nodes|) && total > cutoff
    requires forall x :: x in visited ==> x < |nodes| && Needs(nodes, clones, root, x)
    ensures !IsAffordable(nodes, clones, consumer, root, cutoff)
  {
    TotalMonotone(nodes, visited, NeededSet(nodes, clones, root, |nodes|), |nodes|);
  }

  /** The top of the stack is seen for the first time: check it, count its cost, and visit its operands next. */
  method VisitNew(nodes: seq<Node>, ghost rank: seq<nat>, clones: map<nat, nat>, consumer: nat, ghost root: nat, cutoff: int,
                  stack: seq<nat>, visiting: map<nat, bool>, ghost tree: seq<nat>, total: int)
    returns (ok: bool, newStack: seq<nat>, newVisiting: map<nat, bool>, newTotal: int)
    requires IsGraph(nodes, rank) && Traversing(nodes, rank, clones, consumer, root, stack, visiting, tree, total)
    requires stack != [] && stack[|stack| - 1] !in visiting && consumer < |nodes|
    requires nodes[stack[|stack| - 1]].op != SliceOffset || total <= cutoff
    ensures !ok ==> !IsAffordable(nodes, clones, consumer, root, cutoff)
    ensures ok ==> Traversing(nodes, rank, clones, consumer, root, newStack, newVisiting, tree, newTotal) && newTotal <= cutoff
    ensures stack[|stack| - 1] < |nodes| && (ok ==> newVisiting.Keys == visiting.Keys + {stack[|stack| - 1]})
  {
    var next := stack[|stack| - 1];
    ok, newStack, newVisiting, newTotal := true, stack, visiting, total;
    if !Passes(nodes, consumer, next) {
      ok := false;
    } else if nodes[next].op == SliceOffset {
      SliceStep(nodes, rank, clones, consumer, root, stack, visiting, tree, total);
      newVisiting := visiting[next := true];
    } else {
      var pushed := Pending(nodes, clones, nodes[next].operands);
      if nodes[next].op == ArgumentRecolor || nodes[next].op == ShardingCall {
        assert IsNode(nodes, rank, next);
        pushed := Pending(nodes, clones, [nodes[next].operands[0]]) + pushed;
      }
      ExpandStep(nodes, rank, clones, consumer, root, stack, visiting, tree, total, pushed);
      newTotal := total + Cost(nodes, next);
      newVisiting := visiting[next := false];
      newStack := stack + pushed;
      if newTotal > cutoff {
        TooExpensive(nodes, clones, consumer, root, newVisiting.Keys, newTotal, cutoff);
        ok := false;
      }
    }
  }

  /** How many instructions have not been visited. */
  ghost function Unseen(nodes: seq<Node>, visiting: map<nat, bool>): nat {
    |NatsBelow(|nodes|) - visiting.Keys|
  }

  /** Visiting an instruction leaves fewer unseen. */
  lemma VisitedBelow(nodes: seq<Node>, visiting: map<nat, bool>, next: nat, after: map<nat, bool>)
    requires next < |nodes| && next !in visiting && after.Keys == visiting.Keys + {next}
    ensures Unseen(nodes, after) < Unseen(nodes, visiting)
  {
    var left := NatsBelow(|nodes|) - visiting.Keys;
    assert next in left;
    assert NatsBelow(|nodes|) - after.Keys == left - {next};
  }

  /** The top of the stack was seen before: it is done, or all its operands are and it becomes so. */
  method VisitAgain(nodes: seq<Node>, ghost rank: seq<nat>, ghost clones: map<nat, nat>, ghost consumer: nat, ghost root: nat,
                    stack: seq<nat>, visiting: map<nat, bool>, tree: seq<nat>, ghost total: int)
    returns (newStack: seq<nat>, newVisiting: map<nat, bool>, newTree: seq<nat>)
    requires Traversing(nodes, rank, clones, consumer, root, stack, visiting, tree, total)
    requires stack != [] && stack[|stack| - 1] in visiting
    ensures Traversing(nodes, rank, clones, consumer, root, newStack, newVisiting, newTree, total)
    ensures newStack == stack[..|stack| - 1] && newVisiting.Keys == visiting.Keys && newVisiting != map[]
  {
    var next := stack[|stack| - 1];
    newStack, newVisiting, newTree := stack[..|stack| - 1], visiting, tree;
    if visiting[next] {
      PopStep(nodes, rank, clones, consumer, root, stack, visiting, tree, total);
    } else {
      FinishStep(nodes, rank, clones, consumer, root, stack, visiting, tree, total);
      newTree := tree + [next];
      newVisiting := visiting[next := true];
    }
    assert next in newVisiting;
  }

  /** What must be cloned to recompute `root` beside the consumer, operands first; nothing when that is impossible or too expensive. */
  method FindTree(nodes: seq<Node>, ghost rank: seq<nat>, clones: map<nat, nat>, consumer: nat, root: nat, cutoff: int)
    returns (ok: bool, tree: seq<nat>)
    requires IsGraph(nodes, rank) && root < |nodes| && consumer < |nodes|
    requires !Have(nodes, clones, root) && nodes[root].op != SliceOffset
    ensures ok <==> IsAffordable(nodes, clones, consumer, root, cutoff)
    ensures ok ==> Distinct(tree) && root in tree && forall i :: 0 <= i < |tree| ==> OperandsReady(nodes, clones, tree, i)
    ensures ok ==> forall x :: x in tree ==> !Have(nodes, clones, x)
    ensures ok ==> forall n: nat :: n in tree <==> n < |nodes| && Needs(nodes, clones, root, n) && nodes[n].op != SliceOffset
  {
    var stack := [root];
    tree := [];
    var visiting: map<nat, bool> := map[];
    var total := 0;
    TraversalStarts(nodes, rank, clones, consumer, root);
    while stack != []
      invariant Traversing(nodes, rank, clones, consumer, root, stack, visiting, tree, total)
      invariant if visiting == map[] then stack == [root] else total <= cutoff
      decreases Unseen(nodes, visiting), |stack|
    {
      if stack[|stack| - 1] in visiting {
        stack, visiting, tree := VisitAgain(nodes, rank, clones, consumer, root, stack, visiting, tree, total);
      } else {
        ghost var before, next := visiting, stack[|stack| - 1];
        ok, stack, visiting, total := VisitNew(nodes, rank, clones, consumer, root, cutoff, stack, visiting, tree, total);
        if !ok {
          return false, [];
        }
        VisitedBelow(nodes, before, next, visiting);
      }
    }
    FinishedIsAffordable(nodes, rank, clones, consumer, root, visiting, tree, total, cutoff);
    ok := true;
  }

  lemma TraversalStarts(nodes: seq<Node>, rank: seq<nat>, clones: map<nat, nat>, consumer: nat, root: nat)
    requires root < |nodes| && !Have(nodes, clones, root)
    ensures Traversing(nodes, rank, clones, consumer, root, [root], map[], [], 0)
  {
    assert IsPath(nodes, clones, [root]);
    TotalEmpty(nodes, |nodes|);
    var none: map<nat, bool> := map[];
    assert none.Keys == {};
  }

  lemma {:induction false} TotalEmpty(nodes: seq<Node>, n: nat)
    ensures Total(nodes, {}, n) == 0
  {
    if n > 0 {
      TotalEmpty(nodes, n - 1);
    }
  }

  // ---- cloning ----

  class HloComputation {
    var nodes: seq<Node>

    constructor (nodes: seq<Node>)
      ensures this.nodes == nodes
    {
      this.nodes := nodes;
    }

    method AddInstruction(node: Node) returns (n: nat)
      modifies this
      ensures nodes == old(nodes) + [node] && n == |old(nodes)|
    {
      n := |nodes|;
      nodes := nodes + [node];
    }

    method ReplaceOperandWith(n: nat, k: nat, operand: nat)
      requires n < |nodes| && k < |nodes[n].operands|
      modifies this
      ensures nodes == WithOperand(old(nodes), n, k, operand)
    {
      nodes := nodes[n := nodes[n].(operands := nodes[n].operands[k := operand])];
    }
  }

  function WithOperand(nodes: seq<Node>, n: nat, k: nat, operand: nat): seq<Node>
    requires n < |nodes| && k < |nodes[n].operands|
  {
    nodes[n := nodes[n].(operands := nodes[n].operands[k := operand])]
  }

  function CloneOf(clones: map<nat, nat>, n: nat): nat {
    if n in clones then clones[n] else n
  }

  function CloneOperands(clones: map<nat, nat>, operands: seq<nat>): (r: seq<nat>)
    ensures |r| == |operands| && forall k :: 0 <= k < |r| ==> r[k] == CloneOf(clones, operands[k])
  {
    if operands == [] then [] else [CloneOf(clones, operands[0])] + CloneOperands(clones, operands[1..])
  }

  /** The clone of an instruction in another color; a sharding for another number of devices is dropped. */
  function Copy(node: Node, clones: map<nat, nat>, color: string, devices: nat): Node {
    node.(operands := CloneOperands(clones, node.operands), color := Some(color),
          tiles := if node.tiles.Some? && node.tiles.value != devices then None else node.tiles)
  }

  /** Every clone has the value of its source and depends on nothing above it. */
  ghost predicate IsFaithful(nodes: seq<Node>, rank: seq<nat>, values: seq<int>, clones: map<nat, nat>)
    requires |nodes| == |rank| == |values|
  {
    forall s :: s in clones ==> s < |nodes| && clones[s] < |nodes| && values[clones[s]] == values[s] && rank[clones[s]] <= rank[s]
  }

  /** A graph without cycles, the values of its instructions, and faithful clones. */
  ghost predicate Means(nodes: seq<Node>, rank: seq<nat>, semantics: Semantics, values: seq<int>, clones: map<nat, nat>) {
    IsGraph(nodes, rank) && IsValuation(nodes, semantics, values) && IsFaithful(nodes, rank, values, clones)
  }

  lemma CloneMeans(nodes: seq<Node>, rank: seq<nat>, semantics: Semantics, values: seq<int>, clones: map<nat, nat>, n: nat, color: string, devices: nat)
    requires Means(nodes, rank, semantics, values, clones) && n < |nodes|
    ensures Means(nodes + [Copy(nodes[n], clones, color, devices)], rank + [rank[n]], semantics, values + [values[n]], clones[n := |nodes|])
  {
    var copy := Copy(nodes[n], clones, color, devices);
    CloneIsNode(nodes, rank, values, clones, n, copy, color, devices);
    CloneValue(nodes, rank, semantics, values, clones, n, copy, color, devices);
  }

  lemma CloneIsNode(nodes: seq<Node>, rank: seq<nat>, values: seq<int>, clones: map<nat, nat>, n: nat, copy: Node, color: string, devices: nat)
    requires IsGraph(nodes, rank) && |values| == |nodes| && IsFaithful(nodes, rank, values, clones) && n < |nodes|
    requires copy == Copy(nodes[n], clones, color, devices)
    ensures IsGraph(nodes + [copy], rank + [rank[n]])
  {
    var after, ranks := nodes + [copy], rank + [rank[n]];
    forall m | 0 <= m < |after| ensures IsNode(after, ranks, m) {
      assert IsNode(nodes, rank, if m < |nodes| then m else n);
      if m == |nodes| {
        forall o | o in copy.operands ensures o < |after| && ranks[o] < ranks[m] {
          var k :| 0 <= k < |copy.operands| && copy.operands[k] == o;
          assert nodes[n].operands[k] in nodes[n].operands;
        }
      }
    }
  }

  lemma CloneValue(nodes: seq<Node>, rank: seq<nat>, semantics: Semantics, values: seq<int>, clones: map<nat, nat>, n: nat,
                   copy: Node, color: string, devices: nat)
    requires IsGraph(nodes, rank) && IsValuation(nodes, semantics, values) && IsFaithful(nodes, rank, values, clones) && n < |nodes|
    requires copy == Copy(nodes[n], clones, color, devices)
    ensures IsValuation(nodes + [copy], semantics, values + [values[n]])
  {
    var after, all := nodes + [copy], values + [values[n]];
    forall m | 0 <= m < |after| ensures all[m] == semantics(after[m].code, OperandValues(all, after[m].operands)) {
      var source := if m < |nodes| then m else n;
      assert IsNode(nodes, rank, source);
      forall k | 0 <= k < |nodes[source].operands| ensures ValueAt(all, after[m].operands[k]) == ValueAt(values, nodes[source].operands[k]) {
        assert nodes[source].operands[k] in nodes[source].operands;
      }
      assert OperandValues(all, after[m].operands) == OperandValues(values, nodes[source].operands);
    }
  }

  lemma ReplaceMeans(nodes: seq<Node>, rank: seq<nat>, semantics: Semantics, values: seq<int>, clones: map<nat, nat>, n: nat, k: nat, operand: nat)
    requires Means(nodes, rank, semantics, values, clones) && n < |nodes| && k < |nodes[n].operands|
    requires operand < |nodes| && rank[operand] < rank[n] && ValueAt(values, nodes[n].operands[k]) == values[operand]
    ensures Means(WithOperand(nodes, n, k, operand), rank, semantics, values, clones)
  {
    var after := WithOperand(nodes, n, k, operand);
    forall m | 0 <= m < |after| ensures IsNode(after, rank, m) && values[m] == semantics(after[m].code, OperandValues(values, after[m].operands)) {
      assert IsNode(nodes, rank, m);
      forall o | o in after[m].operands ensures o < |nodes| && rank[o] < rank[m] {
        var j :| 0 <= j < |after[m].operands| && after[m].operands[j] == o;
        assert nodes[m].operands[j] in nodes[m].operands;
      }
      assert OperandValues(values, after[m].operands) == OperandValues(values, nodes[m].operands);
    }
  }

  /** Recomputed from arguments only: every operand of a clone is a clone, an input, or a slice offset. */
  ghost predicate FromArguments(nodes: seq<Node>, clones: map<nat, nat>, n: nat)
    requires n < |nodes|
  {
    forall o :: o in nodes[n].operands ==>
      o in clones.Values || (o < |nodes| && (nodes[o].isInput || nodes[o].op == SliceOffset))
  }

  /** The sharding, if there is one, is for this number of devices. */
  ghost predicate FitsOn(node: Node, devices: nat) {
    node.tiles == None || node.tiles == Some(devices)
  }

  /** The same instruction; its sharding is kept exactly when it is for this number of devices. */
  ghost predicate IsCloneOf(nodes: seq<Node>, clone: nat, source: nat, devices: nat) {
    && source < |nodes| && clone < |nodes|
    && nodes[clone].op == nodes[source].op && nodes[clone].code == nodes[source].code && nodes[clone].isInput == nodes[source].isInput
    && nodes[clone].isTuple == nodes[source].isTuple && nodes[clone].elements == nodes[source].elements
    && nodes[clone].tiles == if nodes[source].tiles == Some(devices) then nodes[source].tiles else None
  }

  /** The instructions added since there were `size` of them. */
  ghost predicate Added(nodes: seq<Node>, clones: map<nat, nat>, color: string, devices: nat, size: nat)
    requires size <= |nodes|
  {
    forall n :: size <= n < |nodes| ==> nodes[n].color == Some(color) && FitsOn(nodes[n], devices) && FromArguments(nodes, clones, n)
  }

  lemma AddedStep(nodes: seq<Node>, clones: map<nat, nat>, color: string, devices: nat, size: nat, n: nat)
    requires size <= |nodes| && n < |nodes| && Added(nodes, clones, color, devices, size) && n !in clones
    requires forall o :: o in nodes[n].operands ==> o in clones || (o < |nodes| && (nodes[o].isInput || nodes[o].op == SliceOffset))
    ensures Added(nodes + [Copy(nodes[n], clones, color, devices)], clones[n := |nodes|], color, devices, size)
  {
    var copy, after := Copy(nodes[n], clones, color, devices), clones[n := |nodes|];
    var all := nodes + [copy];
    forall v | v in clones.Values ensures v in after.Values {
      var s :| s in clones && clones[s] == v;
      assert after[s] == v;
    }
    forall m | size <= m < |all| ensures all[m].color == Some(color) && FitsOn(all[m], devices) && FromArguments(all, after, m) {
      if m < |nodes| {
        assert FromArguments(nodes, clones, m);
      } else {
        forall o | o in copy.operands ensures o in after.Values || (o < |all| && (all[o].isInput || all[o].op == SliceOffset)) {
          var k :| 0 <= k < |copy.operands| && copy.operands[k] == o;
          assert nodes[n].operands[k] in nodes[n].operands;
          if nodes[n].operands[k] in clones {
            assert o in clones.Values;
          }
        }
      }
    }
  }

  lemma ReplaceAdded(nodes: seq<Node>, clones: map<nat, nat>, color: string, devices: nat, size: nat, n: nat, k: nat, operand: nat)
    requires size <= |nodes| && n < size && k < |nodes[n].operands| && Added(nodes, clones, color, devices, size)
    ensures Added(WithOperand(nodes, n, k, operand), clones, color, devices, size)
  {
    var after := WithOperand(nodes, n, k, operand);
    forall m | size <= m < |after| ensures after[m].color == Some(color) && FitsOn(after[m], devices) && FromArguments(after, clones, m) {
      assert FromArguments(nodes, clones, m);
    }
  }

  /** Part of the tree has been cloned at the end of the computation. */
  ghost predicate Cloned(before: seq<Node>, nodes: seq<Node>, rank: seq<nat>, newRank: seq<nat>, values: seq<int>, newValues: seq<int>,
                         clones: map<nat, nat>, newClones: map<nat, nat>, color: string, devices: nat, tree: seq<nat>) {
    && before <= nodes && rank <= newRank && values <= newValues && |nodes| == |before| + |tree|
    && newClones.Keys == clones.Keys + Elements(tree) && (forall s :: s in clones ==> newClones[s] == clones[s])
    && Added(nodes, newClones, color, devices, |before|)
    && (forall x :: x in tree && x in newClones ==> newClones[x] >= |before|)
    && (forall x :: x in tree && x in newClones ==> IsCloneOf(nodes, newClones[x], x, devices))
  }

  lemma CloneStep(before: seq<Node>, nodes: seq<Node>, rank: seq<nat>, newRank: seq<nat>, semantics: Semantics, values: seq<int>, newValues: seq<int>,
                  clones: map<nat, nat>, newClones: map<nat, nat>, color: string, devices: nat, tree: seq<nat>, i: nat)
    requires i < |tree| && Cloned(before, nodes, rank, newRank, values, newValues, clones, newClones, color, devices, tree[..i])
    requires Means(nodes, newRank, semantics, newValues, newClones)
    requires OperandsReady(before, clones, tree, i) && tree[i] !in clones && Distinct(tree)
    ensures var source, size := tree[i], |nodes|;
            && source < |nodes| && source < |newRank| && source < |newValues|
            && Means(nodes + [Copy(nodes[source], newClones, color, devices)], newRank + [newRank[source]], semantics,
                     newValues + [newValues[source]], newClones[source := size])
            && Cloned(before, nodes + [Copy(nodes[source], newClones, color, devices)], rank, newRank + [newRank[source]], values,
                      newValues + [newValues[source]], clones, newClones[source := size], color, devices, tree[..i + 1])
  {
    var source := tree[i];
    assert source !in tree[..i];
    SourceIsReady(before, nodes, clones, newClones, tree, i);
    CloneMeans(nodes, newRank, semantics, newValues, newClones, source, color, devices);
    AddedStep(nodes, newClones, color, devices, |before|, source);
    ClonedElements(tree, i, clones, newClones, |nodes|, |before|, newClones[source := |nodes|]);
    ClonesStay(nodes, newClones, color, devices, tree, i);
  }

  lemma ClonesStay(nodes: seq<Node>, clones: map<nat, nat>, color: string, devices: nat, tree: seq<nat>, i: nat)
    requires i < |tree| && tree[i] < |nodes|
    requires forall x :: x in tree[..i] && x in clones ==> IsCloneOf(nodes, clones[x], x, devices)
    ensures var all, after := nodes + [Copy(nodes[tree[i]], clones, color, devices)], clones[tree[i] := |nodes|];
            forall x :: x in tree[..i + 1] && x in after ==> IsCloneOf(all, after[x], x, devices)
  {
    assert tree[..i + 1] == tree[..i] + [tree[i]];
  }

  /** What the next clone reads is cloned already, an input, or a slice offset. */
  lemma SourceIsReady(before: seq<Node>, nodes: seq<Node>, clones: map<nat, nat>, newClones: map<nat, nat>, tree: seq<nat>, i: nat)
    requires i < |tree| && before <= nodes && OperandsReady(before, clones, tree, i)
    requires newClones.Keys == clones.Keys + Elements(tree[..i])
    ensures tree[i] < |before| && nodes[tree[i]] == before[tree[i]]
    ensures forall o :: o in nodes[tree[i]].operands ==> o in newClones || (o < |nodes| && (nodes[o].isInput || nodes[o].op == SliceOffset))
  {
  }

  lemma ClonedElements(tree: seq<nat>, i: nat, clones: map<nat, nat>, newClones: map<nat, nat>, clone: nat, size: nat, after: map<nat, nat>)
    requires i < |tree| && after == newClones[tree[i] := clone]
    requires newClones.Keys == clones.Keys + Elements(tree[..i]) && tree[i] !in clones && tree[i] !in tree[..i]
    requires (forall s :: s in clones ==> newClones[s] == clones[s]) && clone >= size
    requires forall x :: x in tree[..i] && x in newClones ==> newClones[x] >= size
    ensures after.Keys == clones.Keys + Elements(tree[..i + 1]) && forall s :: s in clones ==> after[s] == clones[s]
    ensures forall x :: x in tree[..i + 1] && x in after ==> after[x] >= size
  {
    assert tree[..i + 1] == tree[..i] + [tree[i]];
    assert Elements(tree[..i + 1]) == Elements(tree[..i]) + {tree[i]};
  }

  /** Clone the tree, operands first. */
  method CloneTree(computation: HloComputation, tree: seq<nat>, color: string, devices: nat, clones: map<nat, nat>,
                   ghost rank: seq<nat>, ghost semantics: Semantics, ghost values: seq<int>)
    returns (newClones: map<nat, nat>, ghost newRank: seq<nat>, ghost newValues: seq<int>)
    requires Means(computation.nodes, rank, semantics, values, clones)
    requires Distinct(tree) && (forall x :: x in tree ==> x !in clones)
    requires forall i :: 0 <= i < |tree| ==> OperandsReady(computation.nodes, clones, tree, i)
    modifies computation
    ensures Means(computation.nodes, newRank, semantics, newValues, newClones)
    ensures Cloned(old(computation.nodes), computation.nodes, rank, newRank, values, newValues, clones, newClones, color, devices, tree)
  {
    newClones, newRank, newValues := clones, rank, values;
    ghost var before := computation.nodes;
    for i := 0 to |tree|
      invariant Means(computation.nodes, newRank, semantics, newValues, newClones)
      invariant Cloned(before, computation.nodes, rank, newRank, values, newValues, clones, newClones, color, devices, tree[..i])
    {
      var source := tree[i];
      assert source in tree;
      CloneStep(before, computation.nodes, rank, newRank, semantics, values, newValues, clones, newClones, color, devices, tree, i);
      var clone := computation.AddInstruction(Copy(computation.nodes[source], newClones, color, devices));
      newRank, newValues := newRank + [newRank[source]], newValues + [newValues[source]];
      newClones := newClones[source := clone];
    }
    assert tree[..|tree|] == tree;
  }

  function FirstIndex(s: seq<nat>, x: nat): (k: nat)
    requires x in s
    ensures k < |s| && s[k] == x && x !in s[..k]
  {
    if s[0] == x then 0
    else
      assert s == [s[0]] + s[1..];
      var k := FirstIndex(s[1..], x);
      assert s[..k + 1] == [s[0]] + s[1..][..k];
      k + 1
  }

  // ---- one operand ----

  /** The consumer reads a new clone of the operand; the other old instructions are unchanged; what was added needs arguments only. */
  ghost predicate IsRecomputed(before: seq<Node>, nodes: seq<Node>, consumer: nat, operand: nat, clones: map<nat, nat>, color: string, devices: nat) {
    && consumer < |before| <= |nodes| && operand in before[consumer].operands
    && operand in clones && clones[operand] >= |before|
    && nodes[..|before|] == WithOperand(before, consumer, FirstIndex(before[consumer].operands, operand), clones[operand])
    && Added(nodes, clones, color, devices, |before|)
  }

  lemma Redirect(before: seq<Node>, nodes: seq<Node>, rank: seq<nat>, newRank: seq<nat>, semantics: Semantics, values: seq<int>, newValues: seq<int>,
                 clones: map<nat, nat>, newClones: map<nat, nat>, color: string, devices: nat, tree: seq<nat>, consumer: nat, operand: nat)
    requires IsGraph(before, rank) && Cloned(before, nodes, rank, newRank, values, newValues, clones, newClones, color, devices, tree)
    requires Means(nodes, newRank, semantics, newValues, newClones)
    requires consumer < |before| && operand in before[consumer].operands && operand in tree && operand < |before|
    ensures consumer < |nodes| && operand in nodes[consumer].operands && operand in newClones
    ensures var after := WithOperand(nodes, consumer, FirstIndex(nodes[consumer].operands, operand), newClones[operand]);
            Means(after, newRank, semantics, newValues, newClones) && IsRecomputed(before, after, consumer, operand, newClones, color, devices)
  {
    var k := FirstIndex(nodes[consumer].operands, operand);
    assert nodes[consumer] == before[consumer];
    assert IsNode(before, rank, consumer);
    assert newRank[newClones[operand]] <= newRank[operand] == rank[operand] < rank[consumer] == newRank[consumer];
    ReplaceMeans(nodes, newRank, semantics, newValues, newClones, consumer, k, newClones[operand]);
    RedirectIsRecomputed(before, nodes, newClones, color, devices, consumer, operand);
  }

  lemma RedirectIsRecomputed(before: seq<Node>, nodes: seq<Node>, clones: map<nat, nat>, color: string, devices: nat, consumer: nat, operand: nat)
    requires before <= nodes && consumer < |before| && operand in before[consumer].operands
    requires operand in clones && clones[operand] >= |before| && Added(nodes, clones, color, devices, |before|)
    ensures IsRecomputed(before, WithOperand(nodes, consumer, FirstIndex(before[consumer].operands, operand), clones[operand]),
                         consumer, operand, clones, color, devices)
  {
    var k := FirstIndex(before[consumer].operands, operand);
    ReplaceAdded(nodes, clones, color, devices, |before|, consumer, k, clones[operand]);
    assert WithOperand(nodes, consumer, k, clones[operand])[..|before|] == WithOperand(before, consumer, k, clones[operand]);
  }

  /**
   * Recomputes an operand beside its consumer exactly when everything it needs may be recomputed
   * within the cost limit. Every instruction keeps its value; the consumer reads a clone that is
   * computed from arguments alone. Otherwise nothing changes.
   */
  method MaybeRecomputeOperandFromArguments(computation: HloComputation, color: string, consumer: nat, operand: nat, devices: nat, cutoff: int,
                                            clones: map<nat, nat>, ghost rank: seq<nat>, ghost semantics: Semantics, ghost values: seq<int>)
    returns (changed: bool, newClones: map<nat, nat>, ghost newRank: seq<nat>, ghost newValues: seq<int>)
    requires Means(computation.nodes, rank, semantics, values, clones)
    requires consumer < |computation.nodes| && operand in computation.nodes[consumer].operands
    requires operand < |computation.nodes| && computation.nodes[operand].op != SliceOffset
    modifies computation
    ensures changed <==> !Have(old(computation.nodes), clones, operand) && IsAffordable(old(computation.nodes), clones, consumer, operand, cutoff)
    ensures !changed ==> computation.nodes == old(computation.nodes) && newClones == clones && newRank == rank && newValues == values
    ensures Means(computation.nodes, newRank, semantics, newValues, newClones)
    ensures rank <= newRank && values <= newValues && forall s :: s in clones ==> s in newClones && newClones[s] == clones[s]
    ensures changed ==> IsRecomputed(old(computation.nodes), computation.nodes, consumer, operand, newClones, color, devices)
  {
    changed, newClones, newRank, newValues := false, clones, rank, values;
    if Have(computation.nodes, clones, operand) {
      return;
    }
    var ok, tree := FindTree(computation.nodes, rank, clones, consumer, operand, cutoff);
    if !ok {
      return;
    }
    ghost var before := computation.nodes;
    newClones, newRank, newValues := CloneTree(computation, tree, color, devices, clones, rank, semantics, values);
    Redirect(before, computation.nodes, rank, newRank, semantics, values, newValues, clones, newClones, color, devices, tree, consumer, operand);
    var k := FirstIndex(computation.nodes[consumer].operands, operand);
    computation.ReplaceOperandWith(consumer, k, newClones[operand]);
    changed := true;
  }
}
