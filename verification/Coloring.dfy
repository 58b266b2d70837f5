/** Spreading the colors of annotated instructions until nothing more can be colored. */
module Coloring {
  import opened Wrappers
  import opened ColorVote

  datatype Kind = Tuple | While(body: nat) | Broadcast | Other

  /**
   * `related` lists the operands and then the users, seen through aliases; `visited` is the pass's
   * filter; `home` is the computation in which depth and topological index are measured.
   */
  datatype Node = Node(kind: Kind, operands: seq<nat>, related: seq<nat>, aliases: seq<nat>, visited: bool,
                       size: nat, home: nat, depth: nat, topological: nat)

  /** Each computation is a post-order list of instructions. */
  datatype Graph = Graph(nodes: seq<Node>, computations: seq<seq<nat>>)

  type Colors = seq<Option<string>>

  ghost predicate InRange(s: seq<nat>, n: nat) {
    forall x :: x in s ==> x < n
  }

  ghost predicate IsNode(graph: Graph, node: Node) {
    && InRange(node.operands, |graph.nodes|) && InRange(node.related, |graph.nodes|) && InRange(node.aliases, |graph.nodes|)
    && (node.kind == Broadcast ==> node.operands != [] && node.operands[0] < |graph.nodes| && graph.nodes[node.operands[0]].kind != Tuple)
    && (node.visited ==> node.kind != Tuple)
  }

  /** Filters skip tuples, broadcasts read arrays, and the body of a loop is a smaller computation. */
  ghost predicate IsGraph(graph: Graph) {
    && (forall n :: 0 <= n < |graph.nodes| ==> IsNode(graph, graph.nodes[n]))
    && (forall c :: 0 <= c < |graph.computations| ==> InRange(graph.computations[c], |graph.nodes|))
    && (forall c, n :: 0 <= c < |graph.computations| && n in graph.computations[c] && n < |graph.nodes| && graph.nodes[n].kind.While? ==>
          graph.nodes[n].kind.body < c)
  }

  // ---- the votes around an instruction ----

  function Distance(a: nat, b: nat): nat {
    if a < b then b - a else a - b
  }

  function DepthIn(node: Node, computation: nat): nat {
    if node.home == computation then node.depth else LIMIT
  }

  function TopologicalIn(node: Node, computation: nat): nat {
    if node.home == computation then node.topological else LIMIT
  }

  /** A broadcast speaks for its operand, which is smaller. */
  function Speaker(graph: Graph, x: nat): (y: nat)
    requires x < |graph.nodes|
  {
    if graph.nodes[x].kind == Broadcast && graph.nodes[x].operands != [] then graph.nodes[x].operands[0] else x
  }

  /** The votes of the first `k` related instructions. */
  function VotesOf(graph: Graph, colors: Colors, computation: nat, n: nat, k: nat): seq<Vote>
    requires |colors| == |graph.nodes| && n < |graph.nodes| && k <= |graph.nodes[n].related|
  {
    if k == 0 then []
    else
      var before := VotesOf(graph, colors, computation, n, k - 1);
      var x := graph.nodes[n].related[k - 1];
      if x >= |graph.nodes| || !graph.nodes[x].visited then before
      else
        var y := Speaker(graph, x);
        if y >= |graph.nodes| || colors[y] == None then before
        else
          before + [Vote(colors[y].value, graph.nodes[y].size,
                         Distance(DepthIn(graph.nodes[y], computation), DepthIn(graph.nodes[n], computation)),
                         Distance(TopologicalIn(graph.nodes[y], computation), TopologicalIn(graph.nodes[n], computation)))]
  }

  ghost function Votes(graph: Graph, colors: Colors, computation: nat, n: nat): seq<Vote>
    requires |colors| == |graph.nodes| && n < |graph.nodes|
  {
    VotesOf(graph, colors, computation, n, |graph.nodes[n].related|)
  }

  // ---- what the votes add up to ----

  /** A visited neighbour speaks for this color: it has the color, or it is a broadcast whose operand has. */
  ghost predicate Speaks(graph: Graph, colors: Colors, x: nat, y: nat, color: string) {
    && x < |graph.nodes| == |colors| && graph.nodes[x].visited && y < |colors| && colors[y] == Some(color)
    && if graph.nodes[x].kind == Broadcast && graph.nodes[x].operands != [] then y == graph.nodes[x].operands[0] else y == x
  }

  /** The summed sizes of those in the list that speak for the color, or of their operands. */
  ghost function SizeFor(graph: Graph, colors: Colors, list: seq<nat>, color: string): nat
    requires |colors| == |graph.nodes|
  {
    if list == [] then 0
    else
      var x := list[|list| - 1];
      SizeFor(graph, colors, list[..|list| - 1], color) +
      if x < |graph.nodes| && Speaks(graph, colors, x, Speaker(graph, x), color) then graph.nodes[Speaker(graph, x)].size else 0
  }

  /** How far apart two numbers are. */
  ghost predicate IsGap(a: nat, b: nat, d: nat) {
    a + d == b || b + d == a
  }

  /** How far apart two instructions are in depth; an instruction of another computation has the limit as its depth. */
  ghost predicate IsDepthBetween(graph: Graph, computation: nat, y: nat, n: nat, d: nat) {
    && y < |graph.nodes| && n < |graph.nodes|
    && var own, other := graph.nodes[y].home == computation, graph.nodes[n].home == computation;
       && (own && other ==> IsGap(graph.nodes[y].depth, graph.nodes[n].depth, d))
       && (own && !other ==> IsGap(graph.nodes[y].depth, LIMIT, d))
       && (!own && other ==> IsGap(LIMIT, graph.nodes[n].depth, d))
       && (!own && !other ==> d == 0)
  }

  /** The same for topological indices. */
  ghost predicate IsOrderBetween(graph: Graph, computation: nat, y: nat, n: nat, d: nat) {
    && y < |graph.nodes| && n < |graph.nodes|
    && var own, other := graph.nodes[y].home == computation, graph.nodes[n].home == computation;
       && (own && other ==> IsGap(graph.nodes[y].topological, graph.nodes[n].topological, d))
       && (own && !other ==> IsGap(graph.nodes[y].topological, LIMIT, d))
       && (!own && other ==> IsGap(LIMIT, graph.nodes[n].topological, d))
       && (!own && !other ==> d == 0)
  }

  /** Nothing in the list that speaks for the color is nearer than the score says. */
  ghost predicate NoneNearer(graph: Graph, colors: Colors, computation: nat, n: nat, list: seq<nat>, color: string, score: Score) {
    forall x, y, d: nat :: x in list && Speaks(graph, colors, x, y, color) ==>
      && (IsDepthBetween(graph, computation, y, n, d) ==> score.depth <= d)
      && (IsOrderBetween(graph, computation, y, n, d) ==> score.topological <= d)
  }

  /** The least distances are those of some in the list that speak for the color, or the limit. */
  ghost predicate IsAttained(graph: Graph, colors: Colors, computation: nat, n: nat, list: seq<nat>, color: string, score: Score) {
    && (score.depth == LIMIT ||
        exists x, y :: x in list && Speaks(graph, colors, x, y, color) && IsDepthBetween(graph, computation, y, n, score.depth))
    && (score.topological == LIMIT ||
        exists x, y :: x in list && Speaks(graph, colors, x, y, color) && IsOrderBetween(graph, computation, y, n, score.topological))
  }

  ghost predicate HasSpeaker(graph: Graph, colors: Colors, list: seq<nat>, color: string) {
    exists x, y :: x in list && Speaks(graph, colors, x, y, color)
  }

  /** The prefix of the related instructions with one more. */
  lemma OneMoreRelated(graph: Graph, n: nat, k: nat)
    requires n < |graph.nodes| && k < |graph.nodes[n].related|
    ensures graph.nodes[n].related[..k + 1] == graph.nodes[n].related[..k] + [graph.nodes[n].related[k]]
    ensures graph.nodes[n].related[..k + 1][..k] == graph.nodes[n].related[..k]
  {
  }

  /** What one related instruction adds to the totals of a color. */
  lemma ScoreStep(graph: Graph, colors: Colors, computation: nat, n: nat, k: nat, color: string)
    requires |colors| == |graph.nodes| && n < |graph.nodes| && k < |graph.nodes[n].related|
    ensures var x := graph.nodes[n].related[k];
            var before, after := VotesOf(graph, colors, computation, n, k), VotesOf(graph, colors, computation, n, k + 1);
            if x < |graph.nodes| && Speaks(graph, colors, x, Speaker(graph, x), color) then
              var y := Speaker(graph, x);
              && Voted(after, color)
              && ScoreOf(after, color) == Score(ScoreOf(before, color).weight + graph.nodes[y].size,
                   Min(ScoreOf(before, color).depth, Distance(DepthIn(graph.nodes[y], computation), DepthIn(graph.nodes[n], computation))),
                   Min(ScoreOf(before, color).topological, Distance(TopologicalIn(graph.nodes[y], computation), TopologicalIn(graph.nodes[n], computation))))
            else ScoreOf(after, color) == ScoreOf(before, color) && (Voted(after, color) <==> Voted(before, color))
  {
    var before, after := VotesOf(graph, colors, computation, n, k), VotesOf(graph, colors, computation, n, k + 1);
    if |after| > |before| {
      assert after[..|before|] == before;
      VotedStep(after, |before|, color);
      assert after[..|before| + 1] == after;
    }
  }

  /** A color has votes exactly when a visited neighbour speaks for it. */
  lemma {:induction false} VotedIff(graph: Graph, colors: Colors, computation: nat, n: nat, k: nat, color: string)
    requires |colors| == |graph.nodes| && n < |graph.nodes| && k <= |graph.nodes[n].related|
    ensures Voted(VotesOf(graph, colors, computation, n, k), color) <==> HasSpeaker(graph, colors, graph.nodes[n].related[..k], color)
  {
    if k > 0 {
      VotedIff(graph, colors, computation, n, k - 1, color);
      OneMoreRelated(graph, n, k - 1);
      ScoreStep(graph, colors, computation, n, k - 1, color);
      SpeakerStep(graph, colors, graph.nodes[n].related[..k - 1], graph.nodes[n].related[k - 1], color);
    }
  }

  lemma SpeakerStep(graph: Graph, colors: Colors, list: seq<nat>, x: nat, color: string)
    ensures HasSpeaker(graph, colors, list + [x], color) <==>
            HasSpeaker(graph, colors, list, color) || (x < |graph.nodes| && Speaks(graph, colors, x, Speaker(graph, x), color))
  {
    assert forall z :: z in list + [x] <==> z in list || z == x;
    if x < |graph.nodes| && Speaks(graph, colors, x, Speaker(graph, x), color) {
      assert x in list + [x];
    }
    if HasSpeaker(graph, colors, list, color) {
      var z, y :| z in list && Speaks(graph, colors, z, y, color);
      assert z in list + [x];
    }
  }

  /** The weight of a color is the total size of those who speak for it. */
  lemma {:induction false} WeightIsSize(graph: Graph, colors: Colors, computation: nat, n: nat, k: nat, color: string)
    requires |colors| == |graph.nodes| && n < |graph.nodes| && k <= |graph.nodes[n].related|
    ensures ScoreOf(VotesOf(graph, colors, computation, n, k), color).weight == SizeFor(graph, colors, graph.nodes[n].related[..k], color)
  {
    if k > 0 {
      WeightIsSize(graph, colors, computation, n, k - 1, color);
      OneMoreRelated(graph, n, k - 1);
      ScoreStep(graph, colors, computation, n, k - 1, color);
    }
  }

  /** The distances of a color are the least ones to those who speak for it. */
  lemma {:induction false} DistancesAreLeast(graph: Graph, colors: Colors, computation: nat, n: nat, k: nat, color: string)
    requires |colors| == |graph.nodes| && n < |graph.nodes| && k <= |graph.nodes[n].related|
    ensures var score := ScoreOf(VotesOf(graph, colors, computation, n, k), color);
            && NoneNearer(graph, colors, computation, n, graph.nodes[n].related[..k], color, score)
            && IsAttained(graph, colors, computation, n, graph.nodes[n].related[..k], color, score)
  {
    if k > 0 {
      var before := ScoreOf(VotesOf(graph, colors, computation, n, k - 1), color);
      var after := ScoreOf(VotesOf(graph, colors, computation, n, k), color);
      DistancesAreLeast(graph, colors, computation, n, k - 1, color);
      OneMoreRelated(graph, n, k - 1);
      ScoreStep(graph, colors, computation, n, k - 1, color);
      NearerStep(graph, colors, computation, n, graph.nodes[n].related[..k - 1], graph.nodes[n].related[k - 1], color, before, after);
      AttainedStep(graph, colors, computation, n, graph.nodes[n].related[..k - 1], graph.nodes[n].related[k - 1], color, before, after);
    }
  }

  /** The least distances when one more related instruction is counted. */
  ghost predicate Lowers(graph: Graph, colors: Colors, computation: nat, n: nat, x: nat, color: string, before: Score, after: Score)
    requires |colors| == |graph.nodes| && n < |graph.nodes|
  {
    if x < |graph.nodes| && Speaks(graph, colors, x, Speaker(graph, x), color) then
      var y := Speaker(graph, x);
      && after.depth == Min(before.depth, Distance(DepthIn(graph.nodes[y], computation), DepthIn(graph.nodes[n], computation)))
      && after.topological == Min(before.topological, Distance(TopologicalIn(graph.nodes[y], computation), TopologicalIn(graph.nodes[n], computation)))
    else after == before
  }

  lemma NearerStep(graph: Graph, colors: Colors, computation: nat, n: nat, list: seq<nat>, x: nat, color: string, before: Score, after: Score)
    requires |colors| == |graph.nodes| && n < |graph.nodes| && Lowers(graph, colors, computation, n, x, color, before, after)
    requires NoneNearer(graph, colors, computation, n, list, color, before)
    ensures NoneNearer(graph, colors, computation, n, list + [x], color, after)
  {
    assert forall z :: z in list + [x] <==> z in list || z == x;
  }

  lemma AttainedStep(graph: Graph, colors: Colors, computation: nat, n: nat, list: seq<nat>, x: nat, color: string, before: Score, after: Score)
    requires |colors| == |graph.nodes| && n < |graph.nodes| && Lowers(graph, colors, computation, n, x, color, before, after)
    requires IsAttained(graph, colors, computation, n, list, color, before)
    ensures IsAttained(graph, colors, computation, n, list + [x], color, after)
  {
    assert forall z :: z in list + [x] <==> z in list || z == x;
    if x < |graph.nodes| && Speaks(graph, colors, x, Speaker(graph, x), color) {
      var y := Speaker(graph, x);
      assert IsDepthBetween(graph, computation, y, n, Distance(DepthIn(graph.nodes[y], computation), DepthIn(graph.nodes[n], computation)));
      assert IsOrderBetween(graph, computation, y, n, Distance(TopologicalIn(graph.nodes[y], computation), TopologicalIn(graph.nodes[n], computation)));
    }
  }

  // ---- what the passes keep ----

  /** Instructions other than tuples keep the color they have. */
  ghost predicate Keeps(graph: Graph, a: Colors, b: Colors) {
    && |a| == |b| == |graph.nodes|
    && forall n :: 0 <= n < |a| && graph.nodes[n].kind != Tuple && a[n].Some? ==> b[n] == a[n]
  }

  /** Only tuples changed. */
  ghost predicate SameOutsideTuples(graph: Graph, a: Colors, b: Colors) {
    && |a| == |b| == |graph.nodes|
    && forall n :: 0 <= n < |a| && graph.nodes[n].kind != Tuple ==> b[n] == a[n]
  }

  /** No color appears that was nowhere before. */
  ghost predicate NoNewColor(a: Colors, b: Colors) {
    forall c :: Some(c) in b ==> Some(c) in a
  }

  ghost function Uncolored(graph: Graph, colors: Colors, n: nat): nat
    requires n <= |graph.nodes| == |colors|
  {
    if n == 0 then 0
    else Uncolored(graph, colors, n - 1) + if graph.nodes[n - 1].kind != Tuple && colors[n - 1] == None then 1 else 0
  }

  lemma {:induction false} UncoloredShrinks(graph: Graph, a: Colors, b: Colors, n: nat)
    requires Keeps(graph, a, b) && n <= |a|
    ensures Uncolored(graph, b, n) <= Uncolored(graph, a, n)
    ensures (exists m :: 0 <= m < n && graph.nodes[m].kind != Tuple && a[m] == None && b[m].Some?) ==>
              (Uncolored(graph, b, n) < Uncolored(graph, a, n))
  {
    if n > 0 {
      UncoloredShrinks(graph, a, b, n - 1);
    }
  }

  lemma {:induction false} UncoloredSame(graph: Graph, a: Colors, b: Colors, n: nat)
    requires SameOutsideTuples(graph, a, b) && n <= |a|
    ensures Uncolored(graph, b, n) == Uncolored(graph, a, n)
  {
    if n > 0 {
      UncoloredSame(graph, a, b, n - 1);
    }
  }

  /** Progress of a pass: colors were only added, and whether any was. */
  ghost predicate Progress(graph: Graph, a: Colors, b: Colors, changed: bool) {
    && Keeps(graph, a, b) && NoNewColor(a, b)
    && if changed then Uncolored(graph, b, |graph.nodes|) < Uncolored(graph, a, |graph.nodes|) else SameOutsideTuples(graph, a, b)
  }

  lemma ProgressTrans(graph: Graph, a: Colors, b: Colors, c: Colors, p: bool, q: bool)
    requires Progress(graph, a, b, p) && Progress(graph, b, c, q)
    ensures Progress(graph, a, c, p || q)
  {
    UncoloredShrinks(graph, a, b, |a|);
    UncoloredShrinks(graph, b, c, |a|);
  }

  // ---- the fixpoint ----

  /** An instruction that is still uncolored has no colored neighbour, and a loop's body is at its fixpoint. */
  ghost predicate IsSettled(graph: Graph, colors: Colors, computation: nat, n: nat)
    requires |colors| == |graph.nodes|
    decreases computation, 0
  {
    n < |graph.nodes| ==>
      && (graph.nodes[n].kind != Tuple && graph.nodes[n].visited && colors[n] == None ==> Votes(graph, colors, computation, n) == [])
      && (graph.nodes[n].kind.While? && graph.nodes[n].kind.body < computation ==> IsFixpoint(graph, colors, graph.nodes[n].kind.body))
  }

  ghost predicate IsFixpoint(graph: Graph, colors: Colors, computation: nat)
    requires |colors| == |graph.nodes|
    decreases computation, 1
  {
    computation < |graph.computations| ==>
      forall k :: 0 <= k < |graph.computations[computation]| ==> IsSettled(graph, colors, computation, graph.computations[computation][k])
  }

  /** Votes come from instructions other than tuples. */
  lemma {:induction false} VotesSame(graph: Graph, a: Colors, b: Colors, computation: nat, n: nat, k: nat)
    requires IsGraph(graph) && SameOutsideTuples(graph, a, b) && n < |graph.nodes| && k <= |graph.nodes[n].related|
    ensures VotesOf(graph, a, computation, n, k) == VotesOf(graph, b, computation, n, k)
  {
    if k > 0 {
      VotesSame(graph, a, b, computation, n, k - 1);
      var x := graph.nodes[n].related[k - 1];
      if x < |graph.nodes| && graph.nodes[x].visited {
        assert IsNode(graph, graph.nodes[x]);
      }
    }
  }

  lemma {:induction false} SettledSame(graph: Graph, a: Colors, b: Colors, computation: nat, n: nat)
    requires IsGraph(graph) && SameOutsideTuples(graph, a, b)
    ensures IsSettled(graph, a, computation, n) ==> IsSettled(graph, b, computation, n)
    decreases computation, 0
  {
    if n < |graph.nodes| {
      VotesSame(graph, a, b, computation, n, |graph.nodes[n].related|);
      if graph.nodes[n].kind.While? && graph.nodes[n].kind.body < computation {
        FixpointSame(graph, a, b, graph.nodes[n].kind.body);
      }
    }
  }

  lemma {:induction false} FixpointSame(graph: Graph, a: Colors, b: Colors, computation: nat)
    requires IsGraph(graph) && SameOutsideTuples(graph, a, b)
    ensures IsFixpoint(graph, a, computation) ==> IsFixpoint(graph, b, computation)
    decreases computation, 1
  {
    if computation < |graph.computations| && IsFixpoint(graph, a, computation) {
      forall k | 0 <= k < |graph.computations[computation]|
        ensures IsSettled(graph, b, computation, graph.computations[computation][k])
      {
        SettledSame(graph, a, b, computation, graph.computations[computation][k]);
      }
    }
  }

  /** The first `k` instructions of the list are settled. */
  ghost predicate AllSettled(graph: Graph, colors: Colors, computation: nat, list: seq<nat>, k: nat)
    requires |colors| == |graph.nodes| && k <= |list|
  {
    k > 0 ==> AllSettled(graph, colors, computation, list, k - 1) && IsSettled(graph, colors, computation, list[k - 1])
  }

  lemma {:induction false} AllSettledSame(graph: Graph, a: Colors, b: Colors, computation: nat, list: seq<nat>, k: nat)
    requires IsGraph(graph) && |a| == |b| == |graph.nodes| && k <= |list|
    ensures SameOutsideTuples(graph, a, b) && AllSettled(graph, a, computation, list, k) ==> AllSettled(graph, b, computation, list, k)
  {
    if k > 0 && SameOutsideTuples(graph, a, b) && AllSettled(graph, a, computation, list, k) {
      AllSettledSame(graph, a, b, computation, list, k - 1);
      SettledSame(graph, a, b, computation, list[k - 1]);
    }
  }

  lemma {:induction false} AllSettledAt(graph: Graph, colors: Colors, computation: nat, list: seq<nat>, k: nat)
    requires |colors| == |graph.nodes| && k <= |list| && AllSettled(graph, colors, computation, list, k)
    ensures forall j :: 0 <= j < k ==> IsSettled(graph, colors, computation, list[j])
  {
    if k > 0 {
      AllSettledAt(graph, colors, computation, list, k - 1);
    }
  }

  /** All operands have this color. */
  ghost predicate IsUniform(graph: Graph, colors: Colors, n: nat, color: string)
    requires |colors| == |graph.nodes| && n < |graph.nodes|
  {
    graph.nodes[n].operands != [] && forall x :: x in graph.nodes[n].operands ==> x < |colors| && colors[x] == Some(color)
  }

  // ---- one step, one pass, one run ----

  /** An instruction and its uncolored aliases get a color; nothing else changes. */
  ghost predicate Paints(graph: Graph, a: Colors, b: Colors, n: nat, color: string)
    requires n < |graph.nodes|
  {
    && |a| == |b| == |graph.nodes|
    && forall i :: 0 <= i < |a| ==> b[i] == if i == n || (i in graph.nodes[n].aliases && a[i] == None) then Some(color) else a[i]
  }

  /** The color with the best votes around an instruction. */
  ghost predicate Wins(graph: Graph, priority: Priority, colors: Colors, computation: nat, n: nat, color: string)
    requires |colors| == |graph.nodes| && n < |graph.nodes|
  {
    var votes := Votes(graph, colors, computation, n);
    votes != [] && color == Leader(priority, votes).0 && IsBest(priority, votes, color)
  }

  ghost predicate VoteStep(graph: Graph, priority: Priority, computation: nat, n: nat, a: Colors, b: Colors, painted: bool)
    requires |a| == |graph.nodes| && n < |graph.nodes|
  {
    if painted then exists color :: Wins(graph, priority, a, computation, n, color) && Paints(graph, a, b, n, color)
    else b == a && Votes(graph, a, computation, n) == []
  }

  ghost predicate TupleStep(graph: Graph, n: nat, a: Colors, b: Colors)
    requires |a| == |graph.nodes| && n < |graph.nodes|
  {
    && graph.nodes[n].kind == Tuple
    && ((exists color :: IsUniform(graph, a, n, color) && b == a[n := Some(color)])
        || (b == a && forall color :: !IsUniform(graph, a, n, color)))
  }

  /** The visit of one instruction: a tuple looks at its operands, others vote if they may, and a loop runs its body. */
  ghost predicate VisitRuns(graph: Graph, priority: Priority, computation: nat, n: nat, a: Colors, b: Colors, changed: bool)
    decreases computation, 1
  {
    && |a| == |graph.nodes| && n < |graph.nodes|
    && if graph.nodes[n].kind == Tuple then TupleStep(graph, n, a, b) && !changed
       else exists mid, voted, ran :: VisitParts(graph, priority, computation, n, a, mid, b, voted, ran) && changed == (voted || ran)
  }

  ghost predicate VisitParts(graph: Graph, priority: Priority, computation: nat, n: nat, a: Colors, mid: Colors, b: Colors, voted: bool, ran: bool)
    requires |a| == |graph.nodes| && n < |graph.nodes|
    decreases computation, 0
  {
    && (if graph.nodes[n].visited && a[n] == None then VoteStep(graph, priority, computation, n, a, mid, voted) else mid == a && !voted)
    && (if graph.nodes[n].kind.While? && graph.nodes[n].kind.body < computation then Runs(graph, priority, graph.nodes[n].kind.body, mid, b, ran)
        else b == mid && !ran)
  }

  /** A pass visits the instructions in their order. */
  ghost predicate PassRuns(graph: Graph, priority: Priority, computation: nat, list: seq<nat>, a: Colors, b: Colors, changed: bool)
    decreases computation, 2, |list|
  {
    if list == [] then b == a && !changed
    else
      var n := |list| - 1;
      exists mid, before, now ::
        && PassRuns(graph, priority, computation, list[..n], a, mid, before)
        && VisitRuns(graph, priority, computation, list[n], mid, b, now) && changed == (before || now)
  }

  /** `count` passes, each of which colored something. */
  ghost predicate PassesRun(graph: Graph, priority: Priority, computation: nat, list: seq<nat>, a: Colors, b: Colors, count: nat)
    decreases computation, 3, count
  {
    if count == 0 then b == a
    else exists mid :: PassesRun(graph, priority, computation, list, a, mid, count - 1) && PassRuns(graph, priority, computation, list, mid, b, true)
  }

  /** A run repeats the pass until it colors nothing. */
  ghost predicate Runs(graph: Graph, priority: Priority, computation: nat, a: Colors, b: Colors, changed: bool)
    decreases computation, 4
  {
    computation < |graph.computations| &&
    exists mid, count: nat ::
      && PassesRun(graph, priority, computation, graph.computations[computation], a, mid, count)
      && PassRuns(graph, priority, computation, graph.computations[computation], mid, b, false) && changed == (count > 0)
  }

  lemma PassNext(graph: Graph, priority: Priority, computation: nat, list: seq<nat>, k: nat, a: Colors, mid: Colors, b: Colors, before: bool, now: bool)
    requires k < |list| && PassRuns(graph, priority, computation, list[..k], a, mid, before)
    requires VisitRuns(graph, priority, computation, list[k], mid, b, now)
    ensures PassRuns(graph, priority, computation, list[..k + 1], a, b, before || now)
  {
    assert list[..k + 1][..k] == list[..k];
  }

  // ---- where colors come from ----

  /** One instruction is painted, or one tuple follows its operands. */
  ghost predicate Step(graph: Graph, priority: Priority, a: Colors, b: Colors) {
    && |a| == |graph.nodes|
    && ((exists computation, n: nat :: n < |graph.nodes| && VoteStep(graph, priority, computation, n, a, b, true))
        || exists n: nat :: n < |graph.nodes| && TupleStep(graph, n, a, b))
  }

  ghost predicate IsTrace(graph: Graph, priority: Priority, trace: seq<Colors>, a: Colors, b: Colors) {
    && trace != [] && trace[0] == a && trace[|trace| - 1] == b
    && forall k :: 0 <= k < |trace| - 1 ==> Step(graph, priority, trace[k], trace[k + 1])
  }

  lemma TraceConcat(graph: Graph, priority: Priority, s: seq<Colors>, t: seq<Colors>, a: Colors, b: Colors, c: Colors)
    requires IsTrace(graph, priority, s, a, b) && IsTrace(graph, priority, t, b, c)
    ensures IsTrace(graph, priority, s + t[1..], a, c)
  {
    var trace := s + t[1..];
    forall k | 0 <= k < |trace| - 1 ensures Step(graph, priority, trace[k], trace[k + 1]) {
      if k < |s| - 1 {
        assert Step(graph, priority, s[k], s[k + 1]);
      } else {
        var j := k - (|s| - 1);
        assert trace[k] == t[j] && trace[k + 1] == t[j + 1];
        assert Step(graph, priority, t[j], t[j + 1]);
      }
    }
  }

  lemma {:induction false} VisitTrace(graph: Graph, priority: Priority, computation: nat, n: nat, a: Colors, b: Colors, changed: bool) returns (trace: seq<Colors>)
    requires VisitRuns(graph, priority, computation, n, a, b, changed)
    ensures IsTrace(graph, priority, trace, a, b)
    decreases computation, 0
  {
    if graph.nodes[n].kind == Tuple {
      trace := [a, b];
      assert Step(graph, priority, trace[0], trace[1]);
    } else {
      var mid, voted, ran :| VisitParts(graph, priority, computation, n, a, mid, b, voted, ran) && changed == (voted || ran);
      trace := if voted then [a, mid] else [a];
      assert voted ==> Step(graph, priority, a, mid);
      if graph.nodes[n].kind.While? && graph.nodes[n].kind.body < computation {
        var rest := RunTrace(graph, priority, graph.nodes[n].kind.body, mid, b, ran);
        TraceConcat(graph, priority, trace, rest, a, mid, b);
        trace := trace + rest[1..];
      }
    }
  }

  lemma {:induction false} PassTrace(graph: Graph, priority: Priority, computation: nat, list: seq<nat>, a: Colors, b: Colors, changed: bool) returns (trace: seq<Colors>)
    requires PassRuns(graph, priority, computation, list, a, b, changed)
    ensures IsTrace(graph, priority, trace, a, b)
    decreases computation, 1, |list|
  {
    trace := [a];
    if list != [] {
      var n := |list| - 1;
      var mid, before, now :| PassRuns(graph, priority, computation, list[..n], a, mid, before)
        && VisitRuns(graph, priority, computation, list[n], mid, b, now) && changed == (before || now);
      var first := PassTrace(graph, priority, computation, list[..n], a, mid, before);
      var rest := VisitTrace(graph, priority, computation, list[n], mid, b, now);
      TraceConcat(graph, priority, first, rest, a, mid, b);
      trace := first + rest[1..];
    }
  }

  lemma {:induction false} PassesTrace(graph: Graph, priority: Priority, computation: nat, list: seq<nat>, a: Colors, b: Colors, count: nat) returns (trace: seq<Colors>)
    requires PassesRun(graph, priority, computation, list, a, b, count)
    ensures IsTrace(graph, priority, trace, a, b)
    decreases computation, 2, count
  {
    trace := [a];
    if count > 0 {
      var mid :| PassesRun(graph, priority, computation, list, a, mid, count - 1) && PassRuns(graph, priority, computation, list, mid, b, true);
      var first := PassesTrace(graph, priority, computation, list, a, mid, count - 1);
      var rest := PassTrace(graph, priority, computation, list, mid, b, true);
      TraceConcat(graph, priority, first, rest, a, mid, b);
      trace := first + rest[1..];
    }
  }

  /** Every run is a sequence of single steps. */
  lemma {:induction false} RunTrace(graph: Graph, priority: Priority, computation: nat, a: Colors, b: Colors, changed: bool) returns (trace: seq<Colors>)
    requires Runs(graph, priority, computation, a, b, changed)
    ensures IsTrace(graph, priority, trace, a, b)
    decreases computation, 3
  {
    var list := graph.computations[computation];
    var mid, count: nat :| PassesRun(graph, priority, computation, list, a, mid, count)
      && PassRuns(graph, priority, computation, list, mid, b, false) && changed == (count > 0);
    var first := PassesTrace(graph, priority, computation, list, a, mid, count);
    var rest := PassTrace(graph, priority, computation, list, mid, b, false);
    TraceConcat(graph, priority, first, rest, a, mid, b);
    trace := first + rest[1..];
  }

  /** At this point of a run some instruction won the color for itself and its aliases, `i` among them. */
  ghost predicate WonAt(graph: Graph, priority: Priority, colors: Colors, i: nat, color: string) {
    |colors| == |graph.nodes| &&
    exists computation, n: nat :: n < |graph.nodes| && Wins(graph, priority, colors, computation, n, color) && (i == n || i in graph.nodes[n].aliases)
  }

  /** At this point of a run the operands of the tuple agreed on the color. */
  ghost predicate AgreedAt(graph: Graph, colors: Colors, i: nat, color: string) {
    |colors| == |graph.nodes| && i < |graph.nodes| && graph.nodes[i].kind == Tuple && IsUniform(graph, colors, i, color)
  }

  lemma StepExplains(graph: Graph, priority: Priority, a: Colors, b: Colors, i: nat, color: string)
    requires Step(graph, priority, a, b) && i < |a|
    ensures |b| == |a|
    ensures b[i] == Some(color) && a[i] != b[i] ==> WonAt(graph, priority, a, i, color) || AgreedAt(graph, a, i, color)
  {
    if exists computation, n: nat :: n < |graph.nodes| && VoteStep(graph, priority, computation, n, a, b, true) {
      var computation, n: nat :| n < |graph.nodes| && VoteStep(graph, priority, computation, n, a, b, true);
      var won :| Wins(graph, priority, a, computation, n, won) && Paints(graph, a, b, n, won);
    }
  }

  /** Every color that a run adds was won by a vote at some point of the run, by the instruction or by one that
      it is an alias of; a tuple may also have taken the common color of its operands. */
  lemma {:induction false} ColorsAreExplained(graph: Graph, priority: Priority, trace: seq<Colors>, a: Colors, b: Colors, i: nat, color: string) returns (k: nat)
    requires IsTrace(graph, priority, trace, a, b) && i < |a| == |graph.nodes|
    requires |b| == |a| ==> b[i] == Some(color) && a[i] != b[i]
    ensures k < |trace| && (WonAt(graph, priority, trace[k], i, color) || AgreedAt(graph, trace[k], i, color))
    decreases |trace|
  {
    if |trace| == 1 {
      assert false;
    } else {
      var last := |trace| - 2;
      var before := trace[..last + 1];
      assert Step(graph, priority, trace[last], trace[last + 1]);
      TraceKeepsLength(graph, priority, before, a, trace[last]);
      StepExplains(graph, priority, trace[last], b, i, color);
      if trace[last][i] == b[i] {
        k := ColorsAreExplained(graph, priority, before, a, trace[last], i, color);
      } else {
        k := last;
      }
    }
  }

  lemma {:induction false} TraceKeepsLength(graph: Graph, priority: Priority, trace: seq<Colors>, a: Colors, b: Colors)
    requires IsTrace(graph, priority, trace, a, b) && |a| == |graph.nodes|
    ensures |b| == |graph.nodes|
    decreases |trace|
  {
    if |trace| > 1 {
      assert Step(graph, priority, trace[|trace| - 2], b);
      StepKeepsLength(graph, priority, trace[|trace| - 2], b);
    }
  }

  lemma StepKeepsLength(graph: Graph, priority: Priority, a: Colors, b: Colors)
    requires Step(graph, priority, a, b)
    ensures |b| == |graph.nodes|
  {
  }

  class Propagation {
    const graph: Graph
    const priority: Priority
    var colors: Colors

    constructor (graph: Graph, priority: Priority, colors: Colors)
      requires IsGraph(graph) && |colors| == |graph.nodes|
      ensures this.graph == graph && this.priority == priority && this.colors == colors
    {
      this.graph, this.priority, this.colors := graph, priority, colors;
    }

    ghost predicate Valid()
      reads this
    {
      IsGraph(graph) && |colors| == |graph.nodes|
    }

    /** A tuple takes a color only when all its operands have it. */
    method ColorTuple(n: nat)
      requires Valid() && n < |graph.nodes| && graph.nodes[n].kind == Tuple
      modifies this`colors
      ensures Valid() && Progress(graph, old(colors), colors, false)
      ensures forall c :: IsUniform(graph, old(colors), n, c) ==> colors == old(colors)[n := Some(c)]
      ensures TupleStep(graph, n, old(colors), colors)
    {
      var uniform: Option<string> := None;
      var operands := graph.nodes[n].operands;
      assert IsNode(graph, graph.nodes[n]);
      for i := 0 to |operands|
        invariant uniform == None <==> i == 0
        invariant uniform.Some? ==> forall j :: 0 <= j < i ==> operands[j] < |colors| && colors[operands[j]] == uniform
        invariant colors == old(colors)
      {
        assert operands[i] in operands;
        var color := colors[operands[i]];
        if color == None || (uniform.Some? && uniform != color) {
          assert i > 0 ==> operands[0] in operands;
          return;
        }
        uniform := color;
      }
      if uniform.Some? {
        assert operands[0] in operands;
        assert IsUniform(graph, colors, n, uniform.value);
        colors := colors[n := uniform];
      }
    }

    method CollectVotes(computation: nat, n: nat) returns (votes: seq<Vote>)
      requires Valid() && n < |graph.nodes|
      ensures votes == Votes(graph, colors, computation, n)
    {
      votes := [];
      var related := graph.nodes[n].related;
      assert IsNode(graph, graph.nodes[n]);
      for k := 0 to |related|
        invariant votes == VotesOf(graph, colors, computation, n, k)
      {
        var x := related[k];
        assert x in related;
        if graph.nodes[x].visited {
          assert IsNode(graph, graph.nodes[x]);
          var y := Speaker(graph, x);
          assert graph.nodes[x].kind == Broadcast ==> y in graph.nodes[x].operands;
          if colors[y].Some? {
            votes := votes + [Vote(colors[y].value, graph.nodes[y].size,
                                   Distance(DepthIn(graph.nodes[y], computation), DepthIn(graph.nodes[n], computation)),
                                   Distance(TopologicalIn(graph.nodes[y], computation), TopologicalIn(graph.nodes[n], computation)))];
          }
        }
      }
    }

    /** Color an instruction and its uncolored aliases after the best of its neighbours. */
    method PropagateFromUsersAndOperands(computation: nat, n: nat) returns (propagated: bool)
      requires Valid() && n < |graph.nodes| && colors[n] == None && graph.nodes[n].kind != Tuple
      modifies this`colors
      ensures Valid() && Progress(graph, old(colors), colors, propagated)
      ensures propagated <==> Votes(graph, old(colors), computation, n) != []
      ensures propagated ==> colors[n].Some? && IsBest(priority, Votes(graph, old(colors), computation, n), colors[n].value)
      ensures VoteStep(graph, priority, computation, n, old(colors), colors, propagated)
    {
      var votes := CollectVotes(computation, n);
      var best := ChooseColor(priority, votes);
      if best == None {
        return false;
      }
      ghost var before := colors;
      BestIsKnown(graph, colors, computation, n, priority, best.value);
      colors := colors[n := best];
      var aliases := graph.nodes[n].aliases;
      assert IsNode(graph, graph.nodes[n]);
      for i := 0 to |aliases|
        invariant Valid() && Keeps(graph, before, colors) && NoNewColor(before, colors)
        invariant forall j :: 0 <= j < |colors| ==> colors[j] == if j == n || (j in aliases[..i] && before[j] == None) then best else before[j]
      {
        assert aliases[..i + 1] == aliases[..i] + [aliases[i]];
        assert aliases[i] in aliases;
        if colors[aliases[i]] == None {
          colors := colors[aliases[i] := best];
        }
      }
      assert aliases[..|aliases|] == aliases;
      assert Wins(graph, priority, before, computation, n, best.value) && Paints(graph, before, colors, n, best.value);
      UncoloredShrinks(graph, before, colors, |colors|);
      propagated := true;
    }

    /** One pass over the computation after another until none colors anything. */
    method PropagateIf(computation: nat) returns (changed: bool)
      requires Valid() && computation < |graph.computations|
      modifies this`colors
      ensures Valid() && Progress(graph, old(colors), colors, changed)
      ensures IsFixpoint(graph, colors, computation)
      ensures Runs(graph, priority, computation, old(colors), colors, changed)
      decreases computation
    {
      var postorder := graph.computations[computation];
      var propagated := true;
      changed := false;
      ghost var start, count := colors, 0;
      while propagated
        invariant Valid() && Progress(graph, start, colors, changed)
        invariant !propagated ==> IsFixpoint(graph, colors, computation)
        invariant propagated ==> PassesRun(graph, priority, computation, postorder, start, colors, count) && changed == (count > 0)
        invariant !propagated ==> Runs(graph, priority, computation, start, colors, changed)
        decreases Uncolored(graph, colors, |graph.nodes|), propagated
      {
        ghost var before := colors;
        propagated := false;
        for k := 0 to |postorder|
          invariant Valid() && Progress(graph, before, colors, propagated)
          invariant PassRuns(graph, priority, computation, postorder[..k], before, colors, propagated)
          invariant !propagated ==> AllSettled(graph, colors, computation, postorder, k)
        {
          ghost var was, wasPropagated := colors, propagated;
          var step := PropagateAt(computation, postorder[k]);
          PassNext(graph, priority, computation, postorder, k, before, was, colors, wasPropagated, step);
          ProgressTrans(graph, before, was, colors, wasPropagated, step);
          AllSettledSame(graph, was, colors, computation, postorder, k);
          propagated := propagated || step;
        }
        ProgressTrans(graph, start, before, colors, changed, propagated);
        if !propagated {
          UncoloredSame(graph, before, colors, |colors|);
          AllSettledAt(graph, colors, computation, postorder, |postorder|);
        }
        assert postorder[..|postorder|] == postorder;
        if propagated {
          count := count + 1;
        }
        changed := changed || propagated;
      }
    }

    /** The body of the pass for one instruction. */
    method PropagateAt(computation: nat, n: nat) returns (propagated: bool)
      requires Valid() && computation < |graph.computations| && n in graph.computations[computation]
      modifies this`colors
      ensures Valid() && Progress(graph, old(colors), colors, propagated)
      ensures !propagated ==> IsSettled(graph, colors, computation, n)
      ensures VisitRuns(graph, priority, computation, n, old(colors), colors, propagated)
      decreases computation, 0
    {
      propagated := false;
      if graph.nodes[n].kind == Tuple {
        ColorTuple(n);
        return;
      }
      if graph.nodes[n].visited && colors[n] == None {
        propagated := PropagateFromUsersAndOperands(computation, n);
      }
      ghost var mid, voted, ran := colors, propagated, false;
      if graph.nodes[n].kind.While? {
        ghost var was, wasPropagated := colors, propagated;
        var inner := PropagateIf(graph.nodes[n].kind.body);
        ProgressTrans(graph, old(colors), was, colors, wasPropagated, inner);
        propagated := propagated || inner;
        VotesUnchanged(graph, was, colors, computation, n, inner);
        ran := inner;
      }
      assert VisitParts(graph, priority, computation, n, old(colors), mid, colors, voted, ran);
    }
  }

  lemma VotesUnchanged(graph: Graph, a: Colors, b: Colors, computation: nat, n: nat, changed: bool)
    requires IsGraph(graph) && Progress(graph, a, b, changed) && n < |graph.nodes|
    ensures !changed ==> Votes(graph, a, computation, n) == Votes(graph, b, computation, n)
  {
    if !changed {
      VotesSame(graph, a, b, computation, n, |graph.nodes[n].related|);
    }
  }

  lemma {:induction false} VoteIsColor(graph: Graph, colors: Colors, computation: nat, n: nat, k: nat, i: nat)
    requires |colors| == |graph.nodes| && n < |graph.nodes| && k <= |graph.nodes[n].related|
    requires i < |VotesOf(graph, colors, computation, n, k)|
    ensures Some(VotesOf(graph, colors, computation, n, k)[i].color) in colors
  {
    if k > 0 && i < |VotesOf(graph, colors, computation, n, k - 1)| {
      VoteIsColor(graph, colors, computation, n, k - 1, i);
    }
  }

  lemma BestIsKnown(graph: Graph, colors: Colors, computation: nat, n: nat, priority: Priority, best: string)
    requires |colors| == |graph.nodes| && n < |graph.nodes| && IsBest(priority, Votes(graph, colors, computation, n), best)
    ensures Some(best) in colors
  {
    var votes := Votes(graph, colors, computation, n);
    var i :| 0 <= i < |votes| && votes[i].color == best;
    VoteIsColor(graph, colors, computation, n, |graph.nodes[n].related|, i);
  }
}
