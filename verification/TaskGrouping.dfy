/** Cutting a computation into tasks: runs of one color, each with the replicated instructions that it needs. */
module TaskGrouping {
  import opened Sequences
  import opened Wrappers

  /**
   * How an instruction is treated: always passed between tasks, computed by one task, recomputed in
   * every task that needs it, or kept outside the tasks.
   */
  datatype Kind = AlwaysOperand | Direct(color: string) | Replicated | Loop | RootRecolor | RootTuple

  /** `code` identifies what the instruction computes; `isRoot` marks what the computation returns. */
  datatype Node = Node(kind: Kind, code: int, operands: seq<nat>, isRoot: bool)

  predicate InTask(kind: Kind) {
    kind.Direct? || kind.Replicated?
  }

  /** Instructions are listed in post-order; those inside tasks read no loop and no root. */
  ghost predicate IsPostOrder(nodes: seq<Node>) {
    forall n :: 0 <= n < |nodes| ==> IsNode(nodes, n)
  }

  ghost predicate IsNode(nodes: seq<Node>, n: nat)
    requires n < |nodes|
  {
    && (forall o :: o in nodes[n].operands ==> o < n)
    && (InTask(nodes[n].kind) ==> forall o :: o in nodes[n].operands && o < n ==> InTask(nodes[o].kind) || nodes[o].kind == AlwaysOperand)
  }

  // ---- runs of one color ----

  /** Number of tasks so far, and the color that continues the last one. */
  datatype Scan = Scan(count: nat, last: Option<string>)

  function ScanTo(nodes: seq<Node>, n: nat): Scan
    requires n <= |nodes|
  {
    if n == 0 then Scan(0, None)
    else
      var before := ScanTo(nodes, n - 1);
      match nodes[n - 1].kind
      case Loop => Scan(before.count, None)
      case Direct(color) => if before.last == Some(color) then before else Scan(before.count + 1, Some(color))
      case _ => before
  }

  /** The task of a directly included instruction. */
  ghost function TaskOf(nodes: seq<Node>, n: nat): int
    requires n < |nodes|
  {
    ScanTo(nodes, n + 1).count - 1
  }

  lemma {:induction false} ScanMonotone(nodes: seq<Node>, m: nat, n: nat)
    requires m <= n <= |nodes|
    ensures ScanTo(nodes, m).count <= ScanTo(nodes, n).count
  {
    if m < n {
      ScanMonotone(nodes, m, n - 1);
    }
  }

  /** Between two instructions of this color the run is not interrupted. */
  ghost predicate Uninterrupted(nodes: seq<Node>, a: nat, b: nat, color: string)
    requires a <= b <= |nodes|
  {
    forall c :: a <= c < b ==> nodes[c].kind != Loop && (nodes[c].kind.Direct? ==> nodes[c].kind.color == color)
  }

  lemma {:induction false} ScanRun(nodes: seq<Node>, a: nat, b: nat, color: string)
    requires a < b <= |nodes| && nodes[a].kind == Direct(color)
    ensures Uninterrupted(nodes, a, b, color) <==> ScanTo(nodes, b) == Scan(ScanTo(nodes, a + 1).count, Some(color))
    ensures ScanTo(nodes, b).count == ScanTo(nodes, a + 1).count ==> ScanTo(nodes, b).last == Some(color) || ScanTo(nodes, b).last == None
  {
    if a + 1 < b {
      ScanRun(nodes, a, b - 1, color);
      ScanMonotone(nodes, a + 1, b - 1);
    }
  }

  /** Two instructions share a task exactly when no other color and no loop comes between them. */
  lemma SameTaskIff(nodes: seq<Node>, a: nat, b: nat)
    requires a < b < |nodes| && nodes[a].kind.Direct? && nodes[b].kind.Direct?
    ensures TaskOf(nodes, a) <= TaskOf(nodes, b)
    ensures TaskOf(nodes, a) == TaskOf(nodes, b) <==> Uninterrupted(nodes, a, b + 1, nodes[a].kind.color)
  {
    ScanMonotone(nodes, a + 1, b + 1);
    ScanMonotone(nodes, a + 1, b);
    ScanRun(nodes, a, b, nodes[a].kind.color);
    ScanRun(nodes, a, b + 1, nodes[a].kind.color);
  }

  // ---- the context of one task ----

  /** The instructions of a task in the order in which they are cloned, and its roots. */
  datatype BuildContext = BuildContext(color: string, dfs: seq<nat>, roots: seq<nat>)

  /** Listed once, with all replicated operands before their users. */
  ghost predicate IsListed(nodes: seq<Node>, dfs: seq<nat>) {
    && Distinct(dfs)
    && (forall i :: 0 <= i < |dfs| ==> dfs[i] < |nodes| && InTask(nodes[dfs[i]].kind))
    && (forall i :: 0 <= i < |dfs| ==> ReplicatedBefore(nodes, dfs[i], dfs[..i]))
  }

  ghost predicate ReplicatedBefore(nodes: seq<Node>, n: nat, dfs: seq<nat>) {
    n < |nodes| ==> forall o :: o in nodes[n].operands && o < |nodes| && nodes[o].kind == Replicated ==> o in dfs
  }

  lemma ListedAppend(nodes: seq<Node>, dfs: seq<nat>, n: nat)
    requires IsListed(nodes, dfs) && n < |nodes| && InTask(nodes[n].kind) && n !in dfs && ReplicatedBefore(nodes, n, dfs)
    ensures IsListed(nodes, dfs + [n])
  {
    var after := dfs + [n];
    forall i | 0 <= i < |after| ensures ReplicatedBefore(nodes, after[i], after[..i]) {
      assert after[..i] == if i < |dfs| then dfs[..i] else dfs;
    }
  }

  /** The replicated operands that are not listed yet. */
  function Missing(nodes: seq<Node>, operands: seq<nat>, dfs: seq<nat>): (r: seq<nat>)
    ensures forall o :: o in r <==> o in operands && o < |nodes| && nodes[o].kind == Replicated && o !in dfs
  {
    if operands == [] then []
    else
      (if operands[0] < |nodes| && nodes[operands[0]].kind == Replicated && operands[0] !in dfs then [operands[0]] else []) +
      Missing(nodes, operands[1..], dfs)
  }

  /** Something in the list reads the instruction. */
  ghost predicate IsOperand(nodes: seq<Node>, list: seq<nat>, o: nat) {
    exists y :: y in list && y < |nodes| && o in nodes[y].operands
  }

  /** Every replicated instruction is listed for something that reads it. */
  ghost predicate ReplicasUsed(nodes: seq<Node>, dfs: seq<nat>) {
    forall x {:trigger IsOperand(nodes, dfs, x)} :: x in dfs && x < |nodes| && nodes[x].kind == Replicated ==> IsOperand(nodes, dfs, x)
  }

  lemma ReplicasStayUsed(nodes: seq<Node>, before: seq<nat>, after: seq<nat>, n: nat)
    requires ReplicasUsed(nodes, before) && before <= after && n < |nodes| && nodes[n].kind != Replicated
    requires forall x :: x in after && x !in before ==> x == n || IsOperand(nodes, after, x)
    ensures ReplicasUsed(nodes, after)
  {
    forall x | x in after && x < |nodes| && nodes[x].kind == Replicated ensures IsOperand(nodes, after, x) {
      if x in before {
        OperandStays(nodes, before, after, x);
      }
    }
  }

  lemma OperandStays(nodes: seq<Node>, list: seq<nat>, more: seq<nat>, o: nat)
    requires IsOperand(nodes, list, o) && list <= more
    ensures IsOperand(nodes, more, o)
  {
    var y :| y in list && y < |nodes| && o in nodes[y].operands;
    assert y in more;
  }

  // ---- the traversal of replicated operands ----

  /** An instruction being visited waits at stack position `i` for operands that are listed or above it. */
  ghost predicate WaitsAt(nodes: seq<Node>, stack: seq<nat>, dfs: seq<nat>, x: nat, i: nat) {
    && i < |stack| && stack[i] == x && x < |nodes|
    && (forall j :: i < j < |stack| ==> stack[j] < x)
    && (forall o :: o in nodes[x].operands && o < |nodes| && nodes[o].kind == Replicated ==> o in dfs || o in stack[i + 1..])
  }

  ghost predicate Waits(nodes: seq<Node>, stack: seq<nat>, dfs: seq<nat>, x: nat) {
    exists i :: WaitsAt(nodes, stack, dfs, x, i)
  }

  ghost predicate OnStack(nodes: seq<Node>, bound: nat, wanted: seq<nat>, stack: seq<nat>, visited: map<nat, bool>, dfs: seq<nat>) {
    && (forall x :: x in stack ==> x < bound && x < |nodes| && nodes[x].kind == Replicated && (x in visited || x !in dfs))
    && (forall x :: x in wanted ==> x in dfs || x in stack)
  }

  /** `visited[x]` tells whether `x` is listed. `start` is the list before the traversal. */
  ghost predicate Seen(nodes: seq<Node>, bound: nat, start: seq<nat>, visited: map<nat, bool>, dfs: seq<nat>) {
    && (forall x :: x in visited ==> x < bound && x < |nodes| && nodes[x].kind == Replicated)
    && (forall x :: x in visited ==> (visited[x] <==> x in dfs))
    && (forall x :: x in dfs ==> x in start || (x in visited && visited[x]))
  }

  ghost predicate AllWait(nodes: seq<Node>, stack: seq<nat>, visited: map<nat, bool>, dfs: seq<nat>) {
    forall x :: x in visited && !visited[x] ==> Waits(nodes, stack, dfs, x)
  }

  ghost predicate Traversing(nodes: seq<Node>, bound: nat, start: seq<nat>, wanted: seq<nat>, stack: seq<nat>, visited: map<nat, bool>, dfs: seq<nat>) {
    && IsListed(nodes, dfs) && start <= dfs
    && OnStack(nodes, bound, wanted, stack, visited, dfs) && Seen(nodes, bound, start, visited, dfs) && AllWait(nodes, stack, visited, dfs)
  }

  lemma ExpandStep(nodes: seq<Node>, bound: nat, start: seq<nat>, wanted: seq<nat>, stack: seq<nat>, visited: map<nat, bool>, dfs: seq<nat>)
    requires Traversing(nodes, bound, start, wanted, stack, visited, dfs)
    requires stack != [] && stack[|stack| - 1] !in visited
    requires stack[|stack| - 1] < |nodes| && IsNode(nodes, stack[|stack| - 1])
    ensures var next := stack[|stack| - 1];
            Traversing(nodes, bound, start, wanted, stack + Missing(nodes, nodes[next].operands, dfs), visited[next := false], dfs)
  {
    var next := stack[|stack| - 1];
    var pushed := Missing(nodes, nodes[next].operands, dfs);
    ExpandWaits(nodes, stack, visited, dfs, pushed);
    assert next in stack;
    ExpandStack(nodes, bound, wanted, stack, visited, dfs, pushed);
  }

  lemma ExpandStack(nodes: seq<Node>, bound: nat, wanted: seq<nat>, stack: seq<nat>, visited: map<nat, bool>, dfs: seq<nat>, pushed: seq<nat>)
    requires OnStack(nodes, bound, wanted, stack, visited, dfs) && stack != []
    requires forall o :: o in pushed ==> o < bound && o < |nodes| && nodes[o].kind == Replicated && o !in dfs
    ensures OnStack(nodes, bound, wanted, stack + pushed, visited[stack[|stack| - 1] := false], dfs)
  {
    assert forall x :: x in stack + pushed <==> x in stack || x in pushed;
  }

  lemma ExpandWaits(nodes: seq<Node>, stack: seq<nat>, visited: map<nat, bool>, dfs: seq<nat>, pushed: seq<nat>)
    requires stack != [] && stack[|stack| - 1] < |nodes| && stack[|stack| - 1] !in visited && IsNode(nodes, stack[|stack| - 1])
    requires AllWait(nodes, stack, visited, dfs)
    requires pushed == Missing(nodes, nodes[stack[|stack| - 1]].operands, dfs)
    ensures AllWait(nodes, stack + pushed, visited[stack[|stack| - 1] := false], dfs)
  {
    var next := stack[|stack| - 1];
    var after := visited[next := false];
    assert (stack + pushed)[|stack|..] == pushed;
    forall j | 0 <= j < |pushed| ensures pushed[j] < next {
      assert pushed[j] in pushed;
    }
    forall x | x in after && !after[x] ensures Waits(nodes, stack + pushed, dfs, x) {
      if x == next {
        assert WaitsAt(nodes, stack + pushed, dfs, next, |stack| - 1);
      } else {
        WaitsBelow(nodes, stack, dfs, pushed, x);
      }
    }
  }

  lemma WaitsBelow(nodes: seq<Node>, stack: seq<nat>, dfs: seq<nat>, pushed: seq<nat>, x: nat)
    requires Waits(nodes, stack, dfs, x) && stack != [] && stack[|stack| - 1] != x
    requires forall j :: 0 <= j < |pushed| ==> pushed[j] < stack[|stack| - 1]
    ensures Waits(nodes, stack + pushed, dfs, x)
  {
    var i: nat :| WaitsAt(nodes, stack, dfs, x, i);
    assert stack[|stack| - 1] < x;
    assert (stack + pushed)[i + 1..] == stack[i + 1..] + pushed;
    assert WaitsAt(nodes, stack + pushed, dfs, x, i);
  }

  /** Dropping a listed instruction keeps the others waiting. */
  lemma WaitsAbove(nodes: seq<Node>, stack: seq<nat>, dfs: seq<nat>, grown: seq<nat>, x: nat)
    requires Waits(nodes, stack, dfs, x) && stack != [] && stack[|stack| - 1] != x
    requires stack[|stack| - 1] in grown && forall o :: o in dfs ==> o in grown
    ensures Waits(nodes, stack[..|stack| - 1], grown, x)
  {
    var last := |stack| - 1;
    var i: nat :| WaitsAt(nodes, stack, dfs, x, i);
    assert stack[i + 1..] == stack[..last][i + 1..] + [stack[last]];
    assert WaitsAt(nodes, stack[..last], grown, x, i);
  }

  lemma PopStack(nodes: seq<Node>, bound: nat, wanted: seq<nat>, stack: seq<nat>, visited: map<nat, bool>, dfs: seq<nat>, after: map<nat, bool>, grown: seq<nat>)
    requires OnStack(nodes, bound, wanted, stack, visited, dfs) && stack != [] && stack[|stack| - 1] in grown
    requires forall x :: x in grown <==> x in dfs || x == stack[|stack| - 1]
    requires forall x :: x in after <==> x in visited || x == stack[|stack| - 1]
    ensures OnStack(nodes, bound, wanted, stack[..|stack| - 1], after, grown)
  {
    var popped := stack[..|stack| - 1];
    assert stack == popped + [stack[|stack| - 1]];
    forall x | x in popped ensures x < bound && x < |nodes| && nodes[x].kind == Replicated && (x in after || x !in grown) {
      assert x in stack;
    }
    forall x | x in wanted ensures x in grown || x in popped {
      assert x in dfs || x in stack;
    }
  }

  lemma PopStep(nodes: seq<Node>, bound: nat, start: seq<nat>, wanted: seq<nat>, stack: seq<nat>, visited: map<nat, bool>, dfs: seq<nat>)
    requires Traversing(nodes, bound, start, wanted, stack, visited, dfs)
    requires stack != [] && stack[|stack| - 1] in visited && visited[stack[|stack| - 1]]
    ensures Traversing(nodes, bound, start, wanted, stack[..|stack| - 1], visited, dfs)
  {
    PopStack(nodes, bound, wanted, stack, visited, dfs, visited, dfs);
    forall x | x in visited && !visited[x] ensures Waits(nodes, stack[..|stack| - 1], dfs, x) {
      WaitsAbove(nodes, stack, dfs, dfs, x);
    }
  }

  lemma FinishStep(nodes: seq<Node>, bound: nat, start: seq<nat>, wanted: seq<nat>, stack: seq<nat>, visited: map<nat, bool>, dfs: seq<nat>)
    requires Traversing(nodes, bound, start, wanted, stack, visited, dfs)
    requires stack != [] && stack[|stack| - 1] in visited && !visited[stack[|stack| - 1]]
    ensures var next := stack[|stack| - 1];
            Traversing(nodes, bound, start, wanted, stack[..|stack| - 1], visited[next := true], dfs + [next])
  {
    var last := |stack| - 1;
    var next := stack[last];
    TopIsReady(nodes, stack, dfs, next);
    ListedAppend(nodes, dfs, next);
    PopStack(nodes, bound, wanted, stack, visited, dfs, visited[next := true], dfs + [next]);
    forall x | x in visited[next := true] && !visited[next := true][x] ensures Waits(nodes, stack[..last], dfs + [next], x) {
      WaitsAbove(nodes, stack, dfs, dfs + [next], x);
    }
  }

  lemma TopIsReady(nodes: seq<Node>, stack: seq<nat>, dfs: seq<nat>, next: nat)
    requires stack != [] && stack[|stack| - 1] == next && Waits(nodes, stack, dfs, next)
    ensures next < |nodes| && ReplicatedBefore(nodes, next, dfs)
  {
    var i: nat :| WaitsAt(nodes, stack, dfs, next, i);
    assert i == |stack| - 1 && stack[|stack| - 1 + 1..] == [];
  }

  /** What is visited is read by `n` or by something visited. */
  ghost predicate IsWanted(nodes: seq<Node>, n: nat, visited: set<nat>, x: nat)
    requires n < |nodes|
  {
    x in nodes[n].operands || exists y :: y in visited && y < |nodes| && x in nodes[y].operands
  }

  ghost predicate AreWanted(nodes: seq<Node>, n: nat, stack: seq<nat>, visited: set<nat>)
    requires n < |nodes|
  {
    && (forall x :: x in stack ==> IsWanted(nodes, n, visited, x))
    && (forall x :: x in visited ==> IsWanted(nodes, n, visited, x))
  }

  lemma WantedExpand(nodes: seq<Node>, n: nat, stack: seq<nat>, visited: map<nat, bool>, pushed: seq<nat>)
    requires n < |nodes| && AreWanted(nodes, n, stack, visited.Keys) && stack != [] && stack[|stack| - 1] < |nodes|
    requires forall o :: o in pushed ==> o in nodes[stack[|stack| - 1]].operands
    ensures AreWanted(nodes, n, stack + pushed, visited[stack[|stack| - 1] := false].Keys)
  {
    var next := stack[|stack| - 1];
    var after := visited[next := false].Keys;
    assert next in after;
    forall x | x in stack + pushed || x in after ensures IsWanted(nodes, n, after, x) {
      if x in pushed {
        assert x in nodes[next].operands;
      } else {
        assert x in stack || x in visited.Keys;
        assert IsWanted(nodes, n, visited.Keys, x);
      }
    }
  }

  lemma WantedPop(nodes: seq<Node>, n: nat, stack: seq<nat>, visited: set<nat>)
    requires n < |nodes| && AreWanted(nodes, n, stack, visited) && stack != []
    ensures AreWanted(nodes, n, stack[..|stack| - 1], visited)
  {
  }

  /** The traversal below `n`, in which everything visited is read by `n` or by something visited. */
  ghost predicate Tracing(nodes: seq<Node>, n: nat, start: seq<nat>, wanted: seq<nat>, stack: seq<nat>, visited: map<nat, bool>, dfs: seq<nat>)
    requires n < |nodes|
  {
    Traversing(nodes, n, start, wanted, stack, visited, dfs) && AreWanted(nodes, n, stack, visited.Keys)
  }

  lemma TraceDown(nodes: seq<Node>, n: nat, start: seq<nat>, wanted: seq<nat>, stack: seq<nat>, visited: map<nat, bool>, dfs: seq<nat>)
    requires IsPostOrder(nodes) && n < |nodes| && Tracing(nodes, n, start, wanted, stack, visited, dfs)
    requires stack != [] && stack[|stack| - 1] !in visited
    requires stack[|stack| - 1] < |nodes|
    ensures var next := stack[|stack| - 1];
            Tracing(nodes, n, start, wanted, stack + Missing(nodes, nodes[next].operands, dfs), visited[next := false], dfs)
  {
    var next := stack[|stack| - 1];
    assert IsNode(nodes, next);
    ExpandStep(nodes, n, start, wanted, stack, visited, dfs);
    WantedExpand(nodes, n, stack, visited, Missing(nodes, nodes[next].operands, dfs));
  }

  /** What the traversal listed is read by `n` or by something listed. */
  lemma ListedIsWanted(nodes: seq<Node>, n: nat, start: seq<nat>, wanted: seq<nat>, visited: map<nat, bool>, dfs: seq<nat>)
    requires n < |nodes| && Traversing(nodes, n, start, wanted, [], visited, dfs) && AreWanted(nodes, n, [], visited.Keys)
    ensures forall x :: x in dfs && x !in start ==> IsOperand(nodes, dfs + [n], x)
  {
    forall x | x in dfs && x !in start ensures IsOperand(nodes, dfs + [n], x) {
      assert x in visited.Keys && IsWanted(nodes, n, visited.Keys, x);
      if x in nodes[n].operands {
        assert n in dfs + [n];
      } else {
        var y :| y in visited.Keys && y < |nodes| && x in nodes[y].operands;
        assert !Waits(nodes, [], dfs, y);
        assert y in dfs + [n];
      }
    }
  }

  ghost function Unseen(nodes: seq<Node>, visited: map<nat, bool>): nat {
    |NatsBelow(|nodes|) - visited.Keys|
  }

  lemma VisitedBelow(nodes: seq<Node>, visited: map<nat, bool>, next: nat)
    requires next < |nodes| && next !in visited
    ensures Unseen(nodes, visited[next := false]) < Unseen(nodes, visited)
  {
    var left := NatsBelow(|nodes|) - visited.Keys;
    assert next in left;
    assert NatsBelow(|nodes|) - visited[next := false].Keys == left - {next};
  }

  /** The top of the stack was seen before: it is listed, or all it needs is and it becomes so. */
  method VisitAgain(nodes: seq<Node>, ghost bound: nat, ghost start: seq<nat>, ghost wanted: seq<nat>, stack: seq<nat>, visited: map<nat, bool>, dfs: seq<nat>)
    returns (newStack: seq<nat>, newVisited: map<nat, bool>, newDfs: seq<nat>)
    requires Traversing(nodes, bound, start, wanted, stack, visited, dfs) && stack != [] && stack[|stack| - 1] in visited
    ensures Traversing(nodes, bound, start, wanted, newStack, newVisited, newDfs)
    ensures newStack == stack[..|stack| - 1] && newVisited.Keys == visited.Keys
  {
    var next := stack[|stack| - 1];
    newStack, newVisited, newDfs := stack[..|stack| - 1], visited, dfs;
    if visited[next] {
      PopStep(nodes, bound, start, wanted, stack, visited, dfs);
    } else {
      FinishStep(nodes, bound, start, wanted, stack, visited, dfs);
      newVisited := visited[next := true];
      newDfs := dfs + [next];
    }
  }

  /** Lists the replicated operands of an instruction, and theirs, before it. */
  method AddReplicatedOperandDfs(nodes: seq<Node>, before: seq<nat>, n: nat) returns (dfs: seq<nat>)
    requires IsPostOrder(nodes) && n < |nodes| && IsListed(nodes, before)
    ensures IsListed(nodes, dfs) && before <= dfs && ReplicatedBefore(nodes, n, dfs)
    ensures forall x :: x in dfs && x !in before ==> x < n && nodes[x].kind == Replicated
    ensures forall x :: x in dfs && x !in before ==> IsOperand(nodes, dfs + [n], x)
  {
    dfs := before;
    assert IsNode(nodes, n);
    var wanted := Missing(nodes, nodes[n].operands, before);
    var stack := wanted;
    var visited: map<nat, bool> := map[];
    while stack != []
      invariant Tracing(nodes, n, before, wanted, stack, visited, dfs)
      decreases Unseen(nodes, visited), |stack|
    {
      var next := stack[|stack| - 1];
      if next !in visited {
        assert next in stack;
        TraceDown(nodes, n, before, wanted, stack, visited, dfs);
        VisitedBelow(nodes, visited, next);
        stack := stack + Missing(nodes, nodes[next].operands, dfs);
        visited := visited[next := false];
      } else {
        ghost var seen := visited.Keys;
        WantedPop(nodes, n, stack, seen);
        stack, visited, dfs := VisitAgain(nodes, n, before, wanted, stack, visited, dfs);
      }
    }
    ListedIsWanted(nodes, n, before, wanted, visited, dfs);
  }

  method AddInstruction(nodes: seq<Node>, context: BuildContext, n: nat) returns (after: BuildContext)
    requires IsPostOrder(nodes) && n < |nodes| && nodes[n].kind.Direct? && IsListed(nodes, context.dfs) && ReplicasUsed(nodes, context.dfs)
    ensures after.color == context.color && after.roots == context.roots
    ensures IsListed(nodes, after.dfs) && context.dfs <= after.dfs && n in after.dfs
    ensures n !in context.dfs ==> after.dfs[|after.dfs| - 1] == n
    ensures forall x :: x in after.dfs && x !in context.dfs ==> x == n || (x < n && nodes[x].kind == Replicated)
    ensures ReplicasUsed(nodes, after.dfs)
  {
    after := context;
    if n !in context.dfs {
      var dfs := AddReplicatedOperandDfs(nodes, context.dfs, n);
      ListedAppend(nodes, dfs, n);
      ReplicasStayUsed(nodes, context.dfs, dfs + [n], n);
      after := context.(dfs := dfs + [n]);
    }
  }

  function AddRoot(context: BuildContext, root: nat): (after: BuildContext)
    ensures after.color == context.color && after.dfs == context.dfs
    ensures after.roots == if root in context.roots then context.roots else context.roots + [root]
  {
    if root in context.roots then context else context.(roots := context.roots + [root])
  }

  // ---- cutting ----

  /** Every directly included instruction below `n` is in its task, and in no other. */
  ghost predicate IsAssigned(nodes: seq<Node>, contexts: seq<BuildContext>, assignment: map<nat, nat>, n: nat)
    requires n <= |nodes|
  {
    && (forall x :: x in assignment <==> 0 <= x < n && nodes[x].kind.Direct?)
    && (forall x :: x in assignment && x < |nodes| ==> assignment[x] == TaskOf(nodes, x) && InContext(nodes, contexts, assignment[x], x))
  }

  ghost predicate InContext(nodes: seq<Node>, contexts: seq<BuildContext>, j: nat, x: nat) {
    j < |contexts| && x < |nodes| && x in contexts[j].dfs && nodes[x].kind == Direct(contexts[j].color)
  }

  /** What task `j` contains: its own instructions and replicated ones, with everything they need before them or in earlier tasks. */
  ghost predicate IsTask(nodes: seq<Node>, context: BuildContext, j: nat) {
    && IsListed(nodes, context.dfs)
    && (forall i :: 0 <= i < |context.dfs| ==> OperandsReady(nodes, context.dfs, j, i))
    && (forall x :: x in context.dfs && x < |nodes| && nodes[x].kind.Direct? ==> TaskOf(nodes, x) == j)
    && (forall r :: r in context.roots ==> r in context.dfs)
    && ReplicasUsed(nodes, context.dfs)
  }

  /** Each listed instruction is read by the next one, and all but the last are replicated. */
  ghost predicate IsChain(nodes: seq<Node>, dfs: seq<nat>, chain: seq<nat>) {
    && chain != [] && (forall i :: 0 <= i < |chain| ==> chain[i] in dfs && chain[i] < |nodes|)
    && (forall i :: 0 <= i < |chain| - 1 ==> nodes[chain[i]].kind == Replicated)
    && (forall i :: 0 <= i < |chain| - 1 ==> chain[i] in nodes[chain[i + 1]].operands)
    && nodes[chain[|chain| - 1]].kind.Direct?
  }

  /** A task lists a replicated instruction only for one of its own instructions, which needs it through replicated ones. */
  lemma {:induction false} ReplicaIsNeeded(nodes: seq<Node>, context: BuildContext, j: nat, x: nat)
    requires IsPostOrder(nodes) && IsTask(nodes, context, j) && x in context.dfs
    ensures exists chain :: IsChain(nodes, context.dfs, chain) && chain[0] == x
    decreases |nodes| - x
  {
    assert IsListed(nodes, context.dfs);
    var i :| 0 <= i < |context.dfs| && context.dfs[i] == x;
    if nodes[x].kind.Direct? {
      assert IsChain(nodes, context.dfs, [x]);
    } else {
      assert IsOperand(nodes, context.dfs, x);
      var y :| y in context.dfs && y < |nodes| && x in nodes[y].operands;
      assert IsNode(nodes, y);
      ReplicaIsNeeded(nodes, context, j, y);
      var chain :| IsChain(nodes, context.dfs, chain) && chain[0] == y;
      assert IsChain(nodes, context.dfs, [x] + chain);
    }
  }

  /** An operand inside tasks comes earlier in this task, or belongs to an earlier one. */
  ghost predicate OperandsReady(nodes: seq<Node>, dfs: seq<nat>, j: nat, i: nat)
    requires i < |dfs|
  {
    dfs[i] < |nodes| &&
    forall o :: o in nodes[dfs[i]].operands && o < |nodes| && InTask(nodes[o].kind) ==>
      o in dfs[..i] || (nodes[o].kind.Direct? && TaskOf(nodes, o) < j)
  }

  ghost predicate Cut(nodes: seq<Node>, contexts: seq<BuildContext>, assignment: map<nat, nat>, n: nat)
    requires n <= |nodes|
  {
    && |contexts| == ScanTo(nodes, n).count
    && (ScanTo(nodes, n).last.Some? ==> contexts != [] && contexts[|contexts| - 1].color == ScanTo(nodes, n).last.value)
    && IsAssigned(nodes, contexts, assignment, n)
    && (forall j :: 0 <= j < |contexts| ==> IsTask(nodes, contexts[j], j))
    && (forall j, x :: 0 <= j < |contexts| && x in contexts[j].dfs ==> x < n)
  }

  /** Tasks whose instructions and colors are the same, with roots among their instructions. */
  ghost predicate SameTasks(a: seq<BuildContext>, b: seq<BuildContext>) {
    |a| == |b| && forall j :: 0 <= j < |a| ==> SameTask(a[j], b[j])
  }

  ghost predicate SameTask(a: BuildContext, b: BuildContext) {
    a.dfs == b.dfs && a.color == b.color && forall r :: r in b.roots ==> r in a.roots || r in a.dfs
  }

  lemma SameTasksCut(nodes: seq<Node>, a: seq<BuildContext>, b: seq<BuildContext>, assignment: map<nat, nat>, n: nat)
    requires n <= |nodes| && Cut(nodes, a, assignment, n) && SameTasks(a, b)
    ensures Cut(nodes, b, assignment, n)
  {
    forall x | x in assignment && x < |nodes| ensures InContext(nodes, b, assignment[x], x) {
      assert InContext(nodes, a, assignment[x], x) && SameTask(a[assignment[x]], b[assignment[x]]);
    }
    forall j | 0 <= j < |b| ensures IsTask(nodes, b[j], j) {
      assert IsTask(nodes, a[j], j) && SameTask(a[j], b[j]);
    }
    forall j, x | 0 <= j < |b| && x in b[j].dfs ensures x < n {
      assert SameTask(a[j], b[j]);
    }
    assert |b| > 0 ==> SameTask(a[|b| - 1], b[|b| - 1]);
  }

  lemma AddRootSameTasks(contexts: seq<BuildContext>, j: nat, root: nat)
    requires j < |contexts| && root in contexts[j].dfs
    ensures SameTasks(contexts, contexts[j := AddRoot(contexts[j], root)])
  {
  }

  /** A new root of an instruction's task keeps everything. */
  lemma RootKeepsCut(nodes: seq<Node>, contexts: seq<BuildContext>, assignment: map<nat, nat>, n: nat, root: nat)
    requires n <= |nodes| && Cut(nodes, contexts, assignment, n) && root in assignment
    ensures assignment[root] < |contexts|
    ensures Cut(nodes, contexts[assignment[root] := AddRoot(contexts[assignment[root]], root)], assignment, n)
    ensures SameTasks(contexts, contexts[assignment[root] := AddRoot(contexts[assignment[root]], root)])
  {
    var j := assignment[root];
    assert InContext(nodes, contexts, j, root);
    AddRootSameTasks(contexts, j, root);
    SameTasksCut(nodes, contexts, contexts[j := AddRoot(contexts[j], root)], assignment, n);
  }

  /** The instructions added to the last task find their operands before them or in earlier tasks. */
  lemma AddedIsReady(nodes: seq<Node>, contexts: seq<BuildContext>, assignment: map<nat, nat>, n: nat, before: seq<nat>, after: seq<nat>, j: nat)
    requires IsPostOrder(nodes) && n < |nodes| && nodes[n].kind.Direct? && TaskOf(nodes, n) == j
    requires IsAssigned(nodes, contexts, assignment, n)
    requires forall x :: x in assignment && assignment[x] == j ==> x in before
    requires forall i :: 0 <= i < |before| ==> OperandsReady(nodes, before, j, i)
    requires IsListed(nodes, after) && before <= after
    requires forall x :: x in after ==> x <= n
    ensures forall i :: 0 <= i < |after| ==> OperandsReady(nodes, after, j, i)
  {
    forall i | 0 <= i < |after| ensures OperandsReady(nodes, after, j, i) {
      if i < |before| {
        assert OperandsReady(nodes, before, j, i);
        assert after[i] == before[i] && after[..i] == before[..i];
      } else {
        assert after[i] in after;
        NewIsReady(nodes, contexts, assignment, n, before, after, j, i);
      }
    }
  }

  /** The last task with one more instruction of its own and the replicated ones that it needs. */
  lemma GrownIsTask(nodes: seq<Node>, n: nat, before: BuildContext, after: BuildContext, j: nat)
    requires n < |nodes| && nodes[n].kind.Direct? && TaskOf(nodes, n) == j
    requires IsTask(nodes, before, j) && before.dfs <= after.dfs && after.roots == before.roots
    requires forall x :: x in after.dfs && x !in before.dfs ==> x == n || (x < n && nodes[x].kind == Replicated)
    requires IsListed(nodes, after.dfs) && ReplicasUsed(nodes, after.dfs)
    requires forall i :: 0 <= i < |after.dfs| ==> OperandsReady(nodes, after.dfs, j, i)
    ensures IsTask(nodes, after, j)
  {
    forall x | x in after.dfs && x < |nodes| && nodes[x].kind.Direct? ensures TaskOf(nodes, x) == j {
      assert x == n || x in before.dfs;
    }
  }

  lemma NewIsReady(nodes: seq<Node>, contexts: seq<BuildContext>, assignment: map<nat, nat>, n: nat, before: seq<nat>, after: seq<nat>, j: nat, i: nat)
    requires IsPostOrder(nodes) && n < |nodes| && nodes[n].kind.Direct? && TaskOf(nodes, n) == j
    requires IsAssigned(nodes, contexts, assignment, n)
    requires forall x :: x in assignment && assignment[x] == j ==> x in before
    requires IsListed(nodes, after) && before <= after && |before| <= i < |after| && after[i] <= n
    ensures OperandsReady(nodes, after, j, i)
  {
    var x := after[i];
    assert IsNode(nodes, x) && ReplicatedBefore(nodes, x, after[..i]);
    forall o | o in nodes[x].operands && o < |nodes| && InTask(nodes[o].kind)
      ensures o in after[..i] || (nodes[o].kind.Direct? && TaskOf(nodes, o) < j)
    {
      if nodes[o].kind.Direct? {
        SameTaskIff(nodes, o, n);
        assert o in assignment;
        if TaskOf(nodes, o) == j {
          assert after[..i] == before + after[|before|..i];
        }
      }
    }
  }

  lemma CutSkip(nodes: seq<Node>, contexts: seq<BuildContext>, assignment: map<nat, nat>, n: nat)
    requires n < |nodes| && Cut(nodes, contexts, assignment, n) && !nodes[n].kind.Direct?
    ensures Cut(nodes, contexts, assignment, n + 1)
  {
  }

  /** Whether a directly included instruction opens a new task. */
  predicate Opens(nodes: seq<Node>, n: nat)
    requires n < |nodes| && nodes[n].kind.Direct?
  {
    ScanTo(nodes, n).last != Some(nodes[n].kind.color)
  }

  /** The tasks with a new one, or with a longer last one. */
  function Grown(contexts: seq<BuildContext>, opens: bool, after: BuildContext): (r: seq<BuildContext>)
    requires opens || contexts != []
    ensures |r| == |contexts| + (if opens then 1 else 0) && IsGrown(contexts, after, r, |r| - 1)
  {
    if opens then contexts + [after] else contexts[|contexts| - 1 := after]
  }

  /** The tasks in order, the last one new or longer. */
  ghost predicate IsGrown(contexts: seq<BuildContext>, after: BuildContext, grown: seq<BuildContext>, j: nat) {
    j <= |contexts| && |grown| == j + 1 && grown[j] == after && forall i :: 0 <= i < j ==> grown[i] == contexts[i]
  }

  lemma GrownTasks(nodes: seq<Node>, contexts: seq<BuildContext>, after: BuildContext, grown: seq<BuildContext>, j: nat, n: nat)
    requires IsGrown(contexts, after, grown, j) && IsTask(nodes, after, j) && forall x :: x in after.dfs ==> x <= n
    requires forall i :: 0 <= i < |contexts| ==> IsTask(nodes, contexts[i], i)
    requires forall i, x :: 0 <= i < |contexts| && x in contexts[i].dfs ==> x < n
    ensures forall i :: 0 <= i < |grown| ==> IsTask(nodes, grown[i], i)
    ensures forall i, x :: 0 <= i < |grown| && x in grown[i].dfs ==> x < n + 1
  {
  }

  lemma GrownAssigned(nodes: seq<Node>, contexts: seq<BuildContext>, assignment: map<nat, nat>, n: nat, after: BuildContext, grown: seq<BuildContext>, j: nat)
    requires n < |nodes| && nodes[n].kind.Direct? && IsAssigned(nodes, contexts, assignment, n) && IsGrown(contexts, after, grown, j)
    requires |contexts| <= j + 1 && TaskOf(nodes, n) == j && n in after.dfs && after.color == nodes[n].kind.color
    requires j < |contexts| ==> contexts[j].dfs <= after.dfs && after.color == contexts[j].color
    ensures IsAssigned(nodes, grown, assignment[n := j], n + 1)
  {
    forall x | x in assignment && x < |nodes| ensures InContext(nodes, grown, assignment[x], x) {
      assert InContext(nodes, contexts, assignment[x], x);
    }
  }

  lemma GrownKept(contexts: seq<BuildContext>, before: BuildContext, after: BuildContext, grown: seq<BuildContext>, j: nat)
    requires IsGrown(contexts, after, grown, j) && after.roots == before.roots && |contexts| <= j + 1 && (j < |contexts| ==> before == contexts[j])
    ensures RootsKept(contexts, grown)
  {
  }

  /** The task that a directly included instruction is added to. */
  lemma OpenedIsTask(nodes: seq<Node>, contexts: seq<BuildContext>, assignment: map<nat, nat>, n: nat, before: BuildContext, j: nat)
    requires n < |nodes| && nodes[n].kind.Direct? && Cut(nodes, contexts, assignment, n)
    requires if Opens(nodes, n) then before == BuildContext(nodes[n].kind.color, [], []) else contexts != [] && before == contexts[|contexts| - 1]
    requires j == |contexts| - if Opens(nodes, n) then 0 else 1
    ensures IsTask(nodes, before, j) && TaskOf(nodes, n) == j && before.color == nodes[n].kind.color
    ensures forall x :: x in before.dfs ==> x < n
    ensures forall x :: x in assignment && assignment[x] == j ==> x in before.dfs
  {
    forall x | x in assignment && assignment[x] == j ensures x in before.dfs {
      assert InContext(nodes, contexts, assignment[x], x);
    }
  }

  /** That task with the instruction, and the replicated ones that it needs. */
  lemma LongerIsTask(nodes: seq<Node>, contexts: seq<BuildContext>, assignment: map<nat, nat>, n: nat, before: BuildContext, after: BuildContext, j: nat)
    requires IsPostOrder(nodes) && n < |nodes| && nodes[n].kind.Direct? && Cut(nodes, contexts, assignment, n)
    requires if Opens(nodes, n) then before == BuildContext(nodes[n].kind.color, [], []) else contexts != [] && before == contexts[|contexts| - 1]
    requires j == |contexts| - if Opens(nodes, n) then 0 else 1
    requires after.roots == before.roots && IsListed(nodes, after.dfs) && ReplicasUsed(nodes, after.dfs) && before.dfs <= after.dfs
    requires forall x :: x in after.dfs && x !in before.dfs ==> x == n || (x < n && nodes[x].kind == Replicated)
    ensures IsTask(nodes, after, j) && TaskOf(nodes, n) == j && before.color == nodes[n].kind.color
    ensures forall x :: x in after.dfs ==> x <= n
  {
    OpenedIsTask(nodes, contexts, assignment, n, before, j);
    AddedIsReady(nodes, contexts, assignment, n, before.dfs, after.dfs, j);
    GrownIsTask(nodes, n, before, after, j);
  }

  /** A directly included instruction opens a task, or continues the last one. */
  lemma CutDirect(nodes: seq<Node>, contexts: seq<BuildContext>, assignment: map<nat, nat>, n: nat, before: BuildContext, after: BuildContext, grown: seq<BuildContext>)
    requires IsPostOrder(nodes) && n < |nodes| && nodes[n].kind.Direct? && Cut(nodes, contexts, assignment, n)
    requires if Opens(nodes, n) then before == BuildContext(nodes[n].kind.color, [], []) else contexts != [] && before == contexts[|contexts| - 1]
    requires |grown| == |contexts| + (if Opens(nodes, n) then 1 else 0) && grown != [] && IsGrown(contexts, after, grown, |grown| - 1)
    requires after.color == before.color && after.roots == before.roots
    requires IsListed(nodes, after.dfs) && before.dfs <= after.dfs && n in after.dfs
    requires forall x :: x in after.dfs && x !in before.dfs ==> x == n || (x < n && nodes[x].kind == Replicated)
    requires ReplicasUsed(nodes, after.dfs)
    ensures Cut(nodes, grown, assignment[n := |grown| - 1], n + 1)
  {
    var j := |grown| - 1;
    LongerIsTask(nodes, contexts, assignment, n, before, after, j);
    GrownAssigned(nodes, contexts, assignment, n, after, grown, j);
    GrownTasks(nodes, contexts, after, grown, j, n);
  }

  /** Adds a directly included instruction to the last task, or to a new one when the color changes. */
  method AddDirect(nodes: seq<Node>, contexts: seq<BuildContext>, ghost assignment: map<nat, nat>, n: nat, lastColor: Option<string>)
    returns (grown: seq<BuildContext>)
    requires IsPostOrder(nodes) && n < |nodes| && nodes[n].kind.Direct? && Cut(nodes, contexts, assignment, n)
    requires lastColor == ScanTo(nodes, n).last && RootsRecorded(nodes, contexts, assignment, n) && OnlyRead(nodes, contexts)
    ensures OnlyRead(nodes, grown)
    ensures grown != [] && Cut(nodes, grown, assignment[n := |grown| - 1], n + 1)
    ensures RootsRecorded(nodes, grown, assignment[n := |grown| - 1], n + 1)
  {
    var color := nodes[n].kind.color;
    var context := if lastColor == Some(color) then contexts[|contexts| - 1] else BuildContext(color, [], []);
    TaskIsListed(nodes, contexts, assignment, n, context);
    var after := AddInstruction(nodes, context, n);
    grown := Grown(contexts, lastColor != Some(color), after);
    CutDirect(nodes, contexts, assignment, n, context, after, grown);
    RootsGrown(nodes, contexts, assignment, n, context, after, grown);
  }

  /** A new task, or a longer one, makes no root. */
  lemma RootsGrown(nodes: seq<Node>, contexts: seq<BuildContext>, assignment: map<nat, nat>, n: nat, before: BuildContext, after: BuildContext, grown: seq<BuildContext>)
    requires IsPostOrder(nodes) && n < |nodes| && nodes[n].kind.Direct? && after.roots == before.roots
    requires RootsRecorded(nodes, contexts, assignment, n) && OnlyRead(nodes, contexts)
    requires |contexts| <= |grown| <= |contexts| + 1 && grown != [] && IsGrown(contexts, after, grown, |grown| - 1)
    requires if |grown| == |contexts| then before == contexts[|grown| - 1] else before.roots == []
    ensures RootsRecorded(nodes, grown, assignment[n := |grown| - 1], n + 1) && OnlyRead(nodes, grown)
  {
    GrownKept(contexts, before, after, grown, |grown| - 1);
    OnlyReadGrown(nodes, contexts, before, after, grown, |grown| - 1);
    RecordedGrown(nodes, contexts, assignment, grown, n);
  }

  lemma RecordedGrown(nodes: seq<Node>, contexts: seq<BuildContext>, assignment: map<nat, nat>, grown: seq<BuildContext>, n: nat)
    requires IsPostOrder(nodes) && n < |nodes| && RootsRecorded(nodes, contexts, assignment, n) && nodes[n].kind.Direct?
    requires RootsKept(contexts, grown) && grown != []
    ensures RootsRecorded(nodes, grown, assignment[n := |grown| - 1], n + 1)
  {
    RecordedKept(nodes, contexts, assignment, grown, assignment[n := |grown| - 1], n);
    RecordedSkip(nodes, grown, assignment[n := |grown| - 1], n);
  }

  lemma TaskIsListed(nodes: seq<Node>, contexts: seq<BuildContext>, assignment: map<nat, nat>, n: nat, context: BuildContext)
    requires n <= |nodes| && Cut(nodes, contexts, assignment, n)
    requires context.dfs == [] || (contexts != [] && context == contexts[|contexts| - 1])
    ensures IsListed(nodes, context.dfs) && ReplicasUsed(nodes, context.dfs)
  {
    if context.dfs != [] {
      assert IsTask(nodes, contexts[|contexts| - 1], |contexts| - 1);
    }
  }

  lemma RecordedSkip(nodes: seq<Node>, contexts: seq<BuildContext>, assignment: map<nat, nat>, n: nat)
    requires n < |nodes| && RootsRecorded(nodes, contexts, assignment, n) && nodes[n].kind != Loop && nodes[n].kind != RootRecolor
    ensures RootsRecorded(nodes, contexts, assignment, n + 1)
  {
  }

  /** Only what a task computes can be a recolored output. */
  ghost predicate RecolorsDirect(nodes: seq<Node>, n: nat)
    requires n < |nodes|
  {
    nodes[n].kind == RootRecolor && nodes[n].operands != [] ==>
      nodes[n].operands[0] < |nodes| && nodes[nodes[n].operands[0]].kind.Direct?
  }

  method CutIntoTasks(nodes: seq<Node>) returns (r: Result<(seq<BuildContext>, map<nat, nat>)>)
    requires IsPostOrder(nodes)
    ensures r.Failure? <==> exists n :: 0 <= n < |nodes| && !RecolorsDirect(nodes, n)
    ensures r.Success? ==> Cut(nodes, r.value.0, r.value.1, |nodes|)
    ensures r.Success? ==> RootsRecorded(nodes, r.value.0, r.value.1, |nodes|) && OnlyRead(nodes, r.value.0)
  {
    var contexts: seq<BuildContext> := [];
    var assignment: map<nat, nat> := map[];
    var lastColor: Option<string> := None;
    for n := 0 to |nodes|
      invariant Cut(nodes, contexts, assignment, n) && lastColor == ScanTo(nodes, n).last
      invariant RootsRecorded(nodes, contexts, assignment, n) && OnlyRead(nodes, contexts)
      invariant forall m :: 0 <= m < n ==> RecolorsDirect(nodes, m)
    {
      assert IsNode(nodes, n);
      match nodes[n].kind {
        case RootRecolor =>
          if nodes[n].operands != [] {
            var operand := nodes[n].operands[0];
            assert operand in nodes[n].operands;
            if operand !in assignment {
              assert !RecolorsDirect(nodes, n);
              return Failure(InvalidArgument);
            }
            contexts := RootInstruction(nodes, contexts, assignment, n, [operand]);
          } else {
            contexts := RootInstruction(nodes, contexts, assignment, n, []);
          }
        case Loop =>
          contexts := RootInstruction(nodes, contexts, assignment, n, nodes[n].operands);
          lastColor := None;
        case Direct(color) =>
          contexts := AddDirect(nodes, contexts, assignment, n, lastColor);
          assignment := assignment[n := |contexts| - 1];
          lastColor := Some(color);
        case _ =>
          CutSkip(nodes, contexts, assignment, n);
          RecordedSkip(nodes, contexts, assignment, n);
      }
    }
    r := Success((contexts, assignment));
  }

  /** Instruction `m` makes `o` a root: an input of a loop, or a recolored output. */
  ghost predicate Roots(nodes: seq<Node>, m: nat, o: nat)
    requires m < |nodes|
  {
    (nodes[m].kind == Loop && o in nodes[m].operands) ||
    (nodes[m].kind == RootRecolor && nodes[m].operands != [] && o == nodes[m].operands[0])
  }

  ghost predicate IsRecorded(contexts: seq<BuildContext>, assignment: map<nat, nat>, o: nat) {
    o in assignment ==> assignment[o] < |contexts| && o in contexts[assignment[o]].roots
  }

  /** Inputs of loops and recolored outputs are roots of the tasks that compute them. */
  ghost predicate RootsRecorded(nodes: seq<Node>, contexts: seq<BuildContext>, assignment: map<nat, nat>, n: nat)
    requires n <= |nodes|
  {
    forall m, o :: 0 <= m < n && Roots(nodes, m, o) ==> IsRecorded(contexts, assignment, o)
  }

  /** A directly included instruction that a loop or a recolored output reads. */
  ghost predicate IsReadOutside(nodes: seq<Node>, r: nat) {
    r < |nodes| && nodes[r].kind.Direct? && exists m :: 0 <= m < |nodes| && Roots(nodes, m, r)
  }

  /** Only what loops and recolored outputs read is a root so far. */
  ghost predicate OnlyRead(nodes: seq<Node>, contexts: seq<BuildContext>) {
    forall j, r :: 0 <= j < |contexts| && r in contexts[j].roots ==> IsReadOutside(nodes, r)
  }

  lemma OnlyReadAdd(nodes: seq<Node>, contexts: seq<BuildContext>, j: nat, r: nat)
    requires OnlyRead(nodes, contexts) && j < |contexts| && IsReadOutside(nodes, r)
    ensures OnlyRead(nodes, contexts[j := AddRoot(contexts[j], r)])
  {
  }

  lemma OnlyReadGrown(nodes: seq<Node>, contexts: seq<BuildContext>, before: BuildContext, after: BuildContext, grown: seq<BuildContext>, j: nat)
    requires OnlyRead(nodes, contexts) && IsGrown(contexts, after, grown, j) && after.roots == before.roots
    requires before.roots == [] || (j < |contexts| && before == contexts[j])
    ensures OnlyRead(nodes, grown)
  {
  }

  /** Tasks keep their roots. */
  ghost predicate RootsKept(a: seq<BuildContext>, b: seq<BuildContext>) {
    |a| <= |b| && forall j, r :: 0 <= j < |a| && r in a[j].roots ==> r in b[j].roots
  }

  lemma RecordedKept(nodes: seq<Node>, contexts: seq<BuildContext>, assignment: map<nat, nat>, after: seq<BuildContext>, later: map<nat, nat>, n: nat)
    requires IsPostOrder(nodes) && n <= |nodes| && RootsRecorded(nodes, contexts, assignment, n) && RootsKept(contexts, after)
    requires forall x :: x in later && x < n ==> x in assignment && later[x] == assignment[x]
    ensures RootsRecorded(nodes, after, later, n)
  {
    forall m, o | 0 <= m < n && Roots(nodes, m, o) ensures IsRecorded(after, later, o) {
      assert IsNode(nodes, m);
      assert IsRecorded(contexts, assignment, o);
    }
  }

  lemma RecordedNow(nodes: seq<Node>, contexts: seq<BuildContext>, assignment: map<nat, nat>, n: nat, inputs: seq<nat>)
    requires n < |nodes| && RootsRecorded(nodes, contexts, assignment, n) && AllRecorded(contexts, assignment, inputs, |inputs|)
    requires forall o :: Roots(nodes, n, o) ==> o in inputs
    ensures RootsRecorded(nodes, contexts, assignment, n + 1)
  {
    forall m, o | 0 <= m < n + 1 && Roots(nodes, m, o) ensures IsRecorded(contexts, assignment, o) {
      if m == n {
        var i :| 0 <= i < |inputs| && inputs[i] == o;
        assert IsRecorded(contexts, assignment, inputs[i]);
      }
    }
  }

  ghost predicate AllRecorded(contexts: seq<BuildContext>, assignment: map<nat, nat>, inputs: seq<nat>, k: nat)
    requires k <= |inputs|
  {
    forall i :: 0 <= i < k ==> IsRecorded(contexts, assignment, inputs[i])
  }

  lemma RootStep(before: seq<BuildContext>, after: seq<BuildContext>, assignment: map<nat, nat>, inputs: seq<nat>, k: nat)
    requires k < |inputs| && AllRecorded(before, assignment, inputs, k) && inputs[k] in assignment && assignment[inputs[k]] < |before|
    requires after == before[assignment[inputs[k]] := AddRoot(before[assignment[inputs[k]]], inputs[k])]
    ensures AllRecorded(after, assignment, inputs, k + 1) && RootsKept(before, after)
  {
    forall i | 0 <= i < k + 1 ensures IsRecorded(after, assignment, inputs[i]) {
      if i < k {
        assert IsRecorded(before, assignment, inputs[i]);
      }
    }
  }

  lemma KeptTrans(a: seq<BuildContext>, b: seq<BuildContext>, c: seq<BuildContext>)
    requires RootsKept(a, b) && RootsKept(b, c)
    ensures RootsKept(a, c)
  {
  }

  lemma SameTrans(a: seq<BuildContext>, b: seq<BuildContext>, c: seq<BuildContext>)
    requires SameTasks(a, b) && SameTasks(b, c)
    ensures SameTasks(a, c)
  {
    forall j | 0 <= j < |a| ensures SameTask(a[j], c[j]) {
      assert SameTask(a[j], b[j]) && SameTask(b[j], c[j]);
    }
  }

  lemma SameDfs(a: seq<BuildContext>, b: seq<BuildContext>, j: nat)
    requires SameTasks(a, b) && j < |a|
    ensures b[j].dfs == a[j].dfs
  {
    assert SameTask(a[j], b[j]);
  }

  /** A loop or a recolored output makes roots of the instructions it reads. */
  method RootInstruction(nodes: seq<Node>, contexts: seq<BuildContext>, assignment: map<nat, nat>, ghost n: nat, inputs: seq<nat>)
    returns (after: seq<BuildContext>)
    requires IsPostOrder(nodes) && n < |nodes| && Cut(nodes, contexts, assignment, n) && RootsRecorded(nodes, contexts, assignment, n)
    requires !nodes[n].kind.Direct? && (forall o :: Roots(nodes, n, o) <==> o in inputs) && OnlyRead(nodes, contexts)
    ensures Cut(nodes, after, assignment, n + 1) && RootsRecorded(nodes, after, assignment, n + 1) && OnlyRead(nodes, after)
  {
    after := RootLoopInputs(nodes, contexts, assignment, n, inputs);
    RecordedKept(nodes, contexts, assignment, after, assignment, n);
    CutSkip(nodes, after, assignment, n);
    RecordedNow(nodes, after, assignment, n, inputs);
  }

  /** An operand that a task computes becomes a root of that task. */
  method RootInput(nodes: seq<Node>, contexts: seq<BuildContext>, assignment: map<nat, nat>, ghost n: nat, ghost inputs: seq<nat>, ghost k: nat, input: nat)
    returns (after: seq<BuildContext>)
    requires n < |nodes| && Cut(nodes, contexts, assignment, n) && k < |inputs| && input == inputs[k]
    requires AllRecorded(contexts, assignment, inputs, k) && OnlyRead(nodes, contexts) && Roots(nodes, n, input)
    ensures Cut(nodes, after, assignment, n) && RootsKept(contexts, after) && |after| == |contexts|
    ensures AllRecorded(after, assignment, inputs, k + 1) && OnlyRead(nodes, after)
  {
    after := contexts;
    if input in assignment {
      RootKeepsCut(nodes, contexts, assignment, n, input);
      OnlyReadAdd(nodes, contexts, assignment[input], input);
      after := contexts[assignment[input] := AddRoot(contexts[assignment[input]], input)];
      RootStep(contexts, after, assignment, inputs, k);
    }
  }

  /** Every operand of a loop that a task computes becomes a root of that task. */
  method RootLoopInputs(nodes: seq<Node>, contexts: seq<BuildContext>, assignment: map<nat, nat>, ghost n: nat, inputs: seq<nat>)
    returns (after: seq<BuildContext>)
    requires n < |nodes| && Cut(nodes, contexts, assignment, n) && OnlyRead(nodes, contexts)
    requires forall o :: o in inputs ==> Roots(nodes, n, o)
    ensures Cut(nodes, after, assignment, n) && RootsKept(contexts, after) && |after| == |contexts|
    ensures AllRecorded(after, assignment, inputs, |inputs|) && OnlyRead(nodes, after)
  {
    after := contexts;
    for k := 0 to |inputs|
      invariant Cut(nodes, after, assignment, n) && RootsKept(contexts, after) && |after| == |contexts|
      invariant AllRecorded(after, assignment, inputs, k) && OnlyRead(nodes, after)
    {
      ghost var before := after;
      after := RootInput(nodes, after, assignment, n, inputs, k, inputs[k]);
      KeptTrans(contexts, before, after);
    }
  }
}
