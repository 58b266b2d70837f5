/** A postorder of a computation that keeps instructions of one color together. */
module ColorDfs {
  import opened Sequences
  import opened Wrappers

  datatype Opcode = GetTupleElement | CustomCall | OtherOpcode

  datatype Instruction = Instruction(opcode: Opcode, operands: seq<nat>, users: seq<nat>, color: Option<string>)

  datatype Computation = Computation(code: seq<Instruction>, root: nat) {
    /** A custom call that is read through get-tuple-element is read in no other way. */
    ghost predicate Valid() {
      Linked() &&
      forall k: nat, u :: k < |code| && IsUnpacked(k) && u in code[k].users && u < |code| ==> code[u].opcode.GetTupleElement?
    }

    /** Operands and users describe the same edges, and get-tuple-element has one operand. */
    ghost predicate Linked() {
      && root < |code|
      && (forall k, o :: 0 <= k < |code| && o in code[k].operands ==> o < |code|)
      && (forall k :: 0 <= k < |code| ==> Distinct(code[k].users))
      && (forall k, u :: 0 <= k < |code| && u in code[k].users ==> u < |code| && k in code[u].operands)
      && (forall k: nat, o :: k < |code| && o in code[k].operands ==> k in code[o].users)
      && (forall k :: 0 <= k < |code| && code[k].opcode.GetTupleElement? ==> |code[k].operands| == 1)
    }

    predicate IsUnpacked(k: nat) {
      k < |code| && code[k].opcode.CustomCall? &&
      exists u :: u in code[k].users && u < |code| && code[u].opcode.GetTupleElement?
    }

    /** An element of the result of a custom call. */
    predicate IsElement(k: nat) {
      && k < |code| && code[k].opcode.GetTupleElement? && |code[k].operands| == 1
      && code[k].operands[0] < |code| && code[code[k].operands[0]].opcode.CustomCall?
    }

    /** A rank that decreases along operands: the computation has no cycle. */
    ghost predicate RankedBy(rank: seq<nat>) {
      |rank| == |code| && forall k, o :: 0 <= k < |code| && o in code[k].operands && o < |code| ==> rank[o] < rank[k]
    }
  }

  /** One hop of the traversal: to an operand, or to a sibling element of the same custom call. */
  ghost predicate Leads(c: Computation, a: nat, b: nat) {
    a < |c.code| && (b in c.code[a].operands ||
    (c.IsElement(a) && b in c.code[c.code[a].operands[0]].users))
  }

  ghost predicate IsChain(c: Computation, chain: seq<nat>) {
    chain != [] && chain[0] == c.root && forall i :: 0 <= i < |chain| - 1 ==> Leads(c, chain[i], chain[i + 1])
  }

  /** The instructions the root needs, and the siblings of needed elements. */
  ghost predicate Needed(c: Computation, x: nat) {
    exists chain :: IsChain(c, chain) && chain[|chain| - 1] == x
  }

  lemma NeededNext(c: Computation, a: nat, b: nat)
    requires Needed(c, a) && Leads(c, a, b)
    ensures Needed(c, b)
  {
    var chain :| IsChain(c, chain) && chain[|chain| - 1] == a;
    assert IsChain(c, chain + [b]);
  }

  // ---- operand order ----

  /** Higher priority first, colored before uncolored. */
  function SortKey(c: Computation, priority: map<string, nat>, k: nat): nat {
    if k < |c.code| && c.code[k].color.Some? then
      1 + if c.code[k].color.value in priority then priority[c.code[k].color.value] else 0
    else 0
  }

  ghost predicate SortedByKey(c: Computation, priority: map<string, nat>, s: seq<nat>) {
    forall i, j :: 0 <= i < j < |s| ==> SortKey(c, priority, s[i]) >= SortKey(c, priority, s[j])
  }

  lemma InsertKeepsSorted(c: Computation, priority: map<string, nat>, s: seq<nat>, x: nat, i: nat)
    requires SortedByKey(c, priority, s) && i <= |s|
    requires i > 0 ==> SortKey(c, priority, s[i - 1]) >= SortKey(c, priority, x)
    requires forall j :: i <= j < |s| ==> SortKey(c, priority, s[j]) < SortKey(c, priority, x)
    ensures SortedByKey(c, priority, s[..i] + [x] + s[i..])
  {
    var t := s[..i] + [x] + s[i..];
    forall j, k | 0 <= j < k < |t| ensures SortKey(c, priority, t[j]) >= SortKey(c, priority, t[k]) {
      if k == i {
        assert t[j] == s[j] && t[k] == x;
        assert j < i - 1 ==> SortKey(c, priority, s[j]) >= SortKey(c, priority, s[i - 1]);
      } else if j == i {
        assert t[j] == x && t[k] == s[k - 1];
      } else {
        var j', k' := if j < i then j else j - 1, if k < i then k else k - 1;
        assert t[j] == s[j'] && t[k] == s[k'];
      }
    }
  }

  lemma InsertKeepsElements(s: seq<nat>, x: nat, i: nat)
    requires i <= |s|
    ensures multiset(s[..i] + [x] + s[i..]) == multiset(s) + multiset{x}
  {
    assert s == s[..i] + s[i..];
  }

  /** The stable sort of the operands. */
  method SortOperands(c: Computation, priority: map<string, nat>, operands: seq<nat>) returns (sorted: seq<nat>)
    ensures multiset(sorted) == multiset(operands) && SortedByKey(c, priority, sorted)
  {
    sorted := [];
    for k := 0 to |operands|
      invariant multiset(sorted) == multiset(operands[..k])
      invariant SortedByKey(c, priority, sorted)
    {
      var i := |sorted|;
      while i > 0 && SortKey(c, priority, sorted[i - 1]) < SortKey(c, priority, operands[k])
        invariant 0 <= i <= |sorted|
        invariant forall j :: i <= j < |sorted| ==> SortKey(c, priority, sorted[j]) < SortKey(c, priority, operands[k])
      {
        i := i - 1;
      }
      InsertKeepsSorted(c, priority, sorted, operands[k], i);
      InsertKeepsElements(sorted, operands[k], i);
      assert operands[..k + 1] == operands[..k] + [operands[k]];
      sorted := sorted[..i] + [operands[k]] + sorted[i..];
    }
    assert operands[..|operands|] == operands;
  }

  // ---- what the order promises ----

  /** Operands come first, and no instruction is listed twice. */
  ghost predicate OperandsFirst(c: Computation, dfs: seq<nat>) {
    && Distinct(dfs)
    && (forall i, o :: 0 <= i < |dfs| && dfs[i] < |c.code| && o in c.code[dfs[i]].operands ==> o in dfs[..i])
  }

  /** The instructions of `group` follow one another in the list. */
  ghost predicate Together(dfs: seq<nat>, group: seq<nat>) {
    exists i :: IsSliceAt(dfs, group, i)
  }

  ghost predicate IsSliceAt(dfs: seq<nat>, group: seq<nat>, i: nat) {
    i + |group| <= |dfs| && dfs[i..i + |group|] == group
  }

  /** All elements of a custom call are listed together. */
  ghost predicate ElementsTogether(c: Computation, dfs: seq<nat>) {
    forall x :: x in dfs && c.IsElement(x) ==> Together(dfs, c.code[c.code[x].operands[0]].users)
  }

  lemma TogetherFacts(dfs: seq<nat>, group: seq<nat>, more: seq<nat>)
    ensures Together(dfs, group) ==> (forall x :: x in group ==> x in dfs) && Together(dfs + more, group)
    ensures Together(dfs + group, group)
  {
    if Together(dfs, group) {
      var i: nat :| IsSliceAt(dfs, group, i);
      assert IsSliceAt(dfs + more, group, i);
      forall x | x in group ensures x in dfs {
        assert x in dfs[i..i + |group|];
      }
    }
    assert IsSliceAt(dfs + group, group, |dfs|);
  }

  predicate SameColor(c: Computation, a: nat, b: nat) {
    a < |c.code| && b < |c.code| && c.code[a].color.Some? && c.code[a].color == c.code[b].color
  }

  /** Instruction `n` alone reads `own`. */
  ghost predicate IsPrivate(c: Computation, n: nat, own: nat) {
    && n < |c.code| && own in c.code[n].operands
    && own < |c.code| && c.code[own].users == [n] && own != c.root && !c.IsElement(own)
  }

  /** Instruction `n` alone reads `own`, which has its color; it also reads `other`, which has not. */
  ghost predicate Prefers(c: Computation, n: nat, own: nat, other: nat) {
    IsPrivate(c, n, own) && other in c.code[n].operands && SameColor(c, own, n) && !SameColor(c, other, n)
  }

  /** When an instruction of this color was last visited for the first time; 0 if none was. */
  ghost function LastVisit(c: Computation, visits: seq<nat>, color: string): (t: nat)
    ensures t <= |visits|
  {
    if visits == [] then 0
    else
      var n := |visits| - 1;
      if visits[n] < |c.code| && c.code[visits[n]].color == Some(color) then n + 1 else LastVisit(c, visits[..n], color)
  }

  /** How recently the color of an instruction was visited; instructions without a color come last. */
  ghost function Recency(c: Computation, visits: seq<nat>, k: nat): nat {
    if k < |c.code| && c.code[k].color.Some? then 1 + LastVisit(c, visits, c.code[k].color.value) else 0
  }

  /** The visits up to that of `n`. */
  ghost function UpTo(visits: seq<nat>, n: nat): seq<nat> {
    if visits == [] || visits[|visits| - 1] == n then visits else UpTo(visits[..|visits| - 1], n)
  }

  /** Instruction `n` alone reads `own`, and at its visit the color of `own` is more recent than that of `other`, which it reads too. */
  ghost predicate Postpones(c: Computation, visits: seq<nat>, n: nat, own: nat, other: nat) {
    && IsPrivate(c, n, own) && other in c.code[n].operands
    && Recency(c, UpTo(visits, n), own) > Recency(c, UpTo(visits, n), other)
  }

  ghost predicate ListedBefore(dfs: seq<nat>, a: nat, b: nat) {
    forall j :: 0 <= j < |dfs| && dfs[j] == b ==> a in dfs[..j]
  }

  /** The operands of an instruction's own color that it alone reads come after its other operands. */
  ghost predicate OwnColorLast(c: Computation, dfs: seq<nat>) {
    forall n, own, other :: n in dfs && Prefers(c, n, own, other) ==> ListedBefore(dfs, other, own)
  }

  /** Of its operands, an instruction takes those that it alone reads the later, the more recent their color is. */
  ghost predicate RecentColorLast(c: Computation, visits: seq<nat>, dfs: seq<nat>) {
    forall n, own, other :: n in dfs && Postpones(c, visits, n, own, other) ==> ListedBefore(dfs, other, own)
  }

  /** Visits start at the root and go on to operands of what is visited; each instruction is visited once. */
  ghost predicate AreVisits(c: Computation, visits: seq<nat>) {
    && Distinct(visits) && (visits != [] ==> visits[0] == c.root)
    && forall i :: 0 < i < |visits| ==> ReadBefore(c, visits, i)
  }

  ghost predicate ReadBefore(c: Computation, visits: seq<nat>, i: nat)
    requires i < |visits|
  {
    exists j :: 0 <= j < i && visits[j] < |c.code| && visits[i] in c.code[visits[j]].operands
  }

  lemma {:induction false} UpToOther(visits: seq<nat>, next: nat, n: nat)
    ensures n != next ==> UpTo(visits + [next], n) == UpTo(visits, n)
    ensures UpTo(visits + [n], n) == visits + [n]
  {
    assert (visits + [next])[..|visits|] == visits;
  }

  lemma {:induction false} UpToEnds(visits: seq<nat>, n: nat)
    requires n in visits
    ensures UpTo(visits, n) != [] && UpTo(visits, n)[|UpTo(visits, n)| - 1] == n
  {
    if visits[|visits| - 1] != n {
      UpToEnds(visits[..|visits| - 1], n);
    }
  }

  /** At its own visit, the color of an instruction is the most recent one. */
  lemma OwnIsMostRecent(c: Computation, visits: seq<nat>, n: nat, own: nat, other: nat)
    requires n in visits && Prefers(c, n, own, other)
    ensures Postpones(c, visits, n, own, other)
  {
    UpToEnds(visits, n);
  }

  // ---- the traversal ----

  /** A node being visited waits at stack position `i` for operands that are done or above it. */
  ghost predicate WaitsAt(c: Computation, rank: seq<nat>, stack: seq<nat>, dfs: seq<nat>, x: nat, i: nat)
    requires |rank| == |c.code| && forall k :: 0 <= k < |stack| ==> stack[k] < |c.code|
  {
    && i < |stack| && stack[i] == x
    && (forall j :: i < j < |stack| ==> rank[stack[j]] < rank[x])
    && (forall o :: o in c.code[x].operands ==> o in dfs || o in stack[i + 1..])
  }

  ghost predicate Waits(c: Computation, rank: seq<nat>, stack: seq<nat>, dfs: seq<nat>, x: nat)
    requires |rank| == |c.code| && forall k :: 0 <= k < |stack| ==> stack[k] < |c.code|
  {
    exists i :: WaitsAt(c, rank, stack, dfs, x, i)
  }

  /** The list holds the finished nodes, operands first, and all siblings of a listed element. */
  ghost predicate Emitted(c: Computation, visited: map<nat, bool>, dfs: seq<nat>) {
    && (forall x :: x in visited ==> x < |c.code|)
    && (forall x :: x in dfs <==> x in visited && visited[x])
    && OperandsFirst(c, dfs)
    && ElementsTogether(c, dfs)
  }

  ghost predicate OnStack(c: Computation, stack: seq<nat>) {
    forall k :: 0 <= k < |stack| ==> stack[k] < |c.code|
  }

  ghost predicate AllWait(c: Computation, rank: seq<nat>, stack: seq<nat>, visited: map<nat, bool>, dfs: seq<nat>)
    requires |rank| == |c.code| && OnStack(c, stack) && forall x :: x in visited ==> x < |c.code|
  {
    forall x :: x in visited && !visited[x] ==> Waits(c, rank, stack, dfs, x)
  }

  ghost predicate AllNeeded(c: Computation, stack: seq<nat>, visited: map<nat, bool>, dfs: seq<nat>) {
    && (forall x :: x in stack ==> Needed(c, x)) && (forall x :: x in visited ==> Needed(c, x))
    && (c.root in dfs || c.root in stack)
  }

  /** The loop invariant of the traversal. `visited[x]` tells whether `x` is done. */
  ghost predicate Traversing(c: Computation, rank: seq<nat>, stack: seq<nat>, visited: map<nat, bool>, dfs: seq<nat>)
    requires |rank| == |c.code|
  {
    OnStack(c, stack) && Emitted(c, visited, dfs) && AllWait(c, rank, stack, visited, dfs) && AllNeeded(c, stack, visited, dfs)
  }

  lemma OperandFacts(c: Computation, rank: seq<nat>, next: nat, operands: seq<nat>)
    requires c.Valid() && c.RankedBy(rank) && next < |c.code| && Needed(c, next)
    requires multiset(operands) == multiset(c.code[next].operands)
    ensures forall o :: o in operands <==> o in c.code[next].operands
    ensures forall o :: o in operands ==> o < |c.code| && rank[o] < rank[next] && Needed(c, o)
    ensures forall k :: 0 <= k < |operands| ==> operands[k] < |c.code| && rank[operands[k]] < rank[next]
  {
    forall o ensures o in operands <==> o in c.code[next].operands {
      assert o in multiset(operands) <==> o in multiset(c.code[next].operands);
    }
    forall o | o in operands ensures o < |c.code| && rank[o] < rank[next] && Needed(c, o) {
      NeededNext(c, next, o);
    }
    forall k | 0 <= k < |operands| ensures operands[k] in operands {}
  }

  /** Pushing operands of smaller rank above a waiting node keeps it waiting. */
  lemma WaitsBelow(c: Computation, rank: seq<nat>, stack: seq<nat>, dfs: seq<nat>, x: nat, operands: seq<nat>)
    requires |rank| == |c.code| && OnStack(c, stack) && OnStack(c, operands)
    requires stack != [] && stack[|stack| - 1] != x
    requires forall k :: 0 <= k < |operands| ==> rank[operands[k]] < rank[stack[|stack| - 1]]
    requires OnStack(c, stack + operands)
    requires Waits(c, rank, stack, dfs, x)
    ensures Waits(c, rank, stack + operands, dfs, x)
  {
    var i: nat :| WaitsAt(c, rank, stack, dfs, x, i);
    var stack' := stack + operands;
    assert rank[stack[|stack| - 1]] < rank[x];
    assert stack'[i + 1..] == stack[i + 1..] + operands;
    assert WaitsAt(c, rank, stack', dfs, x, i);
  }

  lemma ExpandStep(c: Computation, rank: seq<nat>, stack: seq<nat>, visited: map<nat, bool>, dfs: seq<nat>, operands: seq<nat>)
    requires c.Valid() && c.RankedBy(rank) && Traversing(c, rank, stack, visited, dfs)
    requires stack != [] && stack[|stack| - 1] !in visited
    requires multiset(operands) == multiset(c.code[stack[|stack| - 1]].operands)
    ensures Traversing(c, rank, stack + operands, visited[stack[|stack| - 1] := false], dfs)
  {
    var next := stack[|stack| - 1];
    assert next in stack;
    OperandFacts(c, rank, next, operands);
    ExpandWaits(c, rank, stack, visited, dfs, operands);
    ExpandNeeded(c, stack, visited, dfs, operands);
    assert Emitted(c, visited[next := false], dfs);
  }

  lemma ExpandWaits(c: Computation, rank: seq<nat>, stack: seq<nat>, visited: map<nat, bool>, dfs: seq<nat>, operands: seq<nat>)
    requires |rank| == |c.code| && OnStack(c, stack) && OnStack(c, operands) && stack != []
    requires (forall x :: x in visited ==> x < |c.code|) && AllWait(c, rank, stack, visited, dfs)
    requires stack[|stack| - 1] !in visited
    requires forall o :: o in c.code[stack[|stack| - 1]].operands ==> o in operands
    requires forall k :: 0 <= k < |operands| ==> rank[operands[k]] < rank[stack[|stack| - 1]]
    ensures OnStack(c, stack + operands)
    ensures AllWait(c, rank, stack + operands, visited[stack[|stack| - 1] := false], dfs)
  {
    var next := stack[|stack| - 1];
    var stack', visited' := stack + operands, visited[next := false];
    assert stack'[|stack|..] == operands;
    forall x | x in visited' && !visited'[x] ensures Waits(c, rank, stack', dfs, x) {
      if x == next {
        assert WaitsAt(c, rank, stack', dfs, next, |stack| - 1);
      } else {
        WaitsBelow(c, rank, stack, dfs, x, operands);
      }
    }
  }

  lemma ExpandNeeded(c: Computation, stack: seq<nat>, visited: map<nat, bool>, dfs: seq<nat>, operands: seq<nat>)
    requires AllNeeded(c, stack, visited, dfs) && stack != [] && forall o :: o in operands ==> Needed(c, o)
    ensures AllNeeded(c, stack + operands, visited[stack[|stack| - 1] := false], dfs)
  {
    assert stack[|stack| - 1] in stack;
    forall x | x in stack + operands ensures Needed(c, x) {
      assert x in stack || x in operands;
    }
  }

  /** Dropping a finished node from the stack. */
  lemma PopFinished(c: Computation, rank: seq<nat>, stack: seq<nat>, visited: map<nat, bool>, dfs: seq<nat>)
    requires c.Valid() && c.RankedBy(rank) && Traversing(c, rank, stack, visited, dfs)
    requires stack != [] && stack[|stack| - 1] in dfs
    ensures Traversing(c, rank, stack[..|stack| - 1], visited, dfs)
  {
    PopWaits(c, rank, stack, visited, dfs);
    TopAndRest(stack);
  }

  lemma TopAndRest(stack: seq<nat>)
    requires stack != []
    ensures forall x :: x in stack <==> x in stack[..|stack| - 1] || x == stack[|stack| - 1]
  {
    assert stack == stack[..|stack| - 1] + [stack[|stack| - 1]];
  }

  lemma PopWaits(c: Computation, rank: seq<nat>, stack: seq<nat>, visited: map<nat, bool>, dfs: seq<nat>)
    requires |rank| == |c.code| && OnStack(c, stack) && stack != []
    requires (forall x :: x in visited ==> x < |c.code|) && AllWait(c, rank, stack, visited, dfs)
    requires stack[|stack| - 1] in dfs && (forall x :: x in dfs ==> x in visited && visited[x])
    ensures AllWait(c, rank, stack[..|stack| - 1], visited, dfs)
  {
    var last := |stack| - 1;
    var popped := stack[..last];
    forall x | x in visited && !visited[x] ensures Waits(c, rank, popped, dfs, x) {
      WaitsAbove(c, rank, stack, dfs, x);
    }
  }

  lemma WaitsAbove(c: Computation, rank: seq<nat>, stack: seq<nat>, dfs: seq<nat>, x: nat)
    requires |rank| == |c.code| && OnStack(c, stack) && stack != [] && x < |c.code|
    requires stack[|stack| - 1] in dfs && stack[|stack| - 1] != x && Waits(c, rank, stack, dfs, x)
    ensures Waits(c, rank, stack[..|stack| - 1], dfs, x)
  {
    var last := |stack| - 1;
    var popped := stack[..last];
    var i: nat :| WaitsAt(c, rank, stack, dfs, x, i);
    assert i < last;
    assert stack[i + 1..] == popped[i + 1..] + [stack[last]];
    assert WaitsAt(c, rank, popped, dfs, x, i);
  }

  /** A node on top of the stack that is being visited has all its operands listed. */
  lemma TopIsReady(c: Computation, rank: seq<nat>, stack: seq<nat>, visited: map<nat, bool>, dfs: seq<nat>)
    requires c.Valid() && c.RankedBy(rank) && Traversing(c, rank, stack, visited, dfs)
    requires stack != [] && stack[|stack| - 1] in visited && !visited[stack[|stack| - 1]]
    ensures forall o :: o in c.code[stack[|stack| - 1]].operands ==> o in dfs
  {
    var last := |stack| - 1;
    var next := stack[last];
    var i: nat :| WaitsAt(c, rank, stack, dfs, next, i);
    assert i == last;
    assert stack[last + 1..] == [];
  }

  /** The nodes listed when `next` is finished: its whole group of elements, or itself. */
  ghost function Group(c: Computation, next: nat): (group: seq<nat>)
    requires next < |c.code|
  {
    if c.IsElement(next) then c.code[c.code[next].operands[0]].users else [next]
  }

  function Mark(visited: map<nat, bool>, group: seq<nat>): (marked: map<nat, bool>)
    ensures forall x :: x in marked <==> x in visited || x in group
    ensures forall x :: x in marked ==> marked[x] == if x in group then true else visited[x]
  {
    if group == [] then visited else Mark(visited, group[..|group| - 1])[group[|group| - 1] := true]
  }

  /** Listing the group keeps the list an operands-first enumeration without repetitions. */
  lemma FinishEmits(c: Computation, visited: map<nat, bool>, dfs: seq<nat>, next: nat)
    requires c.Valid() && next < |c.code| && next !in dfs && Emitted(c, visited, dfs)
    requires forall o :: o in c.code[next].operands ==> o in dfs
    ensures Emitted(c, Mark(visited, Group(c, next)), dfs + Group(c, next))
  {
    var group := Group(c, next);
    GroupFacts(c, visited, dfs, next);
    AppendGroup(c, dfs, group);
    forall x | x in dfs + group && c.IsElement(x) ensures Together(dfs + group, c.code[c.code[x].operands[0]].users) {
      var siblings := c.code[c.code[x].operands[0]].users;
      if x in dfs {
        TogetherFacts(dfs, siblings, group);
      } else {
        assert x in group;
        assert c.code[x].operands == c.code[next].operands;
        assert c.IsElement(next) && siblings == group;
        TogetherFacts(dfs, group, []);
      }
    }
  }

  lemma GroupFacts(c: Computation, visited: map<nat, bool>, dfs: seq<nat>, next: nat)
    requires c.Valid() && next < |c.code| && next !in dfs && Emitted(c, visited, dfs)
    requires forall o :: o in c.code[next].operands ==> o in dfs
    ensures var group := Group(c, next);
            && next in group && Distinct(group)
            && (forall u :: u in group ==> u == next || (Leads(c, next, u) && c.IsElement(u)))
            && (forall u :: u in group ==> u < |c.code| && u !in dfs)
            && (forall u :: u in group ==> c.code[u].operands == c.code[next].operands)
  {
    var group := Group(c, next);
    if c.IsElement(next) {
      var call := c.code[next].operands[0];
      assert call in c.code[next].operands;
      assert c.IsUnpacked(call);
      forall u | u in group ensures u < |c.code| && u !in dfs && c.code[u].operands == c.code[next].operands {
        assert u in c.code[call].users;
        assert u < |c.code| && call in c.code[u].operands;
        assert |c.code[u].operands| == 1;
        assert c.code[u].operands == [call] == c.code[next].operands;
        assert c.IsElement(u);
        assert next in c.code[call].users;
      }
    }
  }

  lemma AppendGroup(c: Computation, dfs: seq<nat>, group: seq<nat>)
    requires OperandsFirst(c, dfs) && Distinct(group)
    requires forall u :: u in group ==> u < |c.code| && u !in dfs && forall o :: o in c.code[u].operands ==> o in dfs
    ensures OperandsFirst(c, dfs + group)
  {
    var list := dfs + group;
    forall k | 0 <= k < |group| ensures group[k] in group {}
    forall i, o | 0 <= i < |list| && list[i] < |c.code| && o in c.code[list[i]].operands ensures o in list[..i] {
      if i < |dfs| {
        assert list[..i] == dfs[..i];
      } else {
        assert list[i] in group;
        assert o in dfs;
        assert list[..i] == dfs + group[..i - |dfs|];
      }
    }
  }

  lemma FinishStep(c: Computation, rank: seq<nat>, stack: seq<nat>, visited: map<nat, bool>, dfs: seq<nat>)
    requires c.Valid() && c.RankedBy(rank) && Traversing(c, rank, stack, visited, dfs)
    requires stack != [] && stack[|stack| - 1] in visited && !visited[stack[|stack| - 1]]
    ensures var group := Group(c, stack[|stack| - 1]);
            Traversing(c, rank, stack[..|stack| - 1], Mark(visited, group), dfs + group)
  {
    var next := stack[|stack| - 1];
    var group := Group(c, next);
    var visited', dfs' := Mark(visited, group), dfs + group;
    assert next in stack && next !in dfs;
    TopIsReady(c, rank, stack, visited, dfs);
    FinishEmits(c, visited, dfs, next);
    GroupFacts(c, visited, dfs, next);
    ListingKeepsWaits(c, rank, stack, visited, dfs, group);
    forall x | x in group ensures Needed(c, x) {
      if x != next {
        NeededNext(c, next, x);
      }
    }
    assert AllNeeded(c, stack, visited', dfs');
    PopFinished(c, rank, stack, visited', dfs');
  }

  lemma ReadyGroup(c: Computation, rank: seq<nat>, stack: seq<nat>, visited: map<nat, bool>, dfs: seq<nat>)
    requires c.Valid() && c.RankedBy(rank) && Traversing(c, rank, stack, visited, dfs)
    requires stack != [] && stack[|stack| - 1] in visited && !visited[stack[|stack| - 1]]
    ensures var next := stack[|stack| - 1];
            next < |c.code| && next in Group(c, next) && next !in dfs && forall u :: u in Group(c, next) ==> u == next || c.IsElement(u)
  {
    var next := stack[|stack| - 1];
    assert next in stack && next !in dfs;
    TopIsReady(c, rank, stack, visited, dfs);
    GroupFacts(c, visited, dfs, next);
  }

  lemma ListingKeepsWaits(c: Computation, rank: seq<nat>, stack: seq<nat>, visited: map<nat, bool>, dfs: seq<nat>, group: seq<nat>)
    requires |rank| == |c.code| && OnStack(c, stack)
    requires (forall x :: x in visited ==> x < |c.code|) && (forall x :: x in group ==> x < |c.code|)
    requires AllWait(c, rank, stack, visited, dfs)
    ensures AllWait(c, rank, stack, Mark(visited, group), dfs + group)
  {
    var visited' := Mark(visited, group);
    forall x | x in visited' && !visited'[x] ensures Waits(c, rank, stack, dfs + group, x) {
      var i: nat :| WaitsAt(c, rank, stack, dfs, x, i);
      assert WaitsAt(c, rank, stack, dfs + group, x, i);
    }
  }

  /** When the stack is empty, everything the root needs has been listed. */
  lemma {:induction false} NeededIsListed(c: Computation, rank: seq<nat>, visited: map<nat, bool>, dfs: seq<nat>, chain: seq<nat>)
    requires |rank| == |c.code| && Traversing(c, rank, [], visited, dfs) && IsChain(c, chain)
    ensures chain[|chain| - 1] in dfs
    decreases |chain|
  {
    if |chain| > 1 {
      var shorter := chain[..|chain| - 1];
      forall i | 0 <= i < |shorter| - 1 ensures Leads(c, shorter[i], shorter[i + 1]) {
        assert Leads(c, chain[i], chain[i + 1]);
      }
      NeededIsListed(c, rank, visited, dfs, shorter);
      var a, b := chain[|chain| - 2], chain[|chain| - 1];
      assert Leads(c, a, b);
      var i :| 0 <= i < |dfs| && dfs[i] == a;
      assert b in c.code[a].operands ==> b in dfs[..i];
    }
  }

  // ---- colors ----

  ghost function PriorityOf(priority: map<string, nat>, color: string): nat {
    if color in priority then priority[color] else 0
  }

  /** The priorities order the colors by their last visits, and the last color has the highest. */
  ghost predicate Prioritized(c: Computation, visits: seq<nat>, priority: map<string, nat>, last: Option<string>, next: nat) {
    && (forall x :: x in priority ==> 0 < priority[x] < next) && next > 0
    && (last.Some? ==> last.value in priority && forall x :: x in priority && x != last.value ==> priority[x] < priority[last.value])
    && (forall a, b :: PriorityOf(priority, a) > PriorityOf(priority, b) <==> LastVisit(c, visits, a) > LastVisit(c, visits, b))
  }

  /** A visit makes its color the last one, with the highest priority. */
  lemma VisitPrioritized(c: Computation, visits: seq<nat>, priority: map<string, nat>, last: Option<string>, next: nat, n: nat)
    requires Prioritized(c, visits, priority, last, next) && n < |c.code|
    ensures c.code[n].color == None || c.code[n].color == last ==> Prioritized(c, visits + [n], priority, last, next)
    ensures c.code[n].color.Some? && c.code[n].color != last ==>
              Prioritized(c, visits + [n], priority[c.code[n].color.value := next], c.code[n].color, next + 1)
  {
    var color := c.code[n].color;
    var after := visits + [n];
    assert after[..|visits|] == visits;
    forall a ensures LastVisit(c, after, a) == if color == Some(a) then |visits| + 1 else LastVisit(c, visits, a) {
    }
    if color.Some? && color != last {
      var later := priority[color.value := next];
      forall a ensures PriorityOf(later, a) == if color == Some(a) then next else PriorityOf(priority, a) {
      }
    }
  }

  ghost predicate AboveAt(stack: seq<nat>, other: nat, own: nat, j: nat) {
    j < |stack| && stack[j] == other && forall i :: 0 <= i < |stack| && stack[i] == own ==> i < j
  }

  ghost predicate IsAbove(stack: seq<nat>, other: nat, own: nat) {
    exists j :: AboveAt(stack, other, own, j)
  }

  /** Once `n` is visited, `other` is taken first. */
  ghost predicate OtherFirst(stack: seq<nat>, dfs: seq<nat>, own: nat, other: nat) {
    ListedBefore(dfs, other, own) && (other in dfs || IsAbove(stack, other, own))
  }

  /** Before an instruction is visited nobody knows what it alone reads; afterwards that waits for operands of less recent colors. */
  ghost predicate AllOwnWait(c: Computation, visits: seq<nat>, stack: seq<nat>, visited: map<nat, bool>, dfs: seq<nat>) {
    && (forall n, own :: IsPrivate(c, n, own) && n !in visited ==> own !in stack && own !in visited)
    && (forall n, own, other :: n in visited && Postpones(c, visits, n, own, other) ==> OtherFirst(stack, dfs, own, other))
  }

  /** In the sorted operands of an instruction, those of more recent colors come first. */
  lemma SortPutsRecentFirst(c: Computation, visits: seq<nat>, priority: map<string, nat>, last: Option<string>, next: nat, own: nat, other: nat,
                            operands: seq<nat>, i: nat, j: nat)
    requires Prioritized(c, visits, priority, last, next) && SortedByKey(c, priority, operands)
    requires Recency(c, visits, own) > Recency(c, visits, other)
    requires i < |operands| && j < |operands| && operands[i] == own && operands[j] == other
    ensures i < j
  {
    if other < |c.code| && c.code[other].color.Some? {
      assert PriorityOf(priority, c.code[own].color.value) > PriorityOf(priority, c.code[other].color.value);
    }
    assert SortKey(c, priority, own) > SortKey(c, priority, other);
  }

  /** After the operands are pushed, every occurrence of `own` lies below one of `other`. */
  lemma PushedBelow(c: Computation, visits: seq<nat>, stack: seq<nat>, operands: seq<nat>, priority: map<string, nat>, last: Option<string>,
                    nextPriority: nat, own: nat, other: nat)
    requires Prioritized(c, visits, priority, last, nextPriority) && SortedByKey(c, priority, operands)
    requires Recency(c, visits, own) > Recency(c, visits, other) && own !in stack && other in operands
    ensures IsAbove(stack + operands, other, own)
  {
    var j :| 0 <= j < |operands| && operands[j] == other;
    forall i | 0 <= i < |stack + operands| && (stack + operands)[i] == own ensures i < |stack| + j {
      if i >= |stack| {
        SortPutsRecentFirst(c, visits, priority, last, nextPriority, own, other, operands, i - |stack|, j);
      }
    }
    assert AboveAt(stack + operands, other, own, |stack| + j);
  }

  /** Operands of other instructions do not touch what waits. */
  lemma PushedBeside(stack: seq<nat>, operands: seq<nat>, own: nat, other: nat)
    requires own !in operands
    ensures IsAbove(stack, other, own) ==> IsAbove(stack + operands, other, own)
    ensures own !in stack ==> own !in stack + operands
  {
    if IsAbove(stack, other, own) {
      var j: nat :| AboveAt(stack, other, own, j);
      assert AboveAt(stack + operands, other, own, j);
    }
  }

  /** What an unvisited instruction alone reads stays unknown when the operands of another one are pushed. */
  lemma ExpandUnknown(c: Computation, stack: seq<nat>, visited: map<nat, bool>, operands: seq<nat>, next: nat, n: nat, own: nat)
    requires c.Valid() && next < |c.code| && next in stack && IsPrivate(c, n, own) && n != next && n !in visited
    requires own !in stack && own !in visited && forall o :: o in operands ==> o in c.code[next].operands
    ensures own !in stack + operands && own !in visited[next := false]
  {
    assert next !in c.code[own].users;
  }

  lemma ExpandOther(c: Computation, visits: seq<nat>, stack: seq<nat>, dfs: seq<nat>, operands: seq<nat>, next: nat, n: nat, own: nat, other: nat)
    requires c.Valid() && next < |c.code| && IsPrivate(c, n, own) && n != next
    requires OtherFirst(stack, dfs, own, other) && forall o :: o in operands ==> o in c.code[next].operands
    ensures OtherFirst(stack + operands, dfs, own, other)
  {
    assert next !in c.code[own].users;
    PushedBeside(stack, operands, own, other);
  }

  lemma ExpandOwn(c: Computation, visits: seq<nat>, stack: seq<nat>, visited: map<nat, bool>, dfs: seq<nat>, operands: seq<nat>,
                  priority: map<string, nat>, last: Option<string>, nextPriority: nat)
    requires c.Valid() && stack != [] && stack[|stack| - 1] < |c.code| && stack[|stack| - 1] !in visited
    requires Emitted(c, visited, dfs) && AllOwnWait(c, visits, stack, visited, dfs)
    requires multiset(operands) == multiset(c.code[stack[|stack| - 1]].operands) && SortedByKey(c, priority, operands)
    requires Prioritized(c, visits + [stack[|stack| - 1]], priority, last, nextPriority)
    ensures AllOwnWait(c, visits + [stack[|stack| - 1]], stack + operands, visited[stack[|stack| - 1] := false], dfs)
  {
    var next := stack[|stack| - 1];
    assert next in stack;
    forall o ensures o in operands <==> o in c.code[next].operands {
      assert o in multiset(operands) <==> o in multiset(c.code[next].operands);
    }
    forall n: nat, own: nat | IsPrivate(c, n, own) && n !in visited[next := false] ensures own !in stack + operands && own !in visited[next := false] {
      ExpandUnknown(c, stack, visited, operands, next, n, own);
    }
    forall n: nat, own: nat, other: nat | n in visited[next := false] && Postpones(c, visits + [next], n, own, other)
      ensures OtherFirst(stack + operands, dfs, own, other)
    {
      UpToOther(visits, next, n);
      if n == next {
        PushedBelow(c, visits + [next], stack, operands, priority, last, nextPriority, own, other);
      } else {
        ExpandOther(c, visits, stack, dfs, operands, next, n, own, other);
      }
    }
  }

  lemma PopOwn(c: Computation, visits: seq<nat>, stack: seq<nat>, visited: map<nat, bool>, dfs: seq<nat>)
    requires stack != [] && stack[|stack| - 1] in dfs && AllOwnWait(c, visits, stack, visited, dfs)
    ensures AllOwnWait(c, visits, stack[..|stack| - 1], visited, dfs)
  {
    var popped := stack[..|stack| - 1];
    forall n: nat, own: nat, other: nat | n in visited && Postpones(c, visits, n, own, other) ensures OtherFirst(popped, dfs, own, other) {
      assert OtherFirst(stack, dfs, own, other);
      if other !in dfs {
        var j: nat :| AboveAt(stack, other, own, j);
        assert AboveAt(popped, other, own, j);
      }
    }
  }

  lemma FinishOwn(c: Computation, visits: seq<nat>, stack: seq<nat>, visited: map<nat, bool>, dfs: seq<nat>, next: nat, group: seq<nat>)
    requires stack != [] && stack[|stack| - 1] == next && next in visited && next in group && next !in dfs
    requires (forall u :: u in group ==> u == next || c.IsElement(u)) && AllOwnWait(c, visits, stack, visited, dfs)
    ensures AllOwnWait(c, visits, stack[..|stack| - 1], Mark(visited, group), dfs + group)
  {
    var visited', dfs' := Mark(visited, group), dfs + group;
    forall n: nat, own: nat | IsPrivate(c, n, own) && n !in visited' ensures own !in stack && own !in visited' {
      assert n !in visited;
    }
    forall n: nat, own: nat, other: nat | n in visited' && Postpones(c, visits, n, own, other) ensures OtherFirst(stack, dfs', own, other) {
      OwnListed(c, visits, stack, visited, dfs, next, group, n, own, other);
    }
    PopOwn(c, visits, stack, visited', dfs');
  }

  lemma OwnListed(c: Computation, visits: seq<nat>, stack: seq<nat>, visited: map<nat, bool>, dfs: seq<nat>, next: nat, group: seq<nat>,
                  n: nat, own: nat, other: nat)
    requires stack != [] && stack[|stack| - 1] == next && next in visited && next in group && next !in dfs
    requires forall u :: u in group ==> u == next || c.IsElement(u)
    requires n in Mark(visited, group) && Postpones(c, visits, n, own, other) && AllOwnWait(c, visits, stack, visited, dfs)
    ensures OtherFirst(stack, dfs + group, own, other)
  {
    var list := dfs + group;
    assert n in visited;
    assert OtherFirst(stack, dfs, own, other);
    assert own == next ==> other in dfs;
    forall j | 0 <= j < |list| && list[j] == own ensures other in list[..j] {
      if j < |dfs| {
        assert list[..j] == dfs[..j];
      } else {
        assert group[j - |dfs|] == own && own == next;
        assert list[..j] == dfs + group[..j - |dfs|];
      }
    }
  }

  /** Lists a finished node, together with all its siblings when it is an element of a custom call. */
  method ListGroup(c: Computation, next: nat, seen: map<nat, bool>, listed: seq<nat>) returns (visited: map<nat, bool>, dfs: seq<nat>)
    requires next < |c.code|
    ensures visited == Mark(seen, Group(c, next)) && dfs == listed + Group(c, next)
  {
    visited, dfs := seen, listed;
    if c.IsElement(next) {
      var users := c.code[c.code[next].operands[0]].users;
      for k := 0 to |users|
        invariant dfs == listed + users[..k] && visited == Mark(seen, users[..k])
      {
        assert users[..k + 1][..k] == users[..k];
        dfs := dfs + [users[k]];
        visited := visited[users[k] := true];
      }
      assert users[..|users|] == users;
    } else {
      visited := visited[next := true];
      dfs := dfs + [next];
    }
  }

  /** The loop invariant of the whole walk: operands wait their turn, and those of more recent colors wait longer. */
  ghost predicate Walking(c: Computation, rank: seq<nat>, visits: seq<nat>, stack: seq<nat>, visited: map<nat, bool>, dfs: seq<nat>)
    requires |rank| == |c.code|
  {
    Traversing(c, rank, stack, visited, dfs) && AllOwnWait(c, visits, stack, visited, dfs) && AllVisited(c, visits, visited)
  }

  /** Only elements of custom calls are listed without a visit of their own. */
  ghost predicate AllVisited(c: Computation, visits: seq<nat>, visited: map<nat, bool>) {
    forall n :: n in visited ==> n in visits || c.IsElement(n)
  }

  ghost function Unvisited(c: Computation, visited: map<nat, bool>): set<nat> {
    NatsBelow(|c.code|) - visited.Keys
  }

  lemma WalkStart(c: Computation, rank: seq<nat>)
    requires c.Valid() && |rank| == |c.code|
    ensures Walking(c, rank, [], [c.root], map[], [])
  {
    assert IsChain(c, [c.root]) && [c.root][|[c.root]| - 1] == c.root;
  }

  lemma WalkFinish(c: Computation, rank: seq<nat>, visits: seq<nat>, stack: seq<nat>, visited: map<nat, bool>, dfs: seq<nat>)
    requires c.Valid() && c.RankedBy(rank) && Walking(c, rank, visits, stack, visited, dfs)
    requires stack != [] && stack[|stack| - 1] in visited && !visited[stack[|stack| - 1]]
    ensures var group := Group(c, stack[|stack| - 1]);
            Walking(c, rank, visits, stack[..|stack| - 1], Mark(visited, group), dfs + group)
            && |Unvisited(c, Mark(visited, group))| <= |Unvisited(c, visited)|
  {
    var next := stack[|stack| - 1];
    ReadyGroup(c, rank, stack, visited, dfs);
    GroupMembers(c, next);
    FinishOwn(c, visits, stack, visited, dfs, next, Group(c, next));
    FinishStep(c, rank, stack, visited, dfs);
    SubsetShrinks(|c.code|, visited, Mark(visited, Group(c, next)));
  }

  lemma WalkPop(c: Computation, rank: seq<nat>, visits: seq<nat>, stack: seq<nat>, visited: map<nat, bool>, dfs: seq<nat>)
    requires c.Valid() && c.RankedBy(rank) && Walking(c, rank, visits, stack, visited, dfs)
    requires stack != [] && stack[|stack| - 1] in visited && visited[stack[|stack| - 1]]
    ensures Walking(c, rank, visits, stack[..|stack| - 1], visited, dfs)
  {
    PopFinished(c, rank, stack, visited, dfs);
    PopOwn(c, visits, stack, visited, dfs);
  }

  /** At the end, the operands that wait for others are listed after them. */
  lemma OwnAreLast(c: Computation, visits: seq<nat>, visited: map<nat, bool>, dfs: seq<nat>)
    requires AllOwnWait(c, visits, [], visited, dfs) && AllVisited(c, visits, visited) && forall n :: n in dfs ==> n in visited
    ensures OwnColorLast(c, dfs) && RecentColorLast(c, visits, dfs)
  {
    forall n: nat, own: nat, other: nat | n in dfs && Postpones(c, visits, n, own, other) ensures ListedBefore(dfs, other, own) {
      assert OtherFirst([], dfs, own, other);
    }
    forall n: nat, own: nat, other: nat | n in dfs && Prefers(c, n, own, other) ensures ListedBefore(dfs, other, own) {
      if n in visits {
        OwnIsMostRecent(c, visits, n, own, other);
      }
    }
  }

  /** At the end, everything the root needs has been listed, and operands of recent colors came last. */
  lemma WalkEnd(c: Computation, rank: seq<nat>, visits: seq<nat>, visited: map<nat, bool>, dfs: seq<nat>)
    requires c.Valid() && c.RankedBy(rank) && Walking(c, rank, visits, [], visited, dfs)
    ensures IsColorSorted(c, visits, dfs)
  {
    OwnAreLast(c, visits, visited, dfs);
    forall x ensures x in dfs <==> Needed(c, x) {
      if Needed(c, x) {
        var chain :| IsChain(c, chain) && chain[|chain| - 1] == x;
        NeededIsListed(c, rank, visited, dfs, chain);
      }
    }
  }

  /** What holds on every computation: the list holds the finished nodes, and elements of a custom call are together. */
  ghost predicate Underway(c: Computation, stack: seq<nat>, visited: map<nat, bool>, dfs: seq<nat>) {
    && OnStack(c, stack) && (forall x :: x in visited ==> x < |c.code|)
    && (forall x :: x in dfs <==> x in visited && visited[x])
    && ElementsTogether(c, dfs) && (c.root in dfs || c.root in stack)
  }

  lemma UnderwayExpand(c: Computation, stack: seq<nat>, visited: map<nat, bool>, dfs: seq<nat>, operands: seq<nat>)
    requires c.Linked() && Underway(c, stack, visited, dfs) && stack != [] && stack[|stack| - 1] !in visited
    requires stack[|stack| - 1] < |c.code| && multiset(operands) == multiset(c.code[stack[|stack| - 1]].operands)
    ensures Underway(c, stack + operands, visited[stack[|stack| - 1] := false], dfs)
  {
    forall k | 0 <= k < |operands| ensures operands[k] < |c.code| {
      assert operands[k] in multiset(operands);
      assert operands[k] in c.code[stack[|stack| - 1]].operands;
    }
  }

  lemma UnderwayPop(c: Computation, stack: seq<nat>, visited: map<nat, bool>, dfs: seq<nat>)
    requires Underway(c, stack, visited, dfs) && stack != [] && stack[|stack| - 1] in dfs
    ensures Underway(c, stack[..|stack| - 1], visited, dfs)
  {
    assert stack == stack[..|stack| - 1] + [stack[|stack| - 1]];
  }

  lemma UnderwayFinish(c: Computation, stack: seq<nat>, visited: map<nat, bool>, dfs: seq<nat>)
    requires c.Linked() && Underway(c, stack, visited, dfs) && stack != [] && stack[|stack| - 1] in visited && !visited[stack[|stack| - 1]]
    ensures stack[|stack| - 1] < |c.code|
    ensures var group := Group(c, stack[|stack| - 1]);
            Underway(c, stack[..|stack| - 1], Mark(visited, group), dfs + group) && |Unvisited(c, Mark(visited, group))| <= |Unvisited(c, visited)|
  {
    var next := stack[|stack| - 1];
    var group := Group(c, next);
    GroupMembers(c, next);
    GroupTogether(c, dfs, next);
    assert Underway(c, stack, Mark(visited, group), dfs + group);
    UnderwayPop(c, stack, Mark(visited, group), dfs + group);
    SubsetShrinks(|c.code|, visited, Mark(visited, group));
  }

  lemma GroupMembers(c: Computation, next: nat)
    requires c.Linked() && next < |c.code|
    ensures next in Group(c, next) && forall u :: u in Group(c, next) ==> u < |c.code|
  {
    if c.IsElement(next) {
      var call := c.code[next].operands[0];
      assert call in c.code[next].operands && call < |c.code|;
      assert next in c.code[call].users;
      forall u | u in c.code[call].users ensures u < |c.code| {
        assert u < |c.code| && call in c.code[u].operands;
      }
    }
  }

  lemma GroupTogether(c: Computation, dfs: seq<nat>, next: nat)
    requires c.Linked() && next < |c.code| && ElementsTogether(c, dfs)
    ensures ElementsTogether(c, dfs + Group(c, next))
  {
    var group := Group(c, next);
    forall x | x in dfs + group && c.IsElement(x) ensures Together(dfs + group, c.code[c.code[x].operands[0]].users) {
      if x in dfs {
        TogetherFacts(dfs, c.code[c.code[x].operands[0]].users, group);
      } else {
        ElementOfGroup(c, next, x);
        TogetherFacts(dfs, group, []);
      }
    }
  }

  lemma ElementOfGroup(c: Computation, next: nat, x: nat)
    requires c.Linked() && next < |c.code| && x in Group(c, next) && c.IsElement(x)
    ensures c.code[c.code[x].operands[0]].users == Group(c, next)
  {
    if c.IsElement(next) {
      var call := c.code[next].operands[0];
      assert call in c.code[next].operands && x in c.code[call].users;
      assert call in c.code[x].operands;
    }
  }

  lemma WalkExpand(c: Computation, rank: seq<nat>, visits: seq<nat>, stack: seq<nat>, visited: map<nat, bool>, dfs: seq<nat>, operands: seq<nat>,
                   priority: map<string, nat>, last: Option<string>, nextPriority: nat)
    requires c.RankedBy(rank) && stack != [] && stack[|stack| - 1] < |c.code| && stack[|stack| - 1] !in visited
    requires multiset(operands) == multiset(c.code[stack[|stack| - 1]].operands) && SortedByKey(c, priority, operands)
    requires Prioritized(c, visits + [stack[|stack| - 1]], priority, last, nextPriority)
    ensures c.Valid() && Walking(c, rank, visits, stack, visited, dfs) ==>
              Walking(c, rank, visits + [stack[|stack| - 1]], stack + operands, visited[stack[|stack| - 1] := false], dfs)
  {
    if c.Valid() && Walking(c, rank, visits, stack, visited, dfs) {
      ExpandOwn(c, visits, stack, visited, dfs, operands, priority, last, nextPriority);
      ExpandStep(c, rank, stack, visited, dfs, operands);
    }
  }

  /** Visits so far: the next ones are read by one of them. */
  ghost predicate VisitsLead(c: Computation, visits: seq<nat>, stack: seq<nat>, visited: map<nat, bool>) {
    && AreVisits(c, visits) && (forall n :: n in visits ==> n in visited)
    && forall x :: x in stack ==> x == c.root || IsReadBy(c, visits, x)
  }

  ghost predicate IsReadBy(c: Computation, visits: seq<nat>, x: nat) {
    exists n :: n in visits && n < |c.code| && x in c.code[n].operands
  }

  lemma VisitLeads(c: Computation, visits: seq<nat>, stack: seq<nat>, visited: map<nat, bool>, operands: seq<nat>)
    requires VisitsLead(c, visits, stack, visited) && stack != [] && stack[|stack| - 1] < |c.code| && stack[|stack| - 1] !in visited
    requires multiset(operands) == multiset(c.code[stack[|stack| - 1]].operands)
    ensures VisitsLead(c, visits + [stack[|stack| - 1]], stack + operands, visited[stack[|stack| - 1] := false])
  {
    var next := stack[|stack| - 1];
    var after := visits + [next];
    assert next in stack && next !in visits;
    if visits != [] {
      assert visits[0] in visits;
      assert IsReadBy(c, visits, next);
      var n :| n in visits && n < |c.code| && next in c.code[n].operands;
      var j :| 0 <= j < |visits| && visits[j] == n;
      assert after[j] == n;
      assert ReadBefore(c, after, |visits|);
    }
    forall i | 0 < i < |visits| ensures ReadBefore(c, after, i) {
      assert ReadBefore(c, visits, i);
      var j :| 0 <= j < i && visits[j] < |c.code| && visits[i] in c.code[visits[j]].operands;
      assert after[j] == visits[j];
    }
    forall x | x in stack + operands && x != c.root ensures IsReadBy(c, after, x) {
      if x in stack {
        assert IsReadBy(c, visits, x);
        var n :| n in visits && n < |c.code| && x in c.code[n].operands;
        assert n in after;
      } else {
        assert x in multiset(operands);
        assert next in after && x in c.code[next].operands;
      }
    }
  }

  lemma VisitsLeadPop(c: Computation, visits: seq<nat>, stack: seq<nat>, visited: map<nat, bool>, after: map<nat, bool>)
    requires VisitsLead(c, visits, stack, visited) && stack != [] && visited.Keys <= after.Keys
    ensures VisitsLead(c, visits, stack[..|stack| - 1], after)
  {
    forall n | n in visits ensures n in after {
      assert n in visited.Keys;
    }
    forall x | x in stack[..|stack| - 1] ensures x == c.root || IsReadBy(c, visits, x) {
      assert x in stack;
    }
  }

  /** A first visit: the color of the instruction takes the highest priority, and its sorted operands are pushed. */
  method Expand(c: Computation, ghost rank: seq<nat>, ghost visits: seq<nat>, stack: seq<nat>, visited: map<nat, bool>, ghost dfs: seq<nat>,
                priority: map<string, nat>, last: Option<string>, nextPriority: nat)
    returns (newStack: seq<nat>, newVisited: map<nat, bool>, newPriority: map<string, nat>, newLast: Option<string>, newNext: nat)
    requires c.Linked() && c.RankedBy(rank) && Underway(c, stack, visited, dfs) && Prioritized(c, visits, priority, last, nextPriority)
    requires VisitsLead(c, visits, stack, visited)
    requires c.Valid() ==> Walking(c, rank, visits, stack, visited, dfs)
    requires stack != [] && stack[|stack| - 1] !in visited
    ensures Underway(c, newStack, newVisited, dfs) && Prioritized(c, visits + [stack[|stack| - 1]], newPriority, newLast, newNext)
    ensures VisitsLead(c, visits + [stack[|stack| - 1]], newStack, newVisited)
    ensures c.Valid() ==> Walking(c, rank, visits + [stack[|stack| - 1]], newStack, newVisited, dfs)
    ensures |Unvisited(c, newVisited)| < |Unvisited(c, visited)|
  {
    var next := stack[|stack| - 1];
    newPriority, newLast, newNext := priority, last, nextPriority;
    assert stack[|stack| - 1] < |c.code|;
    VisitPrioritized(c, visits, priority, last, nextPriority, next);
    var color := c.code[next].color;
    if color.Some? && color != last {
      newPriority, newNext := priority[color.value := nextPriority], nextPriority + 1;
      newLast := color;
    }
    var operands := SortOperands(c, newPriority, c.code[next].operands);
    UnderwayExpand(c, stack, visited, dfs, operands);
    VisitLeads(c, visits, stack, visited, operands);
    WalkExpand(c, rank, visits, stack, visited, dfs, operands, newPriority, newLast, newNext);
    FewerUnvisited(|c.code|, visited, next, false);
    newStack, newVisited := stack + operands, visited[next := false];
  }

  /** At the start, only the root is known. */
  lemma StartWalk(c: Computation, rank: seq<nat>)
    requires c.Linked() && |rank| == |c.code|
    ensures Underway(c, [c.root], map[], []) && VisitsLead(c, [], [c.root], map[]) && Prioritized(c, [], map[], None, 1)
    ensures c.Valid() ==> Walking(c, rank, [], [c.root], map[], [])
  {
    if c.Valid() {
      WalkStart(c, rank);
    }
  }

  /** The top of the stack was listed before: it is dropped. */
  lemma DropTop(c: Computation, rank: seq<nat>, visits: seq<nat>, stack: seq<nat>, visited: map<nat, bool>, dfs: seq<nat>)
    requires c.RankedBy(rank) && Underway(c, stack, visited, dfs) && VisitsLead(c, visits, stack, visited)
    requires stack != [] && stack[|stack| - 1] in visited && visited[stack[|stack| - 1]]
    ensures Underway(c, stack[..|stack| - 1], visited, dfs) && VisitsLead(c, visits, stack[..|stack| - 1], visited)
    ensures c.Valid() && Walking(c, rank, visits, stack, visited, dfs) ==> Walking(c, rank, visits, stack[..|stack| - 1], visited, dfs)
  {
    UnderwayPop(c, stack, visited, dfs);
    VisitsLeadPop(c, visits, stack, visited, visited);
    if c.Valid() && Walking(c, rank, visits, stack, visited, dfs) {
      WalkPop(c, rank, visits, stack, visited, dfs);
    }
  }

  /** The top of the stack is finished: it is listed with its siblings. */
  lemma FinishTop(c: Computation, rank: seq<nat>, visits: seq<nat>, stack: seq<nat>, visited: map<nat, bool>, dfs: seq<nat>)
    requires c.Linked() && c.RankedBy(rank) && Underway(c, stack, visited, dfs) && VisitsLead(c, visits, stack, visited)
    requires stack != [] && stack[|stack| - 1] in visited && !visited[stack[|stack| - 1]] && stack[|stack| - 1] < |c.code|
    ensures var group := Group(c, stack[|stack| - 1]);
            && Underway(c, stack[..|stack| - 1], Mark(visited, group), dfs + group)
            && VisitsLead(c, visits, stack[..|stack| - 1], Mark(visited, group))
            && |Unvisited(c, Mark(visited, group))| <= |Unvisited(c, visited)|
            && (c.Valid() && Walking(c, rank, visits, stack, visited, dfs) ==>
                  Walking(c, rank, visits, stack[..|stack| - 1], Mark(visited, group), dfs + group))
  {
    UnderwayFinish(c, stack, visited, dfs);
    VisitsLeadPop(c, visits, stack, visited, Mark(visited, Group(c, stack[|stack| - 1])));
    if c.Valid() && Walking(c, rank, visits, stack, visited, dfs) {
      WalkFinish(c, rank, visits, stack, visited, dfs);
    }
  }

  /** What the order promises when custom calls are read in one way only. */
  ghost predicate IsColorSorted(c: Computation, visits: seq<nat>, dfs: seq<nat>) {
    && OperandsFirst(c, dfs) && OwnColorLast(c, dfs) && RecentColorLast(c, visits, dfs)
    && (forall x :: x in dfs <==> Needed(c, x))
    && forall n :: n in dfs ==> n in visits || c.IsElement(n)
  }

  /** The traversal with an explicit stack. It ends on every computation, lists the root, and keeps the
      elements of a custom call together. When custom calls that are read through get-tuple-element are
      read in no other way, it lists exactly what the root needs (and the siblings of needed elements),
      each once, operands before users, and an instruction takes the operands that it alone reads the
      later, the more recently their color was visited: those of its own color last. */
  method ColorSortedPostorder(c: Computation, ghost rank: seq<nat>) returns (dfs: seq<nat>, ghost visits: seq<nat>)
    requires c.Linked() && c.RankedBy(rank)
    ensures ElementsTogether(c, dfs) && c.root in dfs && AreVisits(c, visits)
    ensures c.Valid() ==> IsColorSorted(c, visits, dfs)
  {
    var toVisit: seq<nat> := [c.root];
    dfs, visits := [], [];
    var visited: map<nat, bool> := map[];
    var colorPriority: map<string, nat> := map[];
    var lastColor: Option<string> := None;
    var nextPriority := 1;
    StartWalk(c, rank);
    while toVisit != []
      invariant Underway(c, toVisit, visited, dfs) && Prioritized(c, visits, colorPriority, lastColor, nextPriority)
      invariant VisitsLead(c, visits, toVisit, visited)
      invariant c.Valid() ==> Walking(c, rank, visits, toVisit, visited, dfs)
      decreases |Unvisited(c, visited)|, |toVisit|
    {
      var next := toVisit[|toVisit| - 1];
      assert toVisit[|toVisit| - 1] < |c.code|;
      if next !in visited {
        toVisit, visited, colorPriority, lastColor, nextPriority :=
          Expand(c, rank, visits, toVisit, visited, dfs, colorPriority, lastColor, nextPriority);
        visits := visits + [next];
      } else if visited[next] {
        DropTop(c, rank, visits, toVisit, visited, dfs);
        toVisit := toVisit[..|toVisit| - 1];
      } else {
        FinishTop(c, rank, visits, toVisit, visited, dfs);
        toVisit := toVisit[..|toVisit| - 1];
        visited, dfs := ListGroup(c, next, visited, dfs);
      }
    }
    if c.Valid() {
      WalkEnd(c, rank, visits, visited, dfs);
    }
  }

  lemma FewerUnvisited(n: nat, visited: map<nat, bool>, next: nat, done: bool)
    requires next < n && next !in visited
    ensures |NatsBelow(n) - visited[next := done].Keys| < |NatsBelow(n) - visited.Keys|
  {
    assert NatsBelow(n) - visited.Keys == (NatsBelow(n) - visited[next := done].Keys) + {next};
  }

  lemma SubsetShrinks(n: nat, visited: map<nat, bool>, marked: map<nat, bool>)
    requires visited.Keys <= marked.Keys
    ensures |NatsBelow(n) - marked.Keys| <= |NatsBelow(n) - visited.Keys|
  {
    var rest := NatsBelow(n) - marked.Keys;
    assert NatsBelow(n) - visited.Keys == rest + ((NatsBelow(n) - visited.Keys) - rest);
  }

  // ---- custom calls that are also read as a whole ----

  /** Each instruction of the path reads the next one. */
  ghost predicate ReadsAlong(c: Computation, path: seq<nat>) {
    path != [] && forall i :: 0 <= i < |path| - 1 ==> path[i] < |c.code| && path[i + 1] in c.code[path[i]].operands
  }

  lemma {:induction false} ReadIsListedBefore(c: Computation, dfs: seq<nat>, path: seq<nat>, p: nat) returns (q: nat)
    requires ReadsAlong(c, path) && OperandsFirst(c, dfs) && p < |dfs| && dfs[p] == path[0]
    ensures q <= p && dfs[q] == path[|path| - 1]
    decreases |path|
  {
    q := p;
    if |path| > 1 {
      var r :| 0 <= r < p && dfs[r] == path[1];
      q := ReadIsListedBefore(c, dfs, path[1..], r);
    }
  }

  lemma SliceIsConvex(dfs: seq<nat>, group: seq<nat>, q: nat, p: nat, at: nat)
    requires Distinct(dfs) && Together(dfs, group)
    requires q <= p <= at < |dfs| && dfs[q] in group && dfs[at] in group
    ensures dfs[p] in group
  {
    var start: nat :| IsSliceAt(dfs, group, start);
    var i :| 0 <= i < |group| && group[i] == dfs[at];
    var j :| 0 <= j < |group| && group[j] == dfs[q];
    assert dfs[start..start + |group|][i] == dfs[start + i] && dfs[start..start + |group|][j] == dfs[start + j];
    assert start + i == at && start + j == q;
    assert dfs[p] == dfs[start..start + |group|][p - start];
  }

  /** The users of a custom call cannot all be listed together, operands first, when one of them needs
      another through an instruction that is not a user. */
  lemma MixedReadersStayApart(c: Computation, dfs: seq<nat>, users: seq<nat>, reader: nat, path: seq<nat>)
    requires reader < |c.code| && reader in users && reader in dfs && Together(dfs, users)
    requires ReadsAlong(c, path) && path[0] in c.code[reader].operands && path[0] !in users && path[|path| - 1] in users
    ensures !OperandsFirst(c, dfs)
  {
    if OperandsFirst(c, dfs) {
      var at :| 0 <= at < |dfs| && dfs[at] == reader;
      assert path[0] in dfs[..at];
      var p :| 0 <= p < at && dfs[p] == path[0];
      var q := ReadIsListedBefore(c, dfs, path, p);
      SliceIsConvex(dfs, users, q, p, at);
    }
  }

  /** So the traversal fails on every computation in which a reader of a custom call needs an element of the
      call through an instruction that does not read the call. */
  lemma ReaderIsMisplaced(c: Computation, dfs: seq<nat>, call: nat, reader: nat, path: seq<nat>)
    requires ElementsTogether(c, dfs) && reader in dfs && reader < |c.code| && call < |c.code| && reader in c.code[call].users
    requires ReadsAlong(c, path) && path[0] in c.code[reader].operands && path[0] !in c.code[call].users
    requires path[|path| - 1] in c.code[call].users && c.IsElement(path[|path| - 1]) && c.code[path[|path| - 1]].operands[0] == call
    ensures !OperandsFirst(c, dfs)
  {
    if OperandsFirst(c, dfs) {
      var at :| 0 <= at < |dfs| && dfs[at] == reader;
      assert path[0] in dfs[..at];
      var p :| 0 <= p < at && dfs[p] == path[0];
      var q := ReadIsListedBefore(c, dfs, path, p);
      MixedReadersStayApart(c, dfs, c.code[call].users, reader, path);
    }
  }

  /** An element of call 0 feeds instruction 2, which the root 3 reads together with call 0 itself. */
  ghost function MixedReaders(): Computation {
    Computation([Instruction(CustomCall, [], [1, 3], None), Instruction(GetTupleElement, [0], [2], None),
                 Instruction(OtherOpcode, [1], [3], None), Instruction(OtherOpcode, [0, 2], [], None)], 3)
  }

  /** The edges of the example. */
  predicate MixedEdge(k: nat, o: nat) {
    (k == 1 && o == 0) || (k == 2 && o == 1) || (k == 3 && (o == 0 || o == 2))
  }

  ghost predicate HasMixedEdges(c: Computation, k: nat)
    requires k < |c.code|
  {
    && (forall o: nat :: o in c.code[k].operands <==> MixedEdge(k, o))
    && (forall u: nat :: u in c.code[k].users <==> MixedEdge(u, k))
    && Distinct(c.code[k].users) && (c.code[k].opcode.GetTupleElement? ==> |c.code[k].operands| == 1)
  }

  lemma MixedReadersEdges(k: nat)
    requires k < 4
    ensures HasMixedEdges(MixedReaders(), k)
  {
    var c := MixedReaders();
    if k == 0 {
      assert c.code[0].operands == [] && c.code[0].users == [1, 3];
    } else if k == 1 {
      assert c.code[1].operands == [0] && c.code[1].users == [2];
    } else if k == 2 {
      assert c.code[2].operands == [1] && c.code[2].users == [3];
    } else {
      assert c.code[3].operands == [0, 2] && c.code[3].users == [];
    }
  }

  lemma MixedEdgesLink(c: Computation)
    requires |c.code| == 4 && c.root == 3 && forall k :: 0 <= k < 4 ==> HasMixedEdges(c, k)
    ensures c.Linked()
  {
    forall k, o | 0 <= k < 4 && o in c.code[k].operands ensures o < 4 {
      assert HasMixedEdges(c, k);
    }
    forall k: nat, o | k < 4 && o in c.code[k].operands ensures k in c.code[o].users {
      assert HasMixedEdges(c, k) && HasMixedEdges(c, o);
    }
    forall k, u | 0 <= k < 4 && u in c.code[k].users ensures u < 4 {
      assert HasMixedEdges(c, k);
    }
    forall k, u | 0 <= k < 4 && u in c.code[k].users && u < 4 ensures k in c.code[u].operands {
      assert HasMixedEdges(c, k) && HasMixedEdges(c, u);
    }
    forall k | 0 <= k < 4 ensures Distinct(c.code[k].users) && (c.code[k].opcode.GetTupleElement? ==> |c.code[k].operands| == 1) {
      assert HasMixedEdges(c, k);
    }
  }

  lemma MixedEdgesAscend(c: Computation, rank: seq<nat>)
    requires |c.code| == 4 && forall k :: 0 <= k < 4 ==> HasMixedEdges(c, k)
    requires |rank| == 4 && forall k :: 0 <= k < 4 ==> rank[k] == k
    ensures c.RankedBy(rank)
  {
    forall k, o | 0 <= k < 4 && o in c.code[k].operands ensures o < k {
      assert HasMixedEdges(c, k);
    }
  }

  lemma MixedReadersLinked()
    ensures MixedReaders().Linked() && MixedReaders().RankedBy([0, 1, 2, 3])
  {
    forall k | 0 <= k < 4 ensures HasMixedEdges(MixedReaders(), k) {
      MixedReadersEdges(k);
    }
    MixedEdgesLink(MixedReaders());
    MixedEdgesAscend(MixedReaders(), [0, 1, 2, 3]);
  }

  /** No run of the traversal orders such a computation: listing all users together is not always safe. */
  lemma MixedReadersMisplaced(dfs: seq<nat>)
    requires ElementsTogether(MixedReaders(), dfs) && MixedReaders().root in dfs
    ensures MixedReaders().Linked() && MixedReaders().RankedBy([0, 1, 2, 3])
    ensures !OperandsFirst(MixedReaders(), dfs)
  {
    var c := MixedReaders();
    MixedReadersLinked();
    assert [2, 1][1] == 1 && c.code[2].operands[0] == 1 && c.code[3].operands[1] == 2 && c.code[0].users[0] == 1 && c.code[0].users[1] == 3;
    assert ReadsAlong(c, [2, 1]);
    ReaderIsMisplaced(c, dfs, 0, 3, [2, 1]);
  }

  /** The traversal ends on that computation, with some user before an operand or listed twice. */
  method SortMixedReaders() returns (dfs: seq<nat>)
    ensures !OperandsFirst(MixedReaders(), dfs)
  {
    var c := Computation([Instruction(CustomCall, [], [1, 3], None), Instruction(GetTupleElement, [0], [2], None),
                          Instruction(OtherOpcode, [1], [3], None), Instruction(OtherOpcode, [0, 2], [], None)], 3);
    MixedReadersLinked();
    ghost var visits;
    dfs, visits := ColorSortedPostorder(c, [0, 1, 2, 3]);
    MixedReadersMisplaced(dfs);
  }
}
