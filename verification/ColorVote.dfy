/** How an instruction picks its color from the colored operands and users around it. */
module ColorVote {
  import opened Wrappers
  import opened Sequences

  datatype Priority = Weight | Depth | Topological

  /** One colored operand or user: its size and its distance in depth and in topological order. */
  datatype Vote = Vote(color: string, weight: nat, depth: nat, topological: nat)

  /** The totals of one color: summed size, least distances. */
  datatype Score = Score(weight: nat, depth: nat, topological: nat)

  const LIMIT: nat := 0x7FFF_FFFF_FFFF_FFFF

  function Min(a: nat, b: nat): nat {
    if b < a then b else a
  }

  function Add(s: Score, v: Vote): Score {
    Score(s.weight + v.weight, Min(s.depth, v.depth), Min(s.topological, v.topological))
  }

  function ScoreOf(votes: seq<Vote>, color: string): Score {
    if votes == [] then Score(0, LIMIT, LIMIT)
    else
      var n := |votes| - 1;
      var before := ScoreOf(votes[..n], color);
      if votes[n].color == color then Add(before, votes[n]) else before
  }

  /** Strictly better under the priority; only the topological priority looks at one number alone. */
  predicate Better(priority: Priority, a: Score, b: Score) {
    match priority
    case Weight =>
      a.weight > b.weight || (a.weight == b.weight && (a.depth < b.depth || (a.depth == b.depth && a.topological < b.topological)))
    case Depth =>
      a.depth < b.depth || (a.depth == b.depth && (a.weight > b.weight || (a.weight == b.weight && a.topological < b.topological)))
    case Topological => a.topological < b.topological
  }

  /** Neither is better. */
  predicate Tied(priority: Priority, a: Score, b: Score) {
    !Better(priority, a, b) && !Better(priority, b, a)
  }

  /** What a priority looks at, the most important number first; smaller is better. */
  ghost function Ranking(priority: Priority, s: Score): seq<int> {
    match priority
    case Weight => [-(s.weight as int), s.depth, s.topological]
    case Depth => [s.depth, -(s.weight as int), s.topological]
    case Topological => [s.topological]
  }

  /** The first position in which two sequences differ decides. */
  ghost predicate Precedes(a: seq<int>, b: seq<int>) {
    exists k :: 0 <= k < |a| && k < |b| && a[k] < b[k] && a[..k] == b[..k]
  }

  /** Scores are compared lexicographically. */
  lemma BetterIff(priority: Priority, a: Score, b: Score)
    ensures Better(priority, a, b) <==> Precedes(Ranking(priority, a), Ranking(priority, b))
  {
    var s, t := Ranking(priority, a), Ranking(priority, b);
    if Better(priority, a, b) {
      var k := if s[0] < t[0] then 0 else if s[1] < t[1] then 1 else 2;
      assert s[k] < t[k] && s[..k] == t[..k];
    }
    if Precedes(s, t) {
      var k :| 0 <= k < |s| && k < |t| && s[k] < t[k] && s[..k] == t[..k];
      if k > 0 {
        assert s[..k][0] == t[..k][0];
      }
      if k > 1 {
        assert s[..k][1] == t[..k][1];
      }
    }
  }

  ghost predicate Voted(votes: seq<Vote>, color: string) {
    exists i :: 0 <= i < |votes| && votes[i].color == color
  }

  /** No color has a better final total. */
  ghost predicate IsBest(priority: Priority, votes: seq<Vote>, color: string) {
    Voted(votes, color) && forall c :: Voted(votes, c) ==> !Better(priority, ScoreOf(votes, c), ScoreOf(votes, color))
  }

  lemma VotedStep(votes: seq<Vote>, n: nat, color: string)
    requires n < |votes|
    ensures Voted(votes[..n + 1], color) <==> Voted(votes[..n], color) || votes[n].color == color
    ensures ScoreOf(votes[..n + 1], color) ==
            if votes[n].color == color then Add(ScoreOf(votes[..n], color), votes[n]) else ScoreOf(votes[..n], color)
  {
    assert votes[..n + 1][..n] == votes[..n] && votes[..n + 1][n] == votes[n];
    if Voted(votes[..n], color) {
      var i :| 0 <= i < n && votes[..n][i].color == color;
      assert votes[..n + 1][i].color == color;
    }
    if Voted(votes[..n + 1], color) {
      var i :| 0 <= i < n + 1 && votes[..n + 1][i].color == color;
      assert i < n ==> votes[..n][i].color == color;
    }
  }

  /** The maps of running totals. */
  ghost predicate Tracks(votes: seq<Vote>, weights: map<string, nat>, depths: map<string, nat>, topologicals: map<string, nat>) {
    && (forall c :: c in weights <==> Voted(votes, c))
    && (forall c :: c in depths <==> Voted(votes, c))
    && (forall c :: c in topologicals <==> Voted(votes, c))
    && (forall c :: Voted(votes, c) ==> Score(weights[c], depths[c], topologicals[c]) == ScoreOf(votes, c))
  }

  function ValueOr(m: map<string, nat>, key: string, value: nat): nat {
    if key in m then m[key] else value
  }

  lemma {:induction false} UnvotedScore(votes: seq<Vote>, color: string)
    requires !Voted(votes, color)
    ensures ScoreOf(votes, color) == Score(0, LIMIT, LIMIT)
  {
    if votes != [] {
      var n := |votes| - 1;
      assert votes[..n + 1] == votes;
      VotedStep(votes, n, color);
      UnvotedScore(votes[..n], color);
    }
  }

  lemma TracksStep(votes: seq<Vote>, n: nat, weights: map<string, nat>, depths: map<string, nat>, topologicals: map<string, nat>)
    requires n < |votes| && Tracks(votes[..n], weights, depths, topologicals)
    ensures var v := votes[n];
            Tracks(votes[..n + 1], weights[v.color := ValueOr(weights, v.color, 0) + v.weight],
                   depths[v.color := Min(ValueOr(depths, v.color, LIMIT), v.depth)],
                   topologicals[v.color := Min(ValueOr(topologicals, v.color, LIMIT), v.topological)])
  {
    if !Voted(votes[..n], votes[n].color) {
      UnvotedScore(votes[..n], votes[n].color);
    }
    forall c ensures Voted(votes[..n + 1], c) <==> Voted(votes[..n], c) || votes[n].color == c
      ensures ScoreOf(votes[..n + 1], c) == if votes[n].color == c then Add(ScoreOf(votes[..n], c), votes[n]) else ScoreOf(votes[..n], c)
    {
      VotedStep(votes, n, c);
    }
  }

  /** The running maxima describe the chosen color, as far as the priority looks at them. */
  ghost predicate Describes(priority: Priority, stored: Score, score: Score) {
    stored.topological == score.topological && (priority != Topological ==> stored == score)
  }

  /** More votes never make a color worse. */
  lemma AddImproves(priority: Priority, s: Score, v: Vote)
    ensures !Better(priority, s, Add(s, v))
    ensures !Better(priority, Add(s, v), s) ==> Describes(priority, s, Add(s, v))
  {
  }

  lemma BestStep(priority: Priority, votes: seq<Vote>, n: nat, best: string, stored: Score)
    requires n < |votes| && IsBest(priority, votes[..n], best) && Describes(priority, stored, ScoreOf(votes[..n], best))
    ensures var score := ScoreOf(votes[..n + 1], votes[n].color);
            if Better(priority, score, stored) then IsBest(priority, votes[..n + 1], votes[n].color)
            else IsBest(priority, votes[..n + 1], best) && Describes(priority, stored, ScoreOf(votes[..n + 1], best))
  {
    var before, after := votes[..n], votes[..n + 1];
    var color := votes[n].color;
    VotedStep(votes, n, color);
    VotedStep(votes, n, best);
    AddImproves(priority, ScoreOf(before, color), votes[n]);
    forall c | Voted(after, c)
      ensures !Better(priority, ScoreOf(after, c), if Better(priority, ScoreOf(after, color), stored) then ScoreOf(after, color) else ScoreOf(after, best))
    {
      VotedStep(votes, n, c);
    }
  }

  /** The color in the lead after these votes, and its totals when it last took the lead or improved it. */
  ghost function Leader(priority: Priority, votes: seq<Vote>): (string, Score)
    requires votes != []
  {
    var n := |votes| - 1;
    var score := ScoreOf(votes, votes[n].color);
    if n == 0 || Better(priority, score, Leader(priority, votes[..n]).1) then (votes[n].color, score)
    else Leader(priority, votes[..n])
  }

  lemma LeaderStep(priority: Priority, votes: seq<Vote>, n: nat)
    requires 0 < n < |votes|
    ensures var score := ScoreOf(votes[..n + 1], votes[n].color);
            Leader(priority, votes[..n + 1]) ==
            if Better(priority, score, Leader(priority, votes[..n]).1) then (votes[n].color, score) else Leader(priority, votes[..n])
  {
    assert votes[..n + 1][..n] == votes[..n];
  }

  /** The leader is a best color, and its recorded totals are the ones that count. */
  lemma {:induction false} LeaderIsBest(priority: Priority, votes: seq<Vote>)
    requires votes != []
    ensures IsBest(priority, votes, Leader(priority, votes).0)
    ensures Describes(priority, Leader(priority, votes).1, ScoreOf(votes, Leader(priority, votes).0))
  {
    var n := |votes| - 1;
    assert votes[..n + 1] == votes;
    if n == 0 {
      OnlyVote(priority, votes);
    } else {
      LeaderIsBest(priority, votes[..n]);
      LeaderStep(priority, votes, n);
      BestStep(priority, votes, n, Leader(priority, votes[..n]).0, Leader(priority, votes[..n]).1);
    }
  }

  /** The online choice: the best color over the final totals, and the leader of the votes in their order. */
  method ChooseColor(priority: Priority, votes: seq<Vote>) returns (best: Option<string>)
    ensures best == None <==> votes == []
    ensures best.Some? ==> IsBest(priority, votes, best.value) && best.value == Leader(priority, votes).0
  {
    var weights: map<string, nat>, depths: map<string, nat>, topologicals: map<string, nat> := map[], map[], map[];
    best := None;
    var stored := Score(0, LIMIT, LIMIT);
    for i := 0 to |votes|
      invariant Tracks(votes[..i], weights, depths, topologicals)
      invariant best == None <==> i == 0
      invariant best.Some? ==> Leader(priority, votes[..i]) == (best.value, stored)
    {
      var vote := votes[i];
      TracksStep(votes, i, weights, depths, topologicals);
      weights := weights[vote.color := ValueOr(weights, vote.color, 0) + vote.weight];
      depths := depths[vote.color := Min(ValueOr(depths, vote.color, LIMIT), vote.depth)];
      topologicals := topologicals[vote.color := Min(ValueOr(topologicals, vote.color, LIMIT), vote.topological)];
      VotedStep(votes, i, vote.color);
      var score := Score(weights[vote.color], depths[vote.color], topologicals[vote.color]);
      if best == None {
        best, stored := Some(vote.color), score;
      } else {
        LeaderStep(priority, votes, i);
        if Better(priority, score, stored) {
          best, stored := Some(vote.color), score;
        }
      }
    }
    assert votes[..|votes|] == votes;
    if votes != [] {
      LeaderIsBest(priority, votes);
    }
  }

  lemma OnlyVote(priority: Priority, votes: seq<Vote>)
    requires |votes| == 1
    ensures IsBest(priority, votes, votes[0].color)
  {
  }

  // ---- the order of the votes does not matter, up to ties ----

  lemma {:induction false} ScoreWithout(votes: seq<Vote>, j: nat, color: string)
    requires j < |votes|
    ensures ScoreOf(votes, color) ==
            var rest := ScoreOf(votes[..j] + votes[j + 1..], color);
            if votes[j].color == color then Add(rest, votes[j]) else rest
  {
    var n := |votes| - 1;
    var rest := votes[..j] + votes[j + 1..];
    if j == n {
      assert rest == votes[..n];
    } else {
      assert rest[..n - 1] == votes[..n][..j] + votes[..n][j + 1..];
      ScoreWithout(votes[..n], j, color);
    }
  }

  lemma {:induction false} ScoreOfPermutation(a: seq<Vote>, b: seq<Vote>, color: string)
    requires multiset(a) == multiset(b)
    ensures ScoreOf(a, color) == ScoreOf(b, color)
    decreases |a|
  {
    if a == [] {
      PermutationSameLength(a, b);
    } else {
      var j := PermutationStep(a, b);
      ScoreWithout(a, 0, color);
      ScoreWithout(b, j, color);
      ScoreOfPermutation(a[..0] + a[1..], b[..j] + b[j + 1..], color);
    }
  }

  lemma VotedPermutation(a: seq<Vote>, b: seq<Vote>, color: string)
    requires multiset(a) == multiset(b)
    ensures Voted(a, color) ==> Voted(b, color)
  {
    if Voted(a, color) {
      var i :| 0 <= i < |a| && a[i].color == color;
      assert a[i] in multiset(b);
    }
  }

  /** Two orders of the same votes choose colors that are tied on the final totals. */
  lemma OrderIsIrrelevant(priority: Priority, a: seq<Vote>, b: seq<Vote>, x: string, y: string)
    requires multiset(a) == multiset(b) && IsBest(priority, a, x) && IsBest(priority, b, y)
    ensures Tied(priority, ScoreOf(a, x), ScoreOf(a, y))
    ensures priority != Topological ==> ScoreOf(a, x) == ScoreOf(a, y)
  {
    VotedPermutation(a, b, x);
    VotedPermutation(b, a, y);
    ScoreOfPermutation(a, b, x);
    ScoreOfPermutation(a, b, y);
  }

  // ---- when the order decides ----

  /** Exactly one voted color is best: for the topological priority, one color alone is nearest. */
  ghost predicate HasOneBest(priority: Priority, votes: seq<Vote>) {
    forall x, y :: IsBest(priority, votes, x) && IsBest(priority, votes, y) ==> x == y
  }

  ghost predicate IsOrderOf(a: seq<Vote>, votes: seq<Vote>) {
    multiset(a) == multiset(votes)
  }

  ghost predicate OrderDoesNotMatter(priority: Priority, votes: seq<Vote>)
    requires votes != []
  {
    forall a :: IsOrderOf(a, votes) && a != [] ==> Leader(priority, a).0 == Leader(priority, votes).0
  }

  lemma BestPermutation(priority: Priority, a: seq<Vote>, b: seq<Vote>, x: string)
    requires multiset(a) == multiset(b) && IsBest(priority, a, x)
    ensures IsBest(priority, b, x)
  {
    VotedPermutation(a, b, x);
    forall c | Voted(b, c) ensures !Better(priority, ScoreOf(b, c), ScoreOf(b, x)) {
      VotedPermutation(b, a, c);
      ScoreOfPermutation(a, b, c);
      ScoreOfPermutation(a, b, x);
    }
  }

  ghost function VotesFor(votes: seq<Vote>, color: string, wanted: bool): (r: seq<Vote>)
    ensures forall i :: 0 <= i < |r| ==> (r[i].color == color) == wanted
  {
    if votes == [] then []
    else
      var n := |votes| - 1;
      VotesFor(votes[..n], color, wanted) + if (votes[n].color == color) == wanted then [votes[n]] else []
  }

  lemma {:induction false} VotesForSplits(votes: seq<Vote>, color: string)
    ensures multiset(VotesFor(votes, color, true) + VotesFor(votes, color, false)) == multiset(votes)
  {
    if votes != [] {
      var n := |votes| - 1;
      assert votes == votes[..n] + [votes[n]];
      VotesForSplits(votes[..n], color);
    }
  }

  /** A prefix of the votes gives no color a better total than all votes. */
  lemma {:induction false} PrefixIsNoBetter(priority: Priority, votes: seq<Vote>, k: nat, color: string)
    requires k <= |votes|
    ensures !Better(priority, ScoreOf(votes[..k], color), ScoreOf(votes, color))
    decreases |votes|
  {
    var n := |votes| - 1;
    if k == |votes| {
      assert votes[..k] == votes;
    } else {
      PrefixIsNoBetter(priority, votes[..n], k, color);
      assert votes[..n][..k] == votes[..k];
      AddImproves(priority, ScoreOf(votes[..n], color), votes[n]);
    }
  }

  lemma {:induction false} LaterVotesChangeNothing(first: seq<Vote>, others: seq<Vote>, x: string)
    requires forall i :: 0 <= i < |others| ==> others[i].color != x
    ensures ScoreOf(first + others, x) == ScoreOf(first, x)
    decreases |others|
  {
    if others == [] {
      assert first + others == first;
    } else {
      var n := |others| - 1;
      assert (first + others)[..|first| + n] == first + others[..n];
      LaterVotesChangeNothing(first, others[..n], x);
    }
  }

  lemma {:induction false} OwnVotesLead(priority: Priority, first: seq<Vote>, x: string)
    requires first != [] && forall i :: 0 <= i < |first| ==> first[i].color == x
    ensures Leader(priority, first).0 == x
  {
    if |first| > 1 {
      OwnVotesLead(priority, first[..|first| - 1], x);
    }
  }

  /** A vote for another color does not take the lead from a best color whose votes are all counted. */
  lemma LaterVoteLoses(priority: Priority, before: seq<Vote>, vote: Vote, all: seq<Vote>, x: string)
    requires before != [] && before + [vote] <= all && IsBest(priority, all, x)
    requires Leader(priority, before).0 == x && ScoreOf(before, x) == ScoreOf(all, x)
    requires vote.color != x
    ensures Leader(priority, before + [vote]).0 == x
  {
    var after := before + [vote];
    assert after[..|after| - 1] == before && all[..|after|] == after;
    LeaderIsBest(priority, before);
    PrefixIsNoBetter(priority, all, |after|, vote.color);
    assert all[|before|].color == vote.color;
    assert Voted(all, vote.color);
    BetterIsTransitive(priority, ScoreOf(after, vote.color), Leader(priority, before).1, ScoreOf(all, x), ScoreOf(all, vote.color));
  }

  lemma BetterIsTransitive(priority: Priority, part: Score, stored: Score, best: Score, whole: Score)
    requires Describes(priority, stored, best) && !Better(priority, part, whole) && !Better(priority, whole, best)
    ensures !Better(priority, part, stored)
  {
  }

  /** If the votes of a best color come first, nobody overtakes it. */
  lemma {:induction false} EarlyBestWins(priority: Priority, first: seq<Vote>, others: seq<Vote>, k: nat, x: string)
    requires first != [] && k <= |others| && IsBest(priority, first + others, x)
    requires (forall i :: 0 <= i < |first| ==> first[i].color == x) && forall i :: 0 <= i < |others| ==> others[i].color != x
    ensures Leader(priority, first + others[..k]).0 == x
    decreases k
  {
    if k == 0 {
      assert first + others[..0] == first;
      OwnVotesLead(priority, first, x);
    } else {
      EarlyBestWins(priority, first, others, k - 1, x);
      LaterVotesChangeNothing(first, others[..k - 1], x);
      LaterVotesChangeNothing(first, others, x);
      assert first + others[..k] == first + others[..k - 1] + [others[k - 1]];
      LaterVoteLoses(priority, first + others[..k - 1], others[k - 1], first + others, x);
    }
  }

  /** Every best color is chosen in some order of the votes. */
  lemma SomeOrderChooses(priority: Priority, votes: seq<Vote>, x: string) returns (a: seq<Vote>)
    requires IsBest(priority, votes, x)
    ensures IsOrderOf(a, votes) && a != [] && Leader(priority, a).0 == x
  {
    var first, others := VotesFor(votes, x, true), VotesFor(votes, x, false);
    a := first + others;
    VotesForSplits(votes, x);
    BestPermutation(priority, votes, a, x);
    var i :| 0 <= i < |a| && a[i].color == x;
    assert first != [];
    EarlyBestWins(priority, first, others, |others|, x);
    assert first + others[..|others|] == a;
  }

  /** The exact condition: all orders of the votes choose the same color if and only if there is one best color. */
  lemma SameInEveryOrderIff(priority: Priority, votes: seq<Vote>)
    requires votes != []
    ensures OrderDoesNotMatter(priority, votes) <==> HasOneBest(priority, votes)
  {
    LeaderIsBest(priority, votes);
    if HasOneBest(priority, votes) {
      forall a | IsOrderOf(a, votes) && a != [] ensures Leader(priority, a).0 == Leader(priority, votes).0 {
        LeaderIsBest(priority, a);
        BestPermutation(priority, a, votes, Leader(priority, a).0);
      }
    }
    if OrderDoesNotMatter(priority, votes) {
      forall x, y | IsBest(priority, votes, x) && IsBest(priority, votes, y) ensures x == y {
        var a := SomeOrderChooses(priority, votes, x);
        var b := SomeOrderChooses(priority, votes, y);
        assert IsOrderOf(a, votes) && IsOrderOf(b, votes);
      }
    }
  }

  /**
   * Topological distance alone does not order the colors: an operand and a user at the same
   * distance tie, and then the one visited first wins. The weight would have decided.
   */
  lemma TopologicalTie(a: Vote, b: Vote)
    requires a == Vote("a", 1, 0, 1) && b == Vote("b", 2, 0, 1)
    ensures Leader(Topological, [a, b]).0 == "a" && Leader(Topological, [b, a]).0 == "b"
    ensures Leader(Weight, [a, b]).0 == Leader(Weight, [b, a]).0 == "b"
  {
    assert "a"[0] != "b"[0];
    TwoVotes(a, b);
    TwoVotes(b, a);
  }

  lemma TwoVotes(a: Vote, b: Vote)
    requires a.color != b.color && a.depth <= LIMIT && a.topological <= LIMIT && b.depth <= LIMIT && b.topological <= LIMIT
    ensures var x, y := Score(a.weight, a.depth, a.topological), Score(b.weight, b.depth, b.topological);
            forall priority :: Leader(priority, [a, b]).0 == if Better(priority, y, x) then b.color else a.color
  {
    assert [a, b][..1] == [a] && [a][..0] == [];
    assert ScoreOf([a], a.color) == Score(a.weight, a.depth, a.topological);
    assert ScoreOf([a], b.color) == Score(0, LIMIT, LIMIT);
    assert ScoreOf([a, b], b.color) == Score(b.weight, b.depth, b.topological);
    forall priority ensures Leader(priority, [a]) == (a.color, ScoreOf([a], a.color)) {}
  }
}
