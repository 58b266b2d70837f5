/** Donating the buffers of parameters to the outputs of a program. */
module AliasMatching {
  import opened Wrappers
  import opened Sequences

  // ---- matching donors with donees ----

  /** A parameter or an output with the size of its shard. */
  datatype Entry = Entry(index: nat, size: nat)

  datatype Pair = Pair(donor: Entry, donee: Entry)

  ghost predicate Descending(s: seq<Entry>) {
    forall i, j :: 0 <= i < j < |s| ==> s[i].size >= s[j].size
  }

  /** Stable insertion into a descending sequence: before the first entry that is not larger. */
  function Insert(x: Entry, s: seq<Entry>): (r: seq<Entry>)
    ensures multiset(r) == multiset(s) + multiset{x}
    ensures forall y :: y in r <==> y == x || y in s
  {
    if s == [] || x.size >= s[0].size then [x] + s
    else
      assert s == [s[0]] + s[1..];
      [s[0]] + Insert(x, s[1..])
  }

  lemma {:induction false} InsertDescending(x: Entry, s: seq<Entry>)
    requires Descending(s)
    ensures Descending(Insert(x, s))
  {
    if s != [] && x.size < s[0].size {
      var rest := Insert(x, s[1..]);
      InsertDescending(x, s[1..]);
      forall i | 0 <= i < |rest| ensures rest[i].size <= s[0].size {
        assert rest[i] in rest && (rest[i] == x || rest[i] in s[1..]);
      }
    }
  }

  function SortBySize(s: seq<Entry>): (r: seq<Entry>)
    ensures multiset(r) == multiset(s) && Descending(r)
    ensures forall y :: y in r <==> y in s
  {
    if s == [] then []
    else
      assert s == [s[0]] + s[1..];
      InsertDescending(s[0], SortBySize(s[1..]));
      Insert(s[0], SortBySize(s[1..]))
  }

  /** The walk with two moving positions. */
  function Match(donors: seq<Entry>, donees: seq<Entry>): seq<Pair>
    decreases |donors| + |donees|
  {
    if donors == [] || donees == [] then []
    else if donors[0].size > donees[0].size then Match(donors[1..], donees)
    else if donors[0].size < donees[0].size then Match(donors, donees[1..])
    else [Pair(donors[0], donees[0])] + Match(donors[1..], donees[1..])
  }

  function CountSize(s: seq<Entry>, size: nat): nat {
    if s == [] then 0 else (if s[0].size == size then 1 else 0) + CountSize(s[1..], size)
  }

  function CountPairs(s: seq<Pair>, size: nat): nat {
    if s == [] then 0 else (if s[0].donor.size == size then 1 else 0) + CountPairs(s[1..], size)
  }

  function Min(a: nat, b: nat): nat {
    if a < b then a else b
  }

  lemma {:induction false} SmallerHasNone(s: seq<Entry>, size: nat)
    requires Descending(s) && (s != [] ==> s[0].size < size)
    ensures CountSize(s, size) == 0
  {
    if s != [] {
      SmallerHasNone(s[1..], size);
    }
  }

  /** For every size, as many pairs as possible. */
  lemma {:induction false} MatchIsMaximum(donors: seq<Entry>, donees: seq<Entry>, size: nat)
    requires Descending(donors) && Descending(donees)
    ensures CountPairs(Match(donors, donees), size) == Min(CountSize(donors, size), CountSize(donees, size))
    decreases |donors| + |donees|
  {
    if donors != [] && donees != [] {
      if donors[0].size > donees[0].size {
        SmallerHasNone(donees, donors[0].size);
        MatchIsMaximum(donors[1..], donees, size);
      } else if donors[0].size < donees[0].size {
        SmallerHasNone(donors, donees[0].size);
        MatchIsMaximum(donors, donees[1..], size);
      } else {
        MatchIsMaximum(donors[1..], donees[1..], size);
      }
    }
  }

  /** No sequence of pairs of equal size that uses every entry at most once has more pairs of any size. */
  lemma MatchIsBest(donors: seq<Entry>, donees: seq<Entry>, pairs: seq<Pair>, size: nat)
    requires Descending(donors) && Descending(donees)
    requires IsMatching(donors, donees, pairs)
    ensures CountPairs(pairs, size) <= CountPairs(Match(donors, donees), size)
  {
    MatchIsMaximum(donors, donees, size);
    CountSides(pairs, size);
    CountWithin(Donors(pairs), donors, size);
    CountWithin(Donees(pairs), donees, size);
  }

  function Donors(pairs: seq<Pair>): (r: seq<Entry>)
    ensures |r| == |pairs| && forall i :: 0 <= i < |r| ==> r[i] == pairs[i].donor
  {
    if pairs == [] then [] else [pairs[0].donor] + Donors(pairs[1..])
  }

  function Donees(pairs: seq<Pair>): (r: seq<Entry>)
    ensures |r| == |pairs| && forall i :: 0 <= i < |r| ==> r[i] == pairs[i].donee
  {
    if pairs == [] then [] else [pairs[0].donee] + Donees(pairs[1..])
  }

  /** Pairs of equal size in which every donor and every donee is used at most once. */
  ghost predicate IsMatching(donors: seq<Entry>, donees: seq<Entry>, pairs: seq<Pair>) {
    && (forall i :: 0 <= i < |pairs| ==> pairs[i].donor.size == pairs[i].donee.size)
    && multiset(Donors(pairs)) <= multiset(donors)
    && multiset(Donees(pairs)) <= multiset(donees)
  }

  lemma {:induction false} CountSides(pairs: seq<Pair>, size: nat)
    requires forall i :: 0 <= i < |pairs| ==> pairs[i].donor.size == pairs[i].donee.size
    ensures CountSize(Donors(pairs), size) == CountPairs(pairs, size) == CountSize(Donees(pairs), size)
  {
    if pairs != [] {
      CountSides(pairs[1..], size);
    }
  }

  lemma {:induction false} CountWithin(s: seq<Entry>, t: seq<Entry>, size: nat)
    requires multiset(s) <= multiset(t)
    ensures CountSize(s, size) <= CountSize(t, size)
  {
    if s != [] {
      assert s == [s[0]] + s[1..];
      assert s[0] in multiset(t);
      var j: nat :| j < |t| && t[j] == s[0];
      RemoveAt(t, j);
      CountWithin(s[1..], t[..j] + t[j + 1..], size);
      CountWithout(t, j, size);
    }
  }

  lemma CountWithout(t: seq<Entry>, j: nat, size: nat)
    requires j < |t|
    ensures CountSize(t, size) == CountSize(t[..j] + t[j + 1..], size) + if t[j].size == size then 1 else 0
  {
    CountConcat(t[..j], t[j + 1..], size);
    CountConcat(t[..j], t[j..], size);
    assert t == t[..j] + t[j..] && t[j..][1..] == t[j + 1..];
  }

  lemma {:induction false} CountConcat(s: seq<Entry>, t: seq<Entry>, size: nat)
    ensures CountSize(s + t, size) == CountSize(s, size) + CountSize(t, size)
  {
    if s == [] {
      assert s + t == t;
    } else {
      assert (s + t)[1..] == s[1..] + t;
      CountConcat(s[1..], t, size);
    }
  }

  lemma MatchingCons(donors: seq<Entry>, donees: seq<Entry>, rest: seq<Pair>, x: Entry, y: Entry)
    requires IsMatching(donors, donees, rest) && x.size == y.size
    ensures IsMatching([x] + donors, [y] + donees, [Pair(x, y)] + rest)
  {
    var pairs := [Pair(x, y)] + rest;
    assert pairs[1..] == rest;
    assert Donors(pairs) == [x] + Donors(rest);
    assert Donees(pairs) == [y] + Donees(rest);
  }

  lemma MatchingMore(donors: seq<Entry>, donees: seq<Entry>, pairs: seq<Pair>, x: Entry)
    requires IsMatching(donors, donees, pairs)
    ensures IsMatching([x] + donors, donees, pairs) && IsMatching(donors, [x] + donees, pairs)
  {
  }

  /** Pairs have equal size, and no donor or donee is used twice. */
  lemma {:induction false} MatchIsMatching(donors: seq<Entry>, donees: seq<Entry>)
    ensures IsMatching(donors, donees, Match(donors, donees))
    decreases |donors| + |donees|
  {
    if donors != [] && donees != [] {
      assert donors == [donors[0]] + donors[1..] && donees == [donees[0]] + donees[1..];
      if donors[0].size > donees[0].size {
        MatchIsMatching(donors[1..], donees);
        MatchingMore(donors[1..], donees, Match(donors, donees), donors[0]);
      } else if donors[0].size < donees[0].size {
        MatchIsMatching(donors, donees[1..]);
        MatchingMore(donors, donees[1..], Match(donors, donees), donees[0]);
      } else {
        MatchIsMatching(donors[1..], donees[1..]);
        MatchingCons(donors[1..], donees[1..], Match(donors[1..], donees[1..]), donors[0], donees[0]);
      }
    }
  }

  // ---- the pass ----

  /** `size` is the byte size of a shard; `shape` is the shape of the whole value. */
  datatype Parameter = Parameter(isTuple: bool, isTemporary: bool, size: nat)

  datatype Output = Output(node: nat, isTemporary: bool, size: nat)

  /** An instruction of the entry computation. */
  datatype Node = Node(parameter: Option<nat>, shape: int, operands: seq<nat>)

  class AliasConfig {
    var aliases: map<nat, nat>
    var donors: set<nat>

    constructor (aliases: map<nat, nat>, donors: set<nat>)
      ensures this.aliases == aliases && this.donors == donors
    {
      this.aliases, this.donors := aliases, donors;
    }

    /** No parameter is given to two outputs. */
    ghost predicate Valid()
      reads this
    {
      IsInjective(aliases)
    }

    method SetUpAlias(output: nat, parameter: nat)
      requires Valid() && output !in aliases && parameter !in aliases.Values
      modifies this`aliases
      ensures Valid() && aliases == old(aliases)[output := parameter]
    {
      aliases := aliases[output := parameter];
    }

    method RemoveBufferDonor(parameter: nat)
      modifies this`donors
      ensures donors == old(donors) - {parameter}
    {
      donors := donors - {parameter};
    }
  }

  ghost predicate IsInjective(aliases: map<nat, nat>) {
    forall o, q :: o in aliases && q in aliases && aliases[o] == aliases[q] ==> o == q
  }

  /** The donors of one kind among the first `n` parameters. */
  function DonorEntries(parameters: seq<Parameter>, aliases: map<nat, nat>, donors: set<nat>, temporary: bool, n: nat): (r: seq<Entry>)
    requires n <= |parameters|
    ensures forall e :: e in r <==> e.index < n && IsDonor(parameters, aliases, donors, temporary, e.index) && e.size == parameters[e.index].size
    ensures Distinct(r)
  {
    if n == 0 then []
    else
      var before := DonorEntries(parameters, aliases, donors, temporary, n - 1);
      if IsDonor(parameters, aliases, donors, temporary, n - 1) then before + [Entry(n - 1, parameters[n - 1].size)] else before
  }

  predicate IsDonor(parameters: seq<Parameter>, aliases: map<nat, nat>, donors: set<nat>, temporary: bool, p: nat)
    requires p < |parameters|
  {
    p !in aliases.Values && p in donors && parameters[p].isTemporary == temporary
  }

  predicate IsDonee(outputs: seq<Output>, aliases: map<nat, nat>, temporary: bool, o: nat)
    requires o < |outputs|
  {
    o !in aliases && outputs[o].isTemporary == temporary
  }

  function DoneeEntries(outputs: seq<Output>, aliases: map<nat, nat>, temporary: bool, n: nat): (r: seq<Entry>)
    requires n <= |outputs|
    ensures forall e :: e in r <==> e.index < n && IsDonee(outputs, aliases, temporary, e.index) && e.size == outputs[e.index].size
    ensures Distinct(r)
  {
    if n == 0 then []
    else
      var before := DoneeEntries(outputs, aliases, temporary, n - 1);
      if IsDonee(outputs, aliases, temporary, n - 1) then before + [Entry(n - 1, outputs[n - 1].size)] else before
  }

  /** Set up every pair. */
  ghost function Aliased(aliases: map<nat, nat>, pairs: seq<Pair>): map<nat, nat> {
    if pairs == [] then aliases
    else
      var n := |pairs| - 1;
      Aliased(aliases, pairs[..n])[pairs[n].donee.index := pairs[n].donor.index]
  }

  /** What one run of `Build` decides. */
  ghost function Matched(parameters: seq<Parameter>, outputs: seq<Output>, aliases: map<nat, nat>, donors: set<nat>, temporary: bool): seq<Pair> {
    Match(SortBySize(DonorEntries(parameters, aliases, donors, temporary, |parameters|)),
          SortBySize(DoneeEntries(outputs, aliases, temporary, |outputs|)))
  }

  // ---- one run of `Build` ----

  /** Different pairs name different parameters and different outputs. */
  ghost predicate PairsDistinct(pairs: seq<Pair>) {
    forall i, j :: 0 <= i < j < |pairs| ==>
      pairs[i].donor.index != pairs[j].donor.index && pairs[i].donee.index != pairs[j].donee.index
  }

  lemma SubsetDistinct(s: seq<Entry>, t: seq<Entry>, u: seq<Entry>, i: nat, j: nat)
    requires Distinct(t) && multiset(u) == multiset(t) && multiset(s) <= multiset(u) && i < j < |s|
    ensures s[i] != s[j]
  {
    if s[i] == s[j] {
      RepeatedTwice(s, i, j);
      DistinctMultiplicity(t, s[i]);
    }
  }

  lemma MatchedFacts(parameters: seq<Parameter>, outputs: seq<Output>, aliases: map<nat, nat>, donors: set<nat>, temporary: bool)
    ensures PairsDistinct(Matched(parameters, outputs, aliases, donors, temporary))
    ensures forall k :: 0 <= k < |Matched(parameters, outputs, aliases, donors, temporary)| ==>
              IsFairPair(parameters, outputs, aliases, donors, temporary, Matched(parameters, outputs, aliases, donors, temporary)[k])
  {
    var given := DonorEntries(parameters, aliases, donors, temporary, |parameters|);
    var taken := DoneeEntries(outputs, aliases, temporary, |outputs|);
    var pairs := Match(SortBySize(given), SortBySize(taken));
    MatchIsMatching(SortBySize(given), SortBySize(taken));
    forall k | 0 <= k < |pairs| ensures IsFairPair(parameters, outputs, aliases, donors, temporary, pairs[k]) {
      MemberWithin(Donors(pairs), SortBySize(given), k);
      MemberWithin(Donees(pairs), SortBySize(taken), k);
    }
    forall i, j | 0 <= i < j < |pairs|
      ensures pairs[i].donor.index != pairs[j].donor.index && pairs[i].donee.index != pairs[j].donee.index
    {
      SubsetDistinct(Donors(pairs), given, SortBySize(given), i, j);
      SubsetDistinct(Donees(pairs), taken, SortBySize(taken), i, j);
    }
  }

  lemma MemberWithin(s: seq<Entry>, t: seq<Entry>, k: nat)
    requires multiset(s) <= multiset(t) && k < |s|
    ensures s[k] in t
  {
    assert s[k] in multiset(s);
  }

  /** The pair gives a donor to an output of the same size and kind, neither of which had an alias. */
  ghost predicate IsFairPair(parameters: seq<Parameter>, outputs: seq<Output>, aliases: map<nat, nat>, donors: set<nat>, temporary: bool, pair: Pair) {
    && pair.donor.index < |parameters| && IsDonor(parameters, aliases, donors, temporary, pair.donor.index)
    && pair.donee.index < |outputs| && IsDonee(outputs, aliases, temporary, pair.donee.index)
    && parameters[pair.donor.index].size == pair.donor.size == pair.donee.size == outputs[pair.donee.index].size
  }

  /** What the aliases are after some pairs. */
  lemma {:induction false} AliasedAt(aliases: map<nat, nat>, pairs: seq<Pair>)
    requires PairsDistinct(pairs)
    requires forall k :: 0 <= k < |pairs| ==> pairs[k].donee.index !in aliases
    ensures forall o :: o in aliases ==> o in Aliased(aliases, pairs) && Aliased(aliases, pairs)[o] == aliases[o]
    ensures forall k :: 0 <= k < |pairs| ==>
              pairs[k].donee.index in Aliased(aliases, pairs) && Aliased(aliases, pairs)[pairs[k].donee.index] == pairs[k].donor.index
    ensures forall o :: o in Aliased(aliases, pairs) && o !in aliases ==> exists k :: 0 <= k < |pairs| && pairs[k].donee.index == o
  {
    if pairs != [] {
      var n := |pairs| - 1;
      AliasedAt(aliases, pairs[..n]);
      forall o | o in Aliased(aliases, pairs) && o !in aliases ensures exists k :: 0 <= k < |pairs| && pairs[k].donee.index == o {
        if o != pairs[n].donee.index {
          var k :| 0 <= k < n && pairs[..n][k].donee.index == o;
          assert pairs[k].donee.index == o;
        }
      }
    }
  }

  lemma NextIsNew(aliases: map<nat, nat>, pairs: seq<Pair>, k: nat)
    requires PairsDistinct(pairs) && k < |pairs|
    requires forall i :: 0 <= i < |pairs| ==> pairs[i].donee.index !in aliases && pairs[i].donor.index !in aliases.Values
    ensures pairs[k].donee.index !in Aliased(aliases, pairs[..k])
    ensures pairs[k].donor.index !in Aliased(aliases, pairs[..k]).Values
  {
    AliasedAt(aliases, pairs[..k]);
    var after := Aliased(aliases, pairs[..k]);
    forall o | o in after ensures o != pairs[k].donee.index && after[o] != pairs[k].donor.index {
      if o !in aliases {
        var i :| 0 <= i < k && pairs[..k][i].donee.index == o;
        assert after[o] == pairs[i].donor.index;
      } else {
        assert aliases[o] in aliases.Values;
      }
    }
  }

  ghost function DonorIndices(pairs: seq<Pair>): set<nat> {
    set k | 0 <= k < |pairs| :: pairs[k].donor.index
  }

  /** No donor and output of this kind and of one size are both left without an alias. */
  ghost predicate Saturated(parameters: seq<Parameter>, outputs: seq<Output>, aliases: map<nat, nat>, donors: set<nat>, temporary: bool) {
    forall p, o :: 0 <= p < |parameters| && 0 <= o < |outputs| && IsDonor(parameters, aliases, donors, temporary, p) ==>
      IsDonee(outputs, aliases, temporary, o) ==> parameters[p].size != outputs[o].size
  }

  lemma LeftoverCounts(all: seq<Entry>, used: seq<Entry>, left: Entry)
    requires multiset(used) <= multiset(all) && left in all && left !in used
    ensures CountSize(used, left.size) < CountSize(all, left.size)
  {
    assert multiset(used + [left]) <= multiset(all);
    CountWithin(used + [left], all, left.size);
    CountConcat(used, [left], left.size);
  }

  /** A run leaves no usable pair behind. */
  lemma BuildSaturates(parameters: seq<Parameter>, outputs: seq<Output>, aliases: map<nat, nat>, donors: set<nat>, temporary: bool)
    ensures var pairs := Matched(parameters, outputs, aliases, donors, temporary);
            Saturated(parameters, outputs, Aliased(aliases, pairs), donors - DonorIndices(pairs), temporary)
  {
    var pairs := Matched(parameters, outputs, aliases, donors, temporary);
    MatchedFacts(parameters, outputs, aliases, donors, temporary);
    AliasedAt(aliases, pairs);
    var after := Aliased(aliases, pairs);
    forall p, o | 0 <= p < |parameters| && 0 <= o < |outputs| &&
      IsDonor(parameters, after, donors - DonorIndices(pairs), temporary, p) && IsDonee(outputs, after, temporary, o)
      ensures parameters[p].size != outputs[o].size
    {
      WasDonor(parameters, aliases, after, donors, temporary, p);
      NoneLeft(parameters, outputs, aliases, donors, temporary, p, o);
    }
  }

  lemma WasDonor(parameters: seq<Parameter>, aliases: map<nat, nat>, after: map<nat, nat>, donors: set<nat>, temporary: bool, p: nat)
    requires p < |parameters| && p !in after.Values && p in donors && parameters[p].isTemporary == temporary
    requires forall o :: o in aliases ==> o in after && after[o] == aliases[o]
    ensures IsDonor(parameters, aliases, donors, temporary, p)
  {
  }

  lemma NoneLeft(parameters: seq<Parameter>, outputs: seq<Output>, aliases: map<nat, nat>, donors: set<nat>, temporary: bool, p: nat, o: nat)
    requires p < |parameters| && IsDonor(parameters, aliases, donors, temporary, p)
    requires o < |outputs| && IsDonee(outputs, aliases, temporary, o)
    requires forall k :: 0 <= k < |Matched(parameters, outputs, aliases, donors, temporary)| ==>
               Matched(parameters, outputs, aliases, donors, temporary)[k].donor.index != p &&
               Matched(parameters, outputs, aliases, donors, temporary)[k].donee.index != o
    ensures parameters[p].size != outputs[o].size
  {
    var given := DonorEntries(parameters, aliases, donors, temporary, |parameters|);
    var taken := DoneeEntries(outputs, aliases, temporary, |outputs|);
    var donor, donee := Entry(p, parameters[p].size), Entry(o, outputs[o].size);
    assert donor in given && donee in taken;
    assert Matched(parameters, outputs, aliases, donors, temporary) == Match(SortBySize(given), SortBySize(taken));
    NoLeftovers(SortBySize(given), SortBySize(taken), donor, donee);
  }

  lemma NoLeftovers(donors: seq<Entry>, donees: seq<Entry>, donor: Entry, donee: Entry)
    requires Descending(donors) && Descending(donees) && donor in donors && donee in donees
    requires forall k :: 0 <= k < |Match(donors, donees)| ==>
               Match(donors, donees)[k].donor != donor && Match(donors, donees)[k].donee != donee
    ensures donor.size != donee.size
  {
    var pairs := Match(donors, donees);
    MatchIsMatching(donors, donees);
    MatchIsMaximum(donors, donees, donor.size);
    CountSides(pairs, donor.size);
    LeftoverCounts(donors, Donors(pairs), donor);
    LeftoverCounts(donees, Donees(pairs), donee);
  }

  method CollectDonors(parameters: seq<Parameter>, config: AliasConfig, temporary: bool) returns (r: Result<seq<Entry>>)
    ensures r.Failure? <==> exists p :: 0 <= p < |parameters| && parameters[p].isTuple
    ensures r.Success? ==> r.value == DonorEntries(parameters, config.aliases, config.donors, temporary, |parameters|)
  {
    var entries: seq<Entry> := [];
    for p := 0 to |parameters|
      invariant forall q :: 0 <= q < p ==> !parameters[q].isTuple
      invariant entries == DonorEntries(parameters, config.aliases, config.donors, temporary, p)
    {
      if parameters[p].isTuple {
        return Failure(InvalidArgument);
      }
      if p !in config.aliases.Values && p in config.donors {
        if temporary == parameters[p].isTemporary {
          entries := entries + [Entry(p, parameters[p].size)];
        }
      }
    }
    r := Success(entries);
  }

  method CollectDonees(outputs: seq<Output>, config: AliasConfig, temporary: bool) returns (entries: seq<Entry>)
    ensures entries == DoneeEntries(outputs, config.aliases, temporary, |outputs|)
  {
    entries := [];
    for o := 0 to |outputs|
      invariant entries == DoneeEntries(outputs, config.aliases, temporary, o)
    {
      if temporary == outputs[o].isTemporary && o !in config.aliases {
        entries := entries + [Entry(o, outputs[o].size)];
      }
    }
  }

  method Build(parameters: seq<Parameter>, outputs: seq<Output>, config: AliasConfig, isDynamic: bool, temporary: bool) returns (r: Result<bool>)
    requires config.Valid()
    modifies config
    ensures config.Valid()
    ensures r.Failure? <==> !isDynamic && exists p :: 0 <= p < |parameters| && parameters[p].isTuple
    ensures isDynamic || r.Failure? ==> config.aliases == old(config.aliases) && config.donors == old(config.donors) && r != Success(true)
    ensures !isDynamic && r.Success? ==>
              var pairs := Matched(parameters, outputs, old(config.aliases), old(config.donors), temporary);
              && config.aliases == Aliased(old(config.aliases), pairs)
              && config.donors == old(config.donors) - DonorIndices(pairs)
              && (r.value <==> pairs != [])
  {
    if isDynamic {
      return Success(false);
    }
    var collected := CollectDonors(parameters, config, temporary);
    if collected.Failure? {
      return Failure(InvalidArgument);
    }
    var taken := CollectDonees(outputs, config, temporary);
    var donors, donees := SortBySize(collected.value), SortBySize(taken);
    MatchedFacts(parameters, outputs, config.aliases, config.donors, temporary);
    var changed := SetUpMatches(donors, donees, config);
    r := Success(changed);
  }

  /** None of these pairs touches an existing alias. */
  ghost predicate PairsNew(pairs: seq<Pair>, aliases: map<nat, nat>) {
    forall k :: 0 <= k < |pairs| ==> pairs[k].donee.index !in aliases && pairs[k].donor.index !in aliases.Values
  }

  method SetUpPair(config: AliasConfig, donor: Entry, donee: Entry,
                   ghost pairs: seq<Pair>, ghost k: nat, ghost aliases: map<nat, nat>, ghost given: set<nat>)
    requires config.Valid() && PairsDistinct(pairs) && PairsNew(pairs, aliases) && k < |pairs| && pairs[k] == Pair(donor, donee)
    requires config.aliases == Aliased(aliases, pairs[..k]) && config.donors == given - DonorIndices(pairs[..k])
    modifies config
    ensures config.Valid() && config.aliases == Aliased(aliases, pairs[..k + 1])
    ensures config.donors == given - DonorIndices(pairs[..k + 1])
  {
    NextIsNew(aliases, pairs, k);
    assert pairs[..k + 1][..k] == pairs[..k];
    DonorIndicesStep(pairs, k);
    config.SetUpAlias(donee.index, donor.index);
    config.RemoveBufferDonor(donor.index);
  }

  method SetUpMatches(donors: seq<Entry>, donees: seq<Entry>, config: AliasConfig) returns (changed: bool)
    requires config.Valid() && PairsDistinct(Match(donors, donees)) && PairsNew(Match(donors, donees), config.aliases)
    modifies config
    ensures config.Valid() && config.aliases == Aliased(old(config.aliases), Match(donors, donees))
    ensures config.donors == old(config.donors) - DonorIndices(Match(donors, donees))
    ensures changed <==> Match(donors, donees) != []
  {
    ghost var aliases, given, pairs := config.aliases, config.donors, Match(donors, donees);
    var i, j := 0, 0;
    changed := false;
    ghost var done := 0;
    while i < |donors| && j < |donees|
      invariant 0 <= i <= |donors| && 0 <= j <= |donees| && done <= |pairs| && (changed <==> done > 0)
      invariant pairs == pairs[..done] + Match(donors[i..], donees[j..])
      invariant config.Valid() && config.aliases == Aliased(aliases, pairs[..done])
      invariant config.donors == given - DonorIndices(pairs[..done])
      decreases |donors| - i + |donees| - j
    {
      var donor, donee := donors[i], donees[j];
      MatchAt(donors, donees, i, j);
      if donor.size > donee.size {
        i := i + 1;
      } else if donor.size < donee.size {
        j := j + 1;
      } else {
        HeadMoves(pairs, done, Pair(donor, donee), Match(donors[i + 1..], donees[j + 1..]));
        SetUpPair(config, donor, donee, pairs, done, aliases, given);
        i, j, changed, done := i + 1, j + 1, true, done + 1;
      }
    }
    assert pairs[..done] == pairs;
  }

  /** One step of the two positions. */
  lemma MatchAt(donors: seq<Entry>, donees: seq<Entry>, i: nat, j: nat)
    requires i < |donors| && j < |donees|
    ensures Match(donors[i..], donees[j..]) ==
            if donors[i].size > donees[j].size then Match(donors[i + 1..], donees[j..])
            else if donors[i].size < donees[j].size then Match(donors[i..], donees[j + 1..])
            else [Pair(donors[i], donees[j])] + Match(donors[i + 1..], donees[j + 1..])
  {
    assert donors[i..][1..] == donors[i + 1..] && donees[j..][1..] == donees[j + 1..];
  }

  lemma HeadMoves(pairs: seq<Pair>, done: nat, head: Pair, rest: seq<Pair>)
    requires done <= |pairs| && pairs == pairs[..done] + ([head] + rest)
    ensures done < |pairs| && pairs[done] == head && pairs == pairs[..done + 1] + rest
  {
    assert pairs[done] == ([head] + rest)[0];
    assert pairs[..done + 1] == pairs[..done] + [head];
  }

  lemma DonorIndicesStep(pairs: seq<Pair>, k: nat)
    requires k < |pairs|
    ensures DonorIndices(pairs[..k + 1]) == DonorIndices(pairs[..k]) + {pairs[k].donor.index}
  {
    forall i | 0 <= i < k ensures pairs[..k + 1][i] == pairs[..k][i] {
    }
    assert pairs[..k + 1][k] == pairs[k];
    forall x | x in DonorIndices(pairs[..k]) ensures x in DonorIndices(pairs[..k + 1]) {
      var i :| 0 <= i < k && pairs[..k][i].donor.index == x;
      assert pairs[..k + 1][i].donor.index == x;
    }
  }

  // ---- donors that feed an output ----

  ghost predicate IsPath(nodes: seq<Node>, path: seq<nat>) {
    && path != [] && (forall i :: 0 <= i < |path| ==> path[i] < |nodes|)
    && forall i :: 0 <= i < |path| - 1 ==> path[i + 1] in nodes[path[i]].operands
  }

  /** A value computed from `node`, or the value itself, is `user`. */
  ghost predicate Feeds(nodes: seq<Node>, node: nat, user: nat) {
    exists path :: IsPath(nodes, path) && path[0] == user && path[|path| - 1] == node
  }

  /** Instructions are listed after their operands. */
  ghost predicate IsGraph(nodes: seq<Node>, parameters: seq<Parameter>, outputs: seq<Output>) {
    && IsOrdered(nodes)
    && (forall n :: 0 <= n < |nodes| && nodes[n].parameter.Some? ==> nodes[n].parameter.value < |parameters|)
    && (forall o :: 0 <= o < |outputs| ==> outputs[o].node < |nodes|)
  }

  ghost predicate IsOrdered(nodes: seq<Node>) {
    forall n, x :: 0 <= n < |nodes| && x in nodes[n].operands ==> x < n
  }

  // ---- how long the search takes ----

  ghost function CountAt(counts: seq<nat>, x: nat): nat {
    if x < |counts| then counts[x] else 0
  }

  ghost function Sum(counts: seq<nat>, list: seq<nat>): nat {
    if list == [] then 0 else CountAt(counts, list[0]) + Sum(counts, list[1..])
  }

  lemma {:induction false} SumConcat(counts: seq<nat>, a: seq<nat>, b: seq<nat>)
    ensures Sum(counts, a + b) == Sum(counts, a) + Sum(counts, b)
  {
    if a == [] {
      assert a + b == b;
    } else {
      SumConcat(counts, a[1..], b);
      assert (a + b)[1..] == a[1..] + b;
    }
  }

  lemma {:induction false} SumGrows(counts: seq<nat>, more: seq<nat>, list: seq<nat>)
    requires forall x :: x in list ==> x < |counts|
    ensures Sum(counts + more, list) == Sum(counts, list)
  {
    if list != [] {
      assert list[0] in list && forall x :: x in list[1..] ==> x in list;
      SumGrows(counts, more, list[1..]);
    }
  }

  /** For each instruction, how many times a search without a memory visits it and what is below it. */
  ghost function VisitCounts(nodes: seq<Node>): (r: seq<nat>)
    requires IsOrdered(nodes)
    ensures |r| == |nodes|
  {
    if nodes == [] then []
    else
      var n := |nodes| - 1;
      VisitCounts(nodes[..n]) + [1 + Sum(VisitCounts(nodes[..n]), nodes[n].operands)]
  }

  lemma {:induction false} VisitCountAt(nodes: seq<Node>, n: nat)
    requires IsOrdered(nodes) && n < |nodes|
    ensures (forall x :: x in nodes[n].operands ==> x < |nodes|)
    ensures VisitCounts(nodes)[n] == 1 + Sum(VisitCounts(nodes), nodes[n].operands)
    decreases |nodes|
  {
    var last := |nodes| - 1;
    var before := VisitCounts(nodes[..last]);
    if n < last {
      VisitCountAt(nodes[..last], n);
    }
    SumGrows(before, VisitCounts(nodes)[last..], nodes[n].operands);
    assert VisitCounts(nodes) == before + VisitCounts(nodes)[last..];
  }

  /** A donor parameter that is not temporary. */
  predicate IsDonorNode(nodes: seq<Node>, parameters: seq<Parameter>, aliases: map<nat, nat>, donors: set<nat>, n: nat) {
    && n < |nodes| && nodes[n].parameter.Some? && nodes[n].parameter.value < |parameters|
    && IsDonor(parameters, aliases, donors, false, nodes[n].parameter.value)
  }

  /** A donor that has the root's shape. */
  predicate IsDonorOfShape(nodes: seq<Node>, parameters: seq<Parameter>, aliases: map<nat, nat>, donors: set<nat>, root: nat, n: nat) {
    IsDonorNode(nodes, parameters, aliases, donors, n) && root < |nodes| && nodes[n].shape == nodes[root].shape
  }

  const MAX_VISITS: nat := 1000

  /** Below `user` and not yet visited means below something in the queue. */
  ghost predicate Covers(nodes: seq<Node>, queue: seq<nat>, seen: set<nat>, user: nat) {
    forall n :: n != user && Feeds(nodes, n, user) ==> n in seen || FeedsSome(nodes, n, queue)
  }

  ghost predicate FeedsSome(nodes: seq<Node>, n: nat, queue: seq<nat>) {
    exists x :: x in queue && Feeds(nodes, n, x)
  }

  /** What feeds an instruction is the instruction, or feeds one of its operands. */
  lemma FeedsThroughOperand(nodes: seq<Node>, n: nat, user: nat)
    requires Feeds(nodes, n, user)
    ensures user < |nodes| && (n == user || FeedsSome(nodes, n, nodes[user].operands))
  {
    var path :| IsPath(nodes, path) && path[0] == user && path[|path| - 1] == n;
    if |path| > 1 {
      assert path[1] in nodes[path[0]].operands;
      assert IsPath(nodes, path[1..]);
      assert Feeds(nodes, n, path[1]);
    }
  }

  lemma CoversStart(nodes: seq<Node>, user: nat)
    requires user < |nodes|
    ensures Covers(nodes, nodes[user].operands, {}, user)
  {
    forall n | n != user && Feeds(nodes, n, user) ensures FeedsSome(nodes, n, nodes[user].operands) {
      FeedsThroughOperand(nodes, n, user);
    }
  }

  lemma CoversStep(nodes: seq<Node>, queue: seq<nat>, seen: set<nat>, user: nat)
    requires queue != [] && queue[0] < |nodes| && Covers(nodes, queue, seen, user)
    ensures Covers(nodes, queue[1..] + nodes[queue[0]].operands, seen + {queue[0]}, user)
  {
    var next := queue[1..] + nodes[queue[0]].operands;
    forall n | n != user && Feeds(nodes, n, user) && n !in seen && n != queue[0] ensures FeedsSome(nodes, n, next) {
      assert FeedsSome(nodes, n, queue);
      var x :| x in queue && Feeds(nodes, n, x);
      if x in queue[1..] {
        assert x in next;
      } else {
        FeedsThroughOperand(nodes, n, queue[0]);
        var y :| y in nodes[queue[0]].operands && Feeds(nodes, n, y);
        assert y in next;
      }
    }
  }

  ghost predicate AllBelow(nodes: seq<Node>, queue: seq<nat>, root: nat) {
    forall x :: x in queue ==> x < |nodes| && Feeds(nodes, x, root)
  }

  /** What is known during the search. */
  ghost predicate Searching(nodes: seq<Node>, root: nat, queue: seq<nat>, seen: set<nat>, visits: nat)
    requires IsOrdered(nodes) && root < |nodes|
  {
    && AllBelow(nodes, queue, root) && Covers(nodes, queue, seen, root)
    && visits + Sum(VisitCounts(nodes), queue) + 1 == VisitCounts(nodes)[root]
  }

  lemma SearchStart(nodes: seq<Node>, root: nat)
    requires IsOrdered(nodes) && root < |nodes|
    ensures Searching(nodes, root, nodes[root].operands, {}, 0)
  {
    FeedOperands(nodes, root, root);
    CoversStart(nodes, root);
    VisitCountAt(nodes, root);
  }

  lemma SearchStep(nodes: seq<Node>, root: nat, queue: seq<nat>, seen: set<nat>, visits: nat)
    requires IsOrdered(nodes) && root < |nodes| && queue != [] && queue[0] < |nodes| && Searching(nodes, root, queue, seen, visits)
    ensures Searching(nodes, root, queue[1..] + nodes[queue[0]].operands, seen + {queue[0]}, visits + 1)
  {
    var head, rest := queue[0], queue[1..];
    assert queue == [head] + rest;
    CoversStep(nodes, queue, seen, root);
    FeedOperands(nodes, head, root);
    VisitCountAt(nodes, head);
    SumConcat(VisitCounts(nodes), rest, nodes[head].operands);
    forall x | x in rest + nodes[head].operands ensures x < |nodes| && Feeds(nodes, x, root) {
      assert x in rest ==> x in queue;
    }
  }

  /** If something is left in the queue, the search has more visits to make. */
  lemma SearchStops(nodes: seq<Node>, root: nat, queue: seq<nat>, seen: set<nat>, visits: nat)
    requires IsOrdered(nodes) && root < |nodes| && Searching(nodes, root, queue, seen, visits) && queue != []
    ensures VisitCounts(nodes)[root] >= visits + 2
  {
    assert queue[0] in queue;
    VisitCountAt(nodes, queue[0]);
  }

  // ---- what the search finds first ----

  /** The instructions that `d` steps from user to operand lead to. */
  ghost function Level(nodes: seq<Node>, root: nat, d: nat): set<nat> {
    if d == 0 then {root}
    else set y, x | y in Level(nodes, root, d - 1) && y < |nodes| && x in nodes[y].operands :: x
  }

  /** A donor of the root's shape in fewest steps below the root. */
  ghost predicate IsNearest(nodes: seq<Node>, parameters: seq<Parameter>, aliases: map<nat, nat>, donors: set<nat>, root: nat, n: nat) {
    exists d: nat :: d > 0 && n in Level(nodes, root, d) && NoneNearer(nodes, parameters, aliases, donors, root, d)
  }

  /** No donor of the root's shape in at least one and fewer than `d` steps. */
  ghost predicate NoneNearer(nodes: seq<Node>, parameters: seq<Parameter>, aliases: map<nat, nat>, donors: set<nat>, root: nat, d: nat) {
    d > 1 ==>
      && NoneNearer(nodes, parameters, aliases, donors, root, d - 1)
      && forall x :: x in Level(nodes, root, d - 1) ==> !IsDonorOfShape(nodes, parameters, aliases, donors, root, x)
  }

  lemma {:induction false} NoneNearerAt(nodes: seq<Node>, parameters: seq<Parameter>, aliases: map<nat, nat>, donors: set<nat>, root: nat, d: nat)
    requires forall e: nat, x: nat :: 0 < e < d && x in Level(nodes, root, e) ==> !IsDonorOfShape(nodes, parameters, aliases, donors, root, x)
    ensures NoneNearer(nodes, parameters, aliases, donors, root, d)
  {
    if d > 1 {
      NoneNearerAt(nodes, parameters, aliases, donors, root, d - 1);
    }
  }

  /** The queue holds the rest of level `d` and then what is known of the next level. */
  ghost predicate Layers(nodes: seq<Node>, root: nat, d: nat, now: seq<nat>, next: seq<nat>, seen: set<nat>) {
    && (forall x :: x in now ==> x in Level(nodes, root, d))
    && (forall x :: x in next ==> x in Level(nodes, root, d + 1))
    && (forall e: nat, x: nat :: 0 < e < d && x in Level(nodes, root, e) ==> x in seen)
    && (forall x :: x in Level(nodes, root, d) ==> x in seen || x in now)
    && (forall x :: x in Level(nodes, root, d + 1) ==> x in next || IsBelow(nodes, x, now))
  }

  ghost predicate IsBelow(nodes: seq<Node>, x: nat, users: seq<nat>) {
    exists y :: y in users && y < |nodes| && x in nodes[y].operands
  }

  lemma LayersStart(nodes: seq<Node>, root: nat)
    requires root < |nodes|
    ensures InLayers(nodes, root, nodes[root].operands, {})
  {
    assert nodes[root].operands == nodes[root].operands + [];
    assert Level(nodes, root, 0) == {root};
    forall x | x in Level(nodes, root, 2) ensures IsBelow(nodes, x, nodes[root].operands) {
      var y :| y in Level(nodes, root, 1) && y < |nodes| && x in nodes[y].operands;
    }
    assert Layers(nodes, root, 1, nodes[root].operands, [], {});
  }

  lemma LayersShift(nodes: seq<Node>, root: nat, d: nat, next: seq<nat>, seen: set<nat>)
    requires Layers(nodes, root, d, [], next, seen)
    ensures Layers(nodes, root, d + 1, next, [], seen)
  {
    forall x | x in Level(nodes, root, d + 2) ensures IsBelow(nodes, x, next) {
      var y :| y in Level(nodes, root, d + 1) && y < |nodes| && x in nodes[y].operands;
      assert !IsBelow(nodes, y, []);
    }
    forall x | x in Level(nodes, root, d + 1) ensures x in next {
      assert !IsBelow(nodes, x, []);
    }
  }

  lemma LayersStep(nodes: seq<Node>, root: nat, d: nat, head: nat, now: seq<nat>, next: seq<nat>, seen: set<nat>)
    requires Layers(nodes, root, d, [head] + now, next, seen) && head < |nodes|
    ensures Layers(nodes, root, d, now, next + nodes[head].operands, seen + {head})
  {
    assert ([head] + now)[0] == head;
    forall x | x in now ensures x in Level(nodes, root, d) {
      assert x in [head] + now;
    }
    assert head in Level(nodes, root, d);
    forall x | x in Level(nodes, root, d + 1) && x !in next + nodes[head].operands ensures IsBelow(nodes, x, now) {
      var y :| y in [head] + now && y < |nodes| && x in nodes[y].operands;
      assert y in now;
    }
  }

  /** The queue is one level and a part of the next. */
  ghost predicate InLayers(nodes: seq<Node>, root: nat, queue: seq<nat>, seen: set<nat>) {
    exists d: nat, now, next :: d > 0 && queue == now + next && Layers(nodes, root, d, now, next, seen)
  }

  /** The head of the queue is in the level that the queue is at. */
  lemma HeadLevel(nodes: seq<Node>, root: nat, queue: seq<nat>, seen: set<nat>) returns (d: nat, now: seq<nat>, next: seq<nat>)
    requires queue != [] && InLayers(nodes, root, queue, seen)
    ensures d > 0 && queue == [queue[0]] + now + next && Layers(nodes, root, d, [queue[0]] + now, next, seen)
  {
    var level: nat, first, second :| level > 0 && queue == first + second && Layers(nodes, root, level, first, second, seen);
    if first == [] {
      LayersShift(nodes, root, level, second, seen);
      level, first, second := level + 1, second, [];
    }
    assert first == [queue[0]] + first[1..];
    d, now, next := level, first[1..], second;
  }

  lemma InLayersStep(nodes: seq<Node>, root: nat, queue: seq<nat>, seen: set<nat>)
    requires queue != [] && queue[0] < |nodes| && InLayers(nodes, root, queue, seen)
    ensures InLayers(nodes, root, queue[1..] + nodes[queue[0]].operands, seen + {queue[0]})
  {
    var d, now, next := HeadLevel(nodes, root, queue, seen);
    LayersStep(nodes, root, d, queue[0], now, next, seen);
    assert queue[1..] + nodes[queue[0]].operands == now + (next + nodes[queue[0]].operands);
  }

  /** A search below this instruction stays within the limit. */
  ghost predicate IsSearchable(nodes: seq<Node>, root: nat)
    requires IsOrdered(nodes) && root < |nodes|
  {
    VisitCounts(nodes)[root] <= MAX_VISITS + 1
  }

  // ---- the state of the search ----

  /** The queue after some visits. */
  ghost function QueueAt(nodes: seq<Node>, root: nat, visits: nat): seq<nat> {
    if visits == 0 then Operands(nodes, root)
    else
      var before := QueueAt(nodes, root, visits - 1);
      if before == [] then [] else before[1..] + Operands(nodes, before[0])
  }

  ghost function Operands(nodes: seq<Node>, n: nat): seq<nat> {
    if n < |nodes| then nodes[n].operands else []
  }

  /** What the first visits were to. */
  ghost function SeenAt(nodes: seq<Node>, root: nat, visits: nat): set<nat> {
    if visits == 0 then {}
    else
      var before := QueueAt(nodes, root, visits - 1);
      SeenAt(nodes, root, visits - 1) + if before == [] then {} else {before[0]}
  }

  /** The search has got this far. */
  ghost predicate HasVisits(nodes: seq<Node>, root: nat, visits: nat) {
    IsOrdered(nodes) && root < |nodes| && (visits > 0 ==> QueueAt(nodes, root, visits - 1) != [])
  }

  lemma {:induction false} SearchingAt(nodes: seq<Node>, root: nat, visits: nat)
    requires HasVisits(nodes, root, visits)
    ensures Searching(nodes, root, QueueAt(nodes, root, visits), SeenAt(nodes, root, visits), visits)
  {
    if visits == 0 {
      SearchStart(nodes, root);
    } else {
      var before := QueueAt(nodes, root, visits - 1);
      SearchingAt(nodes, root, visits - 1);
      assert before[0] in before;
      SearchStep(nodes, root, before, SeenAt(nodes, root, visits - 1), visits - 1);
    }
  }

  lemma {:induction false} LayersAt(nodes: seq<Node>, root: nat, visits: nat)
    requires HasVisits(nodes, root, visits)
    ensures InLayers(nodes, root, QueueAt(nodes, root, visits), SeenAt(nodes, root, visits))
  {
    if visits == 0 {
      LayersStart(nodes, root);
    } else {
      var before := QueueAt(nodes, root, visits - 1);
      LayersAt(nodes, root, visits - 1);
      SearchingAt(nodes, root, visits - 1);
      assert before[0] in before;
      InLayersStep(nodes, root, before, SeenAt(nodes, root, visits - 1));
    }
  }

  /** The root's operands come first. */
  lemma {:induction false} OperandsFirst(nodes: seq<Node>, root: nat, visits: nat, n: nat)
    requires HasVisits(nodes, root, visits) && n <= |nodes[root].operands|
    ensures StartsWith(QueueAt(nodes, root, visits), nodes[root].operands, visits, n)
    ensures forall i :: 0 <= i < n && i < visits ==> nodes[root].operands[i] in SeenAt(nodes, root, visits)
  {
    if visits > 0 {
      var before := QueueAt(nodes, root, visits - 1);
      OperandsFirst(nodes, root, visits - 1, n);
      QueueHead(before, nodes[root].operands, visits - 1, n);
      QueueStep(before, Operands(nodes, before[0]), nodes[root].operands, visits - 1, n);
    }
  }

  /** The first donor that comes out of the queue is a nearest one. */
  lemma FirstIsNearest(nodes: seq<Node>, parameters: seq<Parameter>, aliases: map<nat, nat>, donors: set<nat>, root: nat, visits: nat)
    requires HasVisits(nodes, root, visits) && QueueAt(nodes, root, visits) != []
    requires NoneSeen(nodes, parameters, aliases, donors, root, visits)
    ensures Feeds(nodes, QueueAt(nodes, root, visits)[0], root)
    ensures IsNearest(nodes, parameters, aliases, donors, root, QueueAt(nodes, root, visits)[0])
  {
    var queue := QueueAt(nodes, root, visits);
    SearchingAt(nodes, root, visits);
    LayersAt(nodes, root, visits);
    var d, now, next := HeadLevel(nodes, root, queue, SeenAt(nodes, root, visits));
    assert queue[0] in queue && ([queue[0]] + now)[0] == queue[0];
    NoneNearerAt(nodes, parameters, aliases, donors, root, d);
  }

  /** No visit so far was to a donor of the root's shape. */
  ghost predicate NoneSeen(nodes: seq<Node>, parameters: seq<Parameter>, aliases: map<nat, nat>, donors: set<nat>, root: nat, visits: nat) {
    forall x :: x in SeenAt(nodes, root, visits) ==> !IsDonorOfShape(nodes, parameters, aliases, donors, root, x)
  }

  /** A search that ends without a donor has seen everything below the root, or has used up its visits. */
  lemma SearchEnds(nodes: seq<Node>, root: nat, visits: nat)
    requires HasVisits(nodes, root, visits) && visits <= MAX_VISITS
    requires QueueAt(nodes, root, visits) == [] || visits == MAX_VISITS
    ensures forall i :: 0 <= i < Min(|nodes[root].operands|, MAX_VISITS) ==> nodes[root].operands[i] in SeenAt(nodes, root, visits)
    ensures IsSearchable(nodes, root) ==> forall n :: n != root && Feeds(nodes, n, root) ==> n in SeenAt(nodes, root, visits)
  {
    var queue, seen := QueueAt(nodes, root, visits), SeenAt(nodes, root, visits);
    OperandsFirst(nodes, root, visits, Min(|nodes[root].operands|, MAX_VISITS));
    SearchingAt(nodes, root, visits);
    if queue != [] {
      SearchStops(nodes, root, queue, seen, visits);
    } else {
      forall n | n != root && Feeds(nodes, n, root) ensures n in seen {
        assert !FeedsSome(nodes, n, queue);
      }
    }
  }

  /** The breadth-first search for a donor of the root's shape. Within the visit limit it misses nothing. */
  method FindDonor(nodes: seq<Node>, parameters: seq<Parameter>, ghost outputs: seq<Output>, config: AliasConfig, root: nat)
    returns (found: Option<nat>)
    requires IsGraph(nodes, parameters, outputs) && root < |nodes|
    ensures found.Some? ==> IsDonorOfShape(nodes, parameters, config.aliases, config.donors, root, found.value) && Feeds(nodes, found.value, root)
    ensures found.Some? ==> IsNearest(nodes, parameters, config.aliases, config.donors, root, found.value)
    ensures found == None ==>
              forall i :: 0 <= i < Min(|nodes[root].operands|, MAX_VISITS) ==>
                !IsDonorOfShape(nodes, parameters, config.aliases, config.donors, root, nodes[root].operands[i])
    ensures found == None && IsSearchable(nodes, root) ==>
              forall n :: n != root && Feeds(nodes, n, root) ==> !IsDonorOfShape(nodes, parameters, config.aliases, config.donors, root, n)
  {
    var queue: seq<nat> := nodes[root].operands;
    var visits := 0;
    while queue != [] && visits < MAX_VISITS
      invariant 0 <= visits <= MAX_VISITS && HasVisits(nodes, root, visits) && queue == QueueAt(nodes, root, visits)
      invariant NoneSeen(nodes, parameters, config.aliases, config.donors, root, visits)
      decreases MAX_VISITS - visits
    {
      var operand: nat := queue[0];
      FirstIsNearest(nodes, parameters, config.aliases, config.donors, root, visits);
      if IsDonorOfShape(nodes, parameters, config.aliases, config.donors, root, operand) {
        return Some(operand);
      }
      FeedsThroughOperand(nodes, operand, root);
      queue := queue[1..] + nodes[operand].operands;
      visits := visits + 1;
    }
    found := None;
    SearchEnds(nodes, root, visits);
  }

  /** The queue still begins with the root's operands from number `visits` to `n`. */
  ghost predicate StartsWith(queue: seq<nat>, operands: seq<nat>, visits: nat, n: nat)
    requires n <= |operands|
  {
    visits < n ==> n - visits <= |queue| && forall i :: visits <= i < n ==> queue[i - visits] == operands[i]
  }

  lemma QueueHead(queue: seq<nat>, operands: seq<nat>, visits: nat, n: nat)
    requires n <= |operands| && StartsWith(queue, operands, visits, n) && queue != []
    ensures visits < n ==> queue[0] == operands[visits]
  {
  }

  lemma QueueStep(queue: seq<nat>, more: seq<nat>, operands: seq<nat>, visits: nat, n: nat)
    requires n <= |operands| && StartsWith(queue, operands, visits, n) && queue != []
    ensures StartsWith(queue[1..] + more, operands, visits + 1, n)
    ensures forall x :: x in queue[1..] + more ==> x in queue || x in more
  {
    forall i | visits + 1 <= i < n ensures (queue[1..] + more)[i - (visits + 1)] == operands[i] {
      assert queue[i - visits] == operands[i];
    }
  }

  lemma FeedOperands(nodes: seq<Node>, node: nat, root: nat)
    requires node < |nodes| && root < |nodes| && (node == root || Feeds(nodes, node, root))
    requires forall x :: x in nodes[node].operands ==> x < |nodes|
    ensures forall x :: x in nodes[node].operands ==> Feeds(nodes, x, root)
  {
    forall x | x in nodes[node].operands ensures Feeds(nodes, x, root) {
      var path := [root];
      if node != root {
        path :| IsPath(nodes, path) && path[0] == root && path[|path| - 1] == node;
      }
      assert IsPath(nodes, path + [x]);
      assert (path + [x])[0] == root;
    }
  }

  /** The only parameter is a tuple. */
  predicate IsTupled(parameters: seq<Parameter>) {
    |parameters| == 1 && parameters[0].isTuple
  }

  /** Give the output a donor parameter that it returns or is computed from, if one is found. */
  method FindBestMatch(nodes: seq<Node>, parameters: seq<Parameter>, outputs: seq<Output>, config: AliasConfig, o: nat)
    returns (ok: bool)
    requires config.Valid() && IsGraph(nodes, parameters, outputs) && o < |outputs|
    modifies config`aliases
    ensures config.Valid()
    ensures !ok <==> old(IsDonee(outputs, config.aliases, false, o)) && IsTupled(parameters)
    ensures !ok ==> config.aliases == old(config.aliases)
    ensures config.aliases == old(config.aliases) ||
            exists n: nat :: IsChosen(nodes, parameters, outputs, old(config.aliases), config.donors, o, n) &&
              config.aliases == old(config.aliases)[o := nodes[n].parameter.value]
    ensures ok && config.aliases == old(config.aliases) && IsDonee(outputs, config.aliases, false, o) && IsSearchable(nodes, outputs[o].node) ==>
              forall n: nat :: !Donates(nodes, parameters, outputs, config.aliases, config.donors, o, n)
    ensures ok && old(IsDonee(outputs, config.aliases, false, o)) && old(IsDonorNode(nodes, parameters, config.aliases, config.donors, outputs[o].node)) ==>
              config.aliases == old(config.aliases)[o := nodes[outputs[o].node].parameter.value]
  {
    ok := true;
    if o in config.aliases || outputs[o].isTemporary {
      return;
    }
    if IsTupled(parameters) {
      ok := false;
      return;
    }
    var root := outputs[o].node;
    if IsDonorNode(nodes, parameters, config.aliases, config.donors, root) {
      assert IsPath(nodes, [root]);
      assert IsChosen(nodes, parameters, outputs, config.aliases, config.donors, o, root);
      config.SetUpAlias(o, nodes[root].parameter.value);
    } else {
      var found := FindDonor(nodes, parameters, outputs, config, root);
      if found.Some? {
        assert IsChosen(nodes, parameters, outputs, config.aliases, config.donors, o, found.value);
        config.SetUpAlias(o, nodes[found.value].parameter.value);
      }
    }
  }

  /** The output is computed from this donor parameter, or is the parameter, and both have one shape. */
  ghost predicate Donates(nodes: seq<Node>, parameters: seq<Parameter>, outputs: seq<Output>, aliases: map<nat, nat>, donors: set<nat>, o: nat, n: nat) {
    && o < |outputs| && outputs[o].node < |nodes| && IsDonee(outputs, aliases, false, o)
    && IsDonorNode(nodes, parameters, aliases, donors, n)
    && Feeds(nodes, n, outputs[o].node) && nodes[n].shape == nodes[outputs[o].node].shape
  }

  /** The output itself if it is a donor, and otherwise a donor in fewest steps below it. */
  ghost predicate IsChosen(nodes: seq<Node>, parameters: seq<Parameter>, outputs: seq<Output>, aliases: map<nat, nat>, donors: set<nat>, o: nat, n: nat) {
    && Donates(nodes, parameters, outputs, aliases, donors, o, n)
    && if IsDonorNode(nodes, parameters, aliases, donors, outputs[o].node) then n == outputs[o].node
       else IsNearest(nodes, parameters, aliases, donors, outputs[o].node, n)
  }

  // ---- the pass ----

  /** An alias between a parameter and an output of the same kind, with equal shard sizes or found through the graph. */
  ghost predicate IsSound(nodes: seq<Node>, parameters: seq<Parameter>, outputs: seq<Output>, o: nat, p: nat) {
    && o < |outputs| && p < |parameters| && parameters[p].isTemporary == outputs[o].isTemporary
    && (parameters[p].size == outputs[o].size || (!outputs[o].isTemporary && IsInput(nodes, outputs[o].node, p)))
  }

  ghost predicate IsInput(nodes: seq<Node>, root: nat, p: nat) {
    exists n: nat :: n < |nodes| && root < |nodes| && nodes[n].parameter == Some(p) && Feeds(nodes, n, root) && nodes[n].shape == nodes[root].shape
  }

  /** Every alias made since `before` is sound, and the earlier ones are kept. */
  ghost predicate SoundSince(nodes: seq<Node>, parameters: seq<Parameter>, outputs: seq<Output>, before: map<nat, nat>, after: map<nat, nat>) {
    && (forall o :: o in before ==> o in after && after[o] == before[o])
    && (forall o :: o in after && o !in before ==> IsSound(nodes, parameters, outputs, o, after[o]))
  }

  /** Later aliases cannot make a saturated kind unsaturated. */
  lemma StaysSaturated(parameters: seq<Parameter>, outputs: seq<Output>, aliases: map<nat, nat>, donors: set<nat>,
                       after: map<nat, nat>, left: set<nat>, temporary: bool)
    requires Saturated(parameters, outputs, aliases, donors, temporary)
    requires (forall o :: o in aliases ==> o in after && after[o] == aliases[o]) && left <= donors
    ensures Saturated(parameters, outputs, after, left, temporary)
  {
    forall p | 0 <= p < |parameters| && IsDonor(parameters, after, left, temporary, p)
      ensures IsDonor(parameters, aliases, donors, temporary, p)
    {
      WasDonor(parameters, aliases, after, donors, temporary, p);
    }
  }

  // ---- what the search decides ----

  /** The earlier aliases and those of the outputs before output `o`. */
  ghost function Upto(before: map<nat, nat>, searched: map<nat, nat>, o: nat): map<nat, nat> {
    map q | q in searched && (q in before || q < o) :: searched[q]
  }

  /** An output that is no temporary and had no alias gets the best donor that earlier outputs leave it, within the visit limit. */
  ghost predicate IsServed(nodes: seq<Node>, parameters: seq<Parameter>, outputs: seq<Output>,
                           before: map<nat, nat>, donors: set<nat>, searched: map<nat, nat>, o: nat)
    requires IsGraph(nodes, parameters, outputs) && o < |outputs|
  {
    var given := Upto(before, searched, o);
    if !IsDonee(outputs, before, false, o) then o in searched ==> o in before
    else if o in searched then exists n: nat :: IsChosen(nodes, parameters, outputs, given, donors, o, n) && nodes[n].parameter == Some(searched[o])
    else
      && !IsDonorNode(nodes, parameters, given, donors, outputs[o].node)
      && (IsSearchable(nodes, outputs[o].node) ==> forall n: nat :: !Donates(nodes, parameters, outputs, given, donors, o, n))
  }

  /** The aliases that the search adds, output by output, once it is done with `n` outputs. */
  ghost predicate IsSearchTo(nodes: seq<Node>, parameters: seq<Parameter>, outputs: seq<Output>,
                             before: map<nat, nat>, donors: set<nat>, searched: map<nat, nat>, n: nat)
    requires IsGraph(nodes, parameters, outputs) && n <= |outputs|
  {
    && (forall o :: o in before ==> o in searched && searched[o] == before[o])
    && (forall o :: o in searched ==> o in before || o < n)
    && (forall o :: 0 <= o < n ==> IsServed(nodes, parameters, outputs, before, donors, searched, o))
  }

  ghost predicate IsSearch(nodes: seq<Node>, parameters: seq<Parameter>, outputs: seq<Output>,
                           before: map<nat, nat>, donors: set<nat>, searched: map<nat, nat>)
    requires IsGraph(nodes, parameters, outputs)
  {
    IsSearchTo(nodes, parameters, outputs, before, donors, searched, |outputs|)
  }

  lemma UptoNow(before: map<nat, nat>, searched: map<nat, nat>, n: nat)
    requires forall o :: o in searched ==> o in before || o < n
    ensures Upto(before, searched, n) == searched
  {
  }

  lemma UptoEarlier(before: map<nat, nat>, searched: map<nat, nat>, n: nat, p: nat, o: nat)
    requires n !in before && o <= n
    ensures Upto(before, searched[n := p], o) == Upto(before, searched, o)
  {
  }

  /** The search at one more output. */
  lemma SearchNext(nodes: seq<Node>, parameters: seq<Parameter>, outputs: seq<Output>,
                   before: map<nat, nat>, donors: set<nat>, searched: map<nat, nat>, after: map<nat, nat>, n: nat)
    requires IsGraph(nodes, parameters, outputs) && n < |outputs| && IsSearchTo(nodes, parameters, outputs, before, donors, searched, n)
    requires after == searched || exists x: nat :: IsChosen(nodes, parameters, outputs, searched, donors, n, x) && after == searched[n := nodes[x].parameter.value]
    requires after == searched && IsDonee(outputs, searched, false, n) ==>
               && !IsDonorNode(nodes, parameters, searched, donors, outputs[n].node)
               && (IsSearchable(nodes, outputs[n].node) ==> forall x: nat :: !Donates(nodes, parameters, outputs, searched, donors, n, x))
    ensures IsSearchTo(nodes, parameters, outputs, before, donors, after, n + 1)
  {
    UptoNow(before, searched, n);
    if after == searched {
      assert IsServed(nodes, parameters, outputs, before, donors, after, n);
    } else {
      var x: nat :| IsChosen(nodes, parameters, outputs, searched, donors, n, x) && after == searched[n := nodes[x].parameter.value];
      UptoEarlier(before, searched, n, nodes[x].parameter.value, n);
      assert IsServed(nodes, parameters, outputs, before, donors, after, n);
      forall o | 0 <= o < n ensures IsServed(nodes, parameters, outputs, before, donors, after, o) {
        UptoEarlier(before, searched, n, nodes[x].parameter.value, o);
        assert IsServed(nodes, parameters, outputs, before, donors, searched, o);
      }
    }
  }

  /** A parameter that is still free when output `o` is reached: a donor that no earlier alias and no earlier output has. */
  ghost predicate IsFree(parameters: seq<Parameter>, before: map<nat, nat>, donors: set<nat>, searched: map<nat, nat>, o: nat, p: nat) {
    && p < |parameters| && p in donors && !parameters[p].isTemporary && p !in before.Values
    && forall q :: q in searched && q < o ==> searched[q] != p
  }

  /** The instruction is a free donor parameter. */
  ghost predicate IsFreeNode(nodes: seq<Node>, parameters: seq<Parameter>, before: map<nat, nat>, donors: set<nat>, searched: map<nat, nat>, o: nat, n: nat) {
    n < |nodes| && nodes[n].parameter.Some? && IsFree(parameters, before, donors, searched, o, nodes[n].parameter.value)
  }

  lemma FreeIff(nodes: seq<Node>, parameters: seq<Parameter>, outputs: seq<Output>,
                before: map<nat, nat>, donors: set<nat>, searched: map<nat, nat>, o: nat, n: nat)
    requires IsGraph(nodes, parameters, outputs) && IsSearch(nodes, parameters, outputs, before, donors, searched)
    ensures IsDonorNode(nodes, parameters, Upto(before, searched, o), donors, n) <==> IsFreeNode(nodes, parameters, before, donors, searched, o, n)
  {
    var given := Upto(before, searched, o);
    if n < |nodes| && nodes[n].parameter.Some? {
      var p := nodes[n].parameter.value;
      if p in given.Values {
        var q :| q in given && given[q] == p;
        assert q in before ==> before[q] in before.Values;
      }
      if p in before.Values {
        var q :| q in before && before[q] == p;
        assert given[q] == p;
      }
      forall q | q in searched && q < o && searched[q] == p ensures p in given.Values {
        assert given[q] == p;
      }
    }
  }

  /** An output that is itself a free donor parameter keeps that parameter. */
  lemma OwnParameterIsKept(nodes: seq<Node>, parameters: seq<Parameter>, outputs: seq<Output>,
                           before: map<nat, nat>, donors: set<nat>, searched: map<nat, nat>, o: nat)
    requires IsGraph(nodes, parameters, outputs) && IsSearch(nodes, parameters, outputs, before, donors, searched)
    requires o < |outputs| && !outputs[o].isTemporary && o !in before
    requires IsFreeNode(nodes, parameters, before, donors, searched, o, outputs[o].node)
    ensures o in searched && nodes[outputs[o].node].parameter == Some(searched[o])
  {
    assert IsServed(nodes, parameters, outputs, before, donors, searched, o);
    FreeIff(nodes, parameters, outputs, before, donors, searched, o, outputs[o].node);
  }

  /**
   * Where the search stays within the limit, an output gets an alias exactly when a free donor of
   * its shape feeds it, and the alias is then with such a donor.
   */
  lemma ServedIff(nodes: seq<Node>, parameters: seq<Parameter>, outputs: seq<Output>,
                  before: map<nat, nat>, donors: set<nat>, searched: map<nat, nat>, o: nat)
    requires IsGraph(nodes, parameters, outputs) && IsSearch(nodes, parameters, outputs, before, donors, searched)
    requires o < |outputs| && !outputs[o].isTemporary && o !in before
    ensures o in searched ==>
              exists n: nat :: IsFreeNode(nodes, parameters, before, donors, searched, o, n) && nodes[n].parameter == Some(searched[o]) &&
                Feeds(nodes, n, outputs[o].node) && nodes[n].shape == nodes[outputs[o].node].shape
    ensures IsSearchable(nodes, outputs[o].node) ==>
              (o in searched <==>
               exists n: nat :: IsFreeNode(nodes, parameters, before, donors, searched, o, n) &&
                 Feeds(nodes, n, outputs[o].node) && nodes[n].shape == nodes[outputs[o].node].shape)
  {
    var given := Upto(before, searched, o);
    assert IsServed(nodes, parameters, outputs, before, donors, searched, o);
    assert o !in given;
    if o in searched {
      var n: nat :| IsChosen(nodes, parameters, outputs, given, donors, o, n) && nodes[n].parameter == Some(searched[o]);
      FreeIff(nodes, parameters, outputs, before, donors, searched, o, n);
    } else if IsSearchable(nodes, outputs[o].node) {
      forall n: nat | IsFreeNode(nodes, parameters, before, donors, searched, o, n) && Feeds(nodes, n, outputs[o].node)
        ensures nodes[n].shape != nodes[outputs[o].node].shape
      {
        FreeIff(nodes, parameters, outputs, before, donors, searched, o, n);
        assert !Donates(nodes, parameters, outputs, given, donors, o, n);
      }
    }
  }

  // ---- what is added by size ----

  /** The other new aliases join a donor and an output of one kind and size, and use up the donor. */
  ghost predicate IsFilled(parameters: seq<Parameter>, outputs: seq<Output>, searched: map<nat, nat>, donors: set<nat>, after: map<nat, nat>, left: set<nat>) {
    && (forall o :: o in searched ==> o in after && after[o] == searched[o])
    && (forall o :: o in after && o !in searched ==> IsBySize(parameters, outputs, searched, donors, o, after[o]))
    && (forall p :: p in left <==> p in donors && !IsUsed(searched, after, p))
  }

  ghost predicate IsBySize(parameters: seq<Parameter>, outputs: seq<Output>, searched: map<nat, nat>, donors: set<nat>, o: nat, p: nat) {
    && o < |outputs| && p < |parameters| && p in donors && p !in searched.Values
    && parameters[p].isTemporary == outputs[o].isTemporary && parameters[p].size == outputs[o].size
  }

  ghost predicate IsUsed(searched: map<nat, nat>, after: map<nat, nat>, p: nat) {
    exists o :: o in after && o !in searched && after[o] == p
  }

  lemma FilledGrows(searched: map<nat, nat>, after: map<nat, nat>)
    requires (forall o :: o in searched ==> o in after && after[o] == searched[o]) && after != searched
    ensures exists o :: o in after && o !in searched
  {
    assert after.Keys != searched.Keys;
  }

  lemma BuildFills(parameters: seq<Parameter>, outputs: seq<Output>, searched: map<nat, nat>, donors: set<nat>,
                   aliases: map<nat, nat>, given: set<nat>, temporary: bool)
    requires IsFilled(parameters, outputs, searched, donors, aliases, given)
    ensures var pairs := Matched(parameters, outputs, aliases, given, temporary);
            && IsFilled(parameters, outputs, searched, donors, Aliased(aliases, pairs), given - DonorIndices(pairs))
            && (Aliased(aliases, pairs) == searched <==> aliases == searched && pairs == [])
  {
    var pairs := Matched(parameters, outputs, aliases, given, temporary);
    MatchedFacts(parameters, outputs, aliases, given, temporary);
    AliasedAt(aliases, pairs);
    var after := Aliased(aliases, pairs);
    if aliases != searched {
      FilledGrows(searched, aliases);
    }
    forall o | o in after && o !in searched ensures IsBySize(parameters, outputs, searched, donors, o, after[o]) {
      if o !in aliases {
        var k :| 0 <= k < |pairs| && pairs[k].donee.index == o;
        assert IsFairPair(parameters, outputs, aliases, given, temporary, pairs[k]);
        forall q | q in searched ensures searched[q] != after[o] {
          assert aliases[q] in aliases.Values;
        }
      }
    }
    forall p ensures p in given - DonorIndices(pairs) <==> p in donors && !IsUsed(searched, after, p) {
      if p in DonorIndices(pairs) {
        var k :| 0 <= k < |pairs| && pairs[k].donor.index == p;
        assert IsFairPair(parameters, outputs, aliases, given, temporary, pairs[k]);
        assert after[pairs[k].donee.index] == p;
        assert IsUsed(searched, after, p);
      }
      if IsUsed(searched, aliases, p) {
        var o :| o in aliases && o !in searched && aliases[o] == p;
        assert after[o] == p;
      }
      if IsUsed(searched, after, p) && !IsUsed(searched, aliases, p) {
        var o :| o in after && o !in searched && after[o] == p;
        assert o !in aliases;
        var k :| 0 <= k < |pairs| && pairs[k].donee.index == o;
        assert p in DonorIndices(pairs);
      }
    }
  }

  lemma SearchIsSound(nodes: seq<Node>, parameters: seq<Parameter>, outputs: seq<Output>,
                      before: map<nat, nat>, donors: set<nat>, searched: map<nat, nat>, n: nat)
    requires IsGraph(nodes, parameters, outputs) && n <= |outputs| && IsSearchTo(nodes, parameters, outputs, before, donors, searched, n)
    ensures SoundSince(nodes, parameters, outputs, before, searched)
  {
    forall o | o in searched && o !in before ensures IsSound(nodes, parameters, outputs, o, searched[o]) {
      assert IsServed(nodes, parameters, outputs, before, donors, searched, o);
      var given := Upto(before, searched, o);
      var x: nat :| IsChosen(nodes, parameters, outputs, given, donors, o, x) && nodes[x].parameter == Some(searched[o]);
      assert IsInput(nodes, outputs[o].node, searched[o]);
    }
  }

  lemma FillIsSound(nodes: seq<Node>, parameters: seq<Parameter>, outputs: seq<Output>, before: map<nat, nat>,
                    searched: map<nat, nat>, donors: set<nat>, after: map<nat, nat>, left: set<nat>)
    requires SoundSince(nodes, parameters, outputs, before, searched) && IsFilled(parameters, outputs, searched, donors, after, left)
    ensures SoundSince(nodes, parameters, outputs, before, after)
  {
    forall o | o in after && o !in before ensures IsSound(nodes, parameters, outputs, o, after[o]) {
      assert o !in searched ==> IsBySize(parameters, outputs, searched, donors, o, after[o]);
    }
  }

  ghost predicate HasTuple(parameters: seq<Parameter>) {
    exists p :: 0 <= p < |parameters| && parameters[p].isTuple
  }

  /**
   * The outputs are first given donors that feed them, and what is then left is matched by size
   * until no donor is left beside an output of the same kind and size. Every new alias is sound and
   * no parameter is used twice.
   */
  method Run(nodes: seq<Node>, parameters: seq<Parameter>, outputs: seq<Output>, config: AliasConfig, isDynamic: bool)
    returns (r: Result<bool>, ghost searched: map<nat, nat>)
    requires config.Valid() && IsGraph(nodes, parameters, outputs)
    modifies config
    ensures config.Valid() && SoundSince(nodes, parameters, outputs, old(config.aliases), config.aliases)
    ensures r.Success? ==> IsSearch(nodes, parameters, outputs, old(config.aliases), old(config.donors), searched)
    ensures r.Success? ==> IsFilled(parameters, outputs, searched, old(config.donors), config.aliases, config.donors)
    ensures r.Success? && isDynamic ==> config.aliases == searched
    ensures r.Success? && !isDynamic ==>
              && Saturated(parameters, outputs, config.aliases, config.donors, true)
              && Saturated(parameters, outputs, config.aliases, config.donors, false)
    ensures r.Success? ==> (r.value <==> config.aliases != searched)
    ensures r.Failure? <==> (!isDynamic && HasTuple(parameters)) ||
                            (IsTupled(parameters) && exists o :: 0 <= o < |outputs| && old(IsDonee(outputs, config.aliases, false, o)))
  {
    searched := config.aliases;
    for o := 0 to |outputs|
      invariant config.Valid() && config.donors == old(config.donors) && searched == config.aliases
      invariant IsSearchTo(nodes, parameters, outputs, old(config.aliases), config.donors, searched, o)
      invariant IsTupled(parameters) ==> forall q :: 0 <= q < o ==> !IsDonee(outputs, old(config.aliases), false, q)
    {
      var ok := FindBestMatch(nodes, parameters, outputs, config, o);
      if !ok {
        assert IsDonee(outputs, old(config.aliases), false, o);
        SearchIsSound(nodes, parameters, outputs, old(config.aliases), config.donors, searched, o);
        return Failure(InvalidArgument), searched;
      }
      SearchNext(nodes, parameters, outputs, old(config.aliases), config.donors, searched, config.aliases, o);
      searched := config.aliases;
    }
    SearchIsSound(nodes, parameters, outputs, old(config.aliases), config.donors, searched, |outputs|);
    BuildFills(parameters, outputs, searched, config.donors, searched, config.donors, true);
    BuildSaturates(parameters, outputs, searched, config.donors, true);
    var temporaries := Build(parameters, outputs, config, isDynamic, true);
    if temporaries.Failure? {
      return temporaries, searched;
    }
    ghost var aliases, donors := config.aliases, config.donors;
    BuildFills(parameters, outputs, searched, old(config.donors), aliases, donors, false);
    BuildSaturates(parameters, outputs, aliases, donors, false);
    var rest := Build(parameters, outputs, config, isDynamic, false);
    if !isDynamic {
      MatchedFacts(parameters, outputs, aliases, donors, false);
      AliasedAt(aliases, Matched(parameters, outputs, aliases, donors, false));
      StaysSaturated(parameters, outputs, aliases, donors, config.aliases, config.donors, true);
    }
    FillIsSound(nodes, parameters, outputs, old(config.aliases), searched, old(config.donors), config.aliases, config.donors);
    r := Success(temporaries.value || rest.value);
  }
}
