/** Moving the all-reduces of a loop's summands behind the loop. */
module ReduceHoist {
  import opened Wrappers

  // ---- values spread over devices ----

  /** One integer per device. */
  type Vector = seq<int>

  /** Disjoint groups of devices; no group at all means one group of all devices. */
  type ReplicaGroups = seq<seq<nat>>

  ghost function Add(a: Vector, b: Vector): (r: Vector)
    requires |a| == |b|
    ensures |r| == |a| && forall d :: 0 <= d < |r| ==> r[d] == a[d] + b[d]
  {
    seq(|a|, d requires 0 <= d < |a| => a[d] + b[d])
  }

  ghost function Constant(devices: nat, value: int): (r: Vector)
    ensures |r| == devices && forall d :: 0 <= d < devices ==> r[d] == value
  {
    seq(devices, d => value)
  }

  ghost function All(devices: nat): (r: seq<nat>)
    ensures |r| == devices && forall d :: 0 <= d < devices ==> r[d] == d
  {
    seq(devices, d requires 0 <= d < devices => d)
  }

  /** The group of a device. */
  ghost function Members(groups: ReplicaGroups, devices: nat, device: nat): seq<nat> {
    if groups == [] then All(devices)
    else if device in groups[0] then groups[0]
    else if |groups| == 1 then [device]
    else Members(groups[1..], devices, device)
  }

  ghost predicate IsGrouping(groups: ReplicaGroups, devices: nat) {
    forall g, d :: 0 <= g < |groups| && d in groups[g] ==> d < devices
  }

  lemma {:induction false} MembersInRange(groups: ReplicaGroups, devices: nat, device: nat)
    requires IsGrouping(groups, devices) && device < devices
    ensures forall d :: d in Members(groups, devices, device) ==> d < devices
  {
    if groups != [] && device !in groups[0] && |groups| > 1 {
      MembersInRange(groups[1..], devices, device);
    } else if groups == [] {
      forall d | d in All(devices) ensures d < devices {
      }
    }
  }

  ghost function SumOver(members: seq<nat>, v: Vector): int {
    if members == [] then 0 else (if members[0] < |v| then v[members[0]] else 0) + SumOver(members[1..], v)
  }

  /** Every device gets the sum of its group. */
  ghost function AllReduce(groups: ReplicaGroups, v: Vector): (r: Vector)
    ensures |r| == |v| && forall d :: 0 <= d < |v| ==> r[d] == SumOver(Members(groups, |v|, d), v)
  {
    seq(|v|, d requires 0 <= d < |v| => SumOver(Members(groups, |v|, d), v))
  }

  lemma {:induction false} SumOverAdd(members: seq<nat>, a: Vector, b: Vector)
    requires |a| == |b|
    ensures SumOver(members, Add(a, b)) == SumOver(members, a) + SumOver(members, b)
  {
    if members != [] {
      SumOverAdd(members[1..], a, b);
    }
  }

  /** Reduction is linear. */
  lemma AllReduceAdd(groups: ReplicaGroups, a: Vector, b: Vector, d: nat)
    requires |a| == |b| && d < |a|
    ensures AllReduce(groups, Add(a, b))[d] == AllReduce(groups, a)[d] + AllReduce(groups, b)[d]
  {
    SumOverAdd(Members(groups, |a|, d), a, b);
  }

  // ---- the loop ----

  /** What the body adds to one accumulator: values of the iteration, some of them reduced first. */
  datatype Summand = Reduced(groups: ReplicaGroups, source: nat) | Plain(source: nat)

  /** The summands of every accumulator. */
  type Body = seq<seq<Summand>>

  /** The values that one iteration computes. */
  type Values = seq<Vector>

  ghost predicate IsSized(values: Values, devices: nat) {
    forall k :: 0 <= k < |values| ==> |values[k]| == devices
  }

  ghost function SourceOf(values: Values, devices: nat, source: nat): (r: Vector)
    requires IsSized(values, devices)
    ensures |r| == devices
  {
    if source < |values| then values[source] else Constant(devices, 0)
  }

  ghost function ValueOf(summand: Summand, values: Values, devices: nat): (r: Vector)
    requires IsSized(values, devices)
    ensures |r| == devices
  {
    match summand
    case Reduced(groups, source) => AllReduce(groups, SourceOf(values, devices, source))
    case Plain(source) => SourceOf(values, devices, source)
  }

  /** What one iteration adds. */
  ghost function Increment(summands: seq<Summand>, values: Values, devices: nat): (r: Vector)
    requires IsSized(values, devices)
    ensures |r| == devices
  {
    if summands == [] then Constant(devices, 0)
    else Add(ValueOf(summands[0], values, devices), Increment(summands[1..], values, devices))
  }

  ghost predicate AllSized(iterations: seq<Values>, devices: nat) {
    forall i :: 0 <= i < |iterations| ==> IsSized(iterations[i], devices)
  }

  /** The accumulator after all iterations. */
  ghost function LoopResult(summands: seq<Summand>, initial: Vector, iterations: seq<Values>): (r: Vector)
    requires AllSized(iterations, |initial|)
    ensures |r| == |initial|
  {
    if iterations == [] then initial
    else
      var n := |iterations| - 1;
      Add(LoopResult(summands, initial, iterations[..n]), Increment(summands, iterations[n], |initial|))
  }

  // ---- the pass ----

  function GroupsIn(summands: seq<Summand>): seq<ReplicaGroups> {
    if summands == [] then []
    else (if summands[0].Reduced? then [summands[0].groups] else []) + GroupsIn(summands[1..])
  }

  /** The reduces of one accumulator all use the same groups. */
  predicate AllSame(groups: seq<ReplicaGroups>) {
    forall k :: 0 <= k < |groups| ==> groups[k] == groups[0]
  }

  method AllReducesAreEquivalent(reduces: seq<ReplicaGroups>) returns (same: bool)
    requires reduces != []
    ensures same <==> AllSame(reduces)
  {
    if |reduces| == 1 {
      return true;
    }
    for index := 1 to |reduces|
      invariant forall k :: 0 <= k < index ==> reduces[k] == reduces[0]
    {
      if reduces[index] != reduces[0] {
        return false;
      }
    }
    same := true;
  }

  function Unreduce(summands: seq<Summand>): (r: seq<Summand>)
    ensures |r| == |summands|
  {
    if summands == [] then []
    else [if summands[0].Reduced? then Plain(summands[0].source) else summands[0]] + Unreduce(summands[1..])
  }

  /** An accumulator whose result is read after the loop, and whose reduces can be merged into one. */
  predicate IsHoistable(body: Body, users: seq<nat>, index: nat) {
    index in users && index < |body| && GroupsIn(body[index]) != [] && AllSame(GroupsIn(body[index]))
  }

  /** Mergeable reduces are replaced by their operands, and one reduce is added behind the loop. */
  ghost predicate IsHoisted(body: Body, users: seq<nat>, after: Body, hoisted: map<nat, ReplicaGroups>) {
    && |after| == |body|
    && (forall j :: 0 <= j < |body| ==> after[j] == if IsHoistable(body, users, j) then Unreduce(body[j]) else body[j])
    && (forall j: nat :: j in hoisted <==> IsHoistable(body, users, j))
    && (forall j: nat :: j in hoisted && IsHoistable(body, users, j) ==> hoisted[j] == GroupsIn(body[j])[0])
  }

  lemma HoistedStep(body: Body, users: seq<nat>, index: nat, after: Body, hoisted: map<nat, ReplicaGroups>)
    requires IsHoisted(body, users, after, hoisted)
    ensures if IsHoistable(body, [index], index)
            then IsHoisted(body, users + [index], after[index := Unreduce(body[index])], hoisted[index := GroupsIn(body[index])[0]])
            else IsHoisted(body, users + [index], after, hoisted)
  {
    forall j: nat ensures IsHoistable(body, users + [index], j) <==> IsHoistable(body, users, j) || (j == index && IsHoistable(body, [index], index)) {
    }
  }

  method CollectReduces(body: Body) returns (outputReduces: map<nat, seq<ReplicaGroups>>)
    ensures forall j: nat :: j in outputReduces <==> j < |body| && GroupsIn(body[j]) != []
    ensures forall j: nat :: j in outputReduces && j < |body| ==> outputReduces[j] == GroupsIn(body[j])
  {
    outputReduces := map[];
    for index := 0 to |body|
      invariant forall j: nat :: j in outputReduces <==> j < index && GroupsIn(body[j]) != []
      invariant forall j: nat :: j in outputReduces && j < |body| ==> outputReduces[j] == GroupsIn(body[j])
    {
      if GroupsIn(body[index]) != [] {
        outputReduces := outputReduces[index := GroupsIn(body[index])];
      }
    }
  }

  method VisitLoop(body: Body, users: seq<nat>) returns (after: Body, hoisted: map<nat, ReplicaGroups>, changed: bool)
    ensures IsHoisted(body, users, after, hoisted)
    ensures changed <==> hoisted != map[]
  {
    var outputReduces := CollectReduces(body);
    after, hoisted, changed := body, map[], false;
    for k := 0 to |users|
      invariant IsHoisted(body, users[..k], after, hoisted)
      invariant changed <==> hoisted != map[]
    {
      assert users[..k + 1] == users[..k] + [users[k]];
      var hoists;
      hoists, after, hoisted := HoistOutput(body, users[..k], users[k], outputReduces, after, hoisted);
      changed := changed || hoists;
    }
    assert users[..|users|] == users;
  }

  /** One more user of the loop. */
  method HoistOutput(body: Body, ghost users: seq<nat>, index: nat, outputReduces: map<nat, seq<ReplicaGroups>>, before: Body, hoistedBefore: map<nat, ReplicaGroups>)
    returns (hoists: bool, after: Body, hoisted: map<nat, ReplicaGroups>)
    requires IsHoisted(body, users, before, hoistedBefore)
    requires forall j: nat :: j in outputReduces <==> j < |body| && GroupsIn(body[j]) != []
    requires forall j: nat :: j in outputReduces && j < |body| ==> outputReduces[j] == GroupsIn(body[j])
    ensures IsHoisted(body, users + [index], after, hoisted)
    ensures hoisted != map[] <==> hoists || hoistedBefore != map[]
  {
    hoists, after, hoisted := false, before, hoistedBefore;
    HoistedStep(body, users, index, before, hoistedBefore);
    if index in outputReduces {
      hoists := AllReducesAreEquivalent(outputReduces[index]);
      if hoists {
        after := before[index := Unreduce(body[index])];
        hoisted := hoistedBefore[index := outputReduces[index][0]];
        assert index in hoisted;
      }
    }
  }

  // ---- when the hoisted loop computes the same ----

  function PlainOnly(summands: seq<Summand>): seq<Summand> {
    if summands == [] then []
    else (if summands[0].Plain? then [summands[0]] else []) + PlainOnly(summands[1..])
  }

  /** All reduces among the summands use these groups. */
  ghost predicate ReducesOver(summands: seq<Summand>, groups: ReplicaGroups) {
    forall k :: 0 <= k < |summands| && summands[k].Reduced? ==> summands[k].groups == groups
  }

  lemma {:induction false} SameGroups(summands: seq<Summand>, groups: ReplicaGroups)
    requires forall k :: 0 <= k < |GroupsIn(summands)| ==> GroupsIn(summands)[k] == groups
    ensures ReducesOver(summands, groups)
  {
    if summands != [] {
      var first := if summands[0].Reduced? then [summands[0].groups] else [];
      assert forall k :: 0 <= k < |GroupsIn(summands[1..])| ==> GroupsIn(summands[1..])[k] == GroupsIn(summands)[k + |first|];
      SameGroups(summands[1..], groups);
      assert summands[0].Reduced? ==> GroupsIn(summands)[0] == summands[0].groups;
      assert forall k :: 1 <= k < |summands| ==> summands[k] == summands[1..][k - 1];
    }
  }

  lemma ReduceZero(groups: ReplicaGroups, devices: nat, d: nat)
    requires d < devices
    ensures AllReduce(groups, Constant(devices, 0))[d] == 0
  {
    SumOverConstant(Members(groups, devices, d), devices, 0);
  }

  lemma {:induction false} SumOverConstant(members: seq<nat>, devices: nat, value: int)
    requires value == 0 || forall k :: 0 <= k < |members| ==> members[k] < devices
    ensures SumOver(members, Constant(devices, value)) == |members| * value
  {
    if members != [] {
      SumOverConstant(members[1..], devices, value);
      assert |members| * value == value + (|members| - 1) * value;
    }
  }

  /** One iteration: reducing what the hoisted body adds gives what the body added, up to its plain summands. */
  lemma {:induction false} HoistedIncrement(summands: seq<Summand>, groups: ReplicaGroups, values: Values, devices: nat, d: nat)
    requires IsSized(values, devices) && ReducesOver(summands, groups) && d < devices
    ensures AllReduce(groups, Increment(Unreduce(summands), values, devices))[d] + Increment(PlainOnly(summands), values, devices)[d] ==
            Increment(summands, values, devices)[d] + AllReduce(groups, Increment(PlainOnly(summands), values, devices))[d]
  {
    if summands == [] {
      ReduceZero(groups, devices, d);
    } else {
      var rest := summands[1..];
      HoistedIncrement(rest, groups, values, devices, d);
      var source := SourceOf(values, devices, summands[0].source);
      UnreduceIncrement(summands, values, devices);
      PlainIncrement(summands, values, devices);
      AllReduceAdd(groups, source, Increment(Unreduce(rest), values, devices), d);
      AllReduceAdd(groups, source, Increment(PlainOnly(rest), values, devices), d);
      assert Increment(summands, values, devices)[d] == ValueOf(summands[0], values, devices)[d] + Increment(rest, values, devices)[d];
    }
  }

  lemma UnreduceIncrement(summands: seq<Summand>, values: Values, devices: nat)
    requires IsSized(values, devices) && summands != []
    ensures Increment(Unreduce(summands), values, devices) ==
            Add(SourceOf(values, devices, summands[0].source), Increment(Unreduce(summands[1..]), values, devices))
  {
    assert Unreduce(summands)[1..] == Unreduce(summands[1..]);
  }

  lemma PlainIncrement(summands: seq<Summand>, values: Values, devices: nat)
    requires IsSized(values, devices) && summands != []
    ensures Increment(PlainOnly(summands), values, devices) ==
            if summands[0].Plain? then Add(SourceOf(values, devices, summands[0].source), Increment(PlainOnly(summands[1..]), values, devices))
            else Increment(PlainOnly(summands[1..]), values, devices)
  {
    if summands[0].Plain? {
      assert PlainOnly(summands) == [summands[0]] + PlainOnly(summands[1..]);
      assert PlainOnly(summands)[1..] == PlainOnly(summands[1..]);
    } else {
      assert PlainOnly(summands) == PlainOnly(summands[1..]);
    }
  }

  /** The initial value and everything the body adds without a reduce. */
  ghost function Unreduced(summands: seq<Summand>, initial: Vector, iterations: seq<Values>): (r: Vector)
    requires AllSized(iterations, |initial|)
    ensures |r| == |initial|
  {
    LoopResult(PlainOnly(summands), initial, iterations)
  }

  lemma {:induction false} HoistedLoop(summands: seq<Summand>, groups: ReplicaGroups, initial: Vector, iterations: seq<Values>, d: nat)
    requires AllSized(iterations, |initial|) && ReducesOver(summands, groups) && d < |initial|
    ensures AllReduce(groups, LoopResult(Unreduce(summands), initial, iterations))[d] + Unreduced(summands, initial, iterations)[d] ==
            LoopResult(summands, initial, iterations)[d] + AllReduce(groups, Unreduced(summands, initial, iterations))[d]
  {
    if iterations != [] {
      var n := |iterations| - 1;
      var devices := |initial|;
      HoistedLoop(summands, groups, initial, iterations[..n], d);
      HoistedIncrement(summands, groups, iterations[n], devices, d);
      AllReduceAdd(groups, LoopResult(Unreduce(summands), initial, iterations[..n]), Increment(Unreduce(summands), iterations[n], devices), d);
      AllReduceAdd(groups, Unreduced(summands, initial, iterations[..n]), Increment(PlainOnly(summands), iterations[n], devices), d);
    }
  }

  /** Reducing once after the loop gives the same value exactly when reduction leaves the unreduced part alone. */
  lemma HoistingPreservesIff(summands: seq<Summand>, groups: ReplicaGroups, initial: Vector, iterations: seq<Values>)
    requires AllSized(iterations, |initial|) && ReducesOver(summands, groups)
    ensures AllReduce(groups, LoopResult(Unreduce(summands), initial, iterations)) == LoopResult(summands, initial, iterations) <==>
            AllReduce(groups, Unreduced(summands, initial, iterations)) == Unreduced(summands, initial, iterations)
  {
    var hoisted := AllReduce(groups, LoopResult(Unreduce(summands), initial, iterations));
    var result, rest := LoopResult(summands, initial, iterations), Unreduced(summands, initial, iterations);
    forall d | 0 <= d < |initial| ensures hoisted[d] + rest[d] == result[d] + AllReduce(groups, rest)[d] {
      HoistedLoop(summands, groups, initial, iterations, d);
    }
    SameShift(hoisted, rest, result, AllReduce(groups, rest));
  }

  lemma SameShift(a: Vector, b: Vector, c: Vector, d: Vector)
    requires |a| == |b| == |c| == |d| && forall k :: 0 <= k < |a| ==> a[k] + b[k] == c[k] + d[k]
    ensures a == c <==> d == b
  {
  }

  // ---- for which bodies hoisting is always right ----

  /** Some group has several members, so that reduction changes values. */
  ghost predicate Combines(groups: ReplicaGroups, devices: nat) {
    exists d :: 0 <= d < devices && |Members(groups, devices, d)| > 1
  }

  /** Groups in which every device belongs to its own group; devices outside all groups stay alone. */
  ghost predicate IsPartition(groups: ReplicaGroups, devices: nat) {
    IsGrouping(groups, devices) && forall d :: 0 <= d < devices ==> d in Members(groups, devices, d)
  }

  /** Starting from zero, the hoisted loop computes the same for all inputs. */
  ghost predicate AlwaysSame(summands: seq<Summand>, groups: ReplicaGroups, devices: nat) {
    forall iterations :: AllSized(iterations, devices) ==>
      AllReduce(groups, LoopResult(Unreduce(summands), Constant(devices, 0), iterations)) == LoopResult(summands, Constant(devices, 0), iterations)
  }

  lemma {:induction false} NothingPlain(summands: seq<Summand>, devices: nat, iterations: seq<Values>)
    requires AllSized(iterations, devices) && PlainOnly(summands) == []
    ensures Unreduced(summands, Constant(devices, 0), iterations) == Constant(devices, 0)
  {
    if iterations != [] {
      NothingPlain(summands, devices, iterations[..|iterations| - 1]);
    }
  }

  lemma SingletonsKeep(groups: ReplicaGroups, v: Vector)
    requires IsPartition(groups, |v|) && !Combines(groups, |v|)
    ensures AllReduce(groups, v) == v
  {
    forall d | 0 <= d < |v| ensures AllReduce(groups, v)[d] == v[d] {
      var members := Members(groups, |v|, d);
      assert d in members && |members| <= 1;
      assert members == [d];
      assert SumOver(members[1..], v) == 0;
    }
  }

  /** An iteration in which every value is one on every device. */
  ghost function Ones(devices: nat, sources: nat): (r: Values)
    ensures |r| == sources && IsSized(r, devices) && forall k :: 0 <= k < sources ==> r[k] == Constant(devices, 1)
  {
    seq(sources, k => Constant(devices, 1))
  }

  ghost predicate SourcesBelow(summands: seq<Summand>, sources: nat) {
    forall k :: 0 <= k < |summands| ==> summands[k].source < sources
  }

  lemma {:induction false} PlainOnes(summands: seq<Summand>, devices: nat, sources: nat)
    requires SourcesBelow(summands, sources) && forall k :: 0 <= k < |summands| ==> summands[k].Plain?
    ensures Increment(summands, Ones(devices, sources), devices) == Constant(devices, |summands|)
  {
    if summands != [] {
      PlainOnes(summands[1..], devices, sources);
    }
  }

  lemma {:induction false} PlainOnlyFacts(summands: seq<Summand>, sources: nat)
    requires SourcesBelow(summands, sources)
    ensures SourcesBelow(PlainOnly(summands), sources)
    ensures forall k :: 0 <= k < |PlainOnly(summands)| ==> PlainOnly(summands)[k].Plain?
  {
    if summands != [] {
      PlainOnlyFacts(summands[1..], sources);
    }
  }

  lemma CombiningChanges(groups: ReplicaGroups, devices: nat, value: int)
    requires IsGrouping(groups, devices) && Combines(groups, devices) && value != 0
    ensures AllReduce(groups, Constant(devices, value)) != Constant(devices, value)
  {
    var d :| 0 <= d < devices && |Members(groups, devices, d)| > 1;
    var n := |Members(groups, devices, d)|;
    MembersInRange(groups, devices, d);
    assert forall k :: 0 <= k < n ==> Members(groups, devices, d)[k] in Members(groups, devices, d);
    SumOverConstant(Members(groups, devices, d), devices, value);
    TimesChanges(n, value);
    assert AllReduce(groups, Constant(devices, value))[d] == n * value;
  }

  lemma TimesChanges(n: nat, value: int)
    requires n > 1 && value != 0
    ensures n * value != value
  {
    assert n * value == value + (n - 1) * value;
    if value > 0 {
      assert (n - 1) * value >= value;
    } else {
      assert (n - 1) * value <= value;
    }
  }

  /**
   * From a zero accumulator, hoisting the reduces computes the same for all inputs and iteration
   * counts if and only if nothing is added unreduced, or the groups combine nothing.
   */
  lemma AlwaysSameIff(summands: seq<Summand>, groups: ReplicaGroups, devices: nat, sources: nat)
    requires ReducesOver(summands, groups) && IsPartition(groups, devices) && SourcesBelow(summands, sources)
    ensures AlwaysSame(summands, groups, devices) <==> PlainOnly(summands) == [] || !Combines(groups, devices)
  {
    if PlainOnly(summands) == [] || !Combines(groups, devices) {
      forall iterations | AllSized(iterations, devices)
        ensures AllReduce(groups, LoopResult(Unreduce(summands), Constant(devices, 0), iterations)) ==
                LoopResult(summands, Constant(devices, 0), iterations)
      {
        HarmlessIsSame(summands, groups, devices, iterations);
      }
    } else {
      PlainChanges(summands, groups, devices, sources);
      assert AllSized([Ones(devices, sources)], devices);
    }
  }

  lemma HarmlessIsSame(summands: seq<Summand>, groups: ReplicaGroups, devices: nat, iterations: seq<Values>)
    requires ReducesOver(summands, groups) && IsPartition(groups, devices) && AllSized(iterations, devices)
    requires PlainOnly(summands) == [] || !Combines(groups, devices)
    ensures AllReduce(groups, LoopResult(Unreduce(summands), Constant(devices, 0), iterations)) ==
            LoopResult(summands, Constant(devices, 0), iterations)
  {
    var zero := Constant(devices, 0);
    HoistingPreservesIff(summands, groups, zero, iterations);
    if PlainOnly(summands) == [] {
      NothingPlain(summands, devices, iterations);
      forall d | 0 <= d < devices ensures AllReduce(groups, zero)[d] == 0 {
        ReduceZero(groups, devices, d);
      }
      assert AllReduce(groups, zero) == zero;
    } else {
      SingletonsKeep(groups, Unreduced(summands, zero, iterations));
    }
  }

  lemma PlainChanges(summands: seq<Summand>, groups: ReplicaGroups, devices: nat, sources: nat)
    requires ReducesOver(summands, groups) && IsPartition(groups, devices) && SourcesBelow(summands, sources)
    requires PlainOnly(summands) != [] && Combines(groups, devices)
    ensures AllReduce(groups, LoopResult(Unreduce(summands), Constant(devices, 0), [Ones(devices, sources)])) !=
            LoopResult(summands, Constant(devices, 0), [Ones(devices, sources)])
  {
    var zero := Constant(devices, 0);
    var iterations := [Ones(devices, sources)];
    PlainOnlyFacts(summands, sources);
    PlainOnes(PlainOnly(summands), devices, sources);
    assert iterations[..0] == [];
    assert LoopResult(PlainOnly(summands), zero, iterations[..0]) == zero;
    assert Unreduced(summands, zero, iterations) == Add(zero, Constant(devices, |PlainOnly(summands)|));
    assert Unreduced(summands, zero, iterations) == Constant(devices, |PlainOnly(summands)|);
    CombiningChanges(groups, devices, |PlainOnly(summands)|);
    HoistingPreservesIff(summands, groups, zero, iterations);
  }

  /** The value that users of an output read after the pass. */
  ghost function ResultAfter(after: Body, hoisted: map<nat, ReplicaGroups>, j: nat, initial: Vector, iterations: seq<Values>): Vector
    requires j < |after| && AllSized(iterations, |initial|)
  {
    var result := LoopResult(after[j], initial, iterations);
    if j in hoisted then AllReduce(hoisted[j], result) else result
  }

  /** The pass keeps every output of a loop whose accumulators start at zero and add reduced values only, or are left alone. */
  lemma VisitLoopPreserves(body: Body, users: seq<nat>, after: Body, hoisted: map<nat, ReplicaGroups>, j: nat, devices: nat, iterations: seq<Values>)
    requires IsHoisted(body, users, after, hoisted) && j < |body| && AllSized(iterations, devices)
    requires j in hoisted ==> PlainOnly(body[j]) == []
    ensures ResultAfter(after, hoisted, j, Constant(devices, 0), iterations) == LoopResult(body[j], Constant(devices, 0), iterations)
  {
    if j in hoisted {
      SameGroups(body[j], hoisted[j]);
      HoistingPreservesIff(body[j], hoisted[j], Constant(devices, 0), iterations);
      NothingPlain(body[j], devices, iterations);
      forall d | 0 <= d < devices ensures AllReduce(hoisted[j], Constant(devices, 0))[d] == 0 {
        ReduceZero(hoisted[j], devices, d);
      }
      assert AllReduce(hoisted[j], Constant(devices, 0)) == Constant(devices, 0);
    }
  }
}
