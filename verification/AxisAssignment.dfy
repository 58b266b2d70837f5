/** Greedy assignment of device axes to the named dimensions of a tensor. */
module AxisAssignment {
  import opened Wrappers
  import opened Arithmetic
  import opened Sequences
  import opened MixedRadix
  import opened DeviceSharding

  /** Tensor axes called `logical` may be cut along the device axis called `device`. */
  datatype Rule = Rule(logical: string, device: string)

  datatype TaskOptions = TaskOptions(rules: seq<Rule>, axes: seq<string>, dims: seq<nat>)

  ghost predicate IsMesh(options: TaskOptions) {
    |options.axes| == |options.dims| && Positive(options.dims)
  }

  /** A tensor whose dimensions carry lists of axis names. */
  datatype Tensor = Tensor(extents: seq<nat>, names: seq<seq<string>>)

  ghost predicate IsNamed(tensor: Tensor) {
    |tensor.names| == |tensor.extents|
  }

  /** The first position of a device axis name. */
  ghost function AxisIndex(axes: seq<string>, name: string): Option<nat> {
    if axes == [] then None
    else if axes[0] == name then Some(0)
    else match AxisIndex(axes[1..], name) { case None => None case Some(i) => Some(i + 1) }
  }

  lemma {:induction false} AxisIndexBound(axes: seq<string>, name: string)
    ensures AxisIndex(axes, name).Some? ==> AxisIndex(axes, name).value < |axes|
    ensures AxisIndex(axes, name).Some? <==> name in axes
  {
    if axes != [] {
      AxisIndexBound(axes[1..], name);
    }
  }

  lemma {:induction false} AxisIndexAt(axes: seq<string>, name: string, i: nat)
    requires i <= |axes| && forall j :: 0 <= j < i ==> axes[j] != name
    ensures i < |axes| && axes[i] == name ==> AxisIndex(axes, name) == Some(i)
    ensures i == |axes| ==> AxisIndex(axes, name) == None
  {
    if i > 0 {
      AxisIndexAt(axes[1..], name, i - 1);
    }
  }

  // ---- the greedy choice, one rule and one dimension at a time ----

  /** The device axes of each dimension. */
  type Assignment = seq<seq<nat>>

  function ShardCount(assignment: Assignment, dims: seq<nat>, k: nat): nat
    requires k < |assignment|
  {
    Product(Gather(dims, assignment[k]))
  }

  ghost predicate Fits(assignment: Assignment, dims: seq<nat>, extent: nat, k: nat, axis: nat)
    requires k < |assignment|
  {
    ShardCount(assignment, dims, k) * At(dims, axis) <= extent && !Used(assignment, axis)
  }

  ghost function Grant(assignment: Assignment, dims: seq<nat>, extent: nat, k: nat, axis: nat): (r: Assignment)
    requires k < |assignment|
    ensures |r| == |assignment|
  {
    if Fits(assignment, dims, extent, k, axis) then assignment[k := assignment[k] + [axis]] else assignment
  }

  /** Offer a rule's device axis to the first `k` dimensions, in order. */
  ghost function Offer(assignment: Assignment, options: TaskOptions, tensor: Tensor, rule: Rule, k: nat): (r: Option<Assignment>)
    requires IsNamed(tensor) && k <= |tensor.names| == |assignment|
    ensures r.Some? ==> |r.value| == |assignment|
  {
    if k == 0 then Some(assignment)
    else
      match Offer(assignment, options, tensor, rule, k - 1)
      case None => None
      case Some(before) =>
        if rule.logical !in tensor.names[k - 1] then Some(before)
        else match AxisIndex(options.axes, rule.device)
          case None => None
          case Some(axis) => Some(Grant(before, options.dims, tensor.extents[k - 1], k - 1, axis))
  }

  function Unassigned(n: nat): (r: Assignment)
    ensures |r| == n && forall k :: 0 <= k < n ==> r[k] == []
  {
    seq(n, i => [])
  }

  /** The assignment after the first `n` rules. */
  ghost function Assign(options: TaskOptions, tensor: Tensor, n: nat): (r: Option<Assignment>)
    requires IsNamed(tensor) && n <= |options.rules|
    ensures r.Some? ==> |r.value| == |tensor.names|
  {
    if n == 0 then Some(Unassigned(|tensor.names|))
    else
      match Assign(options, tensor, n - 1)
      case None => None
      case Some(before) => Offer(before, options, tensor, options.rules[n - 1], |tensor.names|)
  }

  // ---- whom a rule serves ----

  /** The rule is about this dimension, names an axis of the mesh that is free, and one more cut fits. */
  ghost predicate Takes(assignment: Assignment, options: TaskOptions, tensor: Tensor, rule: Rule, k: nat) {
    && k < |tensor.names| == |assignment| == |tensor.extents| && rule.logical in tensor.names[k]
    && AxisIndex(options.axes, rule.device).Some?
    && Fits(assignment, options.dims, tensor.extents[k], k, AxisIndex(options.axes, rule.device).value)
  }

  ghost predicate IsFirstToTake(assignment: Assignment, options: TaskOptions, tensor: Tensor, rule: Rule, k: nat) {
    Takes(assignment, options, tensor, rule, k) && forall j :: 0 <= j < k ==> !Takes(assignment, options, tensor, rule, j)
  }

  /** The axis of the rule goes to the end of the list of the first dimension that can take it, and nothing else changes. */
  ghost predicate IsServed(before: Assignment, after: Assignment, options: TaskOptions, tensor: Tensor, rule: Rule) {
    if after == before then forall j :: 0 <= j < |before| ==> !Takes(before, options, tensor, rule, j)
    else exists k: nat :: IsFirstToTake(before, options, tensor, rule, k) &&
           after == before[k := before[k] + [AxisIndex(options.axes, rule.device).value]]
  }

  lemma {:induction false} OfferServesFirst(before: Assignment, options: TaskOptions, tensor: Tensor, rule: Rule, k: nat)
    requires IsNamed(tensor) && k <= |tensor.names| == |before|
    ensures Offer(before, options, tensor, rule, k).Some? ==>
              var after := Offer(before, options, tensor, rule, k).value;
              if after == before then forall j :: 0 <= j < k ==> !Takes(before, options, tensor, rule, j)
              else exists f: nat :: f < k && IsFirstToTake(before, options, tensor, rule, f) &&
                     after == before[f := before[f] + [AxisIndex(options.axes, rule.device).value]]
  {
    if k > 0 && Offer(before, options, tensor, rule, k).Some? {
      OfferServesFirst(before, options, tensor, rule, k - 1);
      var middle := Offer(before, options, tensor, rule, k - 1).value;
      if middle != before {
        var f: nat :| f < k - 1 && IsFirstToTake(before, options, tensor, rule, f) &&
          middle == before[f := before[f] + [AxisIndex(options.axes, rule.device).value]];
        assert AxisIndex(options.axes, rule.device).value in middle[f];
      } else if Takes(before, options, tensor, rule, k - 1) {
        var after := Offer(before, options, tensor, rule, k).value;
        assert IsFirstToTake(before, options, tensor, rule, k - 1);
        assert |after[k - 1]| == |before[k - 1]| + 1;
      }
    }
  }

  /** Rules are served in their order, each on what the earlier ones left. */
  lemma RulesInOrder(options: TaskOptions, tensor: Tensor, n: nat)
    requires IsNamed(tensor) && n < |options.rules| && Assign(options, tensor, n + 1).Some?
    ensures Assign(options, tensor, n).Some?
    ensures IsServed(Assign(options, tensor, n).value, Assign(options, tensor, n + 1).value, options, tensor, options.rules[n])
  {
    OfferServesFirst(Assign(options, tensor, n).value, options, tensor, options.rules[n], |tensor.names|);
  }

  // ---- what every step keeps ----

  ghost predicate WithinExtents(assignment: Assignment, dims: seq<nat>, extents: seq<nat>) {
    |assignment| == |extents| &&
    forall k :: 0 <= k < |assignment| ==> ShardCount(assignment, dims, k) == 1 || ShardCount(assignment, dims, k) <= extents[k]
  }

  /** Every axis was granted by a rule about that dimension. */
  ghost predicate Granted(assignment: Assignment, options: TaskOptions, tensor: Tensor) {
    |assignment| == |tensor.names| &&
    forall k, a :: 0 <= k < |assignment| && a in assignment[k] ==> Licensed(options, tensor, k, a)
  }

  ghost predicate Licensed(options: TaskOptions, tensor: Tensor, k: nat, axis: nat)
    requires k < |tensor.names|
  {
    exists i :: 0 <= i < |options.rules| && options.rules[i].logical in tensor.names[k] &&
      AxisIndex(options.axes, options.rules[i].device) == Some(axis)
  }

  ghost predicate Proper(assignment: Assignment, options: TaskOptions, tensor: Tensor) {
    && AxesDisjoint(assignment, |options.dims|)
    && WithinExtents(assignment, options.dims, tensor.extents)
    && Granted(assignment, options, tensor)
  }

  lemma GrantDisjoint(assignment: Assignment, k: nat, axis: nat, n: nat)
    requires AxesDisjoint(assignment, n) && k < |assignment| && axis < n && !Used(assignment, axis)
    ensures AxesDisjoint(assignment[k := assignment[k] + [axis]], n)
  {
    assert forall i :: 0 <= i < |assignment| ==> axis !in assignment[i];
  }

  lemma GrantCount(assignment: Assignment, dims: seq<nat>, k: nat, axis: nat)
    requires k < |assignment|
    ensures Product(Gather(dims, assignment[k] + [axis])) == ShardCount(assignment, dims, k) * At(dims, axis)
  {
    assert Gather(dims, assignment[k] + [axis]) == Gather(dims, assignment[k]) + [At(dims, axis)];
    ProductAppend(Gather(dims, assignment[k]), At(dims, axis));
  }

  lemma GrantIsProper(assignment: Assignment, options: TaskOptions, tensor: Tensor, k: nat, axis: nat)
    requires IsMesh(options) && IsNamed(tensor) && Proper(assignment, options, tensor) && k < |assignment|
    requires axis < |options.dims| && Licensed(options, tensor, k, axis)
    ensures Proper(Grant(assignment, options.dims, tensor.extents[k], k, axis), options, tensor)
  {
    if Fits(assignment, options.dims, tensor.extents[k], k, axis) {
      GrantDisjoint(assignment, k, axis, |options.dims|);
      GrantCount(assignment, options.dims, k, axis);
      var after := assignment[k := assignment[k] + [axis]];
      forall i | 0 <= i < |after|
        ensures ShardCount(after, options.dims, i) == 1 || ShardCount(after, options.dims, i) <= tensor.extents[i]
      {
        assert i != k ==> ShardCount(after, options.dims, i) == ShardCount(assignment, options.dims, i);
      }
    }
  }

  lemma {:induction false} OfferIsProper(assignment: Assignment, options: TaskOptions, tensor: Tensor, n: nat, k: nat)
    requires IsMesh(options) && IsNamed(tensor) && Proper(assignment, options, tensor)
    requires k <= |tensor.names| && n < |options.rules|
    ensures var r := Offer(assignment, options, tensor, options.rules[n], k);
            r.Some? ==> Proper(r.value, options, tensor)
  {
    if k > 0 {
      OfferIsProper(assignment, options, tensor, n, k - 1);
      var rule := options.rules[n];
      AxisIndexBound(options.axes, rule.device);
      match Offer(assignment, options, tensor, rule, k - 1) {
        case None =>
        case Some(before) =>
          if rule.logical in tensor.names[k - 1] && AxisIndex(options.axes, rule.device).Some? {
            GrantIsProper(before, options, tensor, k - 1, AxisIndex(options.axes, rule.device).value);
          }
      }
    }
  }

  /** No device axis goes to two dimensions, no dimension is cut finer than its extent, every grant has a rule. */
  lemma {:induction false} AssignIsProper(options: TaskOptions, tensor: Tensor, n: nat)
    requires IsMesh(options) && IsNamed(tensor) && n <= |options.rules|
    ensures Assign(options, tensor, n).Some? ==> Proper(Assign(options, tensor, n).value, options, tensor)
  {
    if n > 0 {
      AssignIsProper(options, tensor, n - 1);
      if Assign(options, tensor, n - 1).Some? {
        OfferIsProper(Assign(options, tensor, n - 1).value, options, tensor, n - 1, |tensor.names|);
      }
    } else {
      forall k | 0 <= k < |tensor.names| ensures ShardCount(Unassigned(|tensor.names|), options.dims, k) == 1 {
      }
    }
  }

  // ---- nothing usable is left over ----

  /** The axis is taken, or one more cut along it would exceed the extent. */
  ghost predicate Exhausted(assignment: Assignment, dims: seq<nat>, extents: seq<nat>, k: nat, axis: nat)
    requires k < |assignment| == |extents|
  {
    Used(assignment, axis) || ShardCount(assignment, dims, k) * At(dims, axis) > extents[k]
  }

  /** `after` was reached from `before` by granting more axes. */
  ghost predicate Grew(before: Assignment, after: Assignment, dims: seq<nat>) {
    && |before| == |after|
    && (forall a: nat :: Used(before, a) ==> Used(after, a))
    && (forall k :: 0 <= k < |before| ==> ShardCount(before, dims, k) <= ShardCount(after, dims, k))
  }

  lemma GrantGrows(assignment: Assignment, dims: seq<nat>, extent: nat, k: nat, axis: nat)
    requires k < |assignment| && Positive(dims) && axis < |dims|
    ensures Grew(assignment, Grant(assignment, dims, extent, k, axis), dims)
    ensures Used(Grant(assignment, dims, extent, k, axis), axis) ||
            ShardCount(Grant(assignment, dims, extent, k, axis), dims, k) * At(dims, axis) > extent
  {
    if Fits(assignment, dims, extent, k, axis) {
      var after := assignment[k := assignment[k] + [axis]];
      GrantCount(assignment, dims, k, axis);
      MulLe(1, At(dims, axis), ShardCount(assignment, dims, k));
      assert axis in after[k];
      forall a: nat | Used(assignment, a) ensures Used(after, a) {
        var i :| 0 <= i < |assignment| && a in assignment[i];
        assert a in after[i];
      }
    }
  }

  lemma StaysExhausted(before: Assignment, after: Assignment, dims: seq<nat>, extents: seq<nat>, k: nat, axis: nat)
    requires Grew(before, after, dims) && k < |before| == |extents|
    requires Exhausted(before, dims, extents, k, axis)
    ensures Exhausted(after, dims, extents, k, axis)
  {
    MulLe(ShardCount(before, dims, k), ShardCount(after, dims, k), At(dims, axis));
  }

  lemma {:induction false} OfferGrows(assignment: Assignment, options: TaskOptions, tensor: Tensor, rule: Rule, k: nat)
    requires IsMesh(options) && IsNamed(tensor) && k <= |tensor.names| == |assignment|
    ensures var r := Offer(assignment, options, tensor, rule, k);
            r.Some? ==> Grew(assignment, r.value, options.dims)
  {
    if k > 0 {
      OfferGrows(assignment, options, tensor, rule, k - 1);
      AxisIndexBound(options.axes, rule.device);
      match Offer(assignment, options, tensor, rule, k - 1) {
        case None =>
        case Some(before) =>
          if rule.logical in tensor.names[k - 1] && AxisIndex(options.axes, rule.device).Some? {
            GrantGrows(before, options.dims, tensor.extents[k - 1], k - 1, AxisIndex(options.axes, rule.device).value);
          }
      }
    }
  }

  lemma {:induction false} OfferExhausts(assignment: Assignment, options: TaskOptions, tensor: Tensor, rule: Rule, k: nat, j: nat)
    requires IsMesh(options) && IsNamed(tensor) && j < k <= |tensor.names| == |assignment|
    requires rule.logical in tensor.names[j] && Offer(assignment, options, tensor, rule, k).Some?
    ensures AxisIndex(options.axes, rule.device).Some?
    ensures Exhausted(Offer(assignment, options, tensor, rule, k).value, options.dims, tensor.extents, j,
                      AxisIndex(options.axes, rule.device).value)
  {
    AxisIndexBound(options.axes, rule.device);
    var before := Offer(assignment, options, tensor, rule, k - 1).value;
    if rule.logical in tensor.names[k - 1] {
      var axis := AxisIndex(options.axes, rule.device).value;
      GrantGrows(before, options.dims, tensor.extents[k - 1], k - 1, axis);
    }
    if j < k - 1 {
      OfferExhausts(assignment, options, tensor, rule, k - 1, j);
      StaysExhausted(before, Offer(assignment, options, tensor, rule, k).value, options.dims, tensor.extents, j,
                     AxisIndex(options.axes, rule.device).value);
    }
  }

  /** When the assignment ends, every axis that a rule allows for a dimension is taken or too large for it. */
  lemma {:induction false} NothingUsableLeft(options: TaskOptions, tensor: Tensor, n: nat, i: nat, j: nat)
    requires IsMesh(options) && IsNamed(tensor) && i < n <= |options.rules| && j < |tensor.names|
    requires Assign(options, tensor, n).Some? && options.rules[i].logical in tensor.names[j]
    ensures AxisIndex(options.axes, options.rules[i].device).Some?
    ensures Exhausted(Assign(options, tensor, n).value, options.dims, tensor.extents, j,
                      AxisIndex(options.axes, options.rules[i].device).value)
  {
    var before := Assign(options, tensor, n - 1).value;
    if i == n - 1 {
      OfferExhausts(before, options, tensor, options.rules[i], |tensor.names|, j);
    } else {
      NothingUsableLeft(options, tensor, n - 1, i, j);
      OfferGrows(before, options, tensor, options.rules[n - 1], |tensor.names|);
      StaysExhausted(before, Assign(options, tensor, n).value, options.dims, tensor.extents, j,
                     AxisIndex(options.axes, options.rules[i].device).value);
    }
  }

  // ---- unknown axes ----

  ghost predicate NamesUnknownAxis(options: TaskOptions, tensor: Tensor, rule: Rule, k: nat)
    requires k <= |tensor.names|
  {
    rule.device !in options.axes && exists j :: 0 <= j < k && rule.logical in tensor.names[j]
  }

  lemma {:induction false} OfferFailsIff(assignment: Assignment, options: TaskOptions, tensor: Tensor, rule: Rule, k: nat)
    requires IsNamed(tensor) && k <= |tensor.names| == |assignment|
    ensures Offer(assignment, options, tensor, rule, k) == None <==> NamesUnknownAxis(options, tensor, rule, k)
  {
    if k > 0 {
      OfferFailsIff(assignment, options, tensor, rule, k - 1);
      AxisIndexBound(options.axes, rule.device);
    }
  }

  /** The assignment fails exactly when a rule about this tensor names an axis that the mesh lacks. */
  lemma {:induction false} AssignFailsIff(options: TaskOptions, tensor: Tensor, n: nat)
    requires IsNamed(tensor) && n <= |options.rules|
    ensures Assign(options, tensor, n) == None <==>
            exists i :: 0 <= i < n && NamesUnknownAxis(options, tensor, options.rules[i], |tensor.names|)
  {
    if n > 0 {
      AssignFailsIff(options, tensor, n - 1);
      if Assign(options, tensor, n - 1).Some? {
        OfferFailsIff(Assign(options, tensor, n - 1).value, options, tensor, options.rules[n - 1], |tensor.names|);
      }
    }
  }

  // ---- the pass ----

  ghost predicate DividesEvenly(tiles: seq<nat>, extents: seq<nat>) {
    |extents| <= |tiles| && forall k :: 0 <= k < |extents| ==> tiles[k] > 0 && extents[k] % tiles[k] == 0
  }

  ghost function Sharded(assignment: Assignment, dims: seq<nat>, first: nat, listAll: bool): Sharding
    requires AxesDisjoint(assignment, |dims|)
  {
    if assignment == [] || (FullyReplicated(assignment, dims) && !listAll) then Replicated
    else TiledSharding(assignment, dims, first)
  }

  ghost function Outcome(options: TaskOptions, tensor: Tensor, first: nat, listAll: bool): Result<Sharding>
    requires IsMesh(options) && IsNamed(tensor)
  {
    AssignIsProper(options, tensor, |options.rules|);
    match Assign(options, tensor, |options.rules|)
    case None => Failure(InvalidArgument)
    case Some(assignment) =>
      var sharding := Sharded(assignment, options.dims, first, listAll);
      if sharding.Iota? && !DividesEvenly(sharding.tiles, tensor.extents) then Failure(InvalidArgument) else Success(sharding)
  }

  method FindAxis(axes: seq<string>, name: string) returns (r: Option<nat>)
    ensures r == AxisIndex(axes, name)
  {
    for index := 0 to |axes|
      invariant forall j :: 0 <= j < index ==> axes[j] != name
    {
      if axes[index] == name {
        AxisIndexAt(axes, name, index);
        return Some(index);
      }
    }
    AxisIndexAt(axes, name, |axes|);
    r := None;
  }

  /** The running shard counts and the set of axes taken so far belong to this assignment. */
  ghost predicate Tracks(assignment: Assignment, counts: seq<nat>, used: set<nat>, dims: seq<nat>) {
    && |counts| == |assignment|
    && (forall k :: 0 <= k < |counts| ==> counts[k] == ShardCount(assignment, dims, k))
    && (forall a: nat :: a in used <==> Used(assignment, a))
  }

  lemma TracksGrant(assignment: Assignment, counts: seq<nat>, used: set<nat>, dims: seq<nat>, extent: nat, k: nat, axis: nat)
    requires Tracks(assignment, counts, used, dims) && k < |assignment| && Fits(assignment, dims, extent, k, axis)
    ensures Tracks(Grant(assignment, dims, extent, k, axis), counts[k := counts[k] * At(dims, axis)], used + {axis}, dims)
  {
    var after := assignment[k := assignment[k] + [axis]];
    GrantCount(assignment, dims, k, axis);
    forall a: nat ensures a in used + {axis} <==> Used(after, a) {
      if Used(assignment, a) {
        var i :| 0 <= i < |assignment| && a in assignment[i];
        assert a in after[i];
      }
      assert axis in after[k];
    }
  }

  method OfferRule(rule: Rule, options: TaskOptions, tensor: Tensor, before: Assignment, countsBefore: seq<nat>, usedBefore: set<nat>)
    returns (r: Option<Assignment>, counts: seq<nat>, used: set<nat>)
    requires IsMesh(options) && IsNamed(tensor) && |before| == |tensor.names|
    requires Tracks(before, countsBefore, usedBefore, options.dims)
    ensures r == Offer(before, options, tensor, rule, |tensor.names|)
    ensures r.Some? ==> Tracks(r.value, counts, used, options.dims)
  {
    var assignment := before;
    counts, used := countsBefore, usedBefore;
    for k := 0 to |tensor.names|
      invariant Offer(before, options, tensor, rule, k) == Some(assignment)
      invariant Tracks(assignment, counts, used, options.dims)
    {
      var named := Mentions(tensor.names[k], rule.logical);
      if named {
        var found := FindAxis(options.axes, rule.device);
        AxisIndexBound(options.axes, rule.device);
        if found == None {
          OfferFailsIff(before, options, tensor, rule, k + 1);
          OfferFailsIff(before, options, tensor, rule, |tensor.names|);
          r := None;
          return;
        }
        var axis := found.value;
        var total := counts[k] * options.dims[axis];
        if total <= tensor.extents[k] && axis !in used {
          TracksGrant(assignment, counts, used, options.dims, tensor.extents[k], k, axis);
          assignment := assignment[k := assignment[k] + [axis]];
          used := used + {axis};
          counts := counts[k := total];
        }
      }
    }
    r := Some(assignment);
  }

  method Mentions(names: seq<string>, name: string) returns (found: bool)
    ensures found <==> name in names
  {
    for i := 0 to |names|
      invariant name !in names[..i]
    {
      if names[i] == name {
        return true;
      }
    }
    assert names[..|names|] == names;
    found := false;
  }

  method AssignAxes(options: TaskOptions, tensor: Tensor) returns (r: Option<Assignment>)
    requires IsMesh(options) && IsNamed(tensor)
    ensures r == Assign(options, tensor, |options.rules|)
  {
    var assignment: Assignment := Unassigned(|tensor.names|);
    var counts: seq<nat> := seq(|tensor.names|, i => 1);
    var used: set<nat> := {};
    for n := 0 to |options.rules|
      invariant Assign(options, tensor, n) == Some(assignment)
      invariant Tracks(assignment, counts, used, options.dims)
    {
      var after;
      after, counts, used := OfferRule(options.rules[n], options, tensor, assignment, counts, used);
      if after == None {
        OfferFailsIff(assignment, options, tensor, options.rules[n], |tensor.names|);
        AssignFailsIff(options, tensor, |options.rules|);
        return None;
      }
      assignment := after.value;
    }
    r := Some(assignment);
  }

  method CheckDivision(tiles: seq<nat>, extents: seq<nat>) returns (even: bool)
    requires |extents| <= |tiles| && Positive(tiles)
    ensures even <==> DividesEvenly(tiles, extents)
  {
    for k := 0 to |extents|
      invariant forall j :: 0 <= j < k ==> extents[j] % tiles[j] == 0
    {
      if extents[k] % tiles[k] != 0 {
        return false;
      }
    }
    even := true;
  }

  /** The tiles of a successful assignment: positive, one per dimension, then the replicas. */
  lemma ShardedTiles(assignment: Assignment, dims: seq<nat>, first: nat, listAll: bool)
    requires AxesDisjoint(assignment, |dims|) && Positive(dims)
    ensures var sharding := Sharded(assignment, dims, first, listAll);
            sharding.Iota? ==>
              sharding.tiles == TileDims(dims, Groups(assignment, |dims|)) && Positive(sharding.tiles) && |assignment| <= |sharding.tiles|
  {
    TileDimsCoverMesh(dims, assignment);
    TileDimsPositive(dims, Groups(assignment, |dims|));
  }

  /** The order of the axes does not change how often a dimension is cut. */
  lemma TileIsShardCount(assignment: Assignment, dims: seq<nat>, k: nat)
    requires k < |assignment|
    ensures k < |Groups(assignment, |dims|)| && TileDims(dims, Groups(assignment, |dims|))[k] == ShardCount(assignment, dims, k)
  {
    var at := (a: nat) => At(dims, a);
    ImagePermutation(at, Sort(assignment[k]), assignment[k]);
    assert Image(at, Sort(assignment[k])) == Gather(dims, Sort(assignment[k]));
    assert Image(at, assignment[k]) == Gather(dims, assignment[k]);
    ProductOfPermutation(Gather(dims, Sort(assignment[k])), Gather(dims, assignment[k]));
  }

  /** Some dimension is cut into a number of shards that does not divide its extent. */
  ghost predicate IsUneven(options: TaskOptions, tensor: Tensor)
    requires IsNamed(tensor)
  {
    Assign(options, tensor, |options.rules|).Some? &&
    exists k :: 0 <= k < |tensor.extents| && LeavesRest(Assign(options, tensor, |options.rules|).value, options.dims, tensor.extents[k], k)
  }

  ghost predicate LeavesRest(assignment: Assignment, dims: seq<nat>, extent: nat, k: nat) {
    k < |assignment| && (ShardCount(assignment, dims, k) == 0 || extent % ShardCount(assignment, dims, k) != 0)
  }

  /** A sharding is refused exactly when a matching rule names an unknown axis, or shards would be uneven. */
  lemma ShardingFailsIff(options: TaskOptions, tensor: Tensor, first: nat, listAll: bool)
    requires IsMesh(options) && IsNamed(tensor)
    ensures Outcome(options, tensor, first, listAll).Failure? <==>
            (exists i :: 0 <= i < |options.rules| && NamesUnknownAxis(options, tensor, options.rules[i], |tensor.names|)) || IsUneven(options, tensor)
  {
    AssignFailsIff(options, tensor, |options.rules|);
    AssignIsProper(options, tensor, |options.rules|);
    if Assign(options, tensor, |options.rules|).Some? {
      UnevenIff(options, tensor, first, listAll, Assign(options, tensor, |options.rules|).value);
    }
  }

  lemma UnevenIff(options: TaskOptions, tensor: Tensor, first: nat, listAll: bool, assignment: Assignment)
    requires IsMesh(options) && IsNamed(tensor) && |assignment| == |tensor.extents| && AxesDisjoint(assignment, |options.dims|)
    ensures var sharding := Sharded(assignment, options.dims, first, listAll);
            (sharding.Iota? && !DividesEvenly(sharding.tiles, tensor.extents)) <==>
            exists k :: 0 <= k < |tensor.extents| && LeavesRest(assignment, options.dims, tensor.extents[k], k)
  {
    var sharding, tiles := Sharded(assignment, options.dims, first, listAll), TileDims(options.dims, Groups(assignment, |options.dims|));
    ShardedTiles(assignment, options.dims, first, listAll);
    ReplicatedIffUntiled(assignment, options.dims);
    TileDimsCoverMesh(options.dims, assignment);
    TileDimsPositive(options.dims, Groups(assignment, |options.dims|));
    forall k | 0 <= k < |assignment|
      ensures LeavesRest(assignment, options.dims, tensor.extents[k], k) <==> tiles[k] == 0 || tensor.extents[k] % tiles[k] != 0
    {
      TileIsShardCount(assignment, options.dims, k);
    }
  }

  method LogicalShardingToOpSharding(options: TaskOptions, tensor: Tensor, first: nat, taskDevices: nat, partitionDevices: nat)
    returns (r: Result<Sharding>)
    requires IsMesh(options) && IsNamed(tensor)
    ensures r == Outcome(options, tensor, first, taskDevices < partitionDevices)
  {
    var found := AssignAxes(options, tensor);
    if found == None {
      return Failure(InvalidArgument);
    }
    AssignIsProper(options, tensor, |options.rules|);
    ShardedTiles(found.value, options.dims, first, taskDevices < partitionDevices);
    var sharding := LogicalToPhysicalSharding(found.value, first, options.dims, taskDevices < partitionDevices);
    if sharding.Iota? {
      var even := CheckDivision(sharding.tiles, tensor.extents);
      if !even {
        return Failure(InvalidArgument);
      }
    }
    r := Success(sharding);
  }

  // ---- what success means for the tensor ----

  /** The block of a tile coordinate contains this element. */
  ghost predicate InBlock(element: seq<nat>, tile: seq<nat>, tiles: seq<nat>, extents: seq<nat>)
    requires DividesEvenly(tiles, extents) && |element| == |extents| == |tile|
  {
    forall k :: 0 <= k < |extents| ==>
      tile[k] * (extents[k] / tiles[k]) <= element[k] < (tile[k] + 1) * (extents[k] / tiles[k])
  }

  /** The tile whose block contains an element. */
  ghost function TileOf(element: seq<nat>, tiles: seq<nat>, extents: seq<nat>): (r: seq<nat>)
    requires DividesEvenly(tiles, extents) && InBox(element, extents)
    ensures |r| == |extents|
  {
    seq(|extents|, k requires 0 <= k < |extents| => BlockIndex(element[k], extents[k], tiles[k]))
  }

  ghost function BlockIndex(x: nat, extent: nat, tiles: nat): (r: nat)
    requires tiles > 0 && extent % tiles == 0 && x < extent
    ensures r < tiles && extent / tiles > 0
    ensures r * (extent / tiles) <= x < (r + 1) * (extent / tiles)
  {
    var block := extent / tiles;
    DivMod(extent, tiles);
    MulLe(block, 0, tiles);
    DivMod(x, block);
    MulDistributes(x / block, 1, block);
    MulLe(tiles, x / block, block);
    x / block
  }

  lemma BlockIndexUnique(x: nat, extent: nat, tiles: nat, t: nat)
    requires tiles > 0 && extent % tiles == 0 && x < extent
    requires t * (extent / tiles) <= x < (t + 1) * (extent / tiles)
    ensures t == BlockIndex(x, extent, tiles)
  {
    var block := extent / tiles;
    MulDistributes(t, 1, block);
    DivModUnique(t, x - t * block, block);
  }

  /** The equal blocks tile the tensor: each element is in the block of one tile coordinate and no other. */
  lemma BlocksTile(element: seq<nat>, tiles: seq<nat>, extents: seq<nat>)
    requires DividesEvenly(tiles, extents) && InBox(element, extents)
    ensures InBox(TileOf(element, tiles, extents), tiles[..|extents|])
    ensures forall tile: seq<nat> :: |tile| == |extents| ==>
              (InBlock(element, tile, tiles, extents) <==> tile == TileOf(element, tiles, extents))
  {
    var own := TileOf(element, tiles, extents);
    forall tile: seq<nat> | |tile| == |extents|
      ensures InBlock(element, tile, tiles, extents) <==> tile == own
    {
      if InBlock(element, tile, tiles, extents) {
        forall k | 0 <= k < |extents| ensures tile[k] == own[k] {
          BlockIndexUnique(element[k], extents[k], tiles[k], tile[k]);
        }
      }
    }
  }

  /** A device stores an element when the element is in the block of the device's tile coordinate. */
  ghost predicate Stores(assignment: Assignment, dims: seq<nat>, tiles: seq<nat>, extents: seq<nat>, device: nat, element: seq<nat>)
    requires Positive(dims) && device < Product(dims)
    requires |assignment| == |extents| == |element| && DividesEvenly(tiles, extents)
  {
    InBlock(element, TileCoordinates(Decode(device, dims), dims, Groups(assignment, |dims|))[..|extents|], tiles, extents)
  }

  /** The device belongs to this replica of the tensor. */
  ghost predicate InReplica(assignment: Assignment, dims: seq<nat>, replica: seq<nat>, device: nat)
    requires Positive(dims)
  {
    device < Product(dims) && TileCoordinates(Decode(device, dims), dims, Groups(assignment, |dims|))[|assignment|..] == replica
  }

  /** A device of the replica that stores the element. */
  ghost predicate Holder(assignment: Assignment, dims: seq<nat>, extents: seq<nat>, element: seq<nat>, replica: seq<nat>, device: nat)
    requires Positive(dims) && |assignment| == |extents| == |element|
    requires DividesEvenly(TileDims(dims, Groups(assignment, |dims|)), extents)
  {
    && InReplica(assignment, dims, replica, device)
    && Stores(assignment, dims, TileDims(dims, Groups(assignment, |dims|)), extents, device, element)
  }

  /** Within its replica group, this device alone stores the element. */
  ghost predicate StoredOnce(assignment: Assignment, dims: seq<nat>, extents: seq<nat>, element: seq<nat>, replica: seq<nat>, device: nat)
    requires Positive(dims) && |assignment| == |extents| == |element|
    requires DividesEvenly(TileDims(dims, Groups(assignment, |dims|)), extents)
  {
    && Holder(assignment, dims, extents, element, replica, device)
    && forall d: nat :: Holder(assignment, dims, extents, element, replica, d) ==> d == device
  }

  lemma HolderOwns(assignment: Assignment, dims: seq<nat>, extents: seq<nat>, element: seq<nat>, replica: seq<nat>, device: nat)
    requires Positive(dims) && |assignment| == |extents|
    requires InBox(element, extents) && DividesEvenly(TileDims(dims, Groups(assignment, |dims|)), extents)
    ensures Holder(assignment, dims, extents, element, replica, device) <==>
            Owns(assignment, dims, device, TileOf(element, TileDims(dims, Groups(assignment, |dims|)), extents) + replica)
  {
    var tiles := TileDims(dims, Groups(assignment, |dims|));
    var tile := TileCoordinates(Decode(device, dims), dims, Groups(assignment, |dims|));
    BlockOf(element, tile[..|extents|], tiles, extents);
    SplitAt(tile, TileOf(element, tiles, extents), replica);
  }

  lemma BlockOf(element: seq<nat>, tile: seq<nat>, tiles: seq<nat>, extents: seq<nat>)
    requires DividesEvenly(tiles, extents) && InBox(element, extents) && |tile| == |extents|
    ensures InBlock(element, tile, tiles, extents) <==> tile == TileOf(element, tiles, extents)
  {
    BlocksTile(element, tiles, extents);
  }

  lemma SplitAt(s: seq<nat>, x: seq<nat>, y: seq<nat>)
    requires |x| <= |s|
    ensures s == x + y <==> s[..|x|] == x && s[|x|..] == y
  {
    assert s == s[..|x|] + s[|x|..];
    assert (x + y)[..|x|] == x && (x + y)[|x|..] == y;
  }

  lemma ElementHasOneDevice(assignment: Assignment, dims: seq<nat>, extents: seq<nat>, element: seq<nat>, replica: seq<nat>)
    returns (device: nat)
    requires Positive(dims) && AxesDisjoint(assignment, |dims|) && |assignment| == |extents|
    requires InBox(element, extents) && DividesEvenly(TileDims(dims, Groups(assignment, |dims|)), extents)
    requires InBox(replica, TileDims(dims, Groups(assignment, |dims|))[|extents|..])
    ensures StoredOnce(assignment, dims, extents, element, replica, device)
  {
    var tiles := TileDims(dims, Groups(assignment, |dims|));
    BlocksTile(element, tiles, extents);
    var own := TileOf(element, tiles, extents);
    BoxConcat(own, replica, tiles, |extents|);
    device := TileHasOneDevice(assignment, dims, own + replica);
    forall d: nat ensures Holder(assignment, dims, extents, element, replica, d) <==> Owns(assignment, dims, d, own + replica) {
      HolderOwns(assignment, dims, extents, element, replica, d);
    }
  }

  /**
   * On success the shards are equal blocks that tile the tensor, and in every replica exactly one
   * device stores any given element.
   */
  lemma ElementIsStored(options: TaskOptions, tensor: Tensor, first: nat, listAll: bool, element: seq<nat>, replica: seq<nat>)
    returns (device: nat)
    requires IsMesh(options) && IsNamed(tensor) && InBox(element, tensor.extents)
    requires Outcome(options, tensor, first, listAll).Success? && Outcome(options, tensor, first, listAll).value.Iota?
    requires InBox(replica, Outcome(options, tensor, first, listAll).value.tiles[|tensor.extents|..])
    ensures Assign(options, tensor, |options.rules|).Some?
    ensures DividesEvenly(TileDims(options.dims, Groups(Assign(options, tensor, |options.rules|).value, |options.dims|)), tensor.extents)
    ensures StoredOnce(Assign(options, tensor, |options.rules|).value, options.dims, tensor.extents, element, replica, device)
  {
    AssignIsProper(options, tensor, |options.rules|);
    var assignment := Assign(options, tensor, |options.rules|).value;
    ShardedTiles(assignment, options.dims, first, listAll);
    device := ElementHasOneDevice(assignment, options.dims, tensor.extents, element, replica);
  }

  lemma BoxConcat(x: seq<nat>, y: seq<nat>, dims: seq<nat>, k: nat)
    requires k <= |dims| && InBox(x, dims[..k]) && InBox(y, dims[k..])
    ensures InBox(x + y, dims)
  {
    forall i | 0 <= i < |dims| ensures (x + y)[i] < dims[i] {
      assert i < k ==> dims[..k][i] == dims[i];
      assert i >= k ==> dims[k..][i - k] == dims[i];
    }
  }
}
