/** Turning an assignment of device axes to logical dimensions into a device order. */
module DeviceSharding {
  import opened Arithmetic
  import opened MixedRadix
  import opened Sequences

  // ---- the axes of each tile dimension ----

  ghost predicate Ascending(s: seq<nat>) {
    forall i, j :: 0 <= i < j < |s| ==> s[i] <= s[j]
  }

  function Insert(x: nat, s: seq<nat>): (r: seq<nat>)
    ensures multiset(r) == multiset(s) + multiset{x}
    ensures forall y :: y in r <==> y == x || y in s
  {
    if s == [] || x <= s[0] then [x] + s
    else
      assert s == [s[0]] + s[1..];
      [s[0]] + Insert(x, s[1..])
  }

  lemma {:induction false} InsertAscending(x: nat, s: seq<nat>)
    requires Ascending(s)
    ensures Ascending(Insert(x, s))
  {
    if s != [] && x > s[0] {
      var rest := Insert(x, s[1..]);
      InsertAscending(x, s[1..]);
      forall i | 0 <= i < |rest| ensures s[0] <= rest[i] {
        assert rest[i] in rest && (rest[i] == x || rest[i] in s[1..]);
      }
    }
  }

  /** The sorted axes of one logical dimension. */
  function Sort(s: seq<nat>): (r: seq<nat>)
    ensures multiset(r) == multiset(s) && Ascending(r)
    ensures |r| == |s| && forall y :: y in r <==> y in s
  {
    if s == [] then []
    else
      assert s == [s[0]] + s[1..];
      InsertAscending(s[0], Sort(s[1..]));
      var r := Insert(s[0], Sort(s[1..]));
      assert |multiset(r)| == |multiset(s)|;
      r
  }

  ghost function SortEach(logical: seq<seq<nat>>): (r: seq<seq<nat>>)
    ensures |r| == |logical| && forall k :: 0 <= k < |r| ==> r[k] == Sort(logical[k])
  {
    Image(Sort, logical)
  }

  ghost predicate Used(logical: seq<seq<nat>>, axis: nat) {
    exists k :: 0 <= k < |logical| && axis in logical[k]
  }

  /** The axes below `n` that no logical dimension uses, ascending. */
  ghost function Unused(logical: seq<seq<nat>>, n: nat): (r: seq<nat>)
    ensures forall a: nat :: a in r <==> a < n && !Used(logical, a)
    ensures Distinct(r)
  {
    if n == 0 then []
    else if Used(logical, n - 1) then Unused(logical, n - 1)
    else Unused(logical, n - 1) + [n - 1]
  }

  /** The axes behind each tile dimension: one group per logical dimension, then the replicated axes. */
  ghost function Groups(logical: seq<seq<nat>>, n: nat): seq<seq<nat>> {
    SortEach(logical) + if Unused(logical, n) == [] then [] else [Unused(logical, n)]
  }

  function Flatten(groups: seq<seq<nat>>): seq<nat> {
    if groups == [] then [] else groups[0] + Flatten(groups[1..])
  }

  /** No device axis is assigned twice, and all exist. */
  ghost predicate AxesDisjoint(logical: seq<seq<nat>>, n: nat) {
    && (forall k, a :: 0 <= k < |logical| && a in logical[k] ==> a < n)
    && (forall k :: 0 <= k < |logical| ==> Distinct(logical[k]))
    && (forall i, j, a :: 0 <= i < j < |logical| && a in logical[i] ==> a !in logical[j])
  }

  // ---- gathering and scattering indices ----

  function At(values: seq<nat>, axis: nat): nat {
    if axis < |values| then values[axis] else 0
  }

  /** The values along the given axes. */
  function Gather(values: seq<nat>, axes: seq<nat>): (r: seq<nat>)
    ensures |r| == |axes| && forall i :: 0 <= i < |r| ==> r[i] == At(values, axes[i])
  {
    if axes == [] then [] else [At(values, axes[0])] + Gather(values, axes[1..])
  }

  /** `axes` lists every number below `n` exactly once. */
  ghost predicate IsPermutation(axes: seq<nat>, n: nat) {
    Distinct(axes) && |axes| == n && forall a: nat :: a in axes <==> a < n
  }

  /** The tile dimensions. */
  ghost function TileDims(dims: seq<nat>, groups: seq<seq<nat>>): (r: seq<nat>)
    ensures |r| == |groups| && forall k :: 0 <= k < |r| ==> r[k] == Product(Gather(dims, groups[k]))
  {
    if groups == [] then []
    else
      [Product(Gather(dims, groups[0]))] + TileDims(dims, groups[1..])
  }

  lemma FlattenParts(groups: seq<seq<nat>>)
    requires groups != []
    ensures forall a :: a in Flatten(groups) <==> a in groups[0] || a in Flatten(groups[1..])
  {
  }

  /** The tile coordinates of a device: its coordinates along the axes of each group, in row-major order. */
  ghost function TileCoordinates(device: seq<nat>, dims: seq<nat>, groups: seq<seq<nat>>): (r: seq<nat>)
    ensures |r| == |groups|
  {
    if groups == [] then []
    else
      [Encode(Gather(device, groups[0]), Gather(dims, groups[0]))] + TileCoordinates(device, dims, groups[1..])
  }

  lemma {:induction false} GatherConcat(values: seq<nat>, a: seq<nat>, b: seq<nat>)
    ensures Gather(values, a + b) == Gather(values, a) + Gather(values, b)
  {
    if a == [] {
      assert a + b == b;
    } else {
      assert (a + b)[1..] == a[1..] + b;
      GatherConcat(values, a[1..], b);
    }
  }

  /** Row-major over the permuted axes is row-major over the tile coordinates. */
  lemma {:induction false} GroupedEncode(device: seq<nat>, dims: seq<nat>, groups: seq<seq<nat>>)
    ensures Encode(Gather(device, Flatten(groups)), Gather(dims, Flatten(groups))) ==
            Encode(TileCoordinates(device, dims, groups), TileDims(dims, groups))
    ensures Product(Gather(dims, Flatten(groups))) == Product(TileDims(dims, groups))
  {
    if groups != [] {
      var first, rest := groups[0], Flatten(groups[1..]);
      GatherConcat(device, first, rest);
      GatherConcat(dims, first, rest);
      EncodeConcat(Gather(device, first), Gather(dims, first), Gather(device, rest), Gather(dims, rest));
      ProductConcat(Gather(dims, first), Gather(dims, rest));
      GroupedEncode(device, dims, groups[1..]);
    }
  }

  ghost predicate AxesBelow(axes: seq<nat>, n: nat) {
    forall a :: a in axes ==> a < n
  }

  lemma GatherPositive(dims: seq<nat>, axes: seq<nat>)
    requires Positive(dims) && AxesBelow(axes, |dims|)
    ensures Positive(Gather(dims, axes))
  {
    forall k | 0 <= k < |axes| ensures Gather(dims, axes)[k] > 0 {
      assert axes[k] in axes;
    }
  }

  lemma GatherInBox(index: seq<nat>, dims: seq<nat>, axes: seq<nat>)
    requires InBox(index, dims) && AxesBelow(axes, |dims|)
    ensures InBox(Gather(index, axes), Gather(dims, axes))
  {
    forall k | 0 <= k < |axes| ensures Gather(index, axes)[k] < Gather(dims, axes)[k] {
      assert axes[k] in axes;
    }
  }

  lemma {:induction false} CoordinatesInBox(device: seq<nat>, dims: seq<nat>, groups: seq<seq<nat>>)
    requires InBox(device, dims) && AxesBelow(Flatten(groups), |dims|)
    ensures InBox(TileCoordinates(device, dims, groups), TileDims(dims, groups))
    decreases |groups|
  {
    if groups != [] {
      FlattenParts(groups);
      GatherInBox(device, dims, groups[0]);
      EncodeBound(Gather(device, groups[0]), Gather(dims, groups[0]));
      CoordinatesInBox(device, dims, groups[1..]);
    }
  }

  // ---- the axis permutation ----

  lemma {:induction false} FlattenMembers(groups: seq<seq<nat>>, a: nat)
    ensures a in Flatten(groups) <==> exists k :: 0 <= k < |groups| && a in groups[k]
  {
    if groups != [] {
      FlattenParts(groups);
      FlattenMembers(groups[1..], a);
      assert forall k :: 1 <= k < |groups| ==> groups[k] == groups[1..][k - 1];
    }
  }

  ghost predicate PairwiseDisjoint(groups: seq<seq<nat>>) {
    && (forall k :: 0 <= k < |groups| ==> Distinct(groups[k]))
    && (forall i, j, a :: 0 <= i < j < |groups| && a in groups[i] ==> a !in groups[j])
  }

  lemma {:induction false} FlattenDistinct(groups: seq<seq<nat>>)
    requires PairwiseDisjoint(groups)
    ensures Distinct(Flatten(groups))
  {
    if groups != [] {
      FlattenDistinct(groups[1..]);
      var first, rest := groups[0], Flatten(groups[1..]);
      forall x | x in first ensures x !in rest {
        FlattenMembers(groups[1..], x);
        assert forall k :: 0 <= k < |groups[1..]| ==> groups[1..][k] == groups[k + 1];
      }
      DistinctConcat(first, rest);
    }
  }

  lemma DistinctConcat(s: seq<nat>, t: seq<nat>)
    requires Distinct(s) && Distinct(t) && forall x :: x in s ==> x !in t
    ensures Distinct(s + t)
  {
    forall i, j | 0 <= i < j < |s + t| ensures (s + t)[i] != (s + t)[j] {
      if i < |s| <= j {
        assert s[i] in s && t[j - |s|] in t;
      }
    }
  }

  lemma SortDistinct(s: seq<nat>)
    requires Distinct(s)
    ensures Distinct(Sort(s))
  {
    var t := Sort(s);
    forall i, j | 0 <= i < j < |t| ensures t[i] != t[j] {
      if t[i] == t[j] {
        RepeatedTwice(t, i, j);
        DistinctMultiplicity(s, t[i]);
      }
    }
  }

  lemma GroupsDisjoint(logical: seq<seq<nat>>, n: nat)
    requires AxesDisjoint(logical, n)
    ensures PairwiseDisjoint(Groups(logical, n))
  {
    forall k | 0 <= k < |logical| ensures Distinct(Groups(logical, n)[k]) {
      SortDistinct(logical[k]);
    }
    forall i, j, a | 0 <= i < j < |Groups(logical, n)| && a in Groups(logical, n)[i]
      ensures a !in Groups(logical, n)[j]
    {
      assert a in logical[i];
      if j == |logical| {
        assert Used(logical, a);
      }
    }
  }

  lemma AxisHasGroup(logical: seq<seq<nat>>, n: nat, a: nat)
    requires AxesDisjoint(logical, n)
    ensures a < n <==> exists k :: 0 <= k < |Groups(logical, n)| && a in Groups(logical, n)[k]
  {
    var groups := Groups(logical, n);
    assert forall k :: 0 <= k < |logical| ==> (a in groups[k] <==> a in logical[k]);
    assert forall k :: |logical| <= k < |groups| ==> groups[k] == Unused(logical, n);
    assert a < n && !Used(logical, a) ==> a in Unused(logical, n);
    assert Unused(logical, n) != [] ==> groups[|logical|] == Unused(logical, n);
  }

  /** Every device axis appears exactly once in the permutation. */
  lemma PermutationOfAxes(logical: seq<seq<nat>>, n: nat)
    requires AxesDisjoint(logical, n)
    ensures IsPermutation(Flatten(Groups(logical, n)), n)
  {
    var groups := Groups(logical, n);
    GroupsDisjoint(logical, n);
    FlattenDistinct(groups);
    forall a: nat ensures a in Flatten(groups) <==> a < n {
      FlattenMembers(groups, a);
      AxisHasGroup(logical, n, a);
    }
    PermutationLength(Flatten(groups), n);
  }

  lemma PermutationLength(axes: seq<nat>, n: nat)
    requires Distinct(axes) && forall a: nat :: a in axes <==> a < n
    ensures |axes| == n
  {
    DistinctSize(axes);
    assert Elements(axes) == NatsBelow(n);
  }

  // ---- the product of the tile dimensions is the mesh size ----

  lemma {:induction false} ProductOfPermutation(s: seq<nat>, t: seq<nat>)
    requires multiset(s) == multiset(t)
    ensures Product(s) == Product(t)
    decreases |s|
  {
    if s == [] {
      PermutationSameLength(s, t);
      assert t == [];
    } else {
      var j := PermutationStep(s, t);
      ProductOfPermutation(s[..0] + s[1..], t[..j] + t[j + 1..]);
      assert s[..0] + s[1..] == s[1..];
      assert t == t[..j] + ([t[j]] + t[j + 1..]);
      ProductConcat(t[..j], [t[j]] + t[j + 1..]);
      ProductConcat(t[..j], t[j + 1..]);
      assert ([t[j]] + t[j + 1..])[1..] == t[j + 1..];
      MulCommutes(Product(t[..j]), t[j], Product(t[j + 1..]));
    }
  }

  lemma MulCommutes(a: int, b: int, c: int)
    ensures a * (b * c) == b * (a * c)
  {
  }

  /** 0, 1, ..., n - 1. */
  function Identity(n: nat): (r: seq<nat>)
    ensures |r| == n && forall i :: 0 <= i < n ==> r[i] == i
  {
    seq(n, i requires 0 <= i < n => i)
  }

  lemma GatherProduct(dims: seq<nat>, axes: seq<nat>)
    requires IsPermutation(axes, |dims|)
    ensures Product(Gather(dims, axes)) == Product(dims)
  {
    var n := |dims|;
    var at := (a: nat) => if a < n then dims[a] else 0;
    var identity := Identity(n);
    forall a: nat ensures a in identity <==> a < n {
      assert a < n ==> identity[a] == a;
    }
    DistinctSameElements(axes, identity);
    ImagePermutation(at, axes, identity);
    assert Image(at, identity) == dims;
    assert Image(at, axes) == Gather(dims, axes);
    ProductOfPermutation(Gather(dims, axes), dims);
  }

  lemma TileDimsCoverMesh(dims: seq<nat>, logical: seq<seq<nat>>)
    requires AxesDisjoint(logical, |dims|)
    ensures IsPermutation(Flatten(Groups(logical, |dims|)), |dims|)
    ensures Product(TileDims(dims, Groups(logical, |dims|))) == Product(dims)
  {
    PermutationOfAxes(logical, |dims|);
    GatherProduct(dims, Flatten(Groups(logical, |dims|)));
    GroupedEncode(dims, dims, Groups(logical, |dims|));
  }

  // ---- the device assignment of a transposed iota ----

  function IndexOf(axes: seq<nat>, a: nat): (i: nat)
    requires a in axes
    ensures i < |axes| && axes[i] == a
  {
    if axes[0] == a then 0 else 1 + IndexOf(axes[1..], a)
  }

  /** Inverse of gathering along a permutation. */
  ghost function Scatter(values: seq<nat>, axes: seq<nat>): (r: seq<nat>)
    requires IsPermutation(axes, |values|)
    ensures |r| == |values| && forall a: nat :: a < |r| ==> r[a] == values[IndexOf(axes, a)]
  {
    seq(|values|, a requires 0 <= a < |values| => values[IndexOf(axes, a)])
  }

  lemma IndexOfUnique(axes: seq<nat>, i: nat)
    requires Distinct(axes) && i < |axes|
    ensures axes[i] in axes && IndexOf(axes, axes[i]) == i
  {
  }

  lemma GatherScatter(values: seq<nat>, axes: seq<nat>)
    requires IsPermutation(axes, |values|)
    ensures Gather(Scatter(values, axes), axes) == values
  {
    var r := Scatter(values, axes);
    forall i: nat | i < |axes| ensures Gather(r, axes)[i] == values[i] {
      IndexOfUnique(axes, i);
    }
  }

  lemma ScatterGather(values: seq<nat>, axes: seq<nat>)
    requires IsPermutation(axes, |values|)
    ensures Scatter(Gather(values, axes), axes) == values
  {
    var g := Gather(values, axes);
    forall a: nat | a < |values| ensures Scatter(g, axes)[a] == values[a] {
      assert a in axes;
      assert g[IndexOf(axes, a)] == values[axes[IndexOf(axes, a)]];
    }
  }

  // ---- the sharding ----

  /**
   * `Iota` lists consecutive devices from `offset`, reshapes them to `reshape`, transposes by
   * `permutation`, and reshapes the result to `tiles`.
   */
  datatype Sharding =
    | Replicated
    | Iota(tiles: seq<nat>, reshape: seq<nat>, permutation: seq<nat>, replicateOnLast: bool, offset: nat)

  ghost predicate IsIota(sharding: Sharding) {
    && sharding.Iota?
    && Positive(sharding.reshape)
    && IsPermutation(sharding.permutation, |sharding.reshape|)
    && Product(sharding.tiles) == Product(sharding.reshape)
  }

  /** The device at row-major position `position` of the tile assignment. */
  ghost function DeviceAt(sharding: Sharding, position: nat): nat
    requires IsIota(sharding) && position < Product(sharding.tiles)
  {
    var dims := sharding.reshape;
    GatherPositive(dims, sharding.permutation);
    sharding.offset + Encode(Scatter(Decode(position, Gather(dims, sharding.permutation)), sharding.permutation), dims)
  }

  lemma ScatterInBox(index: seq<nat>, dims: seq<nat>, axes: seq<nat>)
    requires IsPermutation(axes, |dims|) && InBox(index, Gather(dims, axes))
    ensures InBox(Scatter(index, axes), dims)
  {
    forall a: nat | a < |dims| ensures Scatter(index, axes)[a] < dims[a] {
      assert a in axes;
      assert Gather(dims, axes)[IndexOf(axes, a)] == dims[axes[IndexOf(axes, a)]];
    }
  }

  /** The position that owns a device: row-major over the permuted coordinates of the device. */
  ghost function PositionOf(sharding: Sharding, device: nat): nat
    requires IsIota(sharding)
  {
    Encode(Gather(Decode(device, sharding.reshape), sharding.permutation), Gather(sharding.reshape, sharding.permutation))
  }

  /** Scattering a tile index gives the coordinates of a device that gathers to the index. */
  lemma ScatteredDevice(index: seq<nat>, dims: seq<nat>, axes: seq<nat>)
    requires Positive(dims) && IsPermutation(axes, |dims|) && InBox(index, Gather(dims, axes))
    ensures Encode(Scatter(index, axes), dims) < Product(dims)
    ensures Gather(Decode(Encode(Scatter(index, axes), dims), dims), axes) == index
  {
    ScatterInBox(index, dims, axes);
    EncodeBound(Scatter(index, axes), dims);
    DecodeEncode(Scatter(index, axes), dims);
    GatherScatter(index, axes);
  }

  lemma PermutedIndex(position: nat, dims: seq<nat>, axes: seq<nat>)
    requires Positive(dims) && IsPermutation(axes, |dims|) && position < Product(dims)
    ensures Positive(Gather(dims, axes))
    ensures InBox(Decode(position, Gather(dims, axes)), Gather(dims, axes))
    ensures Encode(Decode(position, Gather(dims, axes)), Gather(dims, axes)) == position
  {
    GatherPositive(dims, axes);
    GatherProduct(dims, axes);
    EncodeDecode(position, Gather(dims, axes));
  }

  lemma PositionOfDeviceAt(sharding: Sharding, position: nat)
    requires IsIota(sharding) && position < Product(sharding.tiles)
    ensures var d := DeviceAt(sharding, position) - sharding.offset;
            0 <= d < Product(sharding.reshape) && PositionOf(sharding, d) == position
  {
    var dims, axes := sharding.reshape, sharding.permutation;
    PermutedIndex(position, dims, axes);
    ScatteredDevice(Decode(position, Gather(dims, axes)), dims, axes);
  }

  lemma DeviceAtPositionOf(sharding: Sharding, device: nat)
    requires IsIota(sharding) && device < Product(sharding.reshape)
    ensures PositionOf(sharding, device) < Product(sharding.tiles)
    ensures DeviceAt(sharding, PositionOf(sharding, device)) == sharding.offset + device
  {
    var dims, axes := sharding.reshape, sharding.permutation;
    var permuted := Gather(dims, axes);
    GatherPositive(dims, axes);
    GatherProduct(dims, axes);
    EncodeDecode(device, dims);
    var index := Decode(device, dims);
    GatherInBox(index, dims, axes);
    EncodeBound(Gather(index, axes), permuted);
    DecodeEncode(Gather(index, axes), permuted);
    ScatterGather(index, axes);
  }

  ghost predicate Placed(sharding: Sharding, device: nat)
    requires IsIota(sharding)
  {
    exists p: nat :: p < Product(sharding.tiles) && DeviceAt(sharding, p) == device
  }

  /** Every device of the mesh sits at exactly one position, and every position holds a device of the mesh. */
  ghost predicate IsDeviceBijection(sharding: Sharding)
    requires IsIota(sharding)
  {
    var n := Product(sharding.reshape);
    && Product(sharding.tiles) == n
    && (forall p: nat :: p < n ==> sharding.offset <= DeviceAt(sharding, p) < sharding.offset + n)
    && (forall d: nat :: sharding.offset <= d < sharding.offset + n ==> Placed(sharding, d))
    && (forall p: nat, q: nat :: p < n && q < n && DeviceAt(sharding, p) == DeviceAt(sharding, q) ==> p == q)
  }

  lemma DeviceInMesh(sharding: Sharding, p: nat)
    requires IsIota(sharding) && p < Product(sharding.reshape)
    ensures sharding.offset <= DeviceAt(sharding, p) < sharding.offset + Product(sharding.reshape)
  {
    PositionOfDeviceAt(sharding, p);
  }

  lemma DevicesDiffer(sharding: Sharding, p: nat, q: nat)
    requires IsIota(sharding) && p < Product(sharding.reshape) && q < Product(sharding.reshape)
    requires DeviceAt(sharding, p) == DeviceAt(sharding, q)
    ensures p == q
  {
    PositionOfDeviceAt(sharding, p);
    PositionOfDeviceAt(sharding, q);
  }

  lemma DeviceIsPlaced(sharding: Sharding, d: nat)
    requires IsIota(sharding) && sharding.offset <= d < sharding.offset + Product(sharding.reshape)
    ensures Placed(sharding, d)
  {
    DeviceAtPositionOf(sharding, d - sharding.offset);
  }

  lemma IotaIsBijection(sharding: Sharding)
    requires IsIota(sharding)
    ensures IsDeviceBijection(sharding)
  {
    var n := Product(sharding.reshape);
    forall p: nat | p < n ensures sharding.offset <= DeviceAt(sharding, p) < sharding.offset + n {
      DeviceInMesh(sharding, p);
    }
    forall d: nat | sharding.offset <= d < sharding.offset + n ensures Placed(sharding, d) {
      DeviceIsPlaced(sharding, d);
    }
    forall p: nat, q: nat | p < n && q < n && DeviceAt(sharding, p) == DeviceAt(sharding, q) ensures p == q {
      DevicesDiffer(sharding, p, q);
    }
  }

  // ---- the construction ----

  /** The sharding before an identity permutation is collapsed. */
  ghost function FullSharding(logical: seq<seq<nat>>, dims: seq<nat>, first: nat): (r: Sharding)
    requires AxesDisjoint(logical, |dims|)
    ensures r.Iota?
  {
    TileDimsCoverMesh(dims, logical);
    var groups := Groups(logical, |dims|);
    Iota(TileDims(dims, groups), dims, Flatten(groups), Unused(logical, |dims|) != [], first)
  }

  /** An identity order becomes one flat run of devices. */
  ghost function Collapse(full: Sharding, meshSize: nat): (r: Sharding)
    requires full.Iota?
    ensures r.Iota?
  {
    if full.permutation == Identity(|full.reshape|) then full.(reshape := [meshSize], permutation := [0]) else full
  }

  /** What the function returns for tiled values. */
  ghost function TiledSharding(logical: seq<seq<nat>>, dims: seq<nat>, first: nat): (r: Sharding)
    requires AxesDisjoint(logical, |dims|)
    ensures r.Iota?
  {
    Collapse(FullSharding(logical, dims, first), Product(dims))
  }

  /**
   * The last tile dimension is marked as replicas exactly when some mesh axis is assigned to no
   * dimension, which is exactly when the tiles have one dimension more than the value.
   */
  lemma ReplicatesIff(logical: seq<seq<nat>>, dims: seq<nat>, first: nat)
    requires AxesDisjoint(logical, |dims|)
    ensures var t := TiledSharding(logical, dims, first);
            && (t.replicateOnLast <==> exists a: nat :: a < |dims| && !Used(logical, a))
            && (t.replicateOnLast <==> |t.tiles| == |logical| + 1)
            && (!t.replicateOnLast <==> |t.tiles| == |logical|)
            && t.offset == first
  {
    var unused := Unused(logical, |dims|);
    if unused != [] {
      assert unused[0] in unused && !Used(logical, unused[0]);
    } else {
      forall a: nat | a < |dims| ensures Used(logical, a) {
        assert a !in unused;
      }
    }
  }

  lemma FullIsIota(logical: seq<seq<nat>>, dims: seq<nat>, first: nat)
    requires AxesDisjoint(logical, |dims|) && Positive(dims)
    ensures IsIota(FullSharding(logical, dims, first))
  {
    TileDimsCoverMesh(dims, logical);
  }

  lemma CollapseIsIota(full: Sharding, meshSize: nat)
    requires IsIota(full) && meshSize == Product(full.reshape)
    ensures IsIota(Collapse(full, meshSize)) && Collapse(full, meshSize).tiles == full.tiles
  {
    ProductPositive(full.reshape);
    SingleAxis();
    assert Product([meshSize]) == meshSize;
  }

  lemma TiledIsIota(logical: seq<seq<nat>>, dims: seq<nat>, first: nat)
    requires AxesDisjoint(logical, |dims|) && Positive(dims)
    ensures IsIota(TiledSharding(logical, dims, first))
  {
    FullIsIota(logical, dims, first);
    CollapseIsIota(FullSharding(logical, dims, first), Product(dims));
  }

  lemma SingleAxis()
    ensures IsPermutation([0], 1)
  {
    assert [0 as nat][0] == 0;
  }

  lemma GatherIdentity(values: seq<nat>)
    ensures IsPermutation(Identity(|values|), |values|)
    ensures Gather(values, Identity(|values|)) == values
  {
    var identity := Identity(|values|);
    forall a: nat ensures a in identity <==> a < |values| {
      assert a < |values| ==> identity[a] == a;
    }
  }

  /** Collapsing an identity permutation to one flat run of devices changes no assignment. */
  lemma CollapseIsHarmless(logical: seq<seq<nat>>, dims: seq<nat>, first: nat, position: nat)
    requires AxesDisjoint(logical, |dims|) && Positive(dims) && position < Product(dims)
    ensures IsIota(FullSharding(logical, dims, first)) && IsIota(TiledSharding(logical, dims, first))
    ensures FullSharding(logical, dims, first).tiles == TiledSharding(logical, dims, first).tiles
    ensures Product(TiledSharding(logical, dims, first).tiles) == Product(dims)
    ensures DeviceAt(FullSharding(logical, dims, first), position) == DeviceAt(TiledSharding(logical, dims, first), position)
  {
    var full := FullSharding(logical, dims, first);
    FullIsIota(logical, dims, first);
    CollapseIsIota(full, Product(dims));
    CollapsedDevice(full, Product(dims), position);
  }

  lemma CollapsedDevice(full: Sharding, meshSize: nat, position: nat)
    requires IsIota(full) && meshSize == Product(full.reshape) && position < meshSize
    requires IsIota(Collapse(full, meshSize))
    ensures DeviceAt(full, position) == DeviceAt(Collapse(full, meshSize), position)
  {
    assert [0 as nat] == Identity(1);
    SameFlatDevices(full, Collapse(full, meshSize), position);
  }

  lemma SameFlatDevices(a: Sharding, b: Sharding, position: nat)
    requires IsIota(a) && IsIota(b) && a.tiles == b.tiles && a.offset == b.offset && position < Product(a.tiles)
    requires a == b || (a.permutation == Identity(|a.reshape|) && b.permutation == Identity(|b.reshape|))
    ensures DeviceAt(a, position) == DeviceAt(b, position)
  {
    if a != b {
      DeviceAtIdentity(a, position);
      DeviceAtIdentity(b, position);
    }
  }

  lemma DeviceAtIdentity(sharding: Sharding, position: nat)
    requires IsIota(sharding) && position < Product(sharding.tiles)
    requires sharding.permutation == Identity(|sharding.reshape|)
    ensures DeviceAt(sharding, position) == sharding.offset + position
  {
    var dims := sharding.reshape;
    GatherIdentity(dims);
    EncodeDecode(position, dims);
    var index := Decode(position, dims);
    GatherIdentity(index);
    ScatterGather(index, Identity(|dims|));
  }

  /**
   * The position of a device, read as a tile coordinate, is the device's coordinate along the axes
   * assigned to each logical dimension, then along the replicated axes.
   */
  lemma DeviceOwnsItsTile(logical: seq<seq<nat>>, dims: seq<nat>, first: nat, device: nat)
    requires AxesDisjoint(logical, |dims|) && Positive(dims) && device < Product(dims)
    ensures IsIota(TiledSharding(logical, dims, first))
    ensures var tile := TileCoordinates(Decode(device, dims), dims, Groups(logical, |dims|));
            var sharding := TiledSharding(logical, dims, first);
            && InBox(tile, sharding.tiles)
            && Encode(tile, sharding.tiles) < Product(sharding.tiles)
            && DeviceAt(sharding, Encode(tile, sharding.tiles)) == first + device
  {
    var groups := Groups(logical, |dims|);
    var full := FullSharding(logical, dims, first);
    TileDimsCoverMesh(dims, logical);
    FullIsIota(logical, dims, first);
    EncodeDecode(device, dims);
    var index := Decode(device, dims);
    GroupedEncode(index, dims, groups);
    CoordinatesInBox(index, dims, groups);
    DeviceAtPositionOf(full, device);
    CollapseIsHarmless(logical, dims, first, PositionOf(full, device));
  }

  lemma TileDimsPositive(dims: seq<nat>, groups: seq<seq<nat>>)
    requires Positive(dims) && AxesBelow(Flatten(groups), |dims|)
    ensures Positive(TileDims(dims, groups))
  {
    forall k | 0 <= k < |groups| ensures Product(Gather(dims, groups[k])) > 0 {
      forall a | a in groups[k] ensures a < |dims| {
        FlattenMembers(groups, a);
      }
      GatherPositive(dims, groups[k]);
      ProductPositive(Gather(dims, groups[k]));
    }
  }

  ghost predicate Owns(logical: seq<seq<nat>>, dims: seq<nat>, device: nat, tile: seq<nat>)
    requires Positive(dims)
  {
    device < Product(dims) && TileCoordinates(Decode(device, dims), dims, Groups(logical, |dims|)) == tile
  }

  /** Every tile coordinate is owned by one device and no other. */
  lemma TileHasOneDevice(logical: seq<seq<nat>>, dims: seq<nat>, tile: seq<nat>) returns (device: nat)
    requires AxesDisjoint(logical, |dims|) && Positive(dims)
    requires InBox(tile, TileDims(dims, Groups(logical, |dims|)))
    ensures Owns(logical, dims, device, tile)
    ensures forall d: nat :: Owns(logical, dims, d, tile) ==> d == device
  {
    var groups := Groups(logical, |dims|);
    var tiles := TileDims(dims, groups);
    var sharding := TiledSharding(logical, dims, 0);
    TileDimsCoverMesh(dims, logical);
    TileDimsPositive(dims, groups);
    TiledIsIota(logical, dims, 0);
    IotaIsBijection(sharding);
    EncodeBound(tile, tiles);
    device := DeviceAt(sharding, Encode(tile, tiles));
    DeviceOwnsItsTile(logical, dims, 0, device);
    DecodeEncode(tile, tiles);
    DecodeEncode(TileCoordinates(Decode(device, dims), dims, groups), tiles);
    forall d: nat | Owns(logical, dims, d, tile) ensures d == device {
      DeviceOwnsItsTile(logical, dims, 0, d);
    }
  }

  /** No axis with more than one device is assigned to these dimensions. */
  ghost predicate FullyReplicated(logical: seq<seq<nat>>, dims: seq<nat>) {
    forall k :: 0 <= k < |logical| ==> SingleDevices(logical[k], dims)
  }

  ghost predicate SingleDevices(axes: seq<nat>, dims: seq<nat>) {
    forall a :: a in axes && a < |dims| ==> dims[a] <= 1
  }

  lemma {:induction false} ProductIsOne(values: seq<nat>)
    requires Positive(values)
    ensures Product(values) == 1 <==> forall k :: 0 <= k < |values| ==> values[k] == 1
  {
    if values != [] {
      ProductIsOne(values[1..]);
      ProductPositive(values[1..]);
      MulLe(2, values[0], Product(values[1..]));
      MulLe(1, values[0], Product(values[1..]));
      assert forall k :: 1 <= k < |values| ==> values[k] == values[1..][k - 1];
    }
  }

  /** Values are reported as replicated exactly when no logical dimension is cut. */
  lemma ReplicatedIffUntiled(logical: seq<seq<nat>>, dims: seq<nat>)
    requires AxesDisjoint(logical, |dims|) && Positive(dims)
    ensures FullyReplicated(logical, dims) <==>
            forall k :: 0 <= k < |logical| ==> TileDims(dims, Groups(logical, |dims|))[k] == 1
  {
    TileDimsCoverMesh(dims, logical);
    forall k | 0 <= k < |logical|
      ensures SingleDevices(logical[k], dims) <==> TileDims(dims, Groups(logical, |dims|))[k] == 1
    {
      SingleDevicesIff(logical[k], Sort(logical[k]), dims);
    }
  }

  lemma SingleDevicesIff(axes: seq<nat>, sorted: seq<nat>, dims: seq<nat>)
    requires Positive(dims) && AxesBelow(axes, |dims|) && forall a :: a in sorted <==> a in axes
    ensures SingleDevices(axes, dims) <==> Product(Gather(dims, sorted)) == 1
  {
    var g := Gather(dims, sorted);
    GatherPositive(dims, sorted);
    ProductIsOne(g);
    if Product(g) == 1 {
      forall a | a in axes ensures dims[a] <= 1 {
        assert a in sorted;
        assert g[IndexOf(sorted, a)] == 1;
      }
    }
  }

  lemma {:induction false} FlattenAppend(groups: seq<seq<nat>>, last: seq<nat>)
    ensures Flatten(groups + [last]) == Flatten(groups) + last
  {
    if groups == [] {
      assert groups + [last] == [last];
    } else {
      assert (groups + [last])[1..] == groups[1..] + [last];
      FlattenAppend(groups[1..], last);
    }
  }

  lemma SortEachPrefix(logical: seq<seq<nat>>, k: nat)
    requires k < |logical|
    ensures SortEach(logical[..k + 1]) == SortEach(logical[..k]) + [Sort(logical[k])]
  {
    assert logical[..k + 1] == logical[..k] + [logical[k]];
    ImageConcat(Sort, logical[..k], [logical[k]]);
    assert Image(Sort, [logical[k]]) == [Sort(logical[k])];
  }

  lemma ProductAppend(values: seq<nat>, last: nat)
    ensures Product(values + [last]) == Product(values) * last
  {
    ProductConcat(values, [last]);
    assert Product([last]) == last;
  }

  lemma GatherAppend(dims: seq<nat>, axes: seq<nat>, j: nat)
    requires j < |axes|
    ensures Product(Gather(dims, axes[..j + 1])) == Product(Gather(dims, axes[..j])) * At(dims, axes[j])
  {
    assert Gather(dims, axes[..j + 1]) == Gather(dims, axes[..j]) + [At(dims, axes[j])];
    ProductAppend(Gather(dims, axes[..j]), At(dims, axes[j]));
  }

  method MarkUsed(logical: seq<seq<nat>>, dims: seq<nat>) returns (used: seq<bool>, fullyReplicated: bool)
    requires AxesDisjoint(logical, |dims|)
    ensures |used| == |dims| && forall a: nat :: a < |dims| ==> (used[a] <==> Used(logical, a))
    ensures fullyReplicated <==> FullyReplicated(logical, dims)
  {
    used := seq(|dims|, i => false);
    fullyReplicated := true;
    for k := 0 to |logical|
      invariant |used| == |dims| && forall a: nat :: a < |dims| ==> (used[a] <==> Used(logical[..k], a))
      invariant fullyReplicated <==> FullyReplicated(logical[..k], dims)
    {
      var axes := logical[k];
      for j := 0 to |axes|
        invariant |used| == |dims|
        invariant forall a: nat :: a < |dims| ==> (used[a] <==> Used(logical[..k], a) || a in axes[..j])
        invariant fullyReplicated <==> FullyReplicated(logical[..k], dims) && SingleDevices(axes[..j], dims)
      {
        assert axes[j] in axes;
        assert axes[..j + 1] == axes[..j] + [axes[j]];
        used := used[axes[j] := true];
        if dims[axes[j]] > 1 {
          fullyReplicated := false;
        }
      }
      assert axes[..|axes|] == axes;
      UsedPrefix(logical, k, |dims|);
      assert logical[..k + 1] == logical[..k] + [axes];
    }
    assert logical[..|logical|] == logical;
  }

  lemma UsedPrefix(logical: seq<seq<nat>>, k: nat, n: nat)
    requires k < |logical|
    ensures forall a: nat :: a < n ==> (Used(logical[..k + 1], a) <==> Used(logical[..k], a) || a in logical[k])
  {
    forall a: nat | a < n ensures Used(logical[..k + 1], a) <==> Used(logical[..k], a) || a in logical[k] {
      if Used(logical[..k], a) {
        var i :| 0 <= i < k && a in logical[..k][i];
        assert a in logical[..k + 1][i];
      }
      assert logical[..k + 1][k] == logical[k];
    }
  }

  method CollectReplicated(used: seq<bool>, dims: seq<nat>, ghost logical: seq<seq<nat>>)
    returns (replicated: seq<nat>, replicationSize: nat, meshSize: nat)
    requires |used| == |dims| && forall a: nat :: a < |dims| ==> (used[a] <==> Used(logical, a))
    ensures replicated == Unused(logical, |dims|)
    ensures replicationSize == Product(Gather(dims, replicated)) && meshSize == Product(dims)
  {
    replicated, replicationSize, meshSize := [], 1, 1;
    for dim := 0 to |dims|
      invariant replicated == Unused(logical, dim)
      invariant replicationSize == Product(Gather(dims, replicated)) && meshSize == Product(dims[..dim])
    {
      if !used[dim] {
        assert Gather(dims, replicated + [dim]) == Gather(dims, replicated) + [dims[dim]];
        ProductAppend(Gather(dims, replicated), dims[dim]);
        replicated := replicated + [dim];
        replicationSize := replicationSize * dims[dim];
      }
      assert dims[..dim + 1] == dims[..dim] + [dims[dim]];
      ProductAppend(dims[..dim], dims[dim]);
      meshSize := meshSize * dims[dim];
    }
    assert dims[..|dims|] == dims;
  }

  /** `tiles` holds the shard counts of the first dimensions. */
  ghost predicate ShardCounts(tiles: seq<nat>, logical: seq<seq<nat>>, dims: seq<nat>) {
    |tiles| <= |logical| && forall k :: 0 <= k < |tiles| ==> IsShardCount(tiles[k], logical[k], dims)
  }

  ghost predicate IsShardCount(tile: nat, axes: seq<nat>, dims: seq<nat>) {
    tile == Product(Gather(dims, Sort(axes)))
  }

  lemma ShardCountsStep(tiles: seq<nat>, tile: nat, logical: seq<seq<nat>>, dims: seq<nat>)
    requires ShardCounts(tiles, logical, dims) && |tiles| < |logical|
    requires IsShardCount(tile, logical[|tiles|], dims)
    ensures ShardCounts(tiles + [tile], logical, dims)
  {
    forall k | 0 <= k < |tiles| + 1 ensures IsShardCount((tiles + [tile])[k], logical[k], dims) {
      assert k < |tiles| ==> IsShardCount(tiles[k], logical[k], dims);
    }
  }

  lemma FlattenGroups(logical: seq<seq<nat>>, n: nat)
    ensures Flatten(Groups(logical, n)) == Flatten(SortEach(logical)) + Unused(logical, n)
  {
    FlattenAppend(SortEach(logical), Unused(logical, n));
    if Unused(logical, n) == [] {
      assert Groups(logical, n) == SortEach(logical);
    }
  }

  /** The shard count along the first `j` axes. */
  ghost function CountTo(dims: seq<nat>, axes: seq<nat>, j: nat): nat
    requires j <= |axes|
  {
    Product(Gather(dims, axes[..j]))
  }

  lemma CountStep(dims: seq<nat>, axes: seq<nat>, j: nat)
    requires j < |axes| && AxesBelow(axes, |dims|)
    ensures axes[j] < |dims| && CountTo(dims, axes, j + 1) == CountTo(dims, axes, j) * dims[axes[j]]
  {
    assert axes[j] in axes;
    GatherAppend(dims, axes, j);
  }

  lemma CountEnds(dims: seq<nat>, axes: seq<nat>)
    ensures CountTo(dims, axes, 0) == 1 && CountTo(dims, axes, |axes|) == Product(Gather(dims, axes))
  {
    assert axes[..0] == [] && axes[..|axes|] == axes;
  }

  method AssignTile(axes: seq<nat>, dims: seq<nat>, before: seq<nat>) returns (tile: nat, permutation: seq<nat>)
    requires AxesBelow(axes, |dims|)
    ensures tile == Product(Gather(dims, axes)) && permutation == before + axes
  {
    tile, permutation := 1, before;
    CountEnds(dims, axes);
    for j := 0 to |axes|
      invariant tile == CountTo(dims, axes, j) && permutation == before + axes[..j]
    {
      CountStep(dims, axes, j);
      tile := tile * dims[axes[j]];
      permutation := permutation + [axes[j]];
    }
  }

  method AssignTiles(logical: seq<seq<nat>>, dims: seq<nat>) returns (tiles: seq<nat>, permutation: seq<nat>)
    requires AxesDisjoint(logical, |dims|)
    ensures |tiles| == |logical| && ShardCounts(tiles, logical, dims)
    ensures permutation == Flatten(SortEach(logical))
  {
    tiles, permutation := [], [];
    for k := 0 to |logical|
      invariant |tiles| == k && ShardCounts(tiles, logical, dims)
      invariant permutation == Flatten(SortEach(logical[..k]))
    {
      var tile;
      tile, permutation := AssignTile(Sort(logical[k]), dims, permutation);
      SortEachPrefix(logical, k);
      FlattenAppend(SortEach(logical[..k]), Sort(logical[k]));
      ShardCountsStep(tiles, tile, logical, dims);
      tiles := tiles + [tile];
    }
    assert logical[..|logical|] == logical;
  }

  method AppendUnused(used: seq<bool>, before: seq<nat>, ghost logical: seq<seq<nat>>) returns (permutation: seq<nat>)
    requires forall a: nat :: a < |used| ==> (used[a] <==> Used(logical, a))
    ensures permutation == before + Unused(logical, |used|)
  {
    permutation := before;
    for dim := 0 to |used|
      invariant permutation == before + Unused(logical, dim)
    {
      if !used[dim] {
        permutation := permutation + [dim];
      }
    }
  }

  method NeedsPermutation(permutation: seq<nat>) returns (needed: bool)
    ensures needed <==> permutation != Identity(|permutation|)
  {
    needed := false;
    for index := 0 to |permutation|
      invariant forall i :: 0 <= i < index ==> permutation[i] == i
    {
      if index != permutation[index] {
        assert Identity(|permutation|)[index] == index;
        return true;
      }
    }
  }

  method LogicalToPhysicalSharding(logical: seq<seq<nat>>, first: nat, dims: seq<nat>, listAllDevices: bool)
    returns (sharding: Sharding)
    requires AxesDisjoint(logical, |dims|)
    ensures sharding ==
            if logical == [] || (FullyReplicated(logical, dims) && !listAllDevices) then Replicated
            else TiledSharding(logical, dims, first)
  {
    var used, fullyReplicated := MarkUsed(logical, dims);
    if logical == [] || (fullyReplicated && !listAllDevices) {
      return Replicated;
    }
    sharding := TileMesh(used, logical, first, dims);
  }

  /** The tiled case: count shards, order the axes, and collapse the order when it is the identity. */
  method TileMesh(used: seq<bool>, logical: seq<seq<nat>>, first: nat, dims: seq<nat>) returns (sharding: Sharding)
    requires AxesDisjoint(logical, |dims|)
    requires |used| == |dims| && forall a: nat :: a < |dims| ==> (used[a] <==> Used(logical, a))
    ensures sharding == TiledSharding(logical, dims, first)
  {
    var replicated, replicationSize, meshSize := CollectReplicated(used, dims, logical);
    var counts, permutation := AssignTiles(logical, dims);
    permutation := AppendUnused(used, permutation, logical);
    var replicas := if replicated == [] then [] else [replicationSize];
    TiledShardingIs(logical, dims, first, counts, permutation);
    var needPermutation := NeedsPermutation(permutation);
    sharding := Assemble(counts + replicas, dims, meshSize, permutation, needPermutation, replicated != [], first);
  }

  /** The replicas, as the size of one more tile dimension. */
  ghost function ReplicaTile(logical: seq<seq<nat>>, dims: seq<nat>): seq<nat> {
    if Unused(logical, |dims|) == [] then [] else [Product(Gather(dims, Unused(logical, |dims|)))]
  }

  /** A device order that is the identity needs neither reshape nor transpose. */
  function Assemble(tiles: seq<nat>, dims: seq<nat>, meshSize: nat, permutation: seq<nat>, needPermutation: bool, replicate: bool, first: nat): Sharding {
    if needPermutation then Iota(tiles, dims, permutation, replicate, first) else Iota(tiles, [meshSize], [0], replicate, first)
  }

  /** The pieces that the loops compute are those of the tiled sharding. */
  lemma TiledShardingIs(logical: seq<seq<nat>>, dims: seq<nat>, first: nat, counts: seq<nat>, permutation: seq<nat>)
    requires AxesDisjoint(logical, |dims|)
    requires |counts| == |logical| && ShardCounts(counts, logical, dims)
    requires permutation == Flatten(SortEach(logical)) + Unused(logical, |dims|)
    ensures TiledSharding(logical, dims, first) ==
            Assemble(counts + ReplicaTile(logical, dims), dims, Product(dims), permutation, permutation != Identity(|permutation|),
                     Unused(logical, |dims|) != [], first)
  {
    FlattenGroups(logical, |dims|);
    PermutationOfAxes(logical, |dims|);
    TilesAreTileDims(logical, dims, counts);
  }

  lemma TilesAreTileDims(logical: seq<seq<nat>>, dims: seq<nat>, tiles: seq<nat>)
    requires |tiles| == |logical| && ShardCounts(tiles, logical, dims)
    ensures TileDims(dims, Groups(logical, |dims|)) == tiles + ReplicaTile(logical, dims)
  {
    var all := tiles + ReplicaTile(logical, dims);
    var groups := Groups(logical, |dims|);
    forall k | 0 <= k < |all| ensures all[k] == GroupProduct(dims, groups, k) {
      GroupAt(logical, |dims|, k);
      TileAt(logical, dims, tiles, k, groups[k]);
    }
    TileDimsAre(dims, groups, all);
  }

  ghost function GroupProduct(dims: seq<nat>, groups: seq<seq<nat>>, k: nat): nat
    requires k < |groups|
  {
    Product(Gather(dims, groups[k]))
  }

  lemma TileAt(logical: seq<seq<nat>>, dims: seq<nat>, tiles: seq<nat>, k: nat, group: seq<nat>)
    requires |tiles| == |logical| && ShardCounts(tiles, logical, dims) && k < |tiles + ReplicaTile(logical, dims)|
    requires group == if k < |logical| then Sort(logical[k]) else Unused(logical, |dims|)
    ensures (tiles + ReplicaTile(logical, dims))[k] == Product(Gather(dims, group))
  {
    if k < |tiles| {
      assert IsShardCount(tiles[k], logical[k], dims);
    } else {
      assert ReplicaTile(logical, dims) == [Product(Gather(dims, group))];
    }
  }

  lemma GroupAt(logical: seq<seq<nat>>, n: nat, k: nat)
    requires k < |Groups(logical, n)|
    ensures Groups(logical, n)[k] == if k < |logical| then Sort(logical[k]) else Unused(logical, n)
  {
  }

  lemma TileDimsAre(dims: seq<nat>, groups: seq<seq<nat>>, tiles: seq<nat>)
    requires |tiles| == |groups| && forall k :: 0 <= k < |tiles| ==> tiles[k] == GroupProduct(dims, groups, k)
    ensures TileDims(dims, groups) == tiles
  {
    forall k | 0 <= k < |tiles| ensures TileDims(dims, groups)[k] == tiles[k] {
      assert tiles[k] == GroupProduct(dims, groups, k);
    }
  }
}
