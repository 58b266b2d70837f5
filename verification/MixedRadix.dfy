/** Row-major positions of multi-dimensional indices. */
module MixedRadix {
  import opened Arithmetic
  import opened Sequences

  function Product(dims: seq<nat>): nat {
    if dims == [] then 1 else dims[0] * Product(dims[1..])
  }

  ghost predicate Positive(dims: seq<nat>) {
    forall k :: 0 <= k < |dims| ==> dims[k] > 0
  }

  /** A multi-index inside the box `dims`. */
  ghost predicate InBox(index: seq<nat>, dims: seq<nat>) {
    |index| == |dims| && forall k :: 0 <= k < |dims| ==> index[k] < dims[k]
  }

  function Encode(index: seq<nat>, dims: seq<nat>): nat
    requires |index| == |dims|
  {
    if dims == [] then 0 else index[0] * Product(dims[1..]) + Encode(index[1..], dims[1..])
  }

  lemma {:induction false} ProductPositive(dims: seq<nat>)
    requires Positive(dims)
    ensures Product(dims) > 0
  {
    if dims != [] {
      ProductPositive(dims[1..]);
      MulLe(1, dims[0], Product(dims[1..]));
    }
  }

  function Decode(position: nat, dims: seq<nat>): (index: seq<nat>)
    requires Positive(dims)
    ensures |index| == |dims|
  {
    if dims == [] then []
    else
      ProductPositive(dims[1..]);
      [position / Product(dims[1..])] + Decode(position % Product(dims[1..]), dims[1..])
  }

  lemma {:induction false} EncodeBound(index: seq<nat>, dims: seq<nat>)
    requires InBox(index, dims)
    ensures Encode(index, dims) < Product(dims)
  {
    if dims != [] {
      EncodeBound(index[1..], dims[1..]);
      MulLe(index[0] + 1, dims[0], Product(dims[1..]));
      MulDistributes(index[0], 1, Product(dims[1..]));
    }
  }

  /** Decoding inverts encoding on the whole box. */
  lemma {:induction false} DecodeEncode(index: seq<nat>, dims: seq<nat>)
    requires Positive(dims) && InBox(index, dims)
    ensures Decode(Encode(index, dims), dims) == index
  {
    if dims != [] {
      EncodeBound(index[1..], dims[1..]);
      DivModUnique(index[0], Encode(index[1..], dims[1..]), Product(dims[1..]));
      DecodeEncode(index[1..], dims[1..]);
    }
  }

  /** Encoding inverts decoding, and decoding stays inside the box. */
  lemma {:induction false} EncodeDecode(position: nat, dims: seq<nat>)
    requires Positive(dims) && position < Product(dims)
    ensures Encode(Decode(position, dims), dims) == position && InBox(Decode(position, dims), dims)
  {
    if dims != [] {
      ProductPositive(dims[1..]);
      DivMod(position, Product(dims[1..]));
      MulLe(dims[0], position / Product(dims[1..]), Product(dims[1..]));
      EncodeDecode(position % Product(dims[1..]), dims[1..]);
    }
  }

  lemma {:induction false} ProductConcat(a: seq<nat>, b: seq<nat>)
    ensures Product(a + b) == Product(a) * Product(b)
  {
    if a == [] {
      assert a + b == b;
    } else {
      assert (a + b)[1..] == a[1..] + b;
      ProductConcat(a[1..], b);
      MulAssociates(a[0], Product(a[1..]), Product(b));
    }
  }

  lemma MulAssociates(a: int, b: int, c: int)
    ensures a * (b * c) == (a * b) * c
  {
  }

  /** Grouping adjacent dimensions groups the index. */
  lemma {:induction false} EncodeConcat(x: seq<nat>, a: seq<nat>, y: seq<nat>, b: seq<nat>)
    requires |x| == |a| && |y| == |b|
    ensures Encode(x + y, a + b) == Encode(x, a) * Product(b) + Encode(y, b)
  {
    if a == [] {
      assert x + y == y && a + b == b;
    } else {
      assert (x + y)[1..] == x[1..] + y && (a + b)[1..] == a[1..] + b;
      EncodeConcat(x[1..], a[1..], y, b);
      ProductConcat(a[1..], b);
      MulAssociates(x[0], Product(a[1..]), Product(b));
      MulDistributes(x[0] * Product(a[1..]), Encode(x[1..], a[1..]), Product(b));
    }
  }

  // ---- the two loops ----

  method ComputeIndexSet(globalIndex: nat, dims: seq<nat>) returns (indices: seq<nat>)
    requires Positive(dims)
    ensures indices == Decode(globalIndex, dims)
  {
    var remainder := globalIndex;
    var dimStride := 1;
    for dim := 0 to |dims|
      invariant dimStride == Product(dims[..dim])
    {
      assert dims[..dim + 1] == dims[..dim] + [dims[dim]];
      ProductConcat(dims[..dim], [dims[dim]]);
      assert Product([dims[dim]]) == dims[dim];
      dimStride := dimStride * dims[dim];
    }
    assert dims[..|dims|] == dims && dims[0..] == dims;
    indices := [];
    for dim := 0 to |dims|
      invariant dimStride == Product(dims[dim..]) && |indices| == dim
      invariant indices + Decode(remainder, dims[dim..]) == Decode(globalIndex, dims)
    {
      var rest := dims[dim + 1..];
      assert dims[dim..][1..] == rest;
      ProductPositive(rest);
      MulCancels(dims[dim], Product(rest));
      dimStride := dimStride / dims[dim];
      DivMod(remainder, dimStride);
      var index := remainder / dimStride;
      assert Decode(remainder, dims[dim..]) == [index] + Decode(remainder % dimStride, rest);
      assert indices + ([index] + Decode(remainder % dimStride, rest)) == (indices + [index]) + Decode(remainder % dimStride, rest);
      indices := indices + [index];
      remainder := remainder - index * dimStride;
    }
  }

  lemma MulCancels(a: nat, b: nat)
    requires a > 0
    ensures (a * b) / a == b
  {
    DivModUnique(b, 0, a);
  }

  method ComputeGlobalIndex(indices: seq<nat>, dims: seq<nat>) returns (index: nat)
    requires |indices| <= |dims|
    ensures index == Encode(indices, dims[..|indices|])
  {
    var stride: nat := 1;
    index := 0;
    var dim := |indices|;
    var used := dims[..|indices|];
    while dim > 0
      invariant 0 <= dim <= |indices|
      invariant stride == Product(used[dim..]) && index == Encode(indices[dim..], used[dim..])
    {
      dim := dim - 1;
      assert used[dim..][1..] == used[dim + 1..] && indices[dim..][1..] == indices[dim + 1..];
      index := index + stride * indices[dim];
      stride := stride * dims[dim];
    }
    assert indices[0..] == indices && used[0..] == used;
  }
}
