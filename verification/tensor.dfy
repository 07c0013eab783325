/**
 * The multidimensional arrays of `src/core/tensor.rs`. A `Shape` lists the
 * dimensions, the first varying fastest; a `Tensor` holds one element per
 * coordinate tuple, at the tuple's mixed-radix number (see `Radix`). Tensors
 * are values: the elementwise operations and the first-dimension folds build
 * new ones. The coordinate enumeration of `create` and the index
 * enumeration of `polymer` (the `StrideIter` odometer) are loops over
 * mutable state.
 */
module Tensors {
  import opened Arith
  import opened BitSpec
  import opened Radix
  import opened Wrappers
  import BoolLogic
  import GenericVector

  /** `usize::MAX` on a 64-bit target. */
  const USIZE_MAX: nat := 0xffff_ffff_ffff_ffff

  /** The shape of a tensor. */
  datatype Shape = Shape(dims: seq<nat>)
  {
    /** `is_rectangular`: every dimension is `dim`, and then there are `dim^rank` elements. */
    function IsRectangular(dim: nat): (r: bool)
      ensures r <==> forall i :: 0 <= i < |dims| ==> dims[i] == dim
      ensures r ==> Volume(dims) == Pow(dim, |dims|)
    {
      var all := forall i :: 0 <= i < |dims| ==> dims[i] == dim;
      if all then
        ProdUniform(dims, dim, |dims|);
        true
      else
        false
    }

    /** `split1`: the rank must be at least 1; the head dimension and the rest. */
    function Split1(): (r: (nat, Shape))
      requires |dims| >= 1
      ensures [r.0] + r.1.dims == dims
      ensures Volume(dims) == r.0 * Volume(r.1.dims)
    {
      assert [dims[0]] + dims[1..] == dims;
      ProdCons(dims[0], dims[1..], |dims| - 1);
      (dims[0], Shape(dims[1..]))
    }

    /** `split2` with the guard it means: the rank must be at least 2. */
    function Split2(): (r: (nat, nat, Shape))
      requires |dims| >= 2
      ensures [r.0, r.1] + r.2.dims == dims
      ensures Volume(dims) == r.0 * r.1 * Volume(r.2.dims)
    {
      assert [dims[0], dims[1]] + dims[2..] == dims;
      VolumeAppend([dims[0], dims[1]], dims[2..]);
      assert Prod([dims[0], dims[1]], 1) == dims[0];
      (dims[0], dims[1], Shape(dims[2..]))
    }

    /** `join`: the prefix dimensions go in front; the volumes multiply. */
    function Join(prefix: seq<nat>): (r: Shape)
      ensures r.dims == prefix + dims
      ensures Volume(r.dims) == Volume(prefix) * Volume(dims)
    {
      VolumeAppend(prefix, dims);
      Shape(prefix + dims)
    }

    /** `size`: the running product of the dimensions. */
    method Size() returns (size: nat)
      ensures size == Volume(dims)
      ensures size == 0 <==> exists i :: 0 <= i < |dims| && dims[i] == 0
    {
      size := 1;
      for k := 0 to |dims|
        invariant size == Prod(dims, k)
      {
        size := size * dims[k];
      }
      ProdZero(dims, |dims|);
    }

    /**
     * `index`: asserts one coordinate per dimension, each below it; the sum
     * of each coordinate times the product of the dimensions before it.
     */
    method Index(coords: seq<nat>) returns (index: nat)
      requires ValidCoords(dims, coords)
      ensures index == Linear(dims, coords) && index < Volume(dims)
      ensures Unrank(dims, index) == coords
    {
      index := 0;
      var size := 1;
      for k := 0 to |dims|
        invariant index == Dot(coords, PlaceValues(dims), k) && size == Prod(dims, k)
      {
        index := index + coords[k] * size;
        size := size * dims[k];
      }
      LinearBound(dims, coords);
      UnrankLinear(dims, coords);
    }

    /** `strides`: the products of the dimensions before each one. */
    method Strides() returns (strides: seq<nat>)
      ensures |strides| == |dims|
      ensures forall i :: 0 <= i < |dims| ==> strides[i] == Prod(dims, i)
    {
      strides := [];
      var size := 1;
      for k := 0 to |dims|
        invariant |strides| == k && size == Prod(dims, k)
        invariant forall i :: 0 <= i < k ==> strides[i] == Prod(dims, i)
      {
        strides := strides + [size];
        size := size * dims[k];
      }
    }
  }

  /**
   * The guard of `split2` as written, `!self.dims.len() >= 2`: the bitwise
   * complement of the 64-bit rank compared with 2, which holds for every
   * rank up to `usize::MAX - 2`.
   */
  function Split2GuardAsWritten(rank: nat): (r: bool)
    requires rank <= USIZE_MAX
    ensures r <==> rank <= USIZE_MAX - 2
  {
    USIZE_MAX - rank >= 2
  }

  /** The guard as written lets ranks 0 and 1 through, although `split2` then reads `dims[0]` and `dims[1]`. */
  lemma Split2GuardAcceptsLowRanks()
    ensures Split2GuardAsWritten(0) && Split2GuardAsWritten(1)
  {
  }

  // ----- the index enumeration behind `polymer` -----

  /**
   * `StrideIter`: an odometer over the coordinates of a shape, first
   * coordinate fastest, that also keeps the sum of each coordinate times a
   * per-dimension stride. It yields that sum once for every coordinate
   * tuple, in linear order; it starts out done when some dimension is 0.
   */
  class StrideIter {
    const dims: seq<nat>
    var coords: seq<nat>
    var strides: seq<nat>
    var index: nat
    var done: bool
    /** The number of items yielded so far. */
    ghost var count: nat

    ghost predicate Valid()
      reads this
    {
      |coords| == |dims| && |strides| == |dims| &&
      index == Dot(coords, strides, |dims|) &&
      (done ==> count == Volume(dims)) &&
      (!done ==> ValidCoords(dims, coords) && Linear(dims, coords) == count && count < Volume(dims))
    }

    /** `new`: every coordinate and stride 0; done iff some dimension is 0. */
    constructor (dims: seq<nat>)
      ensures Valid() && this.dims == dims && count == 0
      ensures coords == Zeros(|dims|) && strides == Zeros(|dims|) && index == 0
      ensures done <==> Volume(dims) == 0
    {
      var zero := false;
      for k := 0 to |dims|
        invariant zero <==> exists i :: 0 <= i < k && dims[i] == 0
      {
        zero := zero || dims[k] == 0;
      }
      this.dims := dims;
      coords := Zeros(|dims|);
      strides := Zeros(|dims|);
      index := 0;
      done := zero;
      count := 0;
      new;
      ProdZero(dims, |dims|);
      DotZeros(strides, |dims|, |dims|);
      DotZeros(PlaceValues(dims), |dims|, |dims|);
    }

    /** `add_stride`: before iterating, adds `stride` to the stride of dimension `idx`. */
    method AddStride(idx: nat, stride: nat)
      requires Valid() && idx < |dims| && coords == Zeros(|dims|)
      modifies this
      ensures Valid() && strides == old(strides)[idx := old(strides)[idx] + stride]
      ensures coords == old(coords) && index == old(index) && done == old(done) && count == old(count)
    {
      DotZeros(strides, |dims|, |dims|);
      strides := strides[idx := strides[idx] + stride];
      DotZeros(strides, |dims|, |dims|);
    }

    /**
     * `next`: unless done, yields the current sum and advances the odometer:
     * each coordinate that reaches its dimension wraps to 0 and carries into
     * the next; a carry out of the last one ends the iteration.
     */
    method Next() returns (r: Option<nat>)
      requires Valid()
      modifies this
      ensures Valid() && strides == old(strides)
      ensures old(done) ==> r == None && done && count == old(count)
      ensures !old(done) ==> r == Some(Dot(Unrank(dims, old(count)), strides, |dims|)) && count == old(count) + 1
    {
      if done {
        return None;
      }
      UnrankLinear(dims, coords);
      r := Some(index);
      var wrapped;
      coords, index, wrapped := Carry(dims, strides, coords, index);
      if wrapped {
        DotZeros(PlaceValues(dims), |dims|, |dims|);
        done := true;
      }
      count := count + 1;
    }
  }

  /**
   * The carry loop of `StrideIter::next`: the coordinates advance to the
   * next tuple in linear order and `index` follows by adding the stride of
   * each coordinate raised and subtracting those of each coordinate wrapped
   * to 0. `wrapped` tells that the last tuple wrapped round to zeros.
   */
  method Carry(dims: seq<nat>, strides: seq<nat>, coords: seq<nat>, index: nat)
      returns (next: seq<nat>, next_index: nat, wrapped: bool)
    requires ValidCoords(dims, coords) && |strides| == |dims| && index == Dot(coords, strides, |dims|)
    ensures |next| == |dims| && next_index == Dot(next, strides, |dims|)
    ensures wrapped ==> next == Zeros(|dims|) && Linear(dims, coords) + 1 == Volume(dims)
    ensures !wrapped ==> ValidCoords(dims, next) && Linear(dims, next) == Linear(dims, coords) + 1 && Linear(dims, next) < Volume(dims)
  {
    next, next_index, wrapped := coords, index, true;
    var i := 0;
    while i < |dims|
      invariant CarryInv(dims, strides, coords, i, next, next_index)
    {
      if next[i] + 1 >= dims[i] {
        CarryOver(dims, strides, coords, i, next, next_index);
      } else {
        CarryStop(dims, strides, coords, i, next, next_index);
      }
      next_index := next_index + strides[i];
      next := next[i := next[i] + 1];
      if next[i] >= dims[i] {
        next_index := next_index - next[i] * strides[i];
        next := next[i := 0];
      } else {
        wrapped := false;
        return;
      }
      i := i + 1;
    }
    CarryEnd(dims, strides, coords, next, next_index);
  }

  /** The carry loop before coordinate `i`: the coordinates below `i` wrapped to 0, the rest are unchanged. */
  ghost predicate CarryInv(dims: seq<nat>, strides: seq<nat>, coords: seq<nat>, i: nat, next: seq<nat>, nextIndex: nat)
    requires ValidCoords(dims, coords) && |strides| == |dims|
  {
    i <= |dims| && |next| == |dims| &&
    (forall j :: 0 <= j < i ==> next[j] == 0 && coords[j] + 1 == dims[j]) &&
    (forall j :: i <= j < |dims| ==> next[j] == coords[j]) &&
    nextIndex == Dot(next, strides, |dims|) &&
    Linear(dims, next) + Prod(dims, i) == Linear(dims, coords) + 1
  }

  /** Coordinate `i` reaches its radix: it wraps to 0 and the carry moves on. */
  lemma CarryOver(dims: seq<nat>, strides: seq<nat>, coords: seq<nat>, i: nat, next: seq<nat>, nextIndex: nat)
    requires ValidCoords(dims, coords) && |strides| == |dims|
    requires CarryInv(dims, strides, coords, i, next, nextIndex) && i < |dims| && next[i] + 1 >= dims[i]
    ensures var b := next[i := next[i] + 1];
      nextIndex + strides[i] >= b[i] * strides[i] &&
      CarryInv(dims, strides, coords, i + 1, b[i := 0], nextIndex + strides[i] - b[i] * strides[i])
  {
    var b := next[i := next[i] + 1];
    DotBump(next, strides, |dims|, i);
    DotBump(next, PlaceValues(dims), |dims|, i);
    DotClear(b, strides, |dims|, i);
    CarryStep(dims, b, i);
    assert b[i := 0] == next[i := 0];
  }

  /** Coordinate `i` stays below its radix: the tuple is the next one. */
  lemma CarryStop(dims: seq<nat>, strides: seq<nat>, coords: seq<nat>, i: nat, next: seq<nat>, nextIndex: nat)
    requires ValidCoords(dims, coords) && |strides| == |dims|
    requires CarryInv(dims, strides, coords, i, next, nextIndex) && i < |dims| && next[i] + 1 < dims[i]
    ensures var b := next[i := next[i] + 1];
      |b| == |dims| && nextIndex + strides[i] == Dot(b, strides, |dims|) &&
      ValidCoords(dims, b) && Linear(dims, b) == Linear(dims, coords) + 1 && Linear(dims, b) < Volume(dims)
  {
    var b := next[i := next[i] + 1];
    DotBump(next, strides, |dims|, i);
    DotBump(next, PlaceValues(dims), |dims|, i);
    LinearBound(dims, b);
  }

  /** Every coordinate wrapped: the tuple was the last one and the next is all zeros. */
  lemma CarryEnd(dims: seq<nat>, strides: seq<nat>, coords: seq<nat>, next: seq<nat>, nextIndex: nat)
    requires ValidCoords(dims, coords) && |strides| == |dims|
    requires CarryInv(dims, strides, coords, |dims|, next, nextIndex)
    ensures next == Zeros(|dims|) && Linear(dims, coords) + 1 == Volume(dims)
  {
    assert next == Zeros(|dims|);
    DotZeros(PlaceValues(dims), |dims|, |dims|);
  }

  // ----- tensors -----

  /** A tensor: a shape and its elements in linear order. */
  datatype Tensor<T> = Tensor(shape: Shape, elems: seq<T>)
  {
    /** The size check of `Tensor::new`: one element per coordinate tuple. */
    predicate Wf()
    {
      |elems| == Volume(shape.dims)
    }

    /** The element at a coordinate tuple. */
    function At(coords: seq<nat>): T
      requires Wf() && ValidCoords(shape.dims, coords)
    {
      LinearBound(shape.dims, coords);
      elems[Linear(shape.dims, coords)]
    }

    /** `very_slow_get`: the element at the index of the coordinates. */
    method VerySlowGet(coords: seq<nat>) returns (e: T)
      requires Wf() && ValidCoords(shape.dims, coords)
      ensures e == At(coords)
    {
      var i := shape.Index(coords);
      e := elems[i];
    }

    /** `very_slow_set`: the element at `coords` becomes `e`; every other element stays. */
    method VerySlowSet(coords: seq<nat>, e: T) returns (r: Tensor<T>)
      requires Wf() && ValidCoords(shape.dims, coords)
      ensures r.Wf() && r.shape == shape && r.At(coords) == e
      ensures forall c :: ValidCoords(shape.dims, c) && c != coords ==> r.At(c) == At(c)
    {
      var i := shape.Index(coords);
      r := Tensor(shape, elems[i := e]);
      forall c | ValidCoords(shape.dims, c) && c != coords
        ensures r.At(c) == At(c)
      {
        LinearBound(shape.dims, c);
        if Linear(shape.dims, c) == i {
          LinearInjective(shape.dims, c, coords);
        }
      }
    }

    /** `scalar`: the only element of a tensor of shape `[]`. */
    function Scalar(): (e: T)
      requires shape.dims == [] && |elems| == 1
      ensures Wf() && e == At([])
    {
      elems[0]
    }
  }

  /** The element for the coordinates of `c` that the mapping picks: `x[k] = c[mapping[k]]`. */
  function Gather(c: seq<nat>, mapping: seq<nat>): (r: seq<nat>)
    requires forall k :: 0 <= k < |mapping| ==> mapping[k] < |c|
    ensures |r| == |mapping| && forall k :: 0 <= k < |mapping| ==> r[k] == c[mapping[k]]
  {
    seq(|mapping|, k requires 0 <= k < |mapping| => c[mapping[k]])
  }

  /** The strides after `add_stride(mapping[k], w[k])` for `k < n`: weight `j` sums the `w[k]` with `mapping[k] == j`. */
  function MappedStrides(rank: nat, mapping: seq<nat>, w: seq<nat>, n: nat): (r: seq<nat>)
    requires n <= |mapping| && n <= |w| && forall k :: 0 <= k < |mapping| ==> mapping[k] < rank
    ensures |r| == rank
  {
    if n == 0 then
      Zeros(rank)
    else
      var a := MappedStrides(rank, mapping, w, n - 1);
      a[mapping[n - 1] := a[mapping[n - 1]] + w[n - 1]]
  }

  /** Summing with the mapped strides is summing the picked coordinates with the original ones. */
  lemma {:induction false} MappedStridesDot(y: seq<nat>, mapping: seq<nat>, w: seq<nat>, n: nat)
    requires n <= |mapping| && n <= |w| && forall k :: 0 <= k < |mapping| ==> mapping[k] < |y|
    ensures Dot(y, MappedStrides(|y|, mapping, w, n), |y|) == Dot(Gather(y, mapping), w, n)
  {
    if n > 0 {
      MappedStridesDot(y, mapping, w, n - 1);
      var a := MappedStrides(|y|, mapping, w, n - 1);
      var j := mapping[n - 1];
      assert MappedStrides(|y|, mapping, w, n) == a[j := a[j] + w[n - 1]];
      DotAddWeight(y, a, |y|, j, w[n - 1]);
      assert Gather(y, mapping)[n - 1] == y[j];
    } else {
      DotZeroWeights(y, |y|, |y|);
    }
  }

  /**
   * `create`: `op` is applied to every coordinate tuple in linear order,
   * the tuple advancing like an odometer between calls; so the element at
   * each tuple is `op` of that tuple.
   */
  method Create<T>(shape: Shape, op: seq<nat> -> T) returns (t: Tensor<T>)
    ensures t.shape == shape && t.Wf()
    ensures forall c :: ValidCoords(shape.dims, c) ==> t.At(c) == op(c)
  {
    var dims := shape.dims;
    var coords := Zeros(|dims|);
    var size := shape.Size();
    var elems: seq<T> := [];
    if size > 0 {
      ProdZero(dims, |dims|);
      DotZeros(PlaceValues(dims), |dims|, |dims|);
    }
    for k := 0 to size
      invariant |elems| == k && |coords| == |dims|
      invariant k < size ==> ValidCoords(dims, coords) && Linear(dims, coords) == k
      invariant forall p :: 0 <= p < k ==> elems[p] == op(Unrank(dims, p))
    {
      UnrankLinear(dims, coords);
      var e := op(coords);
      coords := Advance(dims, coords);
      elems := elems + [e];
    }
    t := Tensor(shape, elems);
    forall c | ValidCoords(dims, c)
      ensures t.At(c) == op(c)
    {
      var q := Linear(dims, c);
      LinearBound(dims, c);
      UnrankLinear(dims, c);
      assert elems[q] == op(Unrank(dims, q));
    }
  }

  /** The carry loop of `create`: the next coordinate tuple in linear order, wrapping to zeros after the last. */
  method Advance(dims: seq<nat>, coords: seq<nat>) returns (next: seq<nat>)
    requires ValidCoords(dims, coords)
    ensures |next| == |dims|
    ensures Linear(dims, coords) + 1 < Volume(dims) ==> ValidCoords(dims, next) && Linear(dims, next) == Linear(dims, coords) + 1
    ensures Linear(dims, coords) + 1 == Volume(dims) ==> next == Zeros(|dims|)
  {
    next := coords;
    var i := 0;
    while i < |dims|
      invariant i <= |dims| && |next| == |dims|
      invariant forall j :: 0 <= j < i ==> next[j] == 0 && coords[j] + 1 == dims[j]
      invariant forall j :: i <= j < |dims| ==> next[j] == coords[j]
      invariant Linear(dims, next) + Prod(dims, i) == Linear(dims, coords) + 1
    {
      DotBump(next, PlaceValues(dims), |dims|, i);
      next := next[i := next[i] + 1];
      if next[i] >= dims[i] {
        CarryStep(dims, next, i);
        next := next[i := 0];
      } else {
        LinearBound(dims, next);
        return;
      }
      i := i + 1;
    }
    assert next == Zeros(|dims|);
    DotZeros(PlaceValues(dims), |dims|, |dims|);
  }

  /**
   * `polymer`: the mapping names, for each old coordinate, the new
   * coordinate it becomes, and the old and new dimensions must agree. The
   * element of the result at new coordinates `c` is the old element at the
   * coordinates `c[mapping[k]]`: permuted, identified or dummy coordinates.
   */
  method Polymer<T>(t: Tensor<T>, shape: Shape, mapping: seq<nat>) returns (r: Tensor<T>)
    requires t.Wf() && |mapping| == |t.shape.dims|
    requires forall k :: 0 <= k < |mapping| ==> mapping[k] < |shape.dims| && t.shape.dims[k] == shape.dims[mapping[k]]
    ensures r.shape == shape && r.Wf()
    ensures forall c :: ValidCoords(shape.dims, c) ==> r.At(c) == t.At(Gather(c, mapping))
  {
    var strides := t.shape.Strides();
    assert strides == PlaceValues(t.shape.dims);
    var iter := MappedIter(shape.dims, mapping, strides);
    var elems := PolymerCollect(t, shape, mapping, iter);
    r := Tensor(shape, elems);
    forall c | ValidCoords(shape.dims, c)
      ensures r.At(c) == t.At(Gather(c, mapping))
    {
      LinearBound(shape.dims, c);
      UnrankLinear(shape.dims, c);
    }
  }

  /** The first loop of `polymer`: a fresh iterator over `dims` whose strides are the old strides moved along the mapping. */
  method MappedIter(dims: seq<nat>, mapping: seq<nat>, strides: seq<nat>) returns (iter: StrideIter)
    requires |mapping| <= |strides| && forall k :: 0 <= k < |mapping| ==> mapping[k] < |dims|
    ensures fresh(iter) && iter.Valid() && iter.dims == dims && iter.count == 0
    ensures iter.strides == MappedStrides(|dims|, mapping, strides, |mapping|)
  {
    iter := new StrideIter(dims);
    for idx := 0 to |mapping|
      invariant iter.Valid() && iter.dims == dims && iter.count == 0
      invariant iter.coords == Zeros(|dims|) && (iter.done <==> Volume(dims) == 0)
      invariant iter.strides == MappedStrides(|dims|, mapping, strides, idx)
    {
      iter.AddStride(mapping[idx], strides[idx]);
    }
  }

  /** The loop of `polymer`: each index the iterator yields picks the next element. */
  method PolymerCollect<T>(t: Tensor<T>, shape: Shape, mapping: seq<nat>, iter: StrideIter) returns (elems: seq<T>)
    requires t.Wf() && |mapping| == |t.shape.dims|
    requires forall k :: 0 <= k < |mapping| ==> mapping[k] < |shape.dims| && t.shape.dims[k] == shape.dims[mapping[k]]
    requires iter.Valid() && iter.dims == shape.dims && iter.count == 0
    requires iter.strides == MappedStrides(|shape.dims|, mapping, PlaceValues(t.shape.dims), |mapping|)
    modifies iter
    ensures |elems| == Volume(shape.dims)
    ensures forall p :: 0 <= p < |elems| ==> elems[p] == t.At(Gather(Unrank(shape.dims, p), mapping))
  {
    elems := [];
    while true
      invariant iter.Valid() && iter.dims == shape.dims
      invariant iter.strides == MappedStrides(|shape.dims|, mapping, PlaceValues(t.shape.dims), |mapping|)
      invariant |elems| == iter.count
      invariant Collected(t, shape, mapping, elems)
      decreases Volume(shape.dims) - iter.count + (if iter.done then 0 else 1)
    {
      ghost var p := iter.count;
      ghost var wasDone := iter.done;
      assert !wasDone ==> p < Volume(shape.dims);
      var next := iter.Next();
      match next {
        case None =>
          break;
        case Some(i) =>
          assert !wasDone;
          ghost var y := Unrank(shape.dims, p);
          PolymerIndex(t, shape, mapping, y);
          assert i == Linear(t.shape.dims, Gather(y, mapping));
          CollectedAppend(t, shape, mapping, elems, t.elems[i]);
          elems := elems + [t.elems[i]];
      }
    }
  }

  /** The elements collected so far are those at the gathered coordinates of the first new tuples. */
  ghost predicate Collected<T>(t: Tensor<T>, shape: Shape, mapping: seq<nat>, elems: seq<T>)
    requires t.Wf() && |mapping| == |t.shape.dims|
    requires forall k :: 0 <= k < |mapping| ==> mapping[k] < |shape.dims| && t.shape.dims[k] == shape.dims[mapping[k]]
  {
    |elems| <= Volume(shape.dims) &&
    forall p :: 0 <= p < |elems| ==> elems[p] == t.At(Gather(Unrank(shape.dims, p), mapping))
  }

  lemma CollectedAppend<T>(t: Tensor<T>, shape: Shape, mapping: seq<nat>, elems: seq<T>, x: T)
    requires t.Wf() && |mapping| == |t.shape.dims|
    requires forall k :: 0 <= k < |mapping| ==> mapping[k] < |shape.dims| && t.shape.dims[k] == shape.dims[mapping[k]]
    requires Collected(t, shape, mapping, elems) && |elems| < Volume(shape.dims)
    requires x == t.At(Gather(Unrank(shape.dims, |elems|), mapping))
    ensures Collected(t, shape, mapping, elems + [x])
  {
  }

  /** The mapped strides send the coordinates `c` of the result to the index of the old coordinates `c[mapping[k]]`. */
  lemma PolymerIndex<T>(t: Tensor<T>, shape: Shape, mapping: seq<nat>, c: seq<nat>)
    requires t.Wf() && |mapping| == |t.shape.dims|
    requires forall k :: 0 <= k < |mapping| ==> mapping[k] < |shape.dims| && t.shape.dims[k] == shape.dims[mapping[k]]
    requires ValidCoords(shape.dims, c)
    ensures ValidCoords(t.shape.dims, Gather(c, mapping))
    ensures Dot(c, MappedStrides(|shape.dims|, mapping, PlaceValues(t.shape.dims), |mapping|), |shape.dims|)
      == Linear(t.shape.dims, Gather(c, mapping)) < |t.elems|
  {
    MappedStridesDot(c, mapping, PlaceValues(t.shape.dims), |mapping|);
    LinearBound(t.shape.dims, Gather(c, mapping));
  }

  /** `reshape`: the new shape must have the same size; the element at each linear position stays. */
  function Reshape<T>(t: Tensor<T>, shape: Shape): (r: Tensor<T>)
    requires t.Wf() && Volume(shape.dims) == |t.elems|
    ensures r.Wf() && r.shape == shape
    ensures forall p :: 0 <= p < |t.elems| ==> r.At(Unrank(shape.dims, p)) == t.At(Unrank(t.shape.dims, p))
  {
    Tensor(shape, t.elems)
  }

  // ----- elementwise operations over the `bool` algebra -----

  /** `tensor_not`: every element negated. */
  function MapNot(t: Tensor<bool>): (r: Tensor<bool>)
    requires t.Wf()
    ensures r.Wf() && r.shape == t.shape
    ensures forall c :: ValidCoords(t.shape.dims, c) ==> r.At(c) == !t.At(c)
  {
    LinearBoundAll(t.shape.dims);
    Tensor(t.shape, seq(|t.elems|, i requires 0 <= i < |t.elems| => BoolLogic.Not(t.elems[i])))
  }

  /** The binary operations lifted elementwise. */
  datatype BinOp = Or | And | Xor | Equ | Imp

  /** The `bool` instance of each operation. */
  function Apply(op: BinOp, a: bool, b: bool): bool
  {
    match op
    case Or => BoolLogic.Or(a, b)
    case And => a && b
    case Xor => BoolLogic.Xor(a, b)
    case Equ => a == b
    case Imp => a ==> b
  }

  /** `tensor_or`, `tensor_and`, `tensor_xor`, `tensor_equ`, `tensor_imp`: the shapes must be equal; the operation at every tuple. */
  function Map2(op: BinOp, t1: Tensor<bool>, t2: Tensor<bool>): (r: Tensor<bool>)
    requires t1.Wf() && t2.Wf() && t1.shape == t2.shape
    ensures r.Wf() && r.shape == t1.shape
    ensures forall c :: ValidCoords(t1.shape.dims, c) ==> r.At(c) == Apply(op, t1.At(c), t2.At(c))
  {
    LinearBoundAll(t1.shape.dims);
    Tensor(t1.shape, seq(|t1.elems|, i requires 0 <= i < |t1.elems| => Apply(op, t1.elems[i], t2.elems[i])))
  }

  // ----- folds over the first dimension -----

  /** The folds that drop the first dimension. */
  datatype FoldKind = All | Any | Sum | One | Amo

  /** What each fold computes over a run of elements. */
  function FoldSpec(kind: FoldKind, s: seq<bool>): bool
  {
    match kind
    case All => forall i :: 0 <= i < |s| ==> s[i]
    case Any => exists i :: 0 <= i < |s| && s[i]
    case Sum => Count(s) % 2 == 1
    case One => Count(s) == 1
    case Amo => Count(s) <= 1
  }

  /** The fold of the logic each tensor fold calls. */
  method Fold(kind: FoldKind, s: seq<bool>) returns (b: bool)
    ensures b == FoldSpec(kind, s)
  {
    match kind {
      case All => b := BoolLogic.FoldAll(s);
      case Any => b := BoolLogic.FoldAny(s);
      case Sum => b := BoolLogic.FoldSum(s);
      case One => b := BoolLogic.FoldOne(s);
      case Amo => b := BoolLogic.FoldAmo(s);
    }
  }

  /** The elements whose coordinates are `[i] + c`, for `i` along the first dimension. */
  function Fiber(t: Tensor<bool>, c: seq<nat>): (r: seq<bool>)
    requires t.Wf() && |t.shape.dims| >= 1 && ValidCoords(t.shape.dims[1..], c)
    ensures |r| == t.shape.dims[0]
  {
    var dims := t.shape.dims;
    assert forall i :: 0 <= i < dims[0] ==> ValidCoords(dims, [i] + c);
    seq(dims[0], i requires 0 <= i < dims[0] => t.At([i] + c))
  }

  /** The fiber at `c` is the chunk of `dims[0]` elements at the linear position of `c` in the remaining shape. */
  lemma FiberChunk(t: Tensor<bool>, c: seq<nat>) returns (q: nat)
    requires t.Wf() && |t.shape.dims| >= 1 && ValidCoords(t.shape.dims[1..], c)
    ensures q == Linear(t.shape.dims[1..], c) && q < Volume(t.shape.dims[1..])
    ensures t.shape.dims[0] != 0 ==> q < |t.elems| / t.shape.dims[0]
    ensures GenericVector.Chunk(t.elems, q, t.shape.dims[0]) == Fiber(t, c)
  {
    var head, tail := t.shape.dims[0], t.shape.dims[1..];
    assert [head] + tail == t.shape.dims;
    q := Linear(tail, c);
    LinearBound(tail, c);
    LinearCons(head, tail, 0, c);
    MulSucc(q, head);
    MulLe(q + 1, Volume(tail), head);
    if head != 0 {
      DivMulAdd(0, Volume(tail), head);
    }
    var chunk := GenericVector.Chunk(t.elems, q, head);
    forall i | 0 <= i < head
      ensures chunk[i] == Fiber(t, c)[i]
    {
      LinearCons(head, tail, i, c);
    }
  }

  /**
   * `tensor_all`, `tensor_any`, `tensor_sum`, `tensor_one`, `tensor_amo`:
   * the elements are split into runs of `dims[0]` and each run is folded,
   * so the result at `c` folds the elements at `[i] + c`. When `dims[0]` is
   * 0 the split yields no runs, and `Tensor::new` then requires the
   * remaining shape to be empty.
   */
  method FoldFirst(kind: FoldKind, t: Tensor<bool>) returns (r: Tensor<bool>)
    requires t.Wf() && |t.shape.dims| >= 1
    requires t.shape.dims[0] != 0 || Volume(t.shape.dims[1..]) == 0
    ensures r.Wf() && r.shape.dims == t.shape.dims[1..]
    ensures forall c :: ValidCoords(r.shape.dims, c) ==> r.At(c) == FoldSpec(kind, Fiber(t, c))
  {
    var (head, shape) := t.shape.Split1();
    var chunks := GenericVector.Split(t.elems, head);
    var elems: seq<bool> := [];
    for j := 0 to |chunks|
      invariant |elems| == j && forall q :: 0 <= q < j ==> elems[q] == FoldSpec(kind, chunks[q])
    {
      var b := Fold(kind, chunks[j]);
      elems := elems + [b];
    }
    if |t.elems| > 0 {
      DivMulAdd(0, Volume(shape.dims), head);
    }
    r := Tensor(shape, elems);
    forall c | ValidCoords(shape.dims, c)
      ensures r.At(c) == FoldSpec(kind, Fiber(t, c))
    {
      var q := FiberChunk(t, c);
      assert r.At(c) == elems[q];
    }
  }
}
