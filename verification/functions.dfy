/**
 * Domains of functions of a fixed arity: `Functions<DOM, COD>` of
 * `src/alg/functions.rs`, the ranked power `Power<COD, Power<DOM, SmallSet>>`
 * of `src/alg/power.rs` that it wraps, and `Operations<DOM>` of
 * `src/alg/operations.rs`, the case where the codomain is the domain.
 *
 * A function of arity `n` from a domain of `size` elements is stored as a
 * power element with one part per argument tuple, the tuples in linear
 * order with the first argument the fastest digit. `polymer` builds a
 * function of a new arity whose argument tuple `y` reads the old function
 * at the tuple `y[mapping[0]], y[mapping[1]], ...`: it permutes, identifies
 * or adds dummy arguments, and the other operations are polymers with
 * particular mappings.
 */
module Functions {
  import opened Arith
  import opened BitSpec
  import opened Radix
  import opened Wrappers
  import GenericVector
  import Powers
  import Tensors

  /** The identity mapping of `n` coordinates. */
  function Identity(n: nat): (r: seq<nat>)
    ensures |r| == n && forall k :: 0 <= k < n ==> r[k] == k
  {
    seq(n, k => k)
  }

  /** The mapping of `converse`: `n - 1`, ..., `1`, `0`. */
  function Reversed(n: nat): (r: seq<nat>)
    ensures |r| == n && forall k :: 0 <= k < n ==> r[k] < n
  {
    seq(n, k requires 0 <= k < n => n - 1 - k)
  }

  /** The mapping of `rotate_right`: `1`, ..., `n - 1`, `0`, and `0..n` itself when `n <= 1`. */
  function RightMapping(n: nat): (r: seq<nat>)
    ensures |r| == n && forall k :: 0 <= k < n ==> r[k] < n
  {
    if n <= 1 then Identity(n) else seq(n - 1, k requires 0 <= k < n - 1 => k + 1) + [0]
  }

  /** The mapping of `rotate_left`: `n - 1`, `0`, ..., `n - 2`, and `0..n` itself when `n <= 1`. */
  function LeftMapping(n: nat): (r: seq<nat>)
    ensures |r| == n && forall k :: 0 <= k < n ==> r[k] < n
  {
    if n <= 1 then Identity(n) else [n - 1] + Identity(n - 1)
  }

  /** Reading `y` through `inner` after `outer` is reading it through `outer` followed by `inner`. */
  lemma GatherGather(y: seq<nat>, outer: seq<nat>, inner: seq<nat>)
    requires forall k :: 0 <= k < |outer| ==> outer[k] < |y|
    requires forall k :: 0 <= k < |inner| ==> inner[k] < |outer|
    ensures Tensors.Gather(Tensors.Gather(y, outer), inner) == Tensors.Gather(y, Tensors.Gather(outer, inner))
  {
  }

  /** The reversed mapping undoes itself. */
  lemma ReversedInvolution(n: nat)
    ensures Tensors.Gather(Reversed(n), Reversed(n)) == Identity(n)
  {
  }

  /** The two rotation mappings undo each other. */
  lemma RotationsInverse(n: nat)
    ensures Tensors.Gather(LeftMapping(n), RightMapping(n)) == Identity(n)
    ensures Tensors.Gather(RightMapping(n), LeftMapping(n)) == Identity(n)
  {
    if n > 1 {
      LeftAfterRight(n);
      RightAfterLeft(n);
    }
  }

  /** Rotating right and then left gives the identity mapping. */
  lemma LeftAfterRight(n: nat)
    requires n > 1
    ensures Tensors.Gather(LeftMapping(n), RightMapping(n)) == Identity(n)
  {
    var l, r := LeftMapping(n), RightMapping(n);
    var g, id := Tensors.Gather(l, r), Identity(n);
    forall k | 0 <= k < n
      ensures g[k] == id[k]
    {
      if k < n - 1 {
        assert r[k] == k + 1 && l[k + 1] == k;
      } else {
        assert r[k] == 0 && l[0] == n - 1;
      }
    }
  }

  /** Rotating left and then right gives the identity mapping. */
  lemma RightAfterLeft(n: nat)
    requires n > 1
    ensures Tensors.Gather(RightMapping(n), LeftMapping(n)) == Identity(n)
  {
    var l, r := LeftMapping(n), RightMapping(n);
    var g, id := Tensors.Gather(r, l), Identity(n);
    forall k | 0 <= k < n
      ensures g[k] == id[k]
    {
      if k == 0 {
        assert l[0] == n - 1 && r[n - 1] == 0;
      } else {
        assert l[k] == k - 1 && r[k - 1] == k;
      }
    }
  }

  /** Gathering through the identity mapping changes nothing. */
  lemma GatherIdentity(y: seq<nat>)
    ensures Tensors.Gather(y, Identity(|y|)) == y
  {
  }

  /** A domain of functions of arity `arity` from a domain of `size` elements to `cod`. */
  datatype Functions = Functions(cod: Powers.Base, size: nat, arity: nat)
  {
    /** The argument radices: `arity` copies of `size`. */
    function Dims(): seq<nat>
    {
      Powers.Uniform(size, arity)
    }

    /** The wrapped power domain: one part of the codomain per argument tuple. */
    function AsPower(): (r: Powers.Power)
      ensures r.base == cod && r.exponent == Volume(Dims()) == Pow(size, arity)
    {
      Powers.Power(cod, Pow(size, arity))
    }

    /** `num_bits` of the wrapped power. */
    function NumBits(): nat
    {
      AsPower().NumBits()
    }

    /** `change_arity` (`new_arity` of the ranked power): the same domain and codomain, another arity. */
    function ChangeArity(newArity: nat): (r: Functions)
      ensures r.cod == cod && r.size == size && r.arity == newArity
      ensures r.NumBits() == cod.bits * Pow(size, newArity)
    {
      Functions(cod, size, newArity)
    }

    /** The unary functions of the same domain and codomain: one part per domain element. */
    function Unary(): (r: Functions)
      ensures r == ChangeArity(1) && r.AsPower().exponent == size
    {
      assert Pow(size, 1) == size;
      ChangeArity(1)
    }

    /** The two `assert_eq!` of `polymer`: the element has `num_bits` bits and the mapping one entry per argument. */
    predicate PolymerAccepts(elemLen: nat, mapping: seq<nat>)
    {
      elemLen == NumBits() && |mapping| == arity
    }

    /** The old tuple index that the new tuple index `q` reads. */
    function Source(mapping: seq<nat>, newArity: nat, q: nat): (r: nat)
      requires |mapping| == arity && forall k :: 0 <= k < arity ==> mapping[k] < newArity
      requires q < Pow(size, newArity)
      ensures r < Pow(size, arity)
    {
      var newDims := Powers.Uniform(size, newArity);
      var y := Unrank(newDims, q);
      var x := Tensors.Gather(y, mapping);
      assert ValidCoords(Dims(), x);
      LinearBound(Dims(), x);
      Linear(Dims(), x)
    }

    /** The parts of the polymer: part `q` is the old part at `Source(q)`. */
    function NewParts(elem: seq<bool>, newArity: nat, mapping: seq<nat>): (r: seq<seq<bool>>)
      requires |elem| == NumBits() && |mapping| == arity && forall k :: 0 <= k < arity ==> mapping[k] < newArity
      ensures |r| == Pow(size, newArity)
      ensures forall q :: 0 <= q < |r| ==> r[q] == AsPower().Part(elem, Source(mapping, newArity, q))
    {
      seq(Pow(size, newArity), q requires 0 <= q < Pow(size, newArity) => AsPower().Part(elem, Source(mapping, newArity, q)))
    }

    /** What `polymer` returns: the new parts in order. */
    function PolymerSpec(elem: seq<bool>, newArity: nat, mapping: seq<nat>): seq<bool>
      requires |elem| == NumBits() && |mapping| == arity && forall k :: 0 <= k < arity ==> mapping[k] < newArity
    {
      GenericVector.Flatten(NewParts(elem, newArity, mapping))
    }

    /**
     * The defining property of `polymer`: the result is an element of the
     * new arity, and its part at the argument tuple `y` is the old part at
     * the tuple `y[mapping[0]], y[mapping[1]], ...`.
     */
    lemma PolymerPart(elem: seq<bool>, newArity: nat, mapping: seq<nat>, y: seq<nat>)
      requires |elem| == NumBits() && |mapping| == arity && forall k :: 0 <= k < arity ==> mapping[k] < newArity
      requires ValidCoords(Powers.Uniform(size, newArity), y)
      ensures |PolymerSpec(elem, newArity, mapping)| == ChangeArity(newArity).NumBits()
      ensures ValidCoords(Dims(), Tensors.Gather(y, mapping))
      ensures Linear(Powers.Uniform(size, newArity), y) < Pow(size, newArity)
      ensures Linear(Dims(), Tensors.Gather(y, mapping)) < Pow(size, arity)
      ensures ChangeArity(newArity).AsPower().Part(PolymerSpec(elem, newArity, mapping), Linear(Powers.Uniform(size, newArity), y))
        == AsPower().Part(elem, Linear(Dims(), Tensors.Gather(y, mapping)))
    {
      var newDims := Powers.Uniform(size, newArity);
      var parts := NewParts(elem, newArity, mapping);
      GenericVector.ChunkFlatten(parts, cod.bits);
      LinearBound(newDims, y);
      UnrankLinear(newDims, y);
      assert ValidCoords(Dims(), Tensors.Gather(y, mapping));
      LinearBound(Dims(), Tensors.Gather(y, mapping));
    }

    /** The length of the polymer is `num_bits` of the new arity. */
    lemma PolymerLength(elem: seq<bool>, newArity: nat, mapping: seq<nat>)
      requires |elem| == NumBits() && |mapping| == arity && forall k :: 0 <= k < arity ==> mapping[k] < newArity
      ensures |PolymerSpec(elem, newArity, mapping)| == ChangeArity(newArity).NumBits()
    {
      GenericVector.ChunkFlatten(NewParts(elem, newArity, mapping), cod.bits);
    }

    /** The polymer along the identity mapping is the element itself. */
    lemma PolymerIdentity(elem: seq<bool>)
      requires |elem| == NumBits()
      ensures PolymerSpec(elem, arity, Identity(arity)) == elem
    {
      var r := PolymerSpec(elem, arity, Identity(arity));
      PolymerLength(elem, arity, Identity(arity));
      forall q | 0 <= q < Pow(size, arity)
        ensures AsPower().Part(r, q) == AsPower().Part(elem, q)
      {
        var y := Unrank(Dims(), q);
        PolymerPart(elem, arity, Identity(arity), y);
        GatherIdentity(y);
      }
      AsPower().EqualByParts(r, elem);
    }

    /**
     * Two polymers in a row are one polymer: first along `inner` to arity
     * `mid`, then along `outer` to arity `newArity`, is the polymer along
     * `outer` read through `inner`.
     */
    lemma PolymerCompose(elem: seq<bool>, mid: nat, inner: seq<nat>, newArity: nat, outer: seq<nat>)
      requires |elem| == NumBits() && |inner| == arity && forall k :: 0 <= k < arity ==> inner[k] < mid
      requires |outer| == mid && forall k :: 0 <= k < mid ==> outer[k] < newArity
      ensures |PolymerSpec(elem, mid, inner)| == ChangeArity(mid).NumBits()
      ensures PolymerSpec(elem, newArity, Tensors.Gather(outer, inner))
        == ChangeArity(mid).PolymerSpec(PolymerSpec(elem, mid, inner), newArity, outer)
    {
      PolymerLength(elem, mid, inner);
      var m := ChangeArity(mid);
      var f1 := PolymerSpec(elem, mid, inner);
      var composite := Tensors.Gather(outer, inner);
      var direct := PolymerSpec(elem, newArity, composite);
      var twice := m.PolymerSpec(f1, newArity, outer);
      var target := ChangeArity(newArity);
      PolymerLength(elem, newArity, composite);
      m.PolymerLength(f1, newArity, outer);
      forall q | 0 <= q < Pow(size, newArity)
        ensures target.AsPower().Part(direct, q) == target.AsPower().Part(twice, q)
      {
        var y := Unrank(Powers.Uniform(size, newArity), q);
        PolymerPart(elem, newArity, composite, y);
        m.PolymerPart(f1, newArity, outer, y);
        var z := Tensors.Gather(y, outer);
        PolymerPart(elem, mid, inner, z);
        GatherGather(y, outer, inner);
      }
      target.AsPower().EqualByParts(direct, twice);
    }

    /** `converse` twice is the identity. */
    lemma ConverseInvolution(elem: seq<bool>)
      requires |elem| == NumBits()
      ensures |PolymerSpec(elem, arity, Reversed(arity))| == NumBits()
      ensures PolymerSpec(PolymerSpec(elem, arity, Reversed(arity)), arity, Reversed(arity)) == elem
    {
      PolymerCompose(elem, arity, Reversed(arity), arity, Reversed(arity));
      ReversedInvolution(arity);
      PolymerIdentity(elem);
    }

    /** `rotate_left` undoes `rotate_right`, and `rotate_right` undoes `rotate_left`. */
    lemma RotationsUndo(elem: seq<bool>)
      requires |elem| == NumBits()
      ensures |PolymerSpec(elem, arity, RightMapping(arity))| == NumBits()
      ensures |PolymerSpec(elem, arity, LeftMapping(arity))| == NumBits()
      ensures PolymerSpec(PolymerSpec(elem, arity, RightMapping(arity)), arity, LeftMapping(arity)) == elem
      ensures PolymerSpec(PolymerSpec(elem, arity, LeftMapping(arity)), arity, RightMapping(arity)) == elem
    {
      RotationsInverse(arity);
      PolymerCompose(elem, arity, RightMapping(arity), arity, LeftMapping(arity));
      PolymerCompose(elem, arity, LeftMapping(arity), arity, RightMapping(arity));
      PolymerIdentity(elem);
    }

    /**
     * `polymer` of `src/alg/power.rs` and `src/alg/functions.rs` as written,
     * on an empty domain: every argument counter wraps at once, so the outer
     * loop makes exactly one round and copies the part at index 0; `None`
     * stands for the panic of `part` when that part lies past the end.
     */
    function PolymerEmptyDomainAsWritten(elem: seq<bool>): (r: Option<seq<bool>>)
      requires size == 0 && |elem| == NumBits()
      ensures arity >= 1 && cod.bits > 0 ==> r == None
      ensures arity == 0 ==> r == Some(elem)
    {
      Powers.PowPositive(0, arity);
      assert |elem| == cod.bits * Pow(0, arity);
      assert arity == 0 ==> elem[..cod.bits] == elem;
      if cod.bits <= |elem| then Some(elem[..cod.bits]) else None
    }
  }

  /**
   * On an empty domain the functions of positive arity have no bits, so the
   * unguarded `polymer` panics where the guarded one returns the empty
   * function; and from arity 0 it returns one part where the new arity has
   * none.
   */
  lemma PolymerEmptyDomainDiffers(f: Functions, elem: seq<bool>, newArity: nat, mapping: seq<nat>)
    requires f.size == 0 && f.cod.bits > 0 && |elem| == f.NumBits()
    requires |mapping| == f.arity && forall k :: 0 <= k < f.arity ==> mapping[k] < newArity
    requires f.arity >= 1 || newArity >= 1
    ensures f.PolymerSpec(elem, newArity, mapping) == []
    ensures f.arity >= 1 ==> f.PolymerEmptyDomainAsWritten(elem) == None
    ensures f.arity == 0 ==> f.PolymerEmptyDomainAsWritten(elem).Some? && |f.PolymerEmptyDomainAsWritten(elem).value| != f.ChangeArity(newArity).NumBits()
  {
    if f.arity >= 1 {
      assert mapping[0] < newArity;
    }
    Powers.PowPositive(0, newArity);
    Powers.PowPositive(0, f.arity);
    f.PolymerLength(elem, newArity, mapping);
  }

  // ----- the loops of `polymer` -----

  /**
   * `polymer` with the guard of `src/alg/operations.rs`: the strides of the
   * new arguments are the old place values moved along the mapping; when
   * the new arity has no tuples the result is empty; otherwise the new
   * tuples are visited in linear order, each copying the old part at the
   * running index, and the index follows the carries of the argument
   * counters.
   */
  method Polymer(f: Functions, elem: seq<bool>, newArity: nat, mapping: seq<nat>) returns (result: seq<bool>)
    requires |elem| == f.NumBits() && |mapping| == f.arity && forall k :: 0 <= k < f.arity ==> mapping[k] < newArity
    ensures result == f.PolymerSpec(elem, newArity, mapping)
    ensures |result| == f.ChangeArity(newArity).NumBits()
  {
    var strides := PolymerStrides(f, newArity, mapping);
    var power := 1;
    for i := 0 to newArity
      invariant power == Pow(f.size, i)
    {
      power := power * f.size;
    }
    f.PolymerLength(elem, newArity, mapping);
    if power == 0 {
      return [];
    }
    result := PolymerTuples(f, elem, newArity, mapping, strides);
  }

  /** The first loop of `polymer`: each old place value is added to the stride of the new argument it is mapped to. */
  method PolymerStrides(f: Functions, newArity: nat, mapping: seq<nat>) returns (strides: seq<nat>)
    requires |mapping| == f.arity && forall k :: 0 <= k < f.arity ==> mapping[k] < newArity
    ensures strides == Tensors.MappedStrides(newArity, mapping, PlaceValues(f.Dims()), |mapping|)
  {
    var size := f.size;
    strides := Zeros(newArity);
    var power := 1;
    for k := 0 to |mapping|
      invariant strides == Tensors.MappedStrides(newArity, mapping, PlaceValues(f.Dims()), k)
      invariant power == Pow(size, k)
    {
      ProdUniform(f.Dims(), size, k);
      strides := strides[mapping[k] := strides[mapping[k]] + power];
      power := power * size;
    }
  }

  /** The outer loop of `polymer`: one part per new tuple, in linear order. */
  method PolymerTuples(f: Functions, elem: seq<bool>, newArity: nat, mapping: seq<nat>, strides: seq<nat>)
      returns (result: seq<bool>)
    requires |elem| == f.NumBits() && |mapping| == f.arity && forall k :: 0 <= k < f.arity ==> mapping[k] < newArity
    requires strides == Tensors.MappedStrides(newArity, mapping, PlaceValues(f.Dims()), |mapping|)
    requires Pow(f.size, newArity) != 0
    ensures result == f.PolymerSpec(elem, newArity, mapping)
  {
    var newDims := Powers.Uniform(f.size, newArity);
    Powers.PowPositive(f.size, newArity);
    var coords := Zeros(newArity);
    var index := 0;
    DotZeros(strides, newArity, newArity);
    DotZeros(PlaceValues(newDims), newArity, newArity);
    ghost var q := 0;
    result := [];
    while true
      invariant TuplesInv(f, elem, newArity, mapping, strides, coords, index, q, result)
      decreases Pow(f.size, newArity) - q
    {
      TupleStep(f, elem, newArity, mapping, coords, index);
      var part := f.AsPower().Part(elem, index);
      var next, nextIndex, wrapped := Tensors.Carry(newDims, strides, coords, index);
      TuplesNext(f, elem, newArity, mapping, strides, coords, index, q, result, next, nextIndex, wrapped);
      result := result + part;
      coords, index, q := next, nextIndex, q + 1;
      if wrapped {
        return;
      }
    }
  }

  /** After `q` rounds of the outer loop of `polymer`: the counters stand at tuple `q` and the first `q` new parts are copied. */
  ghost predicate TuplesInv(f: Functions, elem: seq<bool>, newArity: nat, mapping: seq<nat>, strides: seq<nat>,
                            coords: seq<nat>, index: nat, q: nat, result: seq<bool>)
    requires |elem| == f.NumBits() && |mapping| == f.arity && forall k :: 0 <= k < f.arity ==> mapping[k] < newArity
  {
    var newDims := Powers.Uniform(f.size, newArity);
    strides == Tensors.MappedStrides(newArity, mapping, PlaceValues(f.Dims()), |mapping|) &&
    ValidCoords(newDims, coords) && Linear(newDims, coords) == q && q < Pow(f.size, newArity) &&
    index == Dot(coords, strides, newArity) &&
    result == GenericVector.Flatten(f.NewParts(elem, newArity, mapping)[..q])
  }

  /** One round of the outer loop of `polymer` keeps `TuplesInv`, or completes the polymer when the counters wrap. */
  lemma TuplesNext(f: Functions, elem: seq<bool>, newArity: nat, mapping: seq<nat>, strides: seq<nat>,
                   coords: seq<nat>, index: nat, q: nat, result: seq<bool>, next: seq<nat>, nextIndex: nat, wrapped: bool)
    requires |elem| == f.NumBits() && |mapping| == f.arity && forall k :: 0 <= k < f.arity ==> mapping[k] < newArity
    requires TuplesInv(f, elem, newArity, mapping, strides, coords, index, q, result)
    requires index < Pow(f.size, f.arity)
    requires |next| == newArity && nextIndex == Dot(next, strides, newArity)
    requires wrapped ==> Linear(Powers.Uniform(f.size, newArity), coords) + 1 == Pow(f.size, newArity)
    requires !wrapped ==> (ValidCoords(Powers.Uniform(f.size, newArity), next) &&
      Linear(Powers.Uniform(f.size, newArity), next) == Linear(Powers.Uniform(f.size, newArity), coords) + 1 < Pow(f.size, newArity))
    ensures wrapped ==> result + f.AsPower().Part(elem, index) == f.PolymerSpec(elem, newArity, mapping)
    ensures !wrapped ==> TuplesInv(f, elem, newArity, mapping, strides, next, nextIndex, q + 1, result + f.AsPower().Part(elem, index))
  {
    var parts := f.NewParts(elem, newArity, mapping);
    TupleStep(f, elem, newArity, mapping, coords, index);
    GenericVector.FlattenPrefixStep(parts, q);
    if wrapped {
      assert parts[..q + 1] == parts;
    }
  }

  /** The part that the outer loop of `polymer` copies at the new tuple `y` is the new part there. */
  lemma TupleStep(f: Functions, elem: seq<bool>, newArity: nat, mapping: seq<nat>, y: seq<nat>, index: nat)
    requires |elem| == f.NumBits() && |mapping| == f.arity && forall k :: 0 <= k < f.arity ==> mapping[k] < newArity
    requires ValidCoords(Powers.Uniform(f.size, newArity), y)
    requires index == Dot(y, Tensors.MappedStrides(newArity, mapping, PlaceValues(f.Dims()), |mapping|), newArity)
    ensures index < Pow(f.size, f.arity) && Linear(Powers.Uniform(f.size, newArity), y) < Pow(f.size, newArity)
    ensures f.NewParts(elem, newArity, mapping)[Linear(Powers.Uniform(f.size, newArity), y)] == f.AsPower().Part(elem, index)
  {
    PolymerIndex(f, newArity, mapping, y);
    LinearBound(Powers.Uniform(f.size, newArity), y);
    UnrankLinear(Powers.Uniform(f.size, newArity), y);
  }

  /** The running index of `polymer` at the new tuple `y` is the linear index of the old tuple it reads. */
  lemma PolymerIndex(f: Functions, newArity: nat, mapping: seq<nat>, y: seq<nat>)
    requires |mapping| == f.arity && forall k :: 0 <= k < f.arity ==> mapping[k] < newArity
    requires ValidCoords(Powers.Uniform(f.size, newArity), y)
    ensures ValidCoords(f.Dims(), Tensors.Gather(y, mapping))
    ensures Dot(y, Tensors.MappedStrides(newArity, mapping, PlaceValues(f.Dims()), |mapping|), newArity)
      == Linear(f.Dims(), Tensors.Gather(y, mapping)) < Pow(f.size, f.arity)
  {
    Tensors.MappedStridesDot(y, mapping, PlaceValues(f.Dims()), |mapping|);
    LinearBound(f.Dims(), Tensors.Gather(y, mapping));
  }

  // ----- operations built on `polymer` -----

  /** The argument tuple with every entry `x`. */
  function Diagonal(n: nat, x: nat): (r: seq<nat>)
    ensures |r| == n && forall k :: 0 <= k < n ==> r[k] == x
  {
    seq(n, _ => x)
  }

  /** `identify`: the polymer to arity 1 along the all-zero mapping (its parts: `IdentifyPart`). */
  method Identify(f: Functions, elem: seq<bool>) returns (result: seq<bool>)
    requires |elem| == f.NumBits() && f.arity >= 1
    ensures result == f.PolymerSpec(elem, 1, Zeros(f.arity)) && |result| == f.Unary().NumBits()
  {
    result := Polymer(f, elem, 1, Zeros(f.arity));
  }

  /** The part of the polymer along the all-zero mapping at `x` is the old part on the diagonal. */
  lemma IdentifyPart(f: Functions, elem: seq<bool>, x: nat)
    requires |elem| == f.NumBits() && f.arity >= 1 && x < f.size
    ensures ValidCoords(f.Dims(), Diagonal(f.arity, x)) && Linear(f.Dims(), Diagonal(f.arity, x)) < Pow(f.size, f.arity)
    ensures |f.PolymerSpec(elem, 1, Zeros(f.arity))| == f.Unary().NumBits()
    ensures f.Unary().AsPower().Part(f.PolymerSpec(elem, 1, Zeros(f.arity)), x) == f.AsPower().Part(elem, Linear(f.Dims(), Diagonal(f.arity, x)))
  {
    var y := [x];
    var u := f.Unary();
    assert ValidCoords(u.Dims(), y);
    f.PolymerPart(elem, 1, Zeros(f.arity), y);
    assert Tensors.Gather(y, Zeros(f.arity)) == Diagonal(f.arity, x);
    Powers.LinearSingle(f.size, x);
  }

  /** `converse`: the polymer along the reversed mapping; applied twice it gives the element back. */
  method Converse(f: Functions, elem: seq<bool>) returns (result: seq<bool>)
    requires |elem| == f.NumBits()
    ensures result == f.PolymerSpec(elem, f.arity, Reversed(f.arity)) && |result| == f.NumBits()
    ensures f.PolymerSpec(result, f.arity, Reversed(f.arity)) == elem
  {
    result := Polymer(f, elem, f.arity, Reversed(f.arity));
    f.ConverseInvolution(elem);
  }

  /** `rotate_right`: the polymer along `1, ..., n - 1, 0`; `rotate_left` undoes it. */
  method RotateRight(f: Functions, elem: seq<bool>) returns (result: seq<bool>)
    requires |elem| == f.NumBits() && f.arity >= 1
    ensures result == f.PolymerSpec(elem, f.arity, RightMapping(f.arity)) && |result| == f.NumBits()
    ensures f.PolymerSpec(result, f.arity, LeftMapping(f.arity)) == elem
  {
    result := Polymer(f, elem, f.arity, RightMapping(f.arity));
    f.RotationsUndo(elem);
  }

  /** `rotate_left`: the polymer along `n - 1, 0, ..., n - 2`; `rotate_right` undoes it. */
  method RotateLeft(f: Functions, elem: seq<bool>) returns (result: seq<bool>)
    requires |elem| == f.NumBits() && f.arity >= 1
    ensures result == f.PolymerSpec(elem, f.arity, LeftMapping(f.arity)) && |result| == f.NumBits()
    ensures f.PolymerSpec(result, f.arity, RightMapping(f.arity)) == elem
  {
    result := Polymer(f, elem, f.arity, LeftMapping(f.arity));
    f.RotationsUndo(elem);
  }

  // ----- operations: the codomain is the domain -----

  /** The unary identity operation: its part at `x` is the element of index `x`. */
  function UnaryIdentity(f: Functions): (r: seq<bool>)
    requires f.cod.Countable() && f.cod.size == f.size
    ensures |r| == f.Unary().NumBits()
    ensures forall x :: 0 <= x < f.size ==> f.Unary().AsPower().Part(r, x) == f.cod.elem(x)
  {
    var es := f.cod.ElemsOf(Identity(f.size));
    f.Unary().AsPower().FlattenParts(es);
    GenericVector.ChunkFlatten(es, f.cod.bits);
    GenericVector.Flatten(es)
  }

  /**
   * `get_projection` as intended: the unary identity moved to the argument
   * `coord` of the arity of the domain, so the part at every tuple `y` is
   * the element of index `y[coord]`.
   */
  method GetProjection(f: Functions, coord: nat) returns (result: seq<bool>)
    requires f.cod.Countable() && f.cod.size == f.size && coord < f.arity
    ensures |result| == f.NumBits()
    ensures forall y :: ValidCoords(f.Dims(), y) ==>
      Linear(f.Dims(), y) < Pow(f.size, f.arity) && f.AsPower().Part(result, Linear(f.Dims(), y)) == f.cod.elem(y[coord])
  {
    result := Polymer(f.Unary(), UnaryIdentity(f), f.arity, [coord]);
    forall y | ValidCoords(f.Dims(), y)
      ensures Linear(f.Dims(), y) < Pow(f.size, f.arity) && f.AsPower().Part(result, Linear(f.Dims(), y)) == f.cod.elem(y[coord])
    {
      ProjectionPart(f, coord, y);
    }
  }

  /** The part of the projection at the tuple `y` is the element of index `y[coord]`. */
  lemma ProjectionPart(f: Functions, coord: nat, y: seq<nat>)
    requires f.cod.Countable() && f.cod.size == f.size && coord < f.arity && ValidCoords(f.Dims(), y)
    ensures |f.Unary().PolymerSpec(UnaryIdentity(f), f.arity, [coord])| == f.NumBits()
    ensures Linear(f.Dims(), y) < Pow(f.size, f.arity)
    ensures f.AsPower().Part(f.Unary().PolymerSpec(UnaryIdentity(f), f.arity, [coord]), Linear(f.Dims(), y)) == f.cod.elem(y[coord])
  {
    var u := f.Unary();
    u.PolymerPart(UnaryIdentity(f), f.arity, [coord], y);
    assert Tensors.Gather(y, [coord]) == [y[coord]];
    Powers.LinearSingle(f.size, y[coord]);
  }

  /**
   * `get_projection` as written calls `polymer` of the domain itself with
   * the unary identity and the one-entry mapping `[coord]`; this tells
   * whether the two `assert_eq!` of `polymer` pass.
   */
  predicate GetProjectionAsWrittenAccepts(f: Functions, coord: nat)
    requires f.cod.Countable() && f.cod.size == f.size && coord < f.arity
  {
    f.PolymerAccepts(|UnaryIdentity(f)|, [coord])
  }

  /** The written `get_projection` passes the checks of `polymer` only for unary operations. */
  lemma GetProjectionAsWrittenOnlyUnary(f: Functions, coord: nat)
    requires f.cod.Countable() && f.cod.size == f.size && coord < f.arity
    ensures GetProjectionAsWrittenAccepts(f, coord) <==> f.arity == 1
  {
  }

  /** What `as_relation` returns: the `onehot` vectors of the parts, in order. */
  function RelationSpec(f: Functions, elem: seq<bool>): seq<bool>
    requires |elem| == f.NumBits()
  {
    var parts := f.AsPower().Parts(elem);
    GenericVector.Flatten(seq(|parts|, k requires 0 <= k < |parts| => f.cod.onehot(parts[k])))
  }

  /** `as_relation`: appends `onehot` of every part. */
  method AsRelation(f: Functions, elem: seq<bool>) returns (result: seq<bool>)
    requires |elem| == f.NumBits()
    ensures result == RelationSpec(f, elem)
  {
    var parts := Powers.CollectParts(f.AsPower(), elem);
    ghost var rs := seq(|parts|, k requires 0 <= k < |parts| => f.cod.onehot(parts[k]));
    result := [];
    for k := 0 to |parts|
      invariant result == GenericVector.Flatten(rs[..k])
    {
      GenericVector.FlattenPrefixStep(rs, k);
      result := result + f.cod.onehot(parts[k]);
    }
    assert rs[..|parts|] == rs;
  }

  /**
   * The graph: for an operation whose parts are domain elements, the
   * relation has `size^(arity+1)` bits, and its run of `size` bits at the
   * argument tuple `q` is the one-hot vector of the value at `q`; so the bit
   * of the tuple `(x, q)`, `x` first, is set exactly when the operation maps
   * `q` to `x`.
   */
  lemma RelationIsGraph(f: Functions, elem: seq<bool>)
    requires |elem| == f.NumBits() && f.cod.size == f.size && f.cod.bits != 0 && f.cod.OnehotOfElem()
    requires forall k :: 0 <= k < Pow(f.size, f.arity) ==>
      f.AsPower().Digits(elem)[k] < f.size && f.cod.elem(f.AsPower().Digits(elem)[k]) == f.AsPower().Parts(elem)[k]
    ensures |RelationSpec(f, elem)| == Pow(f.size, f.arity + 1)
    ensures forall q :: 0 <= q < Pow(f.size, f.arity) ==>
      GenericVector.Chunk(RelationSpec(f, elem), q, f.size) == OneHot(f.size, f.AsPower().Digits(elem)[q])
  {
    var p := f.AsPower();
    var parts := p.Parts(elem);
    var ds := p.Digits(elem);
    var rs := seq(|parts|, k requires 0 <= k < |parts| => f.cod.onehot(parts[k]));
    assert forall k :: 0 <= k < |rs| ==> rs[k] == OneHot(f.size, ds[k]);
    GenericVector.ChunkFlatten(rs, f.size);
  }

  /** When `onehot` keeps its argument (as for one-hot small sets), `as_relation` returns the operation itself. */
  lemma RelationOfOneHotDomain(f: Functions, elem: seq<bool>)
    requires |elem| == f.NumBits()
    requires forall a :: |a| == f.cod.bits ==> f.cod.onehot(a) == a
    ensures RelationSpec(f, elem) == elem
  {
    var p := f.AsPower();
    var parts := p.Parts(elem);
    assert seq(|parts|, k requires 0 <= k < |parts| => f.cod.onehot(parts[k])) == parts;
    p.PartsFlatten(elem);
  }
  /**
   * The graph of a unary operation on the two-element domain, whose
   * `onehot` of a bit `e` is `[!e, e]`: for the operation `[e0, e1]` it is
   * `[!e0, e0, !e1, e1]`.
   */
  lemma BooleanGraph(f: Functions, e0: bool, e1: bool)
    requires f.cod.bits == 1 && f.size == 2 && f.arity == 1
    requires forall a :: |a| == 1 ==> f.cod.onehot(a) == [!a[0], a[0]]
    ensures f.NumBits() == 2
    ensures RelationSpec(f, [e0, e1]) == [!e0, e0, !e1, e1]
  {
    assert Pow(2, 1) == 2;
    var elem := [e0, e1];
    var p := f.AsPower();
    var parts := p.Parts(elem);
    assert parts[0] == [e0] && parts[1] == [e1];
    var rs := seq(|parts|, k requires 0 <= k < |parts| => f.cod.onehot(parts[k]));
    assert rs == [[!e0, e0], [!e1, e1]];
    assert rs[..1] == [[!e0, e0]] && rs[..1][..0] == [];
    assert GenericVector.Flatten(rs[..1]) == [!e0, e0];
    assert GenericVector.Flatten(rs) == GenericVector.Flatten(rs[..1]) + [!e1, e1];
  }
}
