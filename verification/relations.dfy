/**
 * Relations as bit vectors.
 *
 * In `src/alg/relations.rs` a relation of arity `n` over a domain of `size`
 * elements is an element of the power `Boolean ^ (size ^ n)`: one bit per
 * tuple, where the tuple `(v_0, …, v_(n-1))` sits at position
 * `Σ v_k * size^k` (the first coordinate is the least significant digit,
 * as in `Radix.Linear`). `get_diagonal` sets the bits of the constant
 * tuples by stepping with a fixed stride; `get_singleton` computes the
 * position of one tuple by Horner's rule.
 *
 * `Relation` of `src/adt/relation.rs` is the older binary form, whose
 * `diagonal` pushes the bits row by row and whose `is_reflexive` reads the
 * bits `i * (size + 1)`.
 */
module Relations {
  import opened Arith
  import opened BitSpec
  import opened Radix
  import opened Powers
  import BoolLogic

  // ----- the stride of the diagonal -----

  /** `1 + size + … + size^(n-1)`: the position of the tuple `(1, …, 1)`. */
  function GeomSum(size: nat, n: nat): nat
  {
    if n == 0 then 0 else GeomSum(size, n - 1) + Pow(size, n - 1)
  }

  /** `(size - 1) * (1 + size + … + size^(n-1)) + 1 == size^n`. */
  lemma {:induction false} GeomSumClosed(size: nat, n: nat)
    requires size >= 1
    ensures (size - 1) * GeomSum(size, n) + 1 == Pow(size, n)
  {
    if n > 0 {
      GeomSumClosed(size, n - 1);
      var g, p := GeomSum(size, n - 1), Pow(size, n - 1);
      MulDistrib(size - 1, g, p);
      MulDistrib(p, size - 1, 1);
      assert Pow(size, n) == p * size;
    }
  }

  /** The stride of `get_diagonal`: `(num_bits - 1) / (size - 1)`, or 1 below two elements. */
  function Stride(size: nat, arity: nat): (r: nat)
    requires arity >= 1
    ensures r >= 1
    ensures size >= 2 ==> r == GeomSum(size, arity)
  {
    if size >= 2 then
      GeomSumClosed(size, arity);
      DivModUnique(Pow(size, arity) - 1, size - 1, GeomSum(size, arity), 0);
      GeomSumPositive(size, arity);
      (Pow(size, arity) - 1) / (size - 1)
    else 1
  }

  /** With at least one coordinate the stride sum is at least 1. */
  lemma {:induction false} GeomSumPositive(size: nat, n: nat)
    requires n >= 1
    ensures GeomSum(size, n) >= 1
  {
    if n > 1 {
      GeomSumPositive(size, n - 1);
    }
  }

  /** The constant tuple `(d, …, d)` sits at `d` times the stride sum. */
  lemma {:induction false} DotConstant(size: nat, n: nat, d: nat, k: nat)
    requires k <= n
    ensures Dot(Constant(n, d), PlaceValues(Uniform(size, n)), k) == d * GeomSum(size, k)
  {
    if k > 0 {
      DotConstant(size, n, d, k - 1);
      ProdUniform(Uniform(size, n), size, k - 1);
      MulDistrib(d, GeomSum(size, k - 1), Pow(size, k - 1));
    }
  }

  /** The tuple with every coordinate `d`. */
  function Constant(n: nat, d: nat): (r: seq<nat>)
    ensures |r| == n && forall k :: 0 <= k < n ==> r[k] == d
  {
    seq(n, _ => d)
  }

  /** A position is on the diagonal when it is a multiple of the stride below `size` strides. */
  predicate OnDiagonal(size: nat, arity: nat, p: nat)
    requires arity >= 1
  {
    p % Stride(size, arity) == 0 && p / Stride(size, arity) < size
  }

  /**
   * The positions `get_diagonal` sets are exactly the positions of the
   * constant tuples: a tuple is on the diagonal iff all its coordinates agree.
   */
  lemma OnDiagonalIffConstant(size: nat, arity: nat, c: seq<nat>)
    requires arity >= 1 && ValidCoords(Uniform(size, arity), c)
    ensures OnDiagonal(size, arity, Linear(Uniform(size, arity), c)) <==> forall k :: 0 <= k < arity ==> c[k] == c[0]
  {
    var dims := Uniform(size, arity);
    var p := Linear(dims, c);
    var s := Stride(size, arity);
    if forall k :: 0 <= k < arity ==> c[k] == c[0] {
      assert c == Constant(arity, c[0]);
      DotConstant(size, arity, c[0], arity);
      if size >= 2 {
        DivModUnique(p, s, c[0], 0);
      } else {
        assert c[0] == 0;
      }
    }
    if OnDiagonal(size, arity, p) {
      var q := p / s;
      DivModSplit(p, s);
      DotConstant(size, arity, q, arity);
      if size >= 2 {
        assert p == q * GeomSum(size, arity);
        LinearInjective(dims, c, Constant(arity, q));
      } else {
        assert q == 0 && size == 1;
        assert forall k :: 0 <= k < arity ==> c[k] == 0;
      }
    }
  }

  /** The last position the loop sets is `num_bits - 1`: the `debug_assert` of `get_diagonal`. */
  lemma DiagonalLastIndex(size: nat, arity: nat)
    requires size >= 1 && arity >= 1
    ensures (size - 1) * Stride(size, arity) == Pow(size, arity) - 1
  {
    if size >= 2 {
      GeomSumClosed(size, arity);
    } else {
      PowOne(arity);
    }
  }

  /** The bits set after `j` turns of the loop. */
  function DiagonalPrefix(numBits: nat, stride: nat, j: nat): (r: seq<bool>)
    requires stride >= 1
    ensures |r| == numBits
  {
    seq(numBits, p => p % stride == 0 && p / stride < j)
  }

  /** One more turn sets the bit at `j * stride`. */
  lemma DiagonalStep(numBits: nat, stride: nat, j: nat)
    requires stride >= 1 && j * stride < numBits
    ensures DiagonalPrefix(numBits, stride, j)[j * stride := true] == DiagonalPrefix(numBits, stride, j + 1)
  {
    var a := DiagonalPrefix(numBits, stride, j)[j * stride := true];
    var b := DiagonalPrefix(numBits, stride, j + 1);
    forall p | 0 <= p < numBits
      ensures a[p] == b[p]
    {
      DivModSplit(p, stride);
      if p == j * stride {
        DivModUnique(p, stride, j, 0);
      }
    }
  }

  /** Every turn of the loop sets a bit inside the vector. */
  lemma DiagonalInRange(size: nat, arity: nat, j: nat)
    requires j < size && arity >= 1
    ensures j * Stride(size, arity) < Pow(size, arity)
  {
    DiagonalLastIndex(size, arity);
    MulLe(j, size - 1, Stride(size, arity));
  }

  /**
   * `get_diagonal`: a vector of `size^arity` zeros, and a one at every
   * `stride`-th position for `size` turns. It asserts `arity >= 1`.
   */
  method GetDiagonal(size: nat, arity: nat) returns (result: seq<bool>)
    requires arity >= 1
    ensures |result| == Pow(size, arity)
    ensures forall p :: 0 <= p < |result| ==> (result[p] <==> OnDiagonal(size, arity, p))
  {
    var numBits := Pow(size, arity);
    var stride := Stride(size, arity);
    result := seq(numBits, _ => false);
    assert result == DiagonalPrefix(numBits, stride, 0);
    var index := 0;
    for j := 0 to size
      invariant index == j * stride
      invariant result == DiagonalPrefix(numBits, stride, j)
    {
      DiagonalInRange(size, arity, j);
      DiagonalStep(numBits, stride, j);
      result := result[index := true];
      index := index + stride;
    }
  }

  /** `is_diagonal`: `equals` of the element and the diagonal, bit by bit. */
  method IsDiagonal(size: nat, arity: nat, elem: seq<bool>) returns (valid: bool)
    requires arity >= 1 && |elem| == Pow(size, arity)
    ensures valid <==> forall p :: 0 <= p < |elem| ==> (elem[p] <==> OnDiagonal(size, arity, p))
  {
    var diag := GetDiagonal(size, arity);
    valid := true;
    for k := 0 to |elem|
      invariant valid <==> forall p :: 0 <= p < k ==> elem[p] == diag[p]
    {
      valid := valid && elem[k] == diag[k];
    }
  }

  // ----- singletons -----

  /** The radices of the last `m` coordinates. */
  lemma UniformCons(size: nat, m: nat)
    ensures Uniform(size, m + 1) == [size] + Uniform(size, m)
  {
  }

  /**
   * `get_singleton`: the position of the tuple, by Horner's rule from the
   * last coordinate to the first, and the one-hot vector of that position.
   * `indices` are the domain indices of the coordinates; the source asserts
   * there are `arity` of them.
   */
  method GetSingleton(size: nat, arity: nat, indices: seq<nat>) returns (index: nat, result: seq<bool>)
    requires arity == |indices| && ValidCoords(Uniform(size, arity), indices)
    ensures index == Linear(Uniform(size, arity), indices) && index < Pow(size, arity)
    ensures result == OneHot(Pow(size, arity), index)
  {
    index := 0;
    var k := |indices|;
    assert indices[k..] == [];
    while k > 0
      invariant 0 <= k <= |indices|
      invariant index == Linear(Uniform(size, |indices| - k), indices[k..])
    {
      HornerStep(size, indices, k);
      index := index * size + indices[k - 1];
      k := k - 1;
    }
    assert indices[0..] == indices;
    LinearBound(Uniform(size, arity), indices);
    result := seq(Pow(size, arity), _ => false);
    result := result[index := true];
    assert result == OneHot(Pow(size, arity), index);
  }

  /** One turn of Horner's rule: coordinate `k` becomes the least significant digit. */
  lemma HornerStep(size: nat, indices: seq<nat>, k: nat)
    requires 0 < k <= |indices|
    ensures Linear(Uniform(size, |indices| - (k - 1)), indices[k - 1..])
      == Linear(Uniform(size, |indices| - k), indices[k..]) * size + indices[k - 1]
  {
    UniformCons(size, |indices| - k);
    assert indices[k - 1..] == [indices[k - 1]] + indices[k..];
    LinearCons(size, Uniform(size, |indices| - k), indices[k - 1], indices[k..]);
  }

  /** `is_singleton`: asserts arity 1 and folds `one` over the bits. */
  method IsSingleton(arity: nat, elem: seq<bool>) returns (valid: bool)
    requires arity == 1
    ensures valid <==> Count(elem) == 1
    ensures valid <==> exists p :: 0 <= p < |elem| && elem == OneHot(|elem|, p)
  {
    valid := BoolLogic.FoldOne(elem);
    CountBounds(elem);
    if valid {
      var p :| 0 <= p < |elem| && elem[p];
      CountOneUnique(elem, p);
      assert elem == OneHot(|elem|, p);
    }
  }

  // ----- the binary `Relation` of `src/adt/relation.rs` -----

  /** The position of the pair `(i, j)`: row `i` holds the bits `i * size` to `i * size + size - 1`. */
  function Pos(size: nat, i: nat, j: nat): nat
  {
    i * size + j
  }

  /** The pairs of the first `n` rows sit below `n * size`. */
  lemma PosBound(size: nat, n: nat, i: nat, j: nat)
    requires i < n && j < size
    ensures Pos(size, i, j) < n * size
  {
    MulLe(i + 1, n, size);
  }

  /** A relation over a domain of `size` elements, with its arity and its bits. */
  datatype Relation = Relation(size: nat, arity: nat, bits: seq<bool>)
  {
    /** A binary relation with one bit per pair. */
    predicate IsBinary()
    {
      arity == 2 && |bits| == size * size
    }

    /** The pair `(i, j)` is related. */
    predicate Holds(i: nat, j: nat)
      requires IsBinary() && i < size && j < size
    {
      PosBound(size, size, i, j);
      bits[Pos(size, i, j)]
    }
  }

  /** The bits `diagonal` pushes for the rows before row `i`. */
  function DiagonalRows(size: nat, i: nat): (r: seq<bool>)
    requires i <= size
  {
    if i == 0 then [] else DiagonalRows(size, i - 1) + seq(size, j => i - 1 == j)
  }

  /** In the rows before `i`, the bit of the pair `(a, b)` says whether `a == b`. */
  lemma {:induction false} DiagonalRowsHolds(size: nat, i: nat, a: nat, b: nat)
    requires i <= size
    ensures |DiagonalRows(size, i)| == i * size
    ensures a < i && b < size ==> Pos(size, a, b) < i * size && DiagonalRows(size, i)[Pos(size, a, b)] == (a == b)
  {
    if i > 0 {
      DiagonalRowsHolds(size, i - 1, a, b);
      MulSucc(i - 1, size);
      if a < i && b < size {
        PosBound(size, i, a, b);
        if a < i - 1 {
          PosBound(size, i - 1, a, b);
        }
      }
    }
  }

  /** `diagonal`: pushes `i == j` for every row `i` and column `j`, so the pair `(i, j)` holds iff `i == j`. */
  method Diagonal(size: nat) returns (rel: Relation)
    ensures rel.IsBinary() && rel.size == size
    ensures forall i, j :: 0 <= i < size && 0 <= j < size ==> (rel.Holds(i, j) <==> i == j)
  {
    var bits: seq<bool> := [];
    for i := 0 to size
      invariant bits == DiagonalRows(size, i)
    {
      for j := 0 to size
        invariant bits == DiagonalRows(size, i) + seq(j, c => i == c)
      {
        assert seq(j + 1, c => i == c) == seq(j, c => i == c) + [i == j];
        bits := bits + [i == j];
      }
    }
    rel := Relation(size, 2, bits);
    DiagonalRowsHolds(size, size, 0, 0);
    forall i, j | 0 <= i < size && 0 <= j < size
      ensures rel.Holds(i, j) <==> i == j
    {
      DiagonalRowsHolds(size, size, i, j);
    }
  }

  /** `is_reflexive`: asserts arity 2 and conjoins the bits `i * (size + 1)` for `i < size`. */
  method IsReflexive(rel: Relation) returns (result: bool)
    requires rel.IsBinary()
    ensures result <==> forall i :: 0 <= i < rel.size ==> rel.Holds(i, i)
  {
    var size := rel.size;
    var pos := 0;
    result := BoolLogic.Lift(true);
    for i := 0 to size
      invariant pos == Pos(size, i, i)
      invariant result <==> forall k :: 0 <= k < i ==> rel.Holds(k, k)
    {
      DiagonalStepPos(rel, i);
      result := result && rel.bits[pos];
      pos := pos + size + 1;
    }
  }

  /** The diagonal pair `(i, i)` has a bit, and the next one sits `size + 1` further on. */
  lemma DiagonalStepPos(rel: Relation, i: nat)
    requires rel.IsBinary() && i < rel.size
    ensures Pos(rel.size, i, i) < |rel.bits| && rel.bits[Pos(rel.size, i, i)] == rel.Holds(i, i)
    ensures Pos(rel.size, i + 1, i + 1) == Pos(rel.size, i, i) + rel.size + 1
  {
    PosBound(rel.size, rel.size, i, i);
    MulSucc(i, rel.size);
  }

  /** The diagonal is reflexive, for every domain, the empty one included. */
  method DiagonalIsReflexive(size: nat) returns (result: bool)
    ensures result
  {
    var diag := Diagonal(size);
    result := IsReflexive(diag);
  }
}
