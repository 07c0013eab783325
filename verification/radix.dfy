/**
 * Mixed-radix positional notation, the arithmetic behind every linear index
 * of the calculator: tensor coordinates, the digits of a power domain, the
 * tuples of a relation. A coordinate tuple `c` over the radices `dims` (each
 * `c[i] < dims[i]`) stands for the number `Σ c[i] * Prod(dims, i)`: the first
 * coordinate is the least significant digit.
 */
module Radix {
  import opened Arith
  import opened BitSpec

  /** The product of the first `k` radices. */
  function Prod(dims: seq<nat>, k: nat): nat
    requires k <= |dims|
  {
    if k == 0 then 1 else Prod(dims, k - 1) * dims[k - 1]
  }

  /** The number of coordinate tuples: the product of all radices. */
  function Volume(dims: seq<nat>): nat
  {
    Prod(dims, |dims|)
  }

  /** The place values: entry `i` is the product of the radices before `i`. */
  function PlaceValues(dims: seq<nat>): (r: seq<nat>)
    ensures |r| == |dims| && forall i :: 0 <= i < |dims| ==> r[i] == Prod(dims, i)
  {
    seq(|dims|, i requires 0 <= i < |dims| => Prod(dims, i))
  }

  /** The weighted sum `Σ_{i<k} c[i] * w[i]`. */
  function Dot(c: seq<nat>, w: seq<nat>, k: nat): nat
    requires k <= |c| && k <= |w|
  {
    if k == 0 then 0 else Dot(c, w, k - 1) + c[k - 1] * w[k - 1]
  }

  /** A coordinate tuple: one digit per radix, each below its radix. */
  predicate ValidCoords(dims: seq<nat>, c: seq<nat>)
  {
    |c| == |dims| && forall i :: 0 <= i < |c| ==> c[i] < dims[i]
  }

  /** The number a coordinate tuple stands for. */
  function Linear(dims: seq<nat>, c: seq<nat>): nat
    requires |c| == |dims|
  {
    Dot(c, PlaceValues(dims), |dims|)
  }

  /** The tuple of zeros. */
  function Zeros(n: nat): (r: seq<nat>)
    ensures |r| == n && forall i :: 0 <= i < n ==> r[i] == 0
  {
    seq(n, _ => 0)
  }

  /**
   * The first `k` digits of `idx`, least significant first; they are valid
   * digits when `idx < Prod(dims, k)`.
   */
  function Decode(dims: seq<nat>, k: nat, idx: nat): (r: seq<nat>)
    requires k <= |dims|
    ensures |r| == k
    ensures idx < Prod(dims, k) ==> forall i :: 0 <= i < k ==> r[i] < dims[i]
  {
    if k == 0 then
      []
    else
      var p := Prod(dims, k - 1);
      if p == 0 then
        Decode(dims, k - 1, 0) + [0]
      else
        DivBelow(idx, p, dims[k - 1]);
        Decode(dims, k - 1, idx % p) + [idx / p]
  }

  /** The tuple that stands for `idx`: every number below the volume stands for one. */
  function Unrank(dims: seq<nat>, idx: nat): (r: seq<nat>)
    ensures |r| == |dims|
    ensures idx < Volume(dims) ==> ValidCoords(dims, r) && Linear(dims, r) == idx
  {
    if idx < Volume(dims) then
      DotDecode(dims, |dims|, idx);
      Decode(dims, |dims|, idx)
    else
      Decode(dims, |dims|, idx)
  }

  // ----- lemmas -----

  /** One more digit adds its digit times its weight. */
  lemma DotNext(c: seq<nat>, w: seq<nat>, k: nat, x: nat, y: nat)
    requires k < |c| && k < |w| && x == c[k] && y == w[k]
    ensures Dot(c, w, k + 1) == Dot(c, w, k) + x * y
  {
  }

  /** `Dot` reads only the first `k` entries. */
  lemma {:induction false} DotPrefix(c: seq<nat>, d: seq<nat>, w: seq<nat>, k: nat)
    requires k <= |c| && k <= |d| && k <= |w| && c[..k] == d[..k]
    ensures Dot(c, w, k) == Dot(d, w, k)
  {
    if k > 0 {
      assert c[k - 1] == c[..k][k - 1] == d[..k][k - 1] == d[k - 1];
      assert c[..k - 1] == c[..k][..k - 1];
      assert d[..k - 1] == d[..k][..k - 1];
      DotPrefix(c, d, w, k - 1);
    }
  }

  /** `Dot` reads only the first `k` weights. */
  lemma {:induction false} DotWeightPrefix(c: seq<nat>, w: seq<nat>, v: seq<nat>, k: nat)
    requires k <= |c| && k <= |w| && k <= |v| && w[..k] == v[..k]
    ensures Dot(c, w, k) == Dot(c, v, k)
  {
    if k > 0 {
      assert w[k - 1] == w[..k][k - 1] == v[..k][k - 1] == v[k - 1];
      assert w[..k - 1] == w[..k][..k - 1];
      assert v[..k - 1] == v[..k][..k - 1];
      DotWeightPrefix(c, w, v, k - 1);
    }
  }

  /** Replacing one digit changes the sum by the difference times its weight. */
  lemma {:induction false} DotUpdate(c: seq<nat>, w: seq<nat>, k: nat, j: nat, x: nat)
    requires k <= |c| && k <= |w| && j < |c|
    ensures j < k ==> Dot(c[j := x], w, k) + c[j] * w[j] == Dot(c, w, k) + x * w[j]
    ensures j >= k ==> Dot(c[j := x], w, k) == Dot(c, w, k)
  {
    if k > 0 {
      DotUpdate(c, w, k - 1, j, x);
    }
  }

  /** Raising one digit by 1 adds its weight. */
  lemma DotBump(c: seq<nat>, w: seq<nat>, k: nat, j: nat)
    requires k <= |c| && k <= |w| && j < k
    ensures Dot(c[j := c[j] + 1], w, k) == Dot(c, w, k) + w[j]
  {
    DotUpdate(c, w, k, j, c[j] + 1);
    MulSucc(c[j], w[j]);
  }

  /** Clearing one digit removes its digit times its weight. */
  lemma DotClear(c: seq<nat>, w: seq<nat>, k: nat, j: nat)
    requires k <= |c| && k <= |w| && j < k
    ensures Dot(c[j := 0], w, k) + c[j] * w[j] == Dot(c, w, k)
  {
    DotUpdate(c, w, k, j, 0);
  }

  /** A digit that has reached its radix, cleared, is worth the next place value. */
  lemma CarryStep(dims: seq<nat>, c: seq<nat>, i: nat)
    requires |c| == |dims| && i < |dims| && c[i] == dims[i]
    ensures Linear(dims, c[i := 0]) + Prod(dims, i + 1) == Linear(dims, c)
  {
    CarryDot(c, PlaceValues(dims), |dims|, i, Prod(dims, i + 1));
  }

  lemma CarryDot(c: seq<nat>, w: seq<nat>, k: nat, j: nat, q: nat)
    requires k <= |c| && k <= |w| && j < k && q == w[j] * c[j]
    ensures Dot(c[j := 0], w, k) + q == Dot(c, w, k)
  {
    DotClear(c, w, k, j);
    CarryArith(Dot(c[j := 0], w, k), Dot(c, w, k), c[j], w[j], c[j], q);
  }

  lemma CarryArith(a: int, b: int, x: int, p: int, d: int, q: int)
    requires a + x * p == b && q == p * d && x == d
    ensures a + q == b
  {
  }

  /** Adding to one weight adds that much times its digit. */
  lemma {:induction false} DotAddWeight(c: seq<nat>, w: seq<nat>, k: nat, j: nat, s: nat)
    requires k <= |c| && k <= |w| && j < k
    ensures Dot(c, w[j := w[j] + s], k) == Dot(c, w, k) + c[j] * s
  {
    if j < k - 1 {
      DotAddWeight(c, w, k - 1, j, s);
    } else {
      DotWeightPrefix(c, w[j := w[j] + s], w, k - 1);
      MulDistrib(c[j], w[j], s);
    }
  }

  /** Zero weights sum to zero. */
  lemma {:induction false} DotZeroWeights(c: seq<nat>, n: nat, k: nat)
    requires k <= n && k <= |c|
    ensures Dot(c, Zeros(n), k) == 0
  {
    if k > 0 {
      DotZeroWeights(c, n, k - 1);
    }
  }

  /** The all-zero tuple stands for 0. */
  lemma {:induction false} DotZeros(w: seq<nat>, n: nat, k: nat)
    requires k <= n && k <= |w|
    ensures Dot(Zeros(n), w, k) == 0
  {
    if k > 0 {
      DotZeros(w, n, k - 1);
    }
  }

  /** A valid tuple stands for a number below the volume of its radices. */
  lemma {:induction false} DotBound(dims: seq<nat>, c: seq<nat>, k: nat)
    requires k <= |dims| && k <= |c| && forall i :: 0 <= i < k ==> c[i] < dims[i]
    ensures Dot(c, PlaceValues(dims), k) < Prod(dims, k)
  {
    if k > 0 {
      DotBound(dims, c, k - 1);
      var p, d, x := Prod(dims, k - 1), dims[k - 1], c[k - 1];
      assert Dot(c, PlaceValues(dims), k) == Dot(c, PlaceValues(dims), k - 1) + x * p;
      assert Prod(dims, k) == p * d;
      MulLe(x, d - 1, p);
      MulSucc(d - 1, p);
      assert (d - 1 + 1) * p == p * d;
    }
  }

  lemma LinearBound(dims: seq<nat>, c: seq<nat>)
    requires ValidCoords(dims, c)
    ensures Linear(dims, c) < Volume(dims)
  {
    DotBound(dims, c, |dims|);
  }

  lemma LinearBoundAll(dims: seq<nat>)
    ensures forall c :: ValidCoords(dims, c) ==> Linear(dims, c) < Volume(dims)
  {
    forall c | ValidCoords(dims, c)
      ensures Linear(dims, c) < Volume(dims)
    {
      LinearBound(dims, c);
    }
  }

  /** Decoding and then summing gives the number back. */
  lemma {:induction false} DotDecode(dims: seq<nat>, k: nat, idx: nat)
    requires k <= |dims| && idx < Prod(dims, k)
    ensures Dot(Decode(dims, k, idx), PlaceValues(dims), k) == idx
  {
    if k > 0 {
      var p := Prod(dims, k - 1);
      DecodeLast(dims, k, idx);
      var prev := Decode(dims, k - 1, idx % p);
      DotDecode(dims, k - 1, idx % p);
      DivModSplit(idx, p);
      var w := PlaceValues(dims);
      DotAppend(prev, w, k, idx / p, p, idx % p, idx);
    }
  }

  /** Appending the digit `q` of place value `p` to a tuple summing to `r` gives `q * p + r`. */
  lemma DotAppend(prev: seq<nat>, w: seq<nat>, k: nat, q: nat, p: nat, r: nat, idx: nat)
    requires 0 < k <= |w| && |prev| == k - 1 && w[k - 1] == p
    requires Dot(prev, w, k - 1) == r && idx == q * p + r
    ensures Dot(prev + [q], w, k) == idx
  {
    var d := prev + [q];
    assert d[..k - 1] == prev[..k - 1];
    DotPrefix(d, prev, w, k - 1);
    DotNext(d, w, k - 1, q, p);
  }

  /** Below a positive volume, the last digit of `Decode` is the quotient by the place value and the rest decodes the remainder. */
  lemma DecodeLast(dims: seq<nat>, k: nat, idx: nat)
    requires 0 < k <= |dims| && idx < Prod(dims, k)
    ensures Prod(dims, k - 1) > 0
    ensures idx % Prod(dims, k - 1) < Prod(dims, k - 1)
    ensures Decode(dims, k, idx) == Decode(dims, k - 1, idx % Prod(dims, k - 1)) + [idx / Prod(dims, k - 1)]
  {
    var p := Prod(dims, k - 1);
    assert Prod(dims, k) == p * dims[k - 1];
    MulLtCancel(0, p, dims[k - 1]);
  }

  /** Summing a valid tuple and then decoding gives the tuple back. */
  lemma {:induction false} DecodeDot(dims: seq<nat>, c: seq<nat>, k: nat)
    requires k <= |dims| && k <= |c| && forall i :: 0 <= i < k ==> c[i] < dims[i]
    ensures Decode(dims, k, Dot(c, PlaceValues(dims), k)) == c[..k]
  {
    DotBound(dims, c, k);
    if k > 0 {
      var p := Prod(dims, k - 1);
      var low := Dot(c, PlaceValues(dims), k - 1);
      DotBound(dims, c, k - 1);
      var x := Dot(c, PlaceValues(dims), k);
      DivModUnique(x, p, c[k - 1], low);
      DecodeDot(dims, c, k - 1);
      assert c[..k] == c[..k - 1] + [c[k - 1]];
    }
  }

  /** Two valid tuples standing for the same number are equal. */
  lemma LinearInjective(dims: seq<nat>, c: seq<nat>, d: seq<nat>)
    requires ValidCoords(dims, c) && ValidCoords(dims, d) && Linear(dims, c) == Linear(dims, d)
    ensures c == d
  {
    DecodeDot(dims, c, |dims|);
    DecodeDot(dims, d, |dims|);
    assert c == c[..|dims|] && d == d[..|dims|];
  }

  /** `Unrank` inverts `Linear` on valid tuples. */
  lemma UnrankLinear(dims: seq<nat>, c: seq<nat>)
    requires ValidCoords(dims, c)
    ensures Unrank(dims, Linear(dims, c)) == c
  {
    LinearBound(dims, c);
    LinearInjective(dims, c, Unrank(dims, Linear(dims, c)));
  }

  /** The volume is 0 exactly when some radix is 0. */
  lemma {:induction false} ProdZero(dims: seq<nat>, k: nat)
    requires k <= |dims|
    ensures Prod(dims, k) == 0 <==> exists i :: 0 <= i < k && dims[i] == 0
  {
    if k > 0 {
      ProdZero(dims, k - 1);
      if Prod(dims, k) == 0 && Prod(dims, k - 1) != 0 {
        assert dims[k - 1] == 0;
      }
    }
  }

  /** Radices put in front multiply the volume. */
  lemma {:induction false} ProdAppend(a: seq<nat>, b: seq<nat>, k: nat)
    requires k <= |b|
    ensures Prod(a + b, |a| + k) == Volume(a) * Prod(b, k)
  {
    if k == 0 {
      assert (a + b)[..|a|] == a;
      ProdPrefix(a + b, a, |a|);
    } else {
      ProdAppend(a, b, k - 1);
      assert (a + b)[|a| + k - 1] == b[k - 1];
    }
  }

  /** `Prod` reads only the first `k` radices. */
  lemma {:induction false} ProdPrefix(dims: seq<nat>, other: seq<nat>, k: nat)
    requires k <= |dims| && k <= |other| && dims[..k] == other[..k]
    ensures Prod(dims, k) == Prod(other, k)
  {
    if k > 0 {
      assert dims[k - 1] == dims[..k][k - 1] == other[..k][k - 1] == other[k - 1];
      assert dims[..k - 1] == dims[..k][..k - 1];
      assert other[..k - 1] == other[..k][..k - 1];
      ProdPrefix(dims, other, k - 1);
    }
  }

  lemma VolumeAppend(a: seq<nat>, b: seq<nat>)
    ensures Volume(a + b) == Volume(a) * Volume(b)
  {
    ProdAppend(a, b, |b|);
  }

  /** Putting one radix `d` in front: the volume is `d` times the rest. */
  lemma {:induction false} ProdCons(d: nat, rest: seq<nat>, k: nat)
    requires k <= |rest|
    ensures Prod([d] + rest, k + 1) == d * Prod(rest, k)
  {
    if k > 0 {
      ProdCons(d, rest, k - 1);
      assert ([d] + rest)[k] == rest[k - 1];
    }
  }

  /** Putting a digit `i` of radix `d` in front: the number is `i + d` times the rest. */
  lemma {:induction false} DotCons(d: nat, rest: seq<nat>, i: nat, c: seq<nat>, k: nat)
    requires k <= |rest| && k <= |c|
    ensures Dot([i] + c, PlaceValues([d] + rest), k + 1) == i + d * Dot(c, PlaceValues(rest), k)
  {
    if k > 0 {
      var a, pv := [i] + c, PlaceValues([d] + rest);
      DotCons(d, rest, i, c, k - 1);
      ProdCons(d, rest, k - 1);
      var x, p, low := c[k - 1], Prod(rest, k - 1), Dot(c, PlaceValues(rest), k - 1);
      assert a[k] == x;
      assert pv[k] == d * p;
      assert Dot(a, pv, k + 1) == Dot(a, pv, k) + x * (d * p);
      assert Dot(c, PlaceValues(rest), k) == low + x * p;
      MulComm3(x, d, p);
      MulDistrib(d, low, x * p);
    }
  }

  lemma LinearCons(d: nat, rest: seq<nat>, i: nat, c: seq<nat>)
    requires |c| == |rest|
    ensures Linear([d] + rest, [i] + c) == i + d * Linear(rest, c)
    ensures Volume([d] + rest) == d * Volume(rest)
  {
    DotCons(d, rest, i, c, |rest|);
    ProdCons(d, rest, |rest|);
  }

  /** With every radix equal to `n` the volume is `n` to the number of radices. */
  lemma {:induction false} ProdUniform(dims: seq<nat>, n: nat, k: nat)
    requires k <= |dims| && forall i :: 0 <= i < |dims| ==> dims[i] == n
    ensures Prod(dims, k) == Pow(n, k)
  {
    if k > 0 {
      ProdUniform(dims, n, k - 1);
    }
  }
}
