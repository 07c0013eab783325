/**
 * The binary relations of `src/math/binrel.rs`, over the `bool` tensors of
 * `Tensors`. A relation from an `a`-element set to a `b`-element set is a
 * tensor of shape `[a, b]`, and the pair `(i, j)` is related when the
 * element at `[i, j]` is true. The named relations are built by `create`;
 * the `BinaryRel` operations are compositions of `polymer`, the
 * elementwise operations and the folds of the first dimension, and they
 * answer with a tensor of shape `[]`.
 *
 * `polymer` asserts that the mapping has one entry per dimension, and the
 * mappings here have two, so every operation works on tensors of rank 2.
 * A fold of an empty first dimension into a non-empty shape, or into the
 * shape `[]`, fails the size check of `Tensor::new`; the `requires` clauses
 * that ask for non-empty sets come from there.
 */
module BinaryRelations {
  import opened Arith
  import opened BitSpec
  import opened Radix
  import opened Tensors

  // ----- relations as tensors -----

  /** A tensor of shape `[a, b]`. */
  predicate IsRel(t: Tensor<bool>, a: nat, b: nat)
  {
    t.Wf() && t.shape.dims == [a, b]
  }

  /** The pair `(i, j)` is related. */
  function Get(t: Tensor<bool>, i: nat, j: nat): bool
    requires t.Wf() && |t.shape.dims| == 2 && i < t.shape.dims[0] && j < t.shape.dims[1]
  {
    t.At([i, j])
  }

  /** A tensor of shape `[]`: one truth value. */
  predicate IsScalar(t: Tensor<bool>)
  {
    t.Wf() && t.shape.dims == []
  }

  /** The truth value of a tensor of shape `[]`. */
  function Truth(t: Tensor<bool>): bool
    requires IsScalar(t)
  {
    t.At([])
  }

  /** Row `i`: the elements related to `i`, as a vector over the second set. */
  function Row(t: Tensor<bool>, a: nat, b: nat, i: nat): (r: seq<bool>)
    requires IsRel(t, a, b) && i < a
    ensures |r| == b && forall j :: 0 <= j < b ==> r[j] == Get(t, i, j)
  {
    seq(b, j requires 0 <= j < b => Get(t, i, j))
  }

  /** Two relations of the same shape that relate the same pairs are the same tensor. */
  lemma RelExtensional(t0: Tensor<bool>, t1: Tensor<bool>, a: nat, b: nat)
    requires IsRel(t0, a, b) && IsRel(t1, a, b)
    requires forall i: nat, j: nat :: i < a && j < b ==> Get(t0, i, j) == Get(t1, i, j)
    ensures t0 == t1
  {
    forall p | 0 <= p < |t0.elems|
      ensures t0.elems[p] == t1.elems[p]
    {
      var c := Unrank([a, b], p);
      assert c == [c[0], c[1]];
      assert Get(t0, c[0], c[1]) == Get(t1, c[0], c[1]);
    }
  }

  // ----- the properties the predicates decide -----

  predicate Reflexive(t: Tensor<bool>, n: nat)
    requires IsRel(t, n, n)
  {
    forall i: nat :: i < n ==> Get(t, i, i)
  }

  predicate Symmetric(t: Tensor<bool>, n: nat)
    requires IsRel(t, n, n)
  {
    forall i: nat, j: nat :: i < n && j < n && Get(t, i, j) ==> Get(t, j, i)
  }

  predicate Antisymmetric(t: Tensor<bool>, n: nat)
    requires IsRel(t, n, n)
  {
    forall i: nat, j: nat :: i < n && j < n && Get(t, i, j) && Get(t, j, i) ==> i == j
  }

  predicate Transitive(t: Tensor<bool>, n: nat)
    requires IsRel(t, n, n)
  {
    forall i: nat, j: nat, k: nat :: i < n && j < n && k < n && Get(t, i, j) && Get(t, j, k) ==> Get(t, i, k)
  }

  // ----- the named relations -----

  /**
   * The order of the crown on `size` elements: the odd elements are
   * maximal, the even element `i` lies below its neighbours `i - 1` and
   * `i + 1`, and 0 lies below 1 and `size - 1`.
   */
  predicate CrownLeq(size: nat, i: nat, j: nat)
  {
    if i % 2 == 1 then i == j
    else if i == 0 then j <= 1 || j == size - 1
    else i - 1 <= j <= i + 1
  }

  /** The crown order is reflexive, antisymmetric and transitive. */
  lemma CrownLeqIsPartialOrder(size: nat)
    requires size >= 4 && size % 2 == 0
    ensures forall i: nat :: i < size ==> CrownLeq(size, i, i)
    ensures forall i: nat, j: nat :: i < size && j < size && CrownLeq(size, i, j) && CrownLeq(size, j, i) ==> i == j
    ensures forall i: nat, j: nat, k: nat :: i < size && j < size && k < size && CrownLeq(size, i, j) && CrownLeq(size, j, k) ==> CrownLeq(size, i, k)
  {
    forall i: nat, j: nat | i < size && j < size && CrownLeq(size, i, j) && i != j
      ensures j % 2 == 1
    {
      if i == 0 {
        assert j == 1 || j == size - 1;
      } else {
        assert j == i - 1 || j == i + 1;
      }
    }
  }

  /** `crown_poset`: asserts an even size of at least 4; the pair `(i, j)` holds iff `i` is below `j` in the crown. */
  method CrownPoset(size: nat) returns (t: Tensor<bool>)
    requires size >= 4 && size % 2 == 0
    ensures IsRel(t, size, size)
    ensures forall i: nat, j: nat :: i < size && j < size ==> Get(t, i, j) == CrownLeq(size, i, j)
  {
    t := Create(Shape([size, size]), c => |c| == 2 && CrownLeq(size, c[0], c[1]));
    CreatedPairs(t, size, size);
  }

  /** The coordinate tuples of a relation are the pairs. */
  lemma CreatedPairs(t: Tensor<bool>, a: nat, b: nat)
    requires IsRel(t, a, b)
    ensures forall i: nat, j: nat :: i < a && j < b ==> ValidCoords(t.shape.dims, [i, j])
  {
  }

  /** `diagonal`: the pair `(i, j)` holds iff `i == j`. */
  method Diagonal(size: nat) returns (t: Tensor<bool>)
    ensures IsRel(t, size, size)
    ensures forall i: nat, j: nat :: i < size && j < size ==> (Get(t, i, j) <==> i == j)
  {
    t := Create(Shape([size, size]), c => |c| == 2 && c[0] == c[1]);
    CreatedPairs(t, size, size);
  }

  /** `less_than`: the pair `(i, j)` holds iff `i < j`. */
  method LessThan(size: nat) returns (t: Tensor<bool>)
    ensures IsRel(t, size, size)
    ensures forall i: nat, j: nat :: i < size && j < size ==> (Get(t, i, j) <==> i < j)
  {
    t := Create(Shape([size, size]), c => |c| == 2 && c[0] < c[1]);
    CreatedPairs(t, size, size);
  }

  /** `singleton`: only the pair `pos` holds; a `pos` outside the square gives the empty relation. */
  method Singleton(size: nat, pos: (nat, nat)) returns (t: Tensor<bool>)
    ensures IsRel(t, size, size)
    ensures forall i: nat, j: nat :: i < size && j < size ==> (Get(t, i, j) <==> (i, j) == pos)
  {
    t := Create(Shape([size, size]), c => |c| == 2 && c[0] == pos.0 && c[1] == pos.1);
    CreatedPairs(t, size, size);
  }

  /** `partial_map`: `i` is related to `j` iff `mapping[i] == j`, so a negative entry leaves its row empty. */
  method PartialMap(mapping: seq<int>, target: nat) returns (t: Tensor<bool>)
    ensures IsRel(t, |mapping|, target)
    ensures forall i: nat, j: nat :: i < |mapping| && j < target ==> (Get(t, i, j) <==> mapping[i] == j)
  {
    t := Create(Shape([|mapping|, target]), c => |c| == 2 && c[0] < |mapping| && mapping[c[0]] == c[1] as int);
    CreatedPairs(t, |mapping|, target);
  }

  // ----- the folds of a relation -----

  /** Column `j`: the elements related to `j`, the run a first-dimension fold reduces. */
  function Column(t: Tensor<bool>, a: nat, b: nat, j: nat): (r: seq<bool>)
    requires IsRel(t, a, b) && j < b
    ensures |r| == a && forall i :: 0 <= i < a ==> r[i] == Get(t, i, j)
  {
    seq(a, i requires 0 <= i < a => Get(t, i, j))
  }

  /** The fiber of a relation at `[j]` is its column `j`. */
  lemma FiberIsColumn(t: Tensor<bool>, a: nat, b: nat, j: nat)
    requires IsRel(t, a, b) && j < b
    ensures ValidCoords(t.shape.dims[1..], [j]) && Fiber(t, [j]) == Column(t, a, b, j)
  {
    assert t.shape.dims[1..] == [b];
    forall i | 0 <= i < a
      ensures Fiber(t, [j])[i] == Column(t, a, b, j)[i]
    {
      assert [i] + [j] == [i, j];
    }
  }

  /** A tensor of shape `[n]`: a vector. */
  predicate IsVec(v: Tensor<bool>, n: nat)
  {
    v.Wf() && v.shape.dims == [n]
  }

  /** The entries of a vector. */
  function Entries(v: Tensor<bool>, n: nat): (r: seq<bool>)
    requires IsVec(v, n)
    ensures |r| == n
  {
    seq(n, i requires 0 <= i < n => v.At([i]))
  }

  /** A fold of the first dimension of a relation: entry `j` folds column `j`. */
  method FoldColumns(kind: FoldKind, t: Tensor<bool>, a: nat, b: nat) returns (v: Tensor<bool>)
    requires IsRel(t, a, b) && (a != 0 || b == 0)
    ensures IsVec(v, b)
    ensures forall j :: 0 <= j < b ==> Entries(v, b)[j] == FoldSpec(kind, Column(t, a, b, j))
  {
    assert Volume([b]) == b by { assert Prod([b], 1) == Prod([b], 0) * b; }
    v := FoldFirst(kind, t);
    assert v.shape.dims == t.shape.dims[1..] == [b];
    forall j | 0 <= j < b
      ensures Entries(v, b)[j] == FoldSpec(kind, Column(t, a, b, j))
    {
      FiberIsColumn(t, a, b, j);
    }
  }

  /** A fold of a non-empty vector into the shape `[]`. */
  method FoldVector(kind: FoldKind, v: Tensor<bool>, n: nat) returns (s: Tensor<bool>)
    requires IsVec(v, n) && n != 0
    ensures IsScalar(s) && Truth(s) == FoldSpec(kind, Entries(v, n))
  {
    s := FoldFirst(kind, v);
    assert v.shape.dims[1..] == [];
    assert Fiber(v, []) == Entries(v, n) by {
      forall i | 0 <= i < n
        ensures Fiber(v, [])[i] == Entries(v, n)[i]
      {
        assert [i] + [] == [i];
      }
    }
  }

  /** `tensor_all` twice: every pair of the relation holds. */
  method AllPairs(t: Tensor<bool>, a: nat, b: nat) returns (s: Tensor<bool>)
    requires IsRel(t, a, b) && a != 0 && b != 0
    ensures IsScalar(s)
    ensures Truth(s) <==> forall i: nat, j: nat :: i < a && j < b ==> Get(t, i, j)
  {
    var v := FoldColumns(FoldKind.All, t, a, b);
    s := FoldVector(FoldKind.All, v, b);
    if Truth(s) {
      forall i: nat, j: nat | i < a && j < b
        ensures Get(t, i, j)
      {
        assert Entries(v, b)[j];
        assert Column(t, a, b, j)[i];
      }
    }
  }

  // ----- the elementwise operations on relations -----

  /** `tensor_not` on a relation. */
  method Not(t: Tensor<bool>, a: nat, b: nat) returns (r: Tensor<bool>)
    requires IsRel(t, a, b)
    ensures IsRel(r, a, b)
    ensures forall i: nat, j: nat :: i < a && j < b ==> Get(r, i, j) == !Get(t, i, j)
  {
    r := MapNot(t);
    CreatedPairs(t, a, b);
  }

  /** `tensor_and`, `tensor_or`, `tensor_equ` and `tensor_imp` on two relations of the same shape. */
  method Combine(op: BinOp, t0: Tensor<bool>, t1: Tensor<bool>, a: nat, b: nat) returns (r: Tensor<bool>)
    requires IsRel(t0, a, b) && IsRel(t1, a, b)
    ensures IsRel(r, a, b)
    ensures forall i: nat, j: nat :: i < a && j < b ==> Get(r, i, j) == Apply(op, Get(t0, i, j), Get(t1, i, j))
  {
    r := Map2(op, t0, t1);
    CreatedPairs(t0, a, b);
  }

  /** `tensor_and` on two truth values. */
  method And(s0: Tensor<bool>, s1: Tensor<bool>) returns (s: Tensor<bool>)
    requires IsScalar(s0) && IsScalar(s1)
    ensures IsScalar(s) && (Truth(s) <==> Truth(s0) && Truth(s1))
  {
    s := Map2(BinOp.And, s0, s1);
  }

  // ----- the `BinaryRel` operations -----

  /** `transpose`: the relation of shape `[b, a]` that relates `j` to `i` iff `i` is related to `j`. */
  method Transpose(t: Tensor<bool>, a: nat, b: nat) returns (r: Tensor<bool>)
    requires IsRel(t, a, b)
    ensures IsRel(r, b, a)
    ensures forall i: nat, j: nat :: i < a && j < b ==> Get(r, j, i) == Get(t, i, j)
  {
    var (a0, b0, rest) := t.shape.Split2();
    assert rest.dims == [];
    var shape := rest.Join([b0, a0]);
    r := Polymer(t, shape, [1, 0]);
    forall i: nat, j: nat | i < a && j < b
      ensures Get(r, j, i) == Get(t, i, j)
    {
      assert ValidCoords(shape.dims, [j, i]);
      assert Gather([j, i], [1, 0]) == [i, j];
    }
  }

  /** `compose`: `i` is related to `k` iff some `j` has `i` related to `j` in `t0` and `j` to `k` in `t1`. */
  method Compose(t0: Tensor<bool>, t1: Tensor<bool>, a: nat, b: nat, c: nat) returns (r: Tensor<bool>)
    requires IsRel(t0, a, b) && IsRel(t1, b, c)
    requires b != 0 || a == 0 || c == 0
    ensures IsRel(r, a, c)
    ensures forall i: nat, k: nat :: i < a && k < c ==> (Get(r, i, k) <==> exists j: nat :: j < b && Get(t0, i, j) && Get(t1, j, k))
  {
    var shape := Shape([b, a, c]);
    var p0 := Polymer(t0, shape, [1, 0]);
    var p1 := Polymer(t1, shape, [0, 2]);
    var both := Map2(BinOp.And, p0, p1);
    assert Volume([a, c]) == a * c by {
      assert Prod([a, c], 1) == Prod([a, c], 0) * a;
      assert Prod([a, c], 2) == Prod([a, c], 1) * c;
    }
    r := FoldFirst(FoldKind.Any, both);
    assert r.shape.dims == [a, c];
    forall i: nat, k: nat | i < a && k < c
      ensures Get(r, i, k) <==> exists j: nat :: j < b && Get(t0, i, j) && Get(t1, j, k)
    {
      ComposeFiber(t0, t1, p0, p1, both, a, b, c, i, k);
      assert Get(r, i, k) == FoldSpec(FoldKind.Any, Fiber(both, [i, k]));
    }
  }

  /** The fiber `compose` folds at `[i, k]` holds the conjunctions through each middle element `j`. */
  lemma ComposeFiber(t0: Tensor<bool>, t1: Tensor<bool>, p0: Tensor<bool>, p1: Tensor<bool>, both: Tensor<bool>, a: nat, b: nat, c: nat, i: nat, k: nat)
    requires IsRel(t0, a, b) && IsRel(t1, b, c) && i < a && k < c
    requires p0.Wf() && p1.Wf() && p0.shape.dims == p1.shape.dims == [b, a, c]
    requires forall x :: ValidCoords([b, a, c], x) ==> p0.At(x) == t0.At(Gather(x, [1, 0]))
    requires forall x :: ValidCoords([b, a, c], x) ==> p1.At(x) == t1.At(Gather(x, [0, 2]))
    requires both.Wf() && both.shape == p0.shape
    requires forall x :: ValidCoords([b, a, c], x) ==> both.At(x) == (p0.At(x) && p1.At(x))
    ensures ValidCoords(both.shape.dims[1..], [i, k])
    ensures forall j :: 0 <= j < b ==> Fiber(both, [i, k])[j] == (Get(t0, i, j) && Get(t1, j, k))
  {
    assert both.shape.dims[1..] == [a, c];
    forall j | 0 <= j < b
      ensures Fiber(both, [i, k])[j] == (Get(t0, i, j) && Get(t1, j, k))
    {
      var x := [j] + [i, k];
      assert x == [j, i, k];
      assert ValidCoords([b, a, c], x);
      assert Gather(x, [1, 0]) == [i, j];
      assert Gather(x, [0, 2]) == [j, k];
    }
  }

  /** `is_function`: every row has exactly one related element. */
  method IsFunction(f: Tensor<bool>, a: nat, b: nat) returns (s: Tensor<bool>)
    requires IsRel(f, a, b) && a != 0 && b != 0
    ensures IsScalar(s)
    ensures Truth(s) <==> forall i: nat :: i < a ==> Count(Row(f, a, b, i)) == 1
  {
    var ft := Transpose(f, a, b);
    var ones := FoldColumns(FoldKind.One, ft, b, a);
    s := FoldVector(FoldKind.All, ones, a);
    forall i: nat | i < a
      ensures Entries(ones, a)[i] == (Count(Row(f, a, b, i)) == 1)
    {
      assert Column(ft, b, a, i) == Row(f, a, b, i);
    }
  }

  /** Some element of the first set is related to `j`. */
  predicate Hit(f: Tensor<bool>, a: nat, b: nat, j: nat)
    requires IsRel(f, a, b) && j < b
  {
    exists i: nat :: i < a && Get(f, i, j)
  }

  /** `is_surjective`: every element of the second set is related to by some element. */
  method IsSurjective(f: Tensor<bool>, a: nat, b: nat) returns (s: Tensor<bool>)
    requires IsRel(f, a, b) && a != 0 && b != 0
    ensures IsScalar(s)
    ensures Truth(s) <==> forall j: nat :: j < b ==> Hit(f, a, b, j)
  {
    var any := FoldColumns(FoldKind.Any, f, a, b);
    s := FoldVector(FoldKind.All, any, b);
    forall j: nat | j < b
      ensures Entries(any, b)[j] == Hit(f, a, b, j)
    {
      var col := Column(f, a, b, j);
      assert (exists i :: 0 <= i < |col| && col[i]) == exists i: nat :: i < a && Get(f, i, j);
    }
  }

  /** `is_reflexive`: asserts a square relation, takes its diagonal with the mapping `[0, 0]` and conjoins it. */
  method IsReflexive(t: Tensor<bool>, n: nat) returns (s: Tensor<bool>)
    requires IsRel(t, n, n) && n != 0
    ensures IsScalar(s) && (Truth(s) <==> Reflexive(t, n))
  {
    var (head, shape) := t.shape.Split1();
    assert head == shape.dims[0];
    var diag := Polymer(t, shape, [0, 0]);
    assert IsVec(diag, n);
    s := FoldVector(FoldKind.All, diag, n);
    forall i: nat | i < n
      ensures Entries(diag, n)[i] == Get(t, i, i)
    {
      assert ValidCoords(shape.dims, [i]);
      assert Gather([i], [0, 0]) == [i, i];
    }
  }

  /** `is_subset_of`: every pair of `t0` is a pair of `t1`. */
  method IsSubsetOf(t0: Tensor<bool>, t1: Tensor<bool>, a: nat, b: nat) returns (s: Tensor<bool>)
    requires IsRel(t0, a, b) && IsRel(t1, a, b) && a != 0 && b != 0
    ensures IsScalar(s)
    ensures Truth(s) <==> forall i: nat, j: nat :: i < a && j < b && Get(t0, i, j) ==> Get(t1, i, j)
  {
    var imp := Combine(BinOp.Imp, t0, t1, a, b);
    s := AllPairs(imp, a, b);
  }

  /** `is_equal_to`: the two relations are the same. */
  method IsEqualTo(t0: Tensor<bool>, t1: Tensor<bool>, a: nat, b: nat) returns (s: Tensor<bool>)
    requires IsRel(t0, a, b) && IsRel(t1, a, b) && a != 0 && b != 0
    ensures IsScalar(s) && (Truth(s) <==> t0 == t1)
  {
    var equ := Combine(BinOp.Equ, t0, t1, a, b);
    s := AllPairs(equ, a, b);
    if Truth(s) {
      RelExtensional(t0, t1, a, b);
    }
  }

  /** `is_not_equal_to`: the two relations differ. */
  method IsNotEqualTo(t0: Tensor<bool>, t1: Tensor<bool>, a: nat, b: nat) returns (s: Tensor<bool>)
    requires IsRel(t0, a, b) && IsRel(t1, a, b) && a != 0 && b != 0
    ensures IsScalar(s) && (Truth(s) <==> t0 != t1)
  {
    var equal := IsEqualTo(t0, t1, a, b);
    s := MapNot(equal);
  }

  /** `is_proper_subset_of`: a subset that is not equal. */
  method IsProperSubsetOf(t0: Tensor<bool>, t1: Tensor<bool>, a: nat, b: nat) returns (s: Tensor<bool>)
    requires IsRel(t0, a, b) && IsRel(t1, a, b) && a != 0 && b != 0
    ensures IsScalar(s)
    ensures Truth(s) <==> t0 != t1 && forall i: nat, j: nat :: i < a && j < b && Get(t0, i, j) ==> Get(t1, i, j)
  {
    var sub := IsSubsetOf(t0, t1, a, b);
    var neq := IsNotEqualTo(t0, t1, a, b);
    s := And(sub, neq);
  }

  /** `is_transitive`: the composition with itself is a subset. */
  method IsTransitive(t: Tensor<bool>, n: nat) returns (s: Tensor<bool>)
    requires IsRel(t, n, n) && n != 0
    ensures IsScalar(s) && (Truth(s) <==> Transitive(t, n))
  {
    var square := Compose(t, t, n, n, n);
    s := IsSubsetOf(square, t, n, n);
    if Truth(s) {
      forall i: nat, j: nat, k: nat | i < n && j < n && k < n && Get(t, i, j) && Get(t, j, k)
        ensures Get(t, i, k)
      {
        assert Get(square, i, k);
      }
    }
  }

  /** `is_symmetric`: the transpose is a subset. */
  method IsSymmetric(t: Tensor<bool>, n: nat) returns (s: Tensor<bool>)
    requires IsRel(t, n, n) && n != 0
    ensures IsScalar(s) && (Truth(s) <==> Symmetric(t, n))
  {
    var tt := Transpose(t, n, n);
    var imp := Combine(BinOp.Imp, tt, t, n, n);
    s := AllPairs(imp, n, n);
    if Truth(s) {
      forall i: nat, j: nat | i < n && j < n && Get(t, i, j)
        ensures Get(t, j, i)
      {
        assert Get(imp, j, i);
      }
    }
  }

  /**
   * `is_antisymmetric`: every pair is on the diagonal, or is missing, or
   * has its reverse missing.
   */
  method IsAntisymmetric(t: Tensor<bool>, n: nat) returns (s: Tensor<bool>)
    requires IsRel(t, n, n) && n != 0
    ensures IsScalar(s) && (Truth(s) <==> Antisymmetric(t, n))
  {
    var diag := Diagonal(n);
    var missing := Not(t, n, n);
    var tmp := Combine(BinOp.Or, diag, missing, n, n);
    var reverse := Transpose(missing, n, n);
    tmp := Combine(BinOp.Or, tmp, reverse, n, n);
    s := AllPairs(tmp, n, n);
    if Truth(s) {
      forall i: nat, j: nat | i < n && j < n && Get(t, i, j) && Get(t, j, i)
        ensures i == j
      {
        assert Get(tmp, i, j);
      }
    }
  }

  /** `is_partial_order`: reflexive, transitive and antisymmetric. */
  method IsPartialOrder(t: Tensor<bool>, n: nat) returns (s: Tensor<bool>)
    requires IsRel(t, n, n) && n != 0
    ensures IsScalar(s)
    ensures Truth(s) <==> Reflexive(t, n) && Transitive(t, n) && Antisymmetric(t, n)
  {
    var refl := IsReflexive(t, n);
    var trans := IsTransitive(t, n);
    var anti := IsAntisymmetric(t, n);
    var both := And(refl, trans);
    s := And(anti, both);
  }

  /** `is_equivalence`: reflexive, transitive and symmetric. */
  method IsEquivalence(t: Tensor<bool>, n: nat) returns (s: Tensor<bool>)
    requires IsRel(t, n, n) && n != 0
    ensures IsScalar(s)
    ensures Truth(s) <==> Reflexive(t, n) && Transitive(t, n) && Symmetric(t, n)
  {
    var refl := IsReflexive(t, n);
    var trans := IsTransitive(t, n);
    var sym := IsSymmetric(t, n);
    var both := And(refl, trans);
    s := And(sym, both);
  }

  /** The pairs `covers` keeps: off the diagonal, with no off-diagonal step in between. */
  predicate Covered(t: Tensor<bool>, n: nat, i: nat, j: nat)
    requires IsRel(t, n, n) && i < n && j < n
  {
    Get(t, i, j) && i != j && !exists k: nat :: k < n && k != i && k != j && Get(t, i, k) && Get(t, k, j)
  }

  /** `covers`: removes the diagonal, then every pair that is a composition of two remaining pairs. */
  method Covers(t: Tensor<bool>, n: nat) returns (r: Tensor<bool>)
    requires IsRel(t, n, n)
    ensures IsRel(r, n, n)
    ensures forall i: nat, j: nat :: i < n && j < n ==> (Get(r, i, j) <==> Covered(t, n, i, j))
  {
    var diag := Diagonal(n);
    var off := Not(diag, n, n);
    var strict := Combine(BinOp.And, t, off, n, n);
    var steps := Compose(strict, strict, n, n, n);
    var direct := Not(steps, n, n);
    r := Combine(BinOp.And, strict, direct, n, n);
    forall i: nat, j: nat | i < n && j < n
      ensures Get(r, i, j) <==> Covered(t, n, i, j)
    {
      if Get(strict, i, j) && Get(steps, i, j) {
        var k: nat :| k < n && Get(strict, i, k) && Get(strict, k, j);
        assert k != i && k != j && Get(t, i, k) && Get(t, k, j);
      }
      if Get(strict, i, j) && !Get(steps, i, j) {
        forall k: nat | k < n && k != i && k != j && Get(t, i, k)
          ensures !Get(t, k, j)
        {
          assert Get(strict, i, k);
        }
      }
    }
  }

  /**
   * `is_compatible`: the function `f` maps related elements of `t0` to
   * related elements of `t1`: whenever `f` relates `x` to `y` and `x2` to
   * `y2` and `t0` relates `x` to `x2`, `t1` relates `y` to `y2`.
   */
  method IsCompatible(f: Tensor<bool>, t0: Tensor<bool>, t1: Tensor<bool>, a: nat, b: nat) returns (s: Tensor<bool>)
    requires IsRel(f, a, b) && IsRel(t0, a, a) && IsRel(t1, b, b) && a != 0 && b != 0
    ensures IsScalar(s)
    ensures Truth(s) <==> forall x: nat, x2: nat, y: nat, y2: nat ::
      x < a && x2 < a && y < b && y2 < b && Get(t0, x, x2) && Get(f, x, y) && Get(f, x2, y2) ==> Get(t1, y, y2)
  {
    var image := Compose(t0, f, a, a, b);
    var ft := Transpose(f, a, b);
    var pairs := Compose(ft, image, b, a, b);
    var imp := Combine(BinOp.Imp, pairs, t1, b, b);
    s := AllPairs(imp, b, b);
    if Truth(s) {
      forall x: nat, x2: nat, y: nat, y2: nat | x < a && x2 < a && y < b && y2 < b && Get(t0, x, x2) && Get(f, x, y) && Get(f, x2, y2)
        ensures Get(t1, y, y2)
      {
        assert Get(image, x, y2);
        assert Get(ft, y, x);
        assert Get(pairs, y, y2);
        assert Get(imp, y, y2);
      }
    } else {
      var y: nat, y2: nat :| y < b && y2 < b && !Get(imp, y, y2);
      var x: nat :| x < a && Get(ft, y, x) && Get(image, x, y2);
      var x2: nat :| x2 < a && Get(t0, x, x2) && Get(f, x2, y2);
      assert Get(f, x, y);
    }
  }

  // ----- the list of edges -----

  /** `(i, j)` comes before `(k, l)` in the order `edges` lists pairs: by row, then by column. */
  predicate LexLess(x: (nat, nat), y: (nat, nat))
  {
    x.0 < y.0 || (x.0 == y.0 && x.1 < y.1)
  }

  /** Strictly ascending in that order, so no pair is listed twice. */
  predicate Ascending(s: seq<(nat, nat)>)
  {
    forall p, q :: 0 <= p < q < |s| ==> LexLess(s[p], s[q])
  }

  /** The edges of row `i` among the first `j` columns, by ascending column. */
  function RowEdges(t: Tensor<bool>, a: nat, b: nat, i: nat, j: nat): seq<(nat, nat)>
    requires IsRel(t, a, b) && i < a && j <= b
  {
    if j == 0 then [] else RowEdges(t, a, b, i, j - 1) + (if Get(t, i, j - 1) then [(i, j - 1)] else [])
  }

  /** An ascending list has no repeated pair. */
  lemma AscendingDistinct(s: seq<(nat, nat)>, p: nat, q: nat)
    requires Ascending(s) && p < q < |s|
    ensures s[p] != s[q]
  {
    assert LexLess(s[p], s[q]);
  }

  /** The edges of the first `i` rows, row after row. */
  function EdgesBefore(t: Tensor<bool>, a: nat, b: nat, i: nat): seq<(nat, nat)>
    requires IsRel(t, a, b) && i <= a
  {
    if i == 0 then [] else EdgesBefore(t, a, b, i - 1) + RowEdges(t, a, b, i - 1, b)
  }

  /** Two ascending lists, the first wholly before the second, make an ascending list. */
  lemma AscendingAppend(s: seq<(nat, nat)>, u: seq<(nat, nat)>)
    requires Ascending(s) && Ascending(u)
    requires forall x, y :: x in s && y in u ==> LexLess(x, y)
    ensures Ascending(s + u)
  {
    forall p, q | 0 <= p < q < |s + u|
      ensures LexLess((s + u)[p], (s + u)[q])
    {
      if p < |s| && q >= |s| {
        assert (s + u)[p] in s && (s + u)[q] in u;
      }
    }
  }

  /** Row `i` lists exactly its true pairs below column `j`, in ascending order. */
  lemma {:induction false} RowEdgesFacts(t: Tensor<bool>, a: nat, b: nat, i: nat, j: nat)
    requires IsRel(t, a, b) && i < a && j <= b
    ensures forall e :: e in RowEdges(t, a, b, i, j) <==> e.0 == i && e.1 < j && Get(t, e.0, e.1)
    ensures Ascending(RowEdges(t, a, b, i, j))
  {
    if j > 0 {
      RowEdgesFacts(t, a, b, i, j - 1);
      AscendingAppend(RowEdges(t, a, b, i, j - 1), if Get(t, i, j - 1) then [(i, j - 1)] else []);
    }
  }

  /** The first `i` rows list exactly their true pairs, in ascending order. */
  lemma {:induction false} EdgesBeforeFacts(t: Tensor<bool>, a: nat, b: nat, i: nat)
    requires IsRel(t, a, b) && i <= a
    ensures forall e :: e in EdgesBefore(t, a, b, i) <==> e.0 < i && e.1 < b && Get(t, e.0, e.1)
    ensures Ascending(EdgesBefore(t, a, b, i))
  {
    if i > 0 {
      EdgesBeforeFacts(t, a, b, i - 1);
      RowEdgesFacts(t, a, b, i - 1, b);
      AscendingAppend(EdgesBefore(t, a, b, i - 1), RowEdges(t, a, b, i - 1, b));
    }
  }

  /** `edges`: walks the rows and, within a row, the columns, listing every true pair. */
  method Edges(t: Tensor<bool>, a: nat, b: nat) returns (edges: seq<(nat, nat)>)
    requires IsRel(t, a, b)
    ensures forall e :: e in edges <==> e.0 < a && e.1 < b && Get(t, e.0, e.1)
    ensures Ascending(edges)
  {
    edges := [];
    for i := 0 to a
      invariant edges == EdgesBefore(t, a, b, i)
    {
      for j := 0 to b
        invariant edges == EdgesBefore(t, a, b, i) + RowEdges(t, a, b, i, j)
      {
        var related := t.VerySlowGet([i, j]);
        if related {
          edges := edges + [(i, j)];
        }
      }
    }
    EdgesBeforeFacts(t, a, b, a);
  }

  // ----- what the named relations are -----

  /** The crown is a partial order. */
  method CrownIsPartialOrder(size: nat) returns (s: Tensor<bool>)
    requires size >= 4 && size % 2 == 0
    ensures IsScalar(s) && Truth(s)
  {
    var crown := CrownPoset(size);
    s := IsPartialOrder(crown, size);
    CrownLeqIsPartialOrder(size);
  }

  /** The diagonal is an equivalence and a partial order. */
  method DiagonalIsEquivalenceAndOrder(size: nat) returns (equivalence: Tensor<bool>, order: Tensor<bool>)
    requires size != 0
    ensures IsScalar(equivalence) && Truth(equivalence)
    ensures IsScalar(order) && Truth(order)
  {
    var diag := Diagonal(size);
    equivalence := IsEquivalence(diag, size);
    order := IsPartialOrder(diag, size);
  }

  /** `less_than` is transitive and antisymmetric but not reflexive. */
  method LessThanIsStrict(size: nat) returns (transitive: Tensor<bool>, antisymmetric: Tensor<bool>, reflexive: Tensor<bool>)
    requires size != 0
    ensures IsScalar(transitive) && Truth(transitive)
    ensures IsScalar(antisymmetric) && Truth(antisymmetric)
    ensures IsScalar(reflexive) && !Truth(reflexive)
  {
    var lt := LessThan(size);
    transitive := IsTransitive(lt, size);
    antisymmetric := IsAntisymmetric(lt, size);
    reflexive := IsReflexive(lt, size);
    assert !Get(lt, 0, 0);
  }

  /** The covers of `less_than` are the pairs `(i, i + 1)`. */
  method CoversOfLessThan(size: nat) returns (r: Tensor<bool>)
    ensures IsRel(r, size, size)
    ensures forall i: nat, j: nat :: i < size && j < size ==> (Get(r, i, j) <==> j == i + 1)
  {
    var lt := LessThan(size);
    r := Covers(lt, size);
    forall i: nat, j: nat | i < size && j < size
      ensures Covered(lt, size, i, j) <==> j == i + 1
    {
      if i < j && j != i + 1 {
        assert Get(lt, i, i + 1) && Get(lt, i + 1, j);
      }
    }
  }

  /** The edges of `singleton` are its one pair. */
  method SingletonEdges(size: nat, pos: (nat, nat)) returns (edges: seq<(nat, nat)>)
    requires pos.0 < size && pos.1 < size
    ensures edges == [pos]
  {
    var t := Singleton(size, pos);
    edges := Edges(t, size, size);
    assert pos in edges;
    assert edges[0] == pos;
    if |edges| > 1 {
      AscendingDistinct(edges, 0, 1);
      assert false;
    }
  }

  /** `partial_map` is a function exactly when every entry is a valid target. */
  method PartialMapIsFunction(mapping: seq<int>, target: nat) returns (s: Tensor<bool>)
    requires |mapping| != 0 && target != 0
    ensures IsScalar(s)
    ensures Truth(s) <==> forall i :: 0 <= i < |mapping| ==> 0 <= mapping[i] < target
  {
    var t := PartialMap(mapping, target);
    s := IsFunction(t, |mapping|, target);
    forall i: nat | i < |mapping|
      ensures Count(Row(t, |mapping|, target, i)) == 1 <==> 0 <= mapping[i] < target
    {
      var row := Row(t, |mapping|, target, i);
      if 0 <= mapping[i] < target {
        CountOneHot(row, mapping[i] as nat);
      } else {
        CountBounds(row);
      }
    }
  }
}
