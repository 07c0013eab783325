/**
 * The algebras of `src/alg/`: the two-element Boolean algebra
 * (`TwoElementAlg`, and its twin `BooleanLogic`), the chain and checked
 * ring of `i32` values (`SmallIntegers`), the coordinatewise Boolean
 * algebra and ring of bit vectors (`BinaryVectors`), and the componentwise
 * `ProductAlgebra` of two of these, together with the default methods of
 * the interfaces in `src/alg/traits.rs`.
 *
 * The logic of every algebra is the two-element algebra on `bool`. An
 * `assert!` of the source is a precondition; a checked `i32` operation that
 * would panic yields `None`.
 */
module Algebras {
  import opened Wrappers
  import opened BitSpec

  // ----- the two-element algebra on `bool` -----

  function TwoMeet(a: bool, b: bool): bool { a && b }

  function TwoJoin(a: bool, b: bool): bool { a || b }

  function TwoNot(a: bool): bool { !a }

  /** `edge` of the two-element chain: `false <= true`. */
  function TwoEdge(a: bool, b: bool): bool { a ==> b }

  /** The default `xor`, `(a ∧ ¬b) ∨ (¬a ∧ b)`, is the inequality of the two values. */
  function TwoXor(a: bool, b: bool): (r: bool)
    ensures r <==> a != b
  {
    TwoJoin(TwoMeet(a, TwoNot(b)), TwoMeet(TwoNot(a), b))
  }

  /** The default `imp`, `¬a ∨ b`, is implication. */
  function TwoImp(a: bool, b: bool): (r: bool)
    ensures r <==> (a ==> b)
  {
    TwoJoin(TwoNot(a), b)
  }

  /** The default `equ`, `xor(¬a, b)`, is the equality of the two values. */
  function TwoEqu(a: bool, b: bool): (r: bool)
    ensures r <==> a == b
  {
    TwoXor(TwoNot(a), b)
  }

  /**
   * `inv` of the two-element field is the identity. It meets the total
   * convention of `Field::inv`: zero goes to zero, and a non-zero element
   * times its inverse (the ring product is the meet) is the unit.
   */
  function TwoInv(a: bool): (r: bool)
    ensures !a ==> !r
    ensures a ==> TwoMeet(a, r)
  {
    a
  }

  // ----- the checked `i32` ring of `SmallIntegers` -----

  const I32_MIN: int := -0x8000_0000
  const I32_MAX: int := 0x7FFF_FFFF

  predicate InI32(x: int) { I32_MIN <= x <= I32_MAX }

  /** `checked_neg().unwrap()`: the negation, which panics for `i32::MIN` alone. */
  function IntNeg(a: int): (r: Option<int>)
    requires InI32(a)
    ensures r.Some? <==> a != I32_MIN
    ensures r.Some? ==> r.value == -a && InI32(r.value)
  {
    if InI32(-a) then Some(-a) else None
  }

  /** `checked_add().unwrap()`: the sum when it fits in `i32`, a panic otherwise. */
  function IntAdd(a: int, b: int): (r: Option<int>)
    ensures r.Some? <==> InI32(a + b)
    ensures r.Some? ==> r.value == a + b
  {
    if InI32(a + b) then Some(a + b) else None
  }

  /** `checked_sub().unwrap()`: the difference when it fits in `i32`, a panic otherwise. */
  function IntSub(a: int, b: int): (r: Option<int>)
    ensures r.Some? <==> InI32(a - b)
    ensures r.Some? ==> r.value == a - b
  {
    if InI32(a - b) then Some(a - b) else None
  }

  /** `checked_mul().unwrap()`: the product when it fits in `i32`, a panic otherwise. */
  function IntMul(a: int, b: int): (r: Option<int>)
    ensures r.Some? <==> InI32(a * b)
    ensures r.Some? ==> r.value == a * b
  {
    if InI32(a * b) then Some(a * b) else None
  }

  /** The default `sub`, `add(a, neg(b))`, over the checked operations. */
  function IntDefaultSub(a: int, b: int): (r: Option<int>)
    requires InI32(b)
    ensures r.Some? ==> r == IntSub(a, b)
  {
    match IntNeg(b)
    case Some(n) => IntAdd(a, n)
    case None => None
  }

  /**
   * The override of `sub` is needed: the default panics on `-1 - i32::MIN`,
   * whose value `i32::MAX` fits.
   */
  lemma IntSubOverride()
    ensures IntDefaultSub(-1, I32_MIN) == None
    ensures IntSub(-1, I32_MIN) == Some(I32_MAX)
  {
  }

  /** The checked `i32` operations are the ring operations of the integers wherever they return. */
  lemma IntRingLaws(a: int, b: int, c: int)
    requires InI32(a) && InI32(b) && InI32(c)
    ensures IntAdd(a, 0) == Some(a) && IntMul(a, 1) == Some(a) && IntMul(1, a) == Some(a)
    ensures IntAdd(a, b) == IntAdd(b, a) && IntMul(a, b) == IntMul(b, a)
    ensures a != I32_MIN ==> IntAdd(a, IntNeg(a).value) == Some(0)
    ensures IntAdd(a, b).Some? && IntAdd(b, c).Some? ==>
      IntAdd(IntAdd(a, b).value, c) == IntAdd(a, IntAdd(b, c).value)
  {
  }

  // ----- coordinatewise operations on bit vectors -----

  /** The coordinatewise image of two vectors of the same length under `op`. */
  function Zip(op: (bool, bool) -> bool, a: seq<bool>, b: seq<bool>): (r: seq<bool>)
    requires |a| == |b|
    ensures |r| == |a| && forall i :: 0 <= i < |a| ==> r[i] == op(a[i], b[i])
  {
    seq(|a|, i requires 0 <= i < |a| => op(a[i], b[i]))
  }

  /** `fold(acc, meet)` of the iterator, from the first entry on. */
  function FoldMeet(acc: bool, s: seq<bool>): bool
    decreases |s|
  {
    if s == [] then acc else FoldMeet(TwoMeet(acc, s[0]), s[1..])
  }

  /** The fold is true exactly when the seed and every entry are. */
  lemma {:induction false} FoldMeetAll(acc: bool, s: seq<bool>)
    ensures FoldMeet(acc, s) <==> acc && forall i :: 0 <= i < |s| ==> s[i]
    decreases |s|
  {
    if s != [] {
      FoldMeetAll(TwoMeet(acc, s[0]), s[1..]);
      assert forall i :: 1 <= i < |s| ==> s[i] == s[1..][i - 1];
    }
  }

  // ----- the algebras and their elements -----

  /** An element: a `bool`, an `i32`, a vector of `bool`s, or a pair for a product. */
  datatype Elem = Bit(b: bool) | Int(i: int) | Vector(v: seq<bool>) | Pair(e0: Elem, e1: Elem)

  datatype Algebra =
    | TwoElement
    | SmallIntegers
    | BinaryVectors(length: nat)
    | ProductAlgebra(alg0: Algebra, alg1: Algebra)
  {
    /** `e` has the element type of the algebra. */
    predicate Typed(e: Elem)
    {
      match this
      case TwoElement => e.Bit?
      case SmallIntegers => e.Int? && InI32(e.i)
      case BinaryVectors(_) => e.Vector?
      case ProductAlgebra(a0, a1) => e.Pair? && a0.Typed(e.e0) && a1.Typed(e.e1)
    }

    /** Two elements pass the length assertions of a binary operation: vectors in the same place have the same length. */
    predicate Compatible(e0: Elem, e1: Elem)
      requires Typed(e0) && Typed(e1)
    {
      match this
      case BinaryVectors(_) => |e0.v| == |e1.v|
      case ProductAlgebra(a0, a1) => a0.Compatible(e0.e0, e1.e0) && a1.Compatible(e0.e1, e1.e1)
      case _ => true
    }

    /** `top`: `true`, `i32::MAX`, the all-true vector of length `length`, or the pair of tops. */
    function Top(): (r: Elem)
      ensures Typed(r)
    {
      match this
      case TwoElement => Bit(true)
      case SmallIntegers => Int(I32_MAX)
      case BinaryVectors(n) => Vector(Constant(n, true))
      case ProductAlgebra(a0, a1) => Pair(a0.Top(), a1.Top())
    }

    /** `bot`: `false`, `i32::MIN`, the all-false vector of length `length`, or the pair of bottoms. */
    function Bot(): (r: Elem)
      ensures Typed(r) && Compatible(r, Top())
    {
      match this
      case TwoElement => Bit(false)
      case SmallIntegers => Int(I32_MIN)
      case BinaryVectors(n) => Vector(Constant(n, false))
      case ProductAlgebra(a0, a1) => Pair(a0.Bot(), a1.Bot())
    }

    /**
     * `contains`: always true for `bool` and `i32`; for vectors, top or
     * bottom by the length; the meet of the components for a product. An
     * element is contained exactly when it has the shape of `top`.
     */
    function Contains(e: Elem): (r: bool)
      requires Typed(e)
      ensures r <==> Compatible(e, Top())
    {
      match this
      case TwoElement => true
      case SmallIntegers => true
      case BinaryVectors(n) => if |e.v| == n then true else false
      case ProductAlgebra(a0, a1) => TwoMeet(a0.Contains(e.e0), a1.Contains(e.e1))
    }

    /** Two contained elements pass every length assertion together. */
    lemma {:induction false} ContainedCompatible(e0: Elem, e1: Elem)
      requires Typed(e0) && Typed(e1) && Contains(e0) && Contains(e1)
      ensures Compatible(e0, e1)
    {
      match this
      case ProductAlgebra(a0, a1) =>
        a0.ContainedCompatible(e0.e0, e1.e0);
        a1.ContainedCompatible(e0.e1, e1.e1);
      case _ =>
    }

    /** `equals`: `==` for `bool` and `i32`; the fold of `equ` for vectors; the meet of the components. */
    function Equals(e0: Elem, e1: Elem): (r: bool)
      requires Typed(e0) && Typed(e1) && Compatible(e0, e1)
      ensures r <==> e0 == e1
    {
      match this
      case TwoElement => e0.b == e1.b
      case SmallIntegers => e0.i == e1.i
      case BinaryVectors(_) =>
        FoldMeetAll(true, Zip(TwoEqu, e0.v, e1.v));
        assert (forall k :: 0 <= k < |e0.v| ==> e0.v[k] == e1.v[k]) ==> e0.v == e1.v;
        FoldMeet(true, Zip(TwoEqu, e0.v, e1.v))
      case ProductAlgebra(a0, a1) => TwoMeet(a0.Equals(e0.e0, e1.e0), a1.Equals(e0.e1, e1.e1))
    }

    /**
     * `edge`: `<=` for `bool` and `i32`; the fold of `imp` for vectors, which
     * is the coordinatewise implication; the meet of the components.
     */
    function Edge(e0: Elem, e1: Elem): (r: bool)
      requires Typed(e0) && Typed(e1) && Compatible(e0, e1)
      ensures BinaryVectors? ==> (r <==> forall k :: 0 <= k < |e0.v| ==> (e0.v[k] ==> e1.v[k]))
    {
      match this
      case TwoElement => TwoEdge(e0.b, e1.b)
      case SmallIntegers => e0.i <= e1.i
      case BinaryVectors(_) =>
        FoldMeetAll(true, Zip(TwoImp, e0.v, e1.v));
        FoldMeet(true, Zip(TwoImp, e0.v, e1.v))
      case ProductAlgebra(a0, a1) => TwoMeet(a0.Edge(e0.e0, e1.e0), a1.Edge(e0.e1, e1.e1))
    }

    /** `edge` is reflexive. */
    lemma {:induction false} EdgeReflexive(e: Elem)
      requires Typed(e)
      ensures Compatible(e, e) && Edge(e, e)
    {
      match this
      case BinaryVectors(_) =>
      case ProductAlgebra(a0, a1) =>
        a0.EdgeReflexive(e.e0);
        a1.EdgeReflexive(e.e1);
      case _ =>
    }

    /** `edge` is antisymmetric. */
    lemma {:induction false} EdgeAntisymmetric(e0: Elem, e1: Elem)
      requires Typed(e0) && Typed(e1) && Compatible(e0, e1) && Compatible(e1, e0)
      requires Edge(e0, e1) && Edge(e1, e0)
      ensures e0 == e1
    {
      match this
      case BinaryVectors(_) =>
        assert forall k :: 0 <= k < |e0.v| ==> e0.v[k] == e1.v[k];
      case ProductAlgebra(a0, a1) =>
        a0.EdgeAntisymmetric(e0.e0, e1.e0);
        a1.EdgeAntisymmetric(e0.e1, e1.e1);
      case _ =>
    }

    /** `edge` is transitive. */
    lemma {:induction false} EdgeTransitive(e0: Elem, e1: Elem, e2: Elem)
      requires Typed(e0) && Typed(e1) && Typed(e2)
      requires Compatible(e0, e1) && Compatible(e1, e2) && Compatible(e0, e2)
      requires Edge(e0, e1) && Edge(e1, e2)
      ensures Edge(e0, e2)
    {
      match this
      case BinaryVectors(_) =>
      case ProductAlgebra(a0, a1) =>
        a0.EdgeTransitive(e0.e0, e1.e0, e2.e0);
        a1.EdgeTransitive(e0.e1, e1.e1, e2.e1);
      case _ =>
    }

    /**
     * The default `forward`, `edge(a, b) ∧ ¬edge(b, a)`, is the strict order
     * of `edge`.
     */
    function Forward(e0: Elem, e1: Elem): (r: bool)
      requires Typed(e0) && Typed(e1) && Compatible(e0, e1) && Compatible(e1, e0)
      ensures r <==> Edge(e0, e1) && e0 != e1
    {
      EdgeReflexive(e0);
      if Edge(e0, e1) && Edge(e1, e0) then EdgeAntisymmetric(e0, e1); false
      else TwoMeet(Edge(e0, e1), TwoNot(Edge(e1, e0)))
    }

    /** `meet`: `&&`, `min`, the coordinatewise `&&` of vectors, or the pair of meets. */
    function Meet(e0: Elem, e1: Elem): (r: Elem)
      requires Typed(e0) && Typed(e1) && Compatible(e0, e1)
      ensures Typed(r) && Compatible(r, e0) && Compatible(r, e1) && Compatible(e0, r) && Compatible(e1, r)
      ensures Contains(r) <==> Contains(e0)
    {
      match this
      case TwoElement => Bit(TwoMeet(e0.b, e1.b))
      case SmallIntegers => Int(if e0.i <= e1.i then e0.i else e1.i)
      case BinaryVectors(_) => Vector(Zip(TwoMeet, e0.v, e1.v))
      case ProductAlgebra(a0, a1) => Pair(a0.Meet(e0.e0, e1.e0), a1.Meet(e0.e1, e1.e1))
    }

    /** `join`: `||`, `max`, the coordinatewise `||` of vectors, or the pair of joins. */
    function Join(e0: Elem, e1: Elem): (r: Elem)
      requires Typed(e0) && Typed(e1) && Compatible(e0, e1)
      ensures Typed(r) && Compatible(r, e0) && Compatible(r, e1) && Compatible(e0, r) && Compatible(e1, r)
      ensures Contains(r) <==> Contains(e0)
    {
      match this
      case TwoElement => Bit(TwoJoin(e0.b, e1.b))
      case SmallIntegers => Int(if e0.i >= e1.i then e0.i else e1.i)
      case BinaryVectors(_) => Vector(Zip(TwoJoin, e0.v, e1.v))
      case ProductAlgebra(a0, a1) => Pair(a0.Join(e0.e0, e1.e0), a1.Join(e0.e1, e1.e1))
    }

    /** `meet` is the greatest lower bound for `edge`. */
    lemma {:induction false} MeetIsGlb(e0: Elem, e1: Elem, x: Elem)
      requires Typed(e0) && Typed(e1) && Typed(x) && Compatible(e0, e1) && Compatible(x, e0) && Compatible(x, e1)
      ensures Edge(Meet(e0, e1), e0) && Edge(Meet(e0, e1), e1)
      ensures Compatible(x, Meet(e0, e1)) && (Edge(x, e0) && Edge(x, e1) <==> Edge(x, Meet(e0, e1)))
    {
      match this
      case BinaryVectors(_) =>
        var m := Meet(e0, e1);
      case ProductAlgebra(a0, a1) =>
        a0.MeetIsGlb(e0.e0, e1.e0, x.e0);
        a1.MeetIsGlb(e0.e1, e1.e1, x.e1);
      case _ =>
    }

    /** `join` is the least upper bound for `edge`. */
    lemma {:induction false} JoinIsLub(e0: Elem, e1: Elem, x: Elem)
      requires Typed(e0) && Typed(e1) && Typed(x) && Compatible(e0, e1) && Compatible(e0, x) && Compatible(e1, x)
      ensures Edge(e0, Join(e0, e1)) && Edge(e1, Join(e0, e1))
      ensures Compatible(Join(e0, e1), x) && (Edge(e0, x) && Edge(e1, x) <==> Edge(Join(e0, e1), x))
    {
      match this
      case BinaryVectors(_) =>
        var j := Join(e0, e1);
      case ProductAlgebra(a0, a1) =>
        a0.JoinIsLub(e0.e0, e1.e0, x.e0);
        a1.JoinIsLub(e0.e1, e1.e1, x.e1);
      case _ =>
    }

    /** Every contained element lies between `bot` and `top`. */
    lemma {:induction false} Bounded(e: Elem)
      requires Typed(e) && Contains(e)
      ensures Compatible(Bot(), e) && Compatible(e, Top())
      ensures Edge(Bot(), e) && Edge(e, Top())
    {
      match this
      case BinaryVectors(_) =>
      case ProductAlgebra(a0, a1) =>
        a0.Bounded(e.e0);
        a1.Bounded(e.e1);
      case _ =>
    }

    // ----- Boolean algebras -----

    /** The algebras with a complement: the two-element algebra, the vectors, and their products. */
    predicate IsBooleanAlgebra()
    {
      match this
      case TwoElement => true
      case SmallIntegers => false
      case BinaryVectors(_) => true
      case ProductAlgebra(a0, a1) => a0.IsBooleanAlgebra() && a1.IsBooleanAlgebra()
    }

    /** The complement: `!`, the coordinatewise `!` (which asserts the length), or the pair of complements. */
    function Not(e: Elem): (r: Elem)
      requires IsBooleanAlgebra() && Typed(e) && Contains(e)
      ensures Typed(r) && Contains(r) && Compatible(r, e) && Compatible(e, r)
    {
      match this
      case TwoElement => Bit(TwoNot(e.b))
      case BinaryVectors(_) => Vector(seq(|e.v|, k requires 0 <= k < |e.v| => TwoNot(e.v[k])))
      case ProductAlgebra(a0, a1) => Pair(a0.Not(e.e0), a1.Not(e.e1))
    }

    /** The complement meets to `bot` and joins to `top`. */
    lemma {:induction false} Complemented(e: Elem)
      requires IsBooleanAlgebra() && Typed(e) && Contains(e)
      ensures Meet(e, Not(e)) == Bot() && Join(e, Not(e)) == Top()
    {
      match this
      case ProductAlgebra(a0, a1) =>
        a0.Complemented(e.e0);
        a1.Complemented(e.e1);
      case _ =>
    }

    /** The default `xor` of `BooleanAlgebra`: `join(meet(a, ¬b), meet(¬a, b))`. */
    function DefaultXor(e0: Elem, e1: Elem): (r: Elem)
      requires IsBooleanAlgebra() && Typed(e0) && Typed(e1) && Contains(e0) && Contains(e1)
      ensures Typed(r) && Contains(r)
    {
      ContainedCompatible(e0, Not(e1));
      ContainedCompatible(Not(e0), e1);
      var m0 := Meet(e0, Not(e1));
      var m1 := Meet(Not(e0), e1);
      ContainedCompatible(m0, m1);
      Join(m0, m1)
    }

    /** The default `imp` of `BooleanAlgebra`: `join(¬a, b)`. */
    function DefaultImp(e0: Elem, e1: Elem): (r: Elem)
      requires IsBooleanAlgebra() && Typed(e0) && Typed(e1) && Contains(e0) && Contains(e1)
      ensures Typed(r) && Contains(r)
    {
      ContainedCompatible(Not(e0), e1);
      Join(Not(e0), e1)
    }

    /** The default `equ` of `BooleanAlgebra`: `xor(¬a, b)`. */
    function DefaultEqu(e0: Elem, e1: Elem): (r: Elem)
      requires IsBooleanAlgebra() && Typed(e0) && Typed(e1) && Contains(e0) && Contains(e1)
      ensures Typed(r) && Contains(r)
    {
      DefaultXor(Not(e0), e1)
    }

    /** `xor` is the bottom element exactly for equal arguments. */
    lemma {:induction false} XorBottom(e0: Elem, e1: Elem)
      requires IsBooleanAlgebra() && Typed(e0) && Typed(e1) && Contains(e0) && Contains(e1)
      ensures DefaultXor(e0, e1) == Bot() <==> e0 == e1
    {
      match this
      case TwoElement =>
      case BinaryVectors(_) =>
        var x := DefaultXor(e0, e1);
        assert forall k :: 0 <= k < |e0.v| ==> x.v[k] == (e0.v[k] != e1.v[k]);
        if x == Bot() {
          assert forall k :: 0 <= k < |e0.v| ==> e0.v[k] == e1.v[k];
        }
      case ProductAlgebra(a0, a1) =>
        a0.XorBottom(e0.e0, e1.e0);
        a1.XorBottom(e0.e1, e1.e1);
    }

    /** `imp` is the top element exactly when `edge` holds. */
    lemma {:induction false} ImpTop(e0: Elem, e1: Elem)
      requires IsBooleanAlgebra() && Typed(e0) && Typed(e1) && Contains(e0) && Contains(e1)
      ensures Compatible(e0, e1) && (DefaultImp(e0, e1) == Top() <==> Edge(e0, e1))
    {
      match this
      case TwoElement =>
      case BinaryVectors(_) =>
        var x := DefaultImp(e0, e1);
        if x == Top() {
          assert forall k :: 0 <= k < |e0.v| ==> x.v[k];
        }
      case ProductAlgebra(a0, a1) =>
        a0.ImpTop(e0.e0, e1.e0);
        a1.ImpTop(e0.e1, e1.e1);
    }

    /** `equ` is the top element exactly for equal arguments. */
    lemma {:induction false} EquTop(e0: Elem, e1: Elem)
      requires IsBooleanAlgebra() && Typed(e0) && Typed(e1) && Contains(e0) && Contains(e1)
      ensures DefaultEqu(e0, e1) == Top() <==> e0 == e1
    {
      match this
      case TwoElement =>
      case BinaryVectors(_) =>
        var x := DefaultEqu(e0, e1);
        assert forall k :: 0 <= k < |e0.v| ==> x.v[k] == (e0.v[k] == e1.v[k]);
        if x == Top() {
          assert forall k :: 0 <= k < |e0.v| ==> e0.v[k] == e1.v[k];
        }
      case ProductAlgebra(a0, a1) =>
        a0.EquTop(e0.e0, e1.e0);
        a1.EquTop(e0.e1, e1.e1);
    }

    /**
     * `BinaryVectors` overrides `xor`, `imp` and `equ` with the coordinatewise
     * operations of the logic, which assert only equal lengths; on contained
     * vectors they agree with the defaults.
     */
    lemma VectorOverrides(e0: Elem, e1: Elem)
      requires BinaryVectors? && Typed(e0) && Typed(e1) && Contains(e0) && Contains(e1)
      ensures DefaultXor(e0, e1) == Vector(Zip(TwoXor, e0.v, e1.v))
      ensures DefaultImp(e0, e1) == Vector(Zip(TwoImp, e0.v, e1.v))
      ensures DefaultEqu(e0, e1) == Vector(Zip(TwoEqu, e0.v, e1.v))
    {
    }

    // ----- rings and monoids -----

    /** The algebras with a product and a unit: the integers, the vectors, and their products. */
    predicate IsMonoid()
    {
      match this
      case TwoElement => false
      case SmallIntegers => true
      case BinaryVectors(_) => true
      case ProductAlgebra(a0, a1) => a0.IsMonoid() && a1.IsMonoid()
    }

    /** `unit`: 1, the all-true vector (`top`), or the pair of units. */
    function Unit(): (r: Elem)
      requires IsMonoid()
      ensures Typed(r) && Compatible(r, Top())
    {
      match this
      case SmallIntegers => Int(1)
      case BinaryVectors(_) => Top()
      case ProductAlgebra(a0, a1) => Pair(a0.Unit(), a1.Unit())
    }

    /**
     * `mul`: the checked `i32` product, which panics exactly when the
     * product leaves `i32`; the coordinatewise `&&` of vectors; or the pair
     * of products, which panics when either component does.
     */
    function Mul(e0: Elem, e1: Elem): (r: Option<Elem>)
      requires IsMonoid() && Typed(e0) && Typed(e1) && Compatible(e0, e1)
      ensures r.Some? ==> Typed(r.value) && (Contains(r.value) <==> Contains(e0))
      ensures SmallIntegers? ==> (r.Some? <==> InI32(e0.i * e1.i)) && (r.Some? ==> r.value == Int(e0.i * e1.i))
      ensures BinaryVectors? ==> r.Some? && |r.value.v| == |e0.v|
      ensures BinaryVectors? ==> forall k :: 0 <= k < |e0.v| ==> (r.value.v[k] <==> e0.v[k] && e1.v[k])
      ensures ProductAlgebra? ==> (r.Some? <==> alg0.Mul(e0.e0, e1.e0).Some? && alg1.Mul(e0.e1, e1.e1).Some?)
      ensures ProductAlgebra? && r.Some? ==>
        r.value.e0 == alg0.Mul(e0.e0, e1.e0).value && r.value.e1 == alg1.Mul(e0.e1, e1.e1).value
    {
      match this
      case SmallIntegers =>
        (match IntMul(e0.i, e1.i)
         case Some(p) => Some(Int(p))
         case None => None)
      case BinaryVectors(_) => Some(Meet(e0, e1))
      case ProductAlgebra(a0, a1) =>
        (match (a0.Mul(e0.e0, e1.e0), a1.Mul(e0.e1, e1.e1))
         case (Some(p0), Some(p1)) => Some(Pair(p0, p1))
         case _ => None)
    }

    /**
     * `mul` is associative on contained elements: when both inner products
     * return, the two bracketings give the same product, or both panic.
     */
    lemma {:induction false} MulAssociative(e0: Elem, e1: Elem, e2: Elem)
      requires IsMonoid() && Typed(e0) && Typed(e1) && Typed(e2) && Contains(e0) && Contains(e1) && Contains(e2)
      ensures Compatible(e0, e1) && Compatible(e1, e2)
      ensures Mul(e0, e1).Some? ==> Compatible(Mul(e0, e1).value, e2)
      ensures Mul(e1, e2).Some? ==> Compatible(e0, Mul(e1, e2).value)
      ensures Mul(e0, e1).Some? && Mul(e1, e2).Some? ==>
        Mul(Mul(e0, e1).value, e2) == Mul(e0, Mul(e1, e2).value)
    {
      ContainedCompatible(e0, e1);
      ContainedCompatible(e1, e2);
      var p, q := Mul(e0, e1), Mul(e1, e2);
      if p.Some? {
        ContainedCompatible(p.value, e2);
      }
      if q.Some? {
        ContainedCompatible(e0, q.value);
      }
      if p.Some? && q.Some? {
        match this
        case SmallIntegers =>
          assert (e0.i * e1.i) * e2.i == e0.i * (e1.i * e2.i);
        case BinaryVectors(_) =>
          assert Mul(p.value, e2).value.v == Mul(e0, q.value).value.v;
        case ProductAlgebra(a0, a1) =>
          a0.MulAssociative(e0.e0, e1.e0, e2.e0);
          a1.MulAssociative(e0.e1, e1.e1, e2.e1);
      }
    }

    /** `unit` is a two-sided identity of `mul` on contained elements, and those products never panic. */
    lemma {:induction false} UnitIsIdentity(e: Elem)
      requires IsMonoid() && Typed(e) && Contains(e)
      ensures Compatible(e, Unit()) && Compatible(Unit(), e)
      ensures Mul(e, Unit()) == Some(e) && Mul(Unit(), e) == Some(e)
    {
      match this
      case BinaryVectors(_) =>
        assert Meet(e, Unit()).v == e.v;
        assert Meet(Unit(), e).v == e.v;
      case ProductAlgebra(a0, a1) =>
        a0.UnitIsIdentity(e.e0);
        a1.UnitIsIdentity(e.e1);
      case _ =>
    }
  }

  // ----- the Boolean ring of `BinaryVectors` -----

  /** `zero` is `bot`. */
  function VectorZero(n: nat): (r: seq<bool>)
    ensures r == BinaryVectors(n).Bot().v
  {
    Constant(n, false)
  }

  /** `neg` is the identity: every vector is its own additive inverse. */
  function VectorNeg(a: seq<bool>): (r: seq<bool>)
    ensures |r| == |a| && VectorAdd(a, r) == VectorZero(|a|)
  {
    a
  }

  /** `add` is `xor`, coordinatewise. */
  function VectorAdd(a: seq<bool>, b: seq<bool>): (r: seq<bool>)
    requires |a| == |b|
    ensures |r| == |a| && forall k :: 0 <= k < |a| ==> (r[k] <==> a[k] != b[k])
  {
    Zip(TwoXor, a, b)
  }

  /** The default `sub`, `add(a, neg(b))`; adding `b` back gives `a`. */
  function VectorSub(a: seq<bool>, b: seq<bool>): (r: seq<bool>)
    requires |a| == |b|
    ensures |r| == |a| && VectorAdd(r, b) == a
  {
    VectorAdd(a, VectorNeg(b))
  }

  /** `add` is associative and commutative with `zero` as identity, and `mul` (the meet) distributes over it. */
  lemma VectorRingLaws(a: seq<bool>, b: seq<bool>, c: seq<bool>)
    requires |a| == |b| == |c|
    ensures VectorAdd(a, b) == VectorAdd(b, a)
    ensures VectorAdd(VectorAdd(a, b), c) == VectorAdd(a, VectorAdd(b, c))
    ensures VectorAdd(a, VectorZero(|a|)) == a
    ensures Zip(TwoMeet, a, VectorAdd(b, c)) == VectorAdd(Zip(TwoMeet, a, b), Zip(TwoMeet, a, c))
  {
  }
}
