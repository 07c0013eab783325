/**
 * The universes of `src/structure.rs`, with the logic fixed to the
 * two-element `Boolean` logic.
 *
 * A universe is a modular group `ModuloInt(size)`, an anti-chain
 * `AntiChain(size)` or the `Product` of two universes. The leaves have
 * `u32` elements and the product has pairs. Every `assert!` of the source
 * becomes a `None` result: a call that would panic yields `None`, and a
 * call that returns yields `Some`.
 */
module Structure {
  import opened Wrappers
  import BoolLogic

  /** One more than the largest `u32` value. */
  const U32_LIMIT: nat := 0x1_0000_0000

  /** An element: a `u32` of a leaf universe, or a pair for a product. */
  datatype Elem = Num(n: nat) | Pair(first: Elem, second: Elem)

  datatype Universe = ModuloInt(size: nat) | AntiChain(size: nat) | Product(left: Universe, right: Universe)
  {
    /** `e` has the element type of this universe: a `u32`, or a pair of the factors' types. */
    predicate Typed(e: Elem)
    {
      match this
      case Product(a, b) => e.Pair? && a.Typed(e.first) && b.Typed(e.second)
      case _ => e.Num? && e.n < U32_LIMIT
    }

    /** `e` is an element of the universe: every number is below its leaf's size. */
    predicate Member(e: Elem)
      requires Typed(e)
    {
      match this
      case Product(a, b) => a.Member(e.first) && b.Member(e.second)
      case _ => e.n < size
    }

    /** The element whose every number is 0: a member exactly when no leaf is empty. */
    function Zero(): (r: Elem)
      ensures Typed(r)
    {
      match this
      case Product(a, b) => Pair(a.Zero(), b.Zero())
      case _ => Num(0)
    }

    /**
     * `size`: the leaves know their size, and the product multiplies the
     * factors' sizes. Every universe here knows its size, so the product's
     * `None` case (a factor of unknown size) does not arise.
     */
    function Size(): (r: Option<nat>)
      ensures r.Some?
    {
      match this
      case Product(a, b) => Some(a.Size().value * b.Size().value)
      case _ => Some(size)
    }

    /** The universe has no element exactly when its size is 0. */
    lemma {:induction false} SizeZeroIffEmpty()
      ensures Size().value == 0 <==> Typed(Zero()) && !Member(Zero())
      ensures Size().value == 0 ==> forall e :: Typed(e) ==> !Member(e)
    {
      match this
      case Product(a, b) =>
        a.SizeZeroIffEmpty();
        b.SizeZeroIffEmpty();
      case _ =>
    }

    /**
     * `contains`: a leaf asserts that the number is below its size (and then
     * answers true); a product conjoins the answers of the factors.
     */
    function Contains(e: Elem): (r: Option<bool>)
      requires Typed(e)
      ensures r.Some? <==> Member(e)
      ensures r != Some(false)
    {
      match this
      case Product(a, b) =>
        (match (a.Contains(e.first), b.Contains(e.second))
         case (Some(c0), Some(c1)) => Some(BoolLogic.DefaultAnd(c0, c1))
         case _ => None)
      case _ => if e.n < size then Some(e.n < size) else None
    }

    /** `equals`: a leaf asserts both numbers are members; a product conjoins the factors. */
    function Equals(e0: Elem, e1: Elem): (r: Option<bool>)
      requires Typed(e0) && Typed(e1)
      ensures r.Some? <==> Member(e0) && Member(e1)
      ensures r.Some? ==> (r.value <==> e0 == e1)
    {
      match this
      case Product(a, b) =>
        (match (a.Equals(e0.first, e1.first), b.Equals(e0.second, e1.second))
         case (Some(q0), Some(q1)) => Some(BoolLogic.DefaultAnd(q0, q1))
         case _ => None)
      case _ => if e0.n < size && e1.n < size then Some(e0.n == e1.n) else None
    }

    /**
     * `less_or_equals`: the usual order of the numbers in `ModuloInt`,
     * equality in `AntiChain`, and the conjunction of the factors in a product.
     */
    function LessOrEquals(e0: Elem, e1: Elem): (r: Option<bool>)
      requires Typed(e0) && Typed(e1)
      ensures r.Some? <==> Member(e0) && Member(e1)
    {
      match this
      case Product(a, b) =>
        (match (a.LessOrEquals(e0.first, e1.first), b.LessOrEquals(e0.second, e1.second))
         case (Some(l0), Some(l1)) => Some(BoolLogic.DefaultAnd(l0, l1))
         case _ => None)
      case ModuloInt(_) => if e0.n < size && e1.n < size then Some(e0.n <= e1.n) else None
      case AntiChain(_) => if e0.n < size && e1.n < size then Some(e0.n == e1.n) else None
    }

    /** The order relation on members, with the panics taken away. */
    predicate Leq(e0: Elem, e1: Elem)
      requires Typed(e0) && Typed(e1) && Member(e0) && Member(e1)
    {
      LessOrEquals(e0, e1).value
    }

    /** `less_or_equals` is reflexive on members. */
    lemma {:induction false} LeqReflexive(e: Elem)
      requires Typed(e) && Member(e)
      ensures Leq(e, e)
    {
      match this
      case Product(a, b) =>
        a.LeqReflexive(e.first);
        b.LeqReflexive(e.second);
      case _ =>
    }

    /** `less_or_equals` is antisymmetric on members. */
    lemma {:induction false} LeqAntisymmetric(e0: Elem, e1: Elem)
      requires Typed(e0) && Typed(e1) && Member(e0) && Member(e1)
      requires Leq(e0, e1) && Leq(e1, e0)
      ensures e0 == e1
    {
      match this
      case Product(a, b) =>
        a.LeqAntisymmetric(e0.first, e1.first);
        b.LeqAntisymmetric(e0.second, e1.second);
      case _ =>
    }

    /** `less_or_equals` is transitive on members. */
    lemma {:induction false} LeqTransitive(e0: Elem, e1: Elem, e2: Elem)
      requires Typed(e0) && Typed(e1) && Typed(e2) && Member(e0) && Member(e1) && Member(e2)
      requires Leq(e0, e1) && Leq(e1, e2)
      ensures Leq(e0, e2)
    {
      match this
      case Product(a, b) =>
        a.LeqTransitive(e0.first, e1.first, e2.first);
        b.LeqTransitive(e0.second, e1.second, e2.second);
      case _ =>
    }

    /**
     * `less_than`: `ModuloInt` and `AntiChain` override it (with `<` and
     * with `false`); a product keeps the interface's default.
     */
    function LessThan(e0: Elem, e1: Elem): (r: Option<bool>)
      requires Typed(e0) && Typed(e1)
      ensures r.Some? <==> Member(e0) && Member(e1)
      ensures r.Some? ==> (r.value <==> Leq(e0, e1) && e0 != e1)
    {
      match this
      case Product(_, _) => DefaultLessThan(e0, e1)
      case ModuloInt(_) => if e0.n < size && e1.n < size then Some(e0.n < e1.n) else None
      case AntiChain(_) => if e0.n < size && e1.n < size then Some(false) else None
    }

    /** The interface's default `less_than`: `and(less_or_equals, not(equals))`. */
    function DefaultLessThan(e0: Elem, e1: Elem): (r: Option<bool>)
      requires Typed(e0) && Typed(e1)
      ensures r.Some? <==> Member(e0) && Member(e1)
      ensures r.Some? ==> (r.value <==> Leq(e0, e1) && e0 != e1)
    {
      match (LessOrEquals(e0, e1), Equals(e0, e1))
      case (Some(l), Some(q)) => Some(BoolLogic.DefaultAnd(l, BoolLogic.Not(q)))
      case _ => None
    }

    /**
     * The overrides of `less_than` agree with the default, panics included,
     * so `less_than` is the strict order of `less_or_equals` in every universe.
     */
    lemma LessThanIsStrict(e0: Elem, e1: Elem)
      requires Typed(e0) && Typed(e1)
      ensures LessThan(e0, e1) == DefaultLessThan(e0, e1)
      ensures LessThan(e0, e1).Some? <==> Member(e0) && Member(e1)
      ensures Member(e0) && Member(e1) ==> (LessThan(e0, e1).value <==> Leq(e0, e1) && e0 != e1)
    {
    }
  }

  // ----- the group `ModuloInt` -----

  /** `unit`: asserts the group is not empty and returns 0. */
  function Unit(size: nat): (r: Option<nat>)
    ensures r.Some? <==> size != 0
    ensures r.Some? ==> r.value < size && forall a :: 0 <= a < size ==> Mul(size, r.value, a) == Some(a)
  {
    if size != 0 then Some(0) else None
  }

  /** `inverse`: asserts `a` is a member; 0 is its own inverse, otherwise `size - a`. */
  function Inverse(size: nat, a: nat): (r: Option<nat>)
    ensures r.Some? <==> a < size
    ensures r.Some? ==> r.value < size && Mul(size, a, r.value) == Some(0) && Mul(size, r.value, a) == Some(0)
  {
    if a < size then Some(if a == 0 then 0 else size - a) else None
  }

  /**
   * `product`, as it is evidently meant: asserts both arguments are members
   * and subtracts `size` once when the sum reaches it, so the result is the
   * sum modulo `size`.
   */
  function Mul(size: nat, a: nat, b: nat): (r: Option<nat>)
    ensures r.Some? <==> a < size && b < size
    ensures r.Some? ==> r.value < size && r.value == (a + b) % size
  {
    if a < size && b < size then
      var sum := a + b;
      ModSubtract(sum, size);
      Some(if sum < size then sum else sum - size)
    else None
  }

  /** A sum below twice the modulus is reduced by one subtraction. */
  lemma ModSubtract(sum: nat, size: nat)
    requires 0 < size && sum < 2 * size
    ensures (if sum < size then sum else sum - size) == sum % size
  {
    if sum >= size {
      assert sum == 1 * size + (sum - size);
    }
  }

  /** `product` is commutative. */
  lemma MulCommutative(size: nat, a: nat, b: nat)
    ensures Mul(size, a, b) == Mul(size, b, a)
  {
  }

  /** `product` is associative on members. */
  lemma MulAssociative(size: nat, a: nat, b: nat, c: nat)
    requires a < size && b < size && c < size
    ensures Mul(size, Mul(size, a, b).value, c) == Mul(size, a, Mul(size, b, c).value)
  {
  }

  /**
   * `product` as written: the sum `elem0 + elem1` is a `u32`, so it panics
   * when the sum does not fit, before the subtraction could bring it back.
   */
  function MulAsWritten(size: nat, a: nat, b: nat): (r: Option<nat>)
    requires size < U32_LIMIT
    ensures r.Some? <==> a < size && b < size && a + b < U32_LIMIT
    ensures r.Some? ==> r == Mul(size, a, b)
  {
    if a < size && b < size then
      if a + b < U32_LIMIT then
        Some(if a + b < size then a + b else a + b - size)
      else None
    else None
  }

  /** Up to a size of `2^31` the written `product` never overflows. */
  lemma MulAsWrittenSmall(size: nat, a: nat, b: nat)
    requires size <= 0x8000_0000
    ensures MulAsWritten(size, a, b) == Mul(size, a, b)
  {
  }

  /** With `size = 2^32 - 1`, `2^31 + 2^31` overflows `u32`, though the group product is 1. */
  lemma MulAsWrittenOverflows()
    ensures MulAsWritten(0xFFFF_FFFF, 0x8000_0000, 0x8000_0000) == None
    ensures Mul(0xFFFF_FFFF, 0x8000_0000, 0x8000_0000) == Some(1)
  {
  }
}
