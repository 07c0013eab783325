/**
 * The one-bit domain `Boolean` of `src/alg/boolean.rs` (and its older form
 * in `src/adt/boolean.rs`): the elements are the vectors of one bit, ordered
 * by implication, a Boolean lattice whose operations act on that bit.
 * Elements and indices are converted by the functions of `Core2Boolean`,
 * which are the same in all three files.
 */
module BooleanDomain {
  import opened Wrappers
  import Core2Boolean
  import BoolLogic

  /** `num_bits`: one. */
  const NUM_BITS: nat := 1

  /** `contains`: asserts one bit; every such vector is an element. */
  function Contains(elem: seq<bool>): (r: bool)
    requires |elem| == NUM_BITS
    ensures r <==> exists i :: 0 <= i < Core2Boolean.SIZE && Core2Boolean.GetElem(i) == elem
  {
    Core2Boolean.ElemIndexRoundTrip(0, elem);
    true
  }

  /** `equals`: the equivalence of the two bits, which is equality of the one-bit vectors. */
  function Equals(elem0: seq<bool>, elem1: seq<bool>): (r: bool)
    requires |elem0| == NUM_BITS && |elem1| == NUM_BITS
    ensures r <==> elem0 == elem1
  {
    assert elem0 == [elem0[0]] && elem1 == [elem1[0]];
    BoolLogic.DefaultEqu(elem0[0], elem1[0])
  }

  /** `is_edge` (`leq` in `src/adt/boolean.rs`): implication, so `[0] <= [1]`. */
  function IsEdge(elem0: seq<bool>, elem1: seq<bool>): (r: bool)
    requires |elem0| == NUM_BITS && |elem1| == NUM_BITS
    ensures r <==> Core2Boolean.GetIndex(elem0) <= Core2Boolean.GetIndex(elem1)
  {
    BoolLogic.DefaultImp(elem0[0], elem1[0])
  }

  /** `top`: the element 1. */
  function Top(): (r: seq<bool>)
    ensures r == Core2Boolean.GetElem(1)
  {
    [BoolLogic.Lift(true)]
  }

  /** `bottom`: the element 0. */
  function Bottom(): (r: seq<bool>)
    ensures r == Core2Boolean.GetElem(0)
  {
    [BoolLogic.Lift(false)]
  }

  /** `is_top`: asserts one bit; the bit itself. */
  function IsTop(elem: seq<bool>): (r: bool)
    requires |elem| == NUM_BITS
    ensures r <==> elem == Top()
  {
    assert elem == [elem[0]];
    elem[0]
  }

  /** `is_bottom`: asserts one bit; its negation. */
  function IsBottom(elem: seq<bool>): (r: bool)
    requires |elem| == NUM_BITS
    ensures r <==> elem == Bottom()
  {
    assert elem == [elem[0]];
    BoolLogic.Not(elem[0])
  }

  /** `meet`: the conjunction of the bits, the smaller element. */
  function Meet(elem0: seq<bool>, elem1: seq<bool>): (r: seq<bool>)
    requires |elem0| == NUM_BITS && |elem1| == NUM_BITS
    ensures |r| == NUM_BITS
    ensures IsEdge(r, elem0) && IsEdge(r, elem1)
    ensures forall x :: |x| == NUM_BITS && IsEdge(x, elem0) && IsEdge(x, elem1) ==> IsEdge(x, r)
  {
    [BoolLogic.DefaultAnd(elem0[0], elem1[0])]
  }

  /** `join`: the disjunction of the bits, the larger element. */
  function Join(elem0: seq<bool>, elem1: seq<bool>): (r: seq<bool>)
    requires |elem0| == NUM_BITS && |elem1| == NUM_BITS
    ensures |r| == NUM_BITS
    ensures IsEdge(elem0, r) && IsEdge(elem1, r)
    ensures forall x :: |x| == NUM_BITS && IsEdge(elem0, x) && IsEdge(elem1, x) ==> IsEdge(r, x)
  {
    [BoolLogic.Or(elem0[0], elem1[0])]
  }

  /** `complement` of `src/alg/boolean.rs`: the negated bit, whose meet with the argument is bottom and join is top. */
  function Complement(elem: seq<bool>): (r: seq<bool>)
    requires |elem| == NUM_BITS
    ensures |r| == NUM_BITS
    ensures Meet(elem, r) == Bottom() && Join(elem, r) == Top()
  {
    [BoolLogic.Not(elem[0])]
  }

  /**
   * `complement` of `src/adt/boolean.rs` as written: the new result vector
   * is named `elem` too, so the bit is read from the fresh empty vector and
   * the bound check of `get` fails. `None` stands for that panic.
   */
  function ComplementAsWritten(elem: seq<bool>): (r: Option<seq<bool>>)
    requires |elem| == NUM_BITS
    ensures r == None
  {
    var shadow: seq<bool> := [];
    match Get(shadow, 0)
    case Some(b) => Some([BoolLogic.Not(b)])
    case None => None
  }

  /** `get` on a vector: the entry at `i`, or `None` for the panic of an index out of range. */
  function Get(v: seq<bool>, i: nat): (r: Option<bool>)
    ensures r.Some? <==> i < |v|
    ensures r.Some? ==> r.value == v[i]
  {
    if i < |v| then Some(v[i]) else None
  }

  /** The complement as written never returns, whatever the element, while the intended one always does. */
  lemma ComplementAsWrittenPanics(elem: seq<bool>)
    requires |elem| == NUM_BITS
    ensures ComplementAsWritten(elem) == None
    ensures Complement(elem) != elem
  {
  }

  /** The order is a partial order with bottom and top, and complement is an involution. */
  lemma BooleanLatticeLaws(a: seq<bool>, b: seq<bool>, c: seq<bool>)
    requires |a| == NUM_BITS && |b| == NUM_BITS && |c| == NUM_BITS
    ensures IsEdge(a, a)
    ensures IsEdge(a, b) && IsEdge(b, a) ==> a == b
    ensures IsEdge(a, b) && IsEdge(b, c) ==> IsEdge(a, c)
    ensures IsEdge(Bottom(), a) && IsEdge(a, Top())
    ensures Complement(Complement(a)) == a
  {
    assert a == [a[0]] && b == [b[0]];
  }
}
