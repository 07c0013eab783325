/**
 * The two-element domain `Boolean` of `src/core2/boolean.rs` and its
 * negation `BooleanNot`, over the `bool` logic. An element is a bit vector
 * of one bit; as values these are sequences of length 1.
 */
module Core2Boolean {
  /** `num_bits`: one bit per element. */
  const NUM_BITS: nat := 1

  /** `size`: two elements. */
  const SIZE: nat := 2

  /** `get_elem`: asserts `index < 2`; the vector holding `index != 0`. */
  function GetElem(index: nat): (r: seq<bool>)
    requires index < SIZE
    ensures |r| == NUM_BITS && r[0] == (index == 1)
  {
    [index != 0]
  }

  /** `get_index`: asserts a one-bit slice; the bit as a number. */
  function GetIndex(elem: seq<bool>): (r: nat)
    requires |elem| == NUM_BITS
    ensures r < SIZE && (r == 1 <==> elem[0])
  {
    if elem[0] then 1 else 0
  }

  /** `get_elem` and `get_index` are inverse bijections between `0..2` and the one-bit vectors. */
  lemma {:induction false} ElemIndexRoundTrip(index: nat, elem: seq<bool>)
    requires index < SIZE && |elem| == NUM_BITS
    ensures GetIndex(GetElem(index)) == index
    ensures GetElem(GetIndex(elem)) == elem
  {
    assert elem == [elem[0]];
  }

  /** `BooleanNot::arity`. */
  const NOT_ARITY: nat := 1

  /** `BooleanNot::evaluate1`: asserts one argument of one bit; the negated bit. */
  function EvaluateNot(elems: seq<seq<bool>>): (r: seq<bool>)
    requires |elems| == NOT_ARITY && |elems[0]| == NUM_BITS
    ensures |r| == NUM_BITS && r[0] == !elems[0][0]
  {
    [!elems[0][0]]
  }

  /** Negation maps element `i` to element `1 - i`, and applied twice gives the argument back. */
  lemma {:induction false} EvaluateNotSwapsElems(index: nat)
    requires index < SIZE
    ensures EvaluateNot([GetElem(index)]) == GetElem(1 - index)
    ensures EvaluateNot([EvaluateNot([GetElem(index)])]) == GetElem(index)
  {
  }
}
