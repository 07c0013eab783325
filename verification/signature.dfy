/**
 * The signature of an algebra (`Signature` of `src/math/algebra.rs`): the
 * list of the arities of its operations, where an operation is named by its
 * position in the list. New operations are only ever appended.
 */
module Signatures {
  class Signature {
    /** `op_arities`: the arity of operation `op` is entry `op`. */
    var opArities: seq<nat>

    /** A signature without operations. */
    constructor ()
      ensures opArities == []
    {
      opArities := [];
    }

    /** `op_count`: the number of operations. */
    function OpCount(): (r: nat)
      reads this
      ensures r == |opArities|
    {
      |opArities|
    }

    /** `op_arity`: indexing the list panics for an operation that does not exist. */
    function OpArity(op: nat): (r: nat)
      reads this
      requires op < OpCount()
      ensures r == opArities[op]
    {
      opArities[op]
    }

    /**
     * `op_add`: appends the arity and returns the previous count as the id
     * of the new operation; the earlier operations keep their arities.
     */
    method OpAdd(arity: nat) returns (op: nat)
      modifies this
      ensures op == old(OpCount())
      ensures opArities == old(opArities) + [arity]
      ensures OpCount() == op + 1 && OpArity(op) == arity
      ensures forall o :: 0 <= o < op ==> OpArity(o) == old(OpArity(o))
    {
      op := |opArities|;
      opArities := opArities + [arity];
    }
  }

  /** Adding operations of arities 2, 1 and 0 numbers them 0, 1 and 2. */
  method SignatureExample() returns (s: Signature, ops: seq<nat>)
    ensures fresh(s) && ops == [0, 1, 2]
    ensures s.OpCount() == 3 && s.OpArity(0) == 2 && s.OpArity(1) == 1 && s.OpArity(2) == 0
  {
    s := new Signature();
    var mul := s.OpAdd(2);
    var inv := s.OpAdd(1);
    var unit := s.OpAdd(0);
    ops := [mul, inv, unit];
  }
}
