/**
 * The literal encoding of `src/core2/solver.rs`. A `Bool` wraps a non-zero
 * 32-bit integer; the constants `TRUE` and `FALSE` are `+1` and `-1`, and
 * `BitLogic` is the instance of the `BoolLogic` interface that computes on
 * those two values directly. The interface's default methods and
 * accumulator loops are the ones of `src/core/boolean.rs`, here run on the
 * `±1` encoding; every result is stated as `Lift` of the corresponding
 * `bool` value.
 *
 * `BitLogic` as written computes `bool_and` and `bool_or` from `elem1`
 * alone (`AndAsWritten`, `OrAsWritten`). The defaults and loops are stated
 * twice: over the intended `And` and `Or` (`Imp`, `Maj`, `FoldAll`, ...,
 * `CmpLtn`), and over the written ones (`ImpAsWritten`, ...,
 * `CmpLtnAsWritten`), where `fold_all`, `fold_amo` and `cmp_equ` always
 * give `TRUE`, `fold_any`, `fold_one` and `cmp_neq` always `FALSE`, `imp`
 * gives `not a`, `maj` gives its second argument and `cmp_leq` and
 * `cmp_ltn` give the last entry of the second sequence. `xor`, `equ`,
 * `sum3` and `fold_sum` do not use `and` or `or`.
 *
 * The bit-vector adapter (`BoolVec for BitVec`) stores a `Bool` as the bit
 * `elem == TRUE` and reads a bit back through `bool_lift`.
 */
module Core2Solver {
  import opened BitSpec
  import opened Wrappers
  import CoreBitVec
  import GenVecBitVec
  import BoolLogic

  /** A solver literal: a non-zero `i32`. */
  datatype Bool = Bool(v: int)

  const TRUE: Bool := Bool(1)
  const FALSE: Bool := Bool(-1)

  /** The two constants; `BitLogic` debug-asserts that its arguments are one of them. */
  predicate IsBool(e: Bool)
  {
    e == TRUE || e == FALSE
  }

  /** `bool_lift`: `TRUE` for `true` and `FALSE` for `false`. */
  function Lift(b: bool): (r: Bool)
    ensures IsBool(r) && (r == TRUE <==> b)
  {
    if b then TRUE else FALSE
  }

  /** The bit a constant stands for, as the adapter stores it: `elem == TRUE`. */
  function Truth(e: Bool): bool
  {
    e == TRUE
  }

  /** Lifting and reading back are inverse on the two constants. */
  lemma {:induction false} LiftTruth(e: Bool, b: bool)
    requires IsBool(e)
    ensures Lift(Truth(e)) == e && Truth(Lift(b)) == b
  {
  }

  // ----- BitLogic -----

  /** `bool_not`: flips the sign. */
  function Not(e: Bool): (r: Bool)
    requires IsBool(e)
    ensures r == Lift(!Truth(e))
  {
    Bool(-e.v)
  }

  function Min(a: int, b: int): int { if a <= b then a else b }

  function Max(a: int, b: int): int { if a <= b then b else a }

  /** `bool_and` as written: the minimum of `elem1` with itself, which is `elem1`. */
  function AndAsWritten(e1: Bool, e2: Bool): (r: Bool)
    requires IsBool(e1) && IsBool(e2)
    ensures r == e1
  {
    Bool(Min(e1.v, e1.v))
  }

  /** `bool_or` as written: the maximum of `elem1` with itself, which is `elem1`. */
  function OrAsWritten(e1: Bool, e2: Bool): (r: Bool)
    requires IsBool(e1) && IsBool(e2)
    ensures r == e1
  {
    Bool(Max(e1.v, e1.v))
  }

  /** `and(TRUE, FALSE)` as written is `TRUE`, and `or(FALSE, TRUE)` is `FALSE`. */
  lemma AndOrAsWrittenIgnoreSecond()
    ensures AndAsWritten(TRUE, FALSE) == TRUE && Lift(Truth(TRUE) && Truth(FALSE)) == FALSE
    ensures OrAsWritten(FALSE, TRUE) == FALSE && Lift(Truth(FALSE) || Truth(TRUE)) == TRUE
  {
  }

  /** `bool_and` with both arguments: the minimum is `TRUE` only when both are. */
  function And(e1: Bool, e2: Bool): (r: Bool)
    requires IsBool(e1) && IsBool(e2)
    ensures r == Lift(Truth(e1) && Truth(e2))
  {
    Bool(Min(e1.v, e2.v))
  }

  /** `bool_or` with both arguments: the maximum is `TRUE` when either is. */
  function Or(e1: Bool, e2: Bool): (r: Bool)
    requires IsBool(e1) && IsBool(e2)
    ensures r == Lift(Truth(e1) || Truth(e2))
  {
    Bool(Max(e1.v, e2.v))
  }

  /** `bool_xor`: `TRUE` iff the arguments differ. */
  function Xor(e1: Bool, e2: Bool): (r: Bool)
    requires IsBool(e1) && IsBool(e2)
    ensures r == Lift(Truth(e1) != Truth(e2))
  {
    if e1 != e2 then TRUE else FALSE
  }

  // ----- the default methods over the primitives -----

  /** Default `bool_equ`: `xor(not a, b)`. */
  function Equ(e1: Bool, e2: Bool): (r: Bool)
    requires IsBool(e1) && IsBool(e2)
    ensures r == Lift(Truth(e1) == Truth(e2))
  {
    Xor(Not(e1), e2)
  }

  /** Default `bool_imp`: `or(not a, b)`. */
  function Imp(e1: Bool, e2: Bool): (r: Bool)
    requires IsBool(e1) && IsBool(e2)
    ensures r == Lift(Truth(e1) ==> Truth(e2))
  {
    Or(Not(e1), e2)
  }

  /** Default `bool_sum3`: two xors, the parity of the three. */
  function Sum3(e1: Bool, e2: Bool, e3: Bool): (r: Bool)
    requires IsBool(e1) && IsBool(e2) && IsBool(e3)
    ensures r == Lift(Count([Truth(e1), Truth(e2), Truth(e3)]) % 2 == 1)
  {
    Count3(Truth(e1), Truth(e2), Truth(e3));
    Xor(Xor(e1, e2), e3)
  }

  /** Default `bool_maj`: `or(and(b, c), or(and(a, b), and(a, c)))`, the majority. */
  function Maj(e1: Bool, e2: Bool, e3: Bool): (r: Bool)
    requires IsBool(e1) && IsBool(e2) && IsBool(e3)
    ensures r == Lift(Count([Truth(e1), Truth(e2), Truth(e3)]) >= 2)
  {
    Count3(Truth(e1), Truth(e2), Truth(e3));
    Or(And(e2, e3), Or(And(e1, e2), And(e1, e3)))
  }

  // ----- the accumulator loops -----

  /** The bits a sequence of constants stands for. */
  function Truths(elems: seq<Bool>): (r: seq<bool>)
    ensures |r| == |elems| && forall i :: 0 <= i < |elems| ==> r[i] == Truth(elems[i])
  {
    seq(|elems|, i requires 0 <= i < |elems| => Truth(elems[i]))
  }

  predicate AllBool(elems: seq<Bool>)
  {
    forall i :: 0 <= i < |elems| ==> IsBool(elems[i])
  }

  lemma TruthsPrefix(elems: seq<Bool>, k: nat)
    requires k < |elems|
    ensures Truths(elems[..k + 1]) == Truths(elems[..k]) + [Truth(elems[k])]
  {
  }

  /** `bool_fold_all`: conjunction, from `TRUE`. */
  method FoldAll(elems: seq<Bool>) returns (r: Bool)
    requires AllBool(elems)
    ensures r == Lift(forall i :: 0 <= i < |elems| ==> Truth(elems[i]))
  {
    r := TRUE;
    for k := 0 to |elems|
      invariant r == Lift(forall i :: 0 <= i < k ==> Truth(elems[i]))
    {
      r := And(r, elems[k]);
    }
  }

  /** `bool_fold_any`: disjunction, from `FALSE`. */
  method FoldAny(elems: seq<Bool>) returns (r: Bool)
    requires AllBool(elems)
    ensures r == Lift(exists i :: 0 <= i < |elems| && Truth(elems[i]))
  {
    r := FALSE;
    for k := 0 to |elems|
      invariant r == Lift(exists i :: 0 <= i < k && Truth(elems[i]))
    {
      r := Or(r, elems[k]);
    }
  }

  /** `bool_fold_sum`: parity, from `FALSE`. */
  method FoldSum(elems: seq<Bool>) returns (r: Bool)
    requires AllBool(elems)
    ensures r == Lift(Count(Truths(elems)) % 2 == 1)
  {
    r := FALSE;
    for k := 0 to |elems|
      invariant r == Lift(Count(Truths(elems[..k])) % 2 == 1)
    {
      TruthsPrefix(elems, k);
      assert Truths(elems[..k + 1])[..k] == Truths(elems[..k]);
      r := Xor(r, elems[k]);
    }
    assert elems[..|elems|] == elems;
  }

  /** `bool_fold_one`: exactly one, with `min1`/`min2` recording at least one/two. */
  method FoldOne(elems: seq<Bool>) returns (r: Bool)
    requires AllBool(elems)
    ensures r == Lift(Count(Truths(elems)) == 1)
  {
    var min1, min2 := FALSE, FALSE;
    for k := 0 to |elems|
      invariant min1 == Lift(Count(Truths(elems[..k])) >= 1)
      invariant min2 == Lift(Count(Truths(elems[..k])) >= 2)
    {
      TruthsPrefix(elems, k);
      assert Truths(elems[..k + 1])[..k] == Truths(elems[..k]);
      var tmp := And(min1, elems[k]);
      min2 := Or(min2, tmp);
      min1 := Or(min1, elems[k]);
    }
    assert elems[..|elems|] == elems;
    min2 := Not(min2);
    r := And(min1, min2);
  }

  /** `bool_fold_amo`: at most one. */
  method FoldAmo(elems: seq<Bool>) returns (r: Bool)
    requires AllBool(elems)
    ensures r == Lift(Count(Truths(elems)) <= 1)
  {
    var min1, min2 := FALSE, FALSE;
    for k := 0 to |elems|
      invariant min1 == Lift(Count(Truths(elems[..k])) >= 1)
      invariant min2 == Lift(Count(Truths(elems[..k])) >= 2)
    {
      TruthsPrefix(elems, k);
      assert Truths(elems[..k + 1])[..k] == Truths(elems[..k]);
      var tmp := And(min1, elems[k]);
      min2 := Or(min2, tmp);
      min1 := Or(min1, elems[k]);
    }
    assert elems[..|elems|] == elems;
    r := Not(min2);
  }

  /** `bool_cmp_equ`: the lengths must agree; `TRUE` iff the sequences agree everywhere. */
  method CmpEqu(elems1: seq<Bool>, elems2: seq<Bool>) returns (r: Bool)
    requires AllBool(elems1) && AllBool(elems2) && |elems1| == |elems2|
    ensures r == Lift(Truths(elems1) == Truths(elems2))
  {
    r := TRUE;
    for k := 0 to |elems1|
      invariant r == Lift(Truths(elems1[..k]) == Truths(elems2[..k]))
    {
      TruthsPrefix(elems1, k);
      TruthsPrefix(elems2, k);
      var c := Equ(elems1[k], elems2[k]);
      r := And(r, c);
    }
    assert elems1[..|elems1|] == elems1;
    assert elems2[..|elems2|] == elems2;
  }

  /** `bool_cmp_neq`: the negation of `bool_cmp_equ`. */
  method CmpNeq(elems1: seq<Bool>, elems2: seq<Bool>) returns (r: Bool)
    requires AllBool(elems1) && AllBool(elems2) && |elems1| == |elems2|
    ensures r == Lift(Truths(elems1) != Truths(elems2))
  {
    var e := CmpEqu(elems1, elems2);
    r := Not(e);
  }

  /** `bool_cmp_leq`: little-endian `≤`, each pair updating `maj(not a, b, result)` from `TRUE`. */
  method CmpLeq(elems1: seq<Bool>, elems2: seq<Bool>) returns (r: Bool)
    requires AllBool(elems1) && AllBool(elems2) && |elems1| == |elems2|
    ensures r == Lift(Value(Truths(elems1)) <= Value(Truths(elems2)))
  {
    r := TRUE;
    for k := 0 to |elems1|
      invariant r == Lift(Value(Truths(elems1[..k])) <= Value(Truths(elems2[..k])))
    {
      TruthsPrefix(elems1, k);
      TruthsPrefix(elems2, k);
      var a, b := elems1[k], elems2[k];
      BoolLogic.ValueCompareStep(Truths(elems1[..k]), Truths(elems2[..k]), Truth(a), Truth(b));
      var na := Not(a);
      Count3(!Truth(a), Truth(b), Truth(r));
      r := Maj(na, b, r);
    }
    assert elems1[..|elems1|] == elems1;
    assert elems2[..|elems2|] == elems2;
  }

  /** `bool_cmp_ltn`: the same scan from `FALSE`, giving little-endian `<`. */
  method CmpLtn(elems1: seq<Bool>, elems2: seq<Bool>) returns (r: Bool)
    requires AllBool(elems1) && AllBool(elems2) && |elems1| == |elems2|
    ensures r == Lift(Value(Truths(elems1)) < Value(Truths(elems2)))
  {
    r := FALSE;
    for k := 0 to |elems1|
      invariant r == Lift(Value(Truths(elems1[..k])) < Value(Truths(elems2[..k])))
    {
      TruthsPrefix(elems1, k);
      TruthsPrefix(elems2, k);
      var a, b := elems1[k], elems2[k];
      BoolLogic.ValueCompareStep(Truths(elems1[..k]), Truths(elems2[..k]), Truth(a), Truth(b));
      var na := Not(a);
      Count3(!Truth(a), Truth(b), Truth(r));
      r := Maj(na, b, r);
    }
    assert elems1[..|elems1|] == elems1;
    assert elems2[..|elems2|] == elems2;
  }

  // ----- the default methods over the written `and` and `or` -----

  /** Default `bool_imp` over the written `bool_or`: it keeps `not a` and ignores `b`. */
  function ImpAsWritten(e1: Bool, e2: Bool): (r: Bool)
    requires IsBool(e1) && IsBool(e2)
    ensures r == Lift(!Truth(e1))
    ensures e1 == TRUE && e2 == TRUE ==> r != Imp(e1, e2)
  {
    OrAsWritten(Not(e1), e2)
  }

  /** Default `bool_maj` over the written `and` and `or`: the outer `or` keeps `and(b, c)`, which keeps `b`. */
  function MajAsWritten(e1: Bool, e2: Bool, e3: Bool): (r: Bool)
    requires IsBool(e1) && IsBool(e2) && IsBool(e3)
    ensures r == e2
    ensures e1 == FALSE && e2 == TRUE && e3 == FALSE ==> r != Maj(e1, e2, e3)
  {
    OrAsWritten(AndAsWritten(e2, e3), OrAsWritten(AndAsWritten(e1, e2), AndAsWritten(e1, e3)))
  }

  /** `bool_fold_all` over the written `and`: `TRUE` whatever the entries. */
  method FoldAllAsWritten(elems: seq<Bool>) returns (r: Bool)
    requires AllBool(elems)
    ensures r == TRUE
  {
    r := TRUE;
    for k := 0 to |elems|
      invariant r == TRUE
    {
      r := AndAsWritten(r, elems[k]);
    }
  }

  /** `bool_fold_any` over the written `or`: `FALSE` whatever the entries. */
  method FoldAnyAsWritten(elems: seq<Bool>) returns (r: Bool)
    requires AllBool(elems)
    ensures r == FALSE
  {
    r := FALSE;
    for k := 0 to |elems|
      invariant r == FALSE
    {
      r := OrAsWritten(r, elems[k]);
    }
  }

  /** `bool_fold_one` over the written `and` and `or`: `min1` and `min2` stay `FALSE`, so the result is `FALSE`. */
  method FoldOneAsWritten(elems: seq<Bool>) returns (r: Bool)
    requires AllBool(elems)
    ensures r == FALSE
  {
    var min1, min2 := FALSE, FALSE;
    for k := 0 to |elems|
      invariant min1 == FALSE && min2 == FALSE
    {
      var tmp := AndAsWritten(min1, elems[k]);
      min2 := OrAsWritten(min2, tmp);
      min1 := OrAsWritten(min1, elems[k]);
    }
    min2 := Not(min2);
    r := AndAsWritten(min1, min2);
  }

  /** `bool_fold_amo` over the written `and` and `or`: `min2` stays `FALSE`, so the result is `TRUE`. */
  method FoldAmoAsWritten(elems: seq<Bool>) returns (r: Bool)
    requires AllBool(elems)
    ensures r == TRUE
  {
    var min1, min2 := FALSE, FALSE;
    for k := 0 to |elems|
      invariant min1 == FALSE && min2 == FALSE
    {
      var tmp := AndAsWritten(min1, elems[k]);
      min2 := OrAsWritten(min2, tmp);
      min1 := OrAsWritten(min1, elems[k]);
    }
    r := Not(min2);
  }

  /** `bool_cmp_equ` over the written `and`: `TRUE` whatever the sequences. */
  method CmpEquAsWritten(elems1: seq<Bool>, elems2: seq<Bool>) returns (r: Bool)
    requires AllBool(elems1) && AllBool(elems2) && |elems1| == |elems2|
    ensures r == TRUE
  {
    r := TRUE;
    for k := 0 to |elems1|
      invariant r == TRUE
    {
      var c := Equ(elems1[k], elems2[k]);
      r := AndAsWritten(r, c);
    }
  }

  /** `bool_cmp_neq` over the written `and`: `FALSE` whatever the sequences. */
  method CmpNeqAsWritten(elems1: seq<Bool>, elems2: seq<Bool>) returns (r: Bool)
    requires AllBool(elems1) && AllBool(elems2) && |elems1| == |elems2|
    ensures r == FALSE
  {
    var e := CmpEquAsWritten(elems1, elems2);
    r := Not(e);
  }

  /** `bool_cmp_leq` over the written `maj`: the last entry of the second sequence, `TRUE` when both are empty. */
  method CmpLeqAsWritten(elems1: seq<Bool>, elems2: seq<Bool>) returns (r: Bool)
    requires AllBool(elems1) && AllBool(elems2) && |elems1| == |elems2|
    ensures r == if |elems2| == 0 then TRUE else elems2[|elems2| - 1]
  {
    r := TRUE;
    for k := 0 to |elems1|
      invariant IsBool(r) && r == if k == 0 then TRUE else elems2[k - 1]
    {
      var na := Not(elems1[k]);
      r := MajAsWritten(na, elems2[k], r);
    }
  }

  /** `bool_cmp_ltn` over the written `maj`: the last entry of the second sequence, `FALSE` when both are empty. */
  method CmpLtnAsWritten(elems1: seq<Bool>, elems2: seq<Bool>) returns (r: Bool)
    requires AllBool(elems1) && AllBool(elems2) && |elems1| == |elems2|
    ensures r == if |elems2| == 0 then FALSE else elems2[|elems2| - 1]
  {
    r := FALSE;
    for k := 0 to |elems1|
      invariant IsBool(r) && r == if k == 0 then FALSE else elems2[k - 1]
    {
      var na := Not(elems1[k]);
      r := MajAsWritten(na, elems2[k], r);
    }
  }

  // ----- the bit-vector adapter -----

  /** The constants a bit vector stands for: each bit lifted. */
  function Lifted(bits: seq<bool>): (r: seq<Bool>)
    ensures |r| == |bits| && AllBool(r)
    ensures forall i :: 0 <= i < |bits| ==> r[i] == Lift(bits[i])
  {
    seq(|bits|, i requires 0 <= i < |bits| => Lift(bits[i]))
  }

  /** `push`: stores `elem == TRUE`. */
  method Push(v: CoreBitVec.BitVec, elem: Bool)
    requires v.Valid() && IsBool(elem)
    modifies v
    ensures v.Valid() && Lifted(v.Contents()) == Lifted(old(v.Contents())) + [elem]
  {
    v.Push(elem == TRUE);
  }

  /** `pop`: the stored bit, lifted. */
  method Pop(v: CoreBitVec.BitVec) returns (r: Option<Bool>)
    requires v.Valid()
    modifies v
    ensures v.Valid()
    ensures old(v.len) == 0 ==> r == None && v.len == 0
    ensures old(v.len) > 0 ==> r == Some(Lifted(old(v.Contents()))[old(v.len) - 1]) && Lifted(v.Contents()) == Lifted(old(v.Contents()))[..old(v.len) - 1]
  {
    var b := v.Pop();
    match b {
      case None =>
        r := None;
      case Some(x) =>
        r := Some(Lift(x));
    }
  }

  /** `get`: the stored bit, lifted. */
  method Get(v: CoreBitVec.BitVec, index: nat) returns (r: Bool)
    requires v.Valid() && index < v.len
    ensures r == Lifted(v.Contents())[index]
  {
    var b := v.Get(index);
    r := Lift(b);
  }

  /** `set`: stores `elem == TRUE`. */
  method Set(v: CoreBitVec.BitVec, index: nat, elem: Bool)
    requires v.Valid() && index < v.len && IsBool(elem)
    modifies v
    ensures v.Valid() && Lifted(v.Contents()) == Lifted(old(v.Contents()))[index := elem]
  {
    v.Set(index, elem == TRUE);
  }

  /** `resize`: fills with `elem == TRUE`. */
  method Resize(v: CoreBitVec.BitVec, new_len: nat, elem: Bool)
    requires v.Valid() && IsBool(elem)
    modifies v
    ensures v.Valid() && |v.Contents()| == new_len
    ensures forall i :: 0 <= i < new_len ==>
      Lifted(v.Contents())[i] == if i < old(v.len) then Lifted(old(v.Contents()))[i] else elem
  {
    v.Resize(new_len, elem == TRUE);
  }

  /** `truncate`, and the default `clear`, which truncates to 0. */
  method Truncate(v: CoreBitVec.BitVec, new_len: nat)
    requires v.Valid() && new_len <= v.len
    modifies v
    ensures v.Valid() && Lifted(v.Contents()) == Lifted(old(v.Contents()))[..new_len]
  {
    v.Truncate(new_len);
  }

  // ----- the iterator of the adapter -----

  /** `BitIt::next` as written: it never yields an item. */
  function BitItNextAsWritten(bits: seq<bool>, start: nat): (r: Option<Bool>)
    ensures r == None
  {
    None
  }

  /** On a one-bit vector, iteration as written stops at once although one item is left. */
  lemma BitItAsWrittenYieldsNothing()
    ensures BitItNextAsWritten([true], 0) == None && |Lifted([true])| == 1
  {
  }

  /** `BitIt::next`, forwarding to the slice iterator it wraps and lifting the bit. */
  method BitItNext(it: GenVecBitVec.BitSlice) returns (r: Option<Bool>)
    requires it.Valid()
    modifies it
    ensures it.Valid() && it.end == old(it.end)
    ensures old(it.start) < old(it.end) ==> r == Some(Lift(old(it.Contents())[0])) && it.Contents() == old(it.Contents())[1..]
    ensures old(it.start) >= old(it.end) ==> r == None && it.start == old(it.start)
  {
    var b := it.Next();
    match b {
      case None =>
        r := None;
      case Some(x) =>
        r := Some(Lift(x));
    }
  }

  /** Draining `copy_iter` of the adapter yields the lifted bits in order. */
  method CollectCopyIter(v: CoreBitVec.BitVec) returns (items: seq<Bool>)
    requires v.Valid()
    ensures items == Lifted(v.Contents())
  {
    var it := new GenVecBitVec.BitSlice(v);
    items := [];
    ghost var all := v.Contents();
    while true
      invariant it.Valid() && it.vec == v && v.Contents() == all
      invariant |items| + |it.Contents()| == |all| && it.Contents() == all[|items|..]
      invariant forall i :: 0 <= i < |items| ==> items[i] == Lift(all[i])
      decreases it.end - it.start
    {
      var next := BitItNext(it);
      match next {
        case None =>
          break;
        case Some(b) =>
          items := items + [b];
      }
    }
  }
}
