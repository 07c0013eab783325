/**
 * The `BooleanLogic` interface instantiated with the two-element algebra of
 * native `bool` values (`Logic`). The primitives are `not`, `or` and `xor`;
 * the derived operations are the interface's default methods, written over
 * those primitives, and each is proved to agree with the override the `bool`
 * instance provides. The folds and comparators are the accumulator loops of
 * the interface, run with the `bool` instance.
 */
module BoolLogic {
  import opened BitSpec

  // ----- the `bool` instance: primitives -----

  function Not(a: bool): bool { !a }

  function Or(a: bool, b: bool): bool { a || b }

  function Xor(a: bool, b: bool): bool { a != b }

  /** `bool_lift`: true and false map to the unit and zero of the algebra. */
  function Lift(b: bool): (r: bool)
    ensures r == b
  {
    if b then true else false
  }

  // ----- default methods, over the primitives -----

  /** Default `bool_and`, by De Morgan; it agrees with the `&&` override. */
  function DefaultAnd(a: bool, b: bool): (r: bool)
    ensures r == (a && b)
  {
    Not(Or(Not(a), Not(b)))
  }

  /** Default `bool_equ` is `xor(not a, b)`; it agrees with the `==` override. */
  function DefaultEqu(a: bool, b: bool): (r: bool)
    ensures r == (a == b)
  {
    Xor(Not(a), b)
  }

  /** Default `bool_imp` is `or(not a, b)`; it agrees with the `<=` override. */
  function DefaultImp(a: bool, b: bool): (r: bool)
    ensures r == (a ==> b)
  {
    Or(Not(a), b)
  }

  /** `bool_sum3`: the parity of three values (the sum bit of a full adder). */
  function Sum3(a: bool, b: bool, c: bool): (r: bool)
    ensures r <==> Count([a, b, c]) % 2 == 1
  {
    Count3(a, b, c);
    Xor(Xor(a, b), c)
  }

  /** `bool_maj`: the majority of three values (the carry bit of a full adder). */
  function Maj(a: bool, b: bool, c: bool): (r: bool)
    ensures r <==> Count([a, b, c]) >= 2
  {
    Count3(a, b, c);
    Or(b && c, Or(a && b, a && c))
  }

  // ----- specification of the folds and comparators -----

  /** The first components of a sequence of pairs. */
  function Firsts(pairs: seq<(bool, bool)>): (r: seq<bool>)
    ensures |r| == |pairs| && forall i :: 0 <= i < |pairs| ==> r[i] == pairs[i].0
  {
    seq(|pairs|, i requires 0 <= i < |pairs| => pairs[i].0)
  }

  /** The second components of a sequence of pairs. */
  function Seconds(pairs: seq<(bool, bool)>): (r: seq<bool>)
    ensures |r| == |pairs| && forall i :: 0 <= i < |pairs| ==> r[i] == pairs[i].1
  {
    seq(|pairs|, i requires 0 <= i < |pairs| => pairs[i].1)
  }


  /** One step of the little-endian comparison: the new most significant pair decides unless it is equal. */
  lemma {:induction false} ValueCompareStep(a: seq<bool>, b: seq<bool>, x: bool, y: bool)
    requires |a| == |b|
    ensures (Value(a + [x]) <= Value(b + [y])) <==>
              (if x == y then Value(a) <= Value(b) else y)
    ensures (Value(a + [x]) < Value(b + [y])) <==>
              (if x == y then Value(a) < Value(b) else y)
  {
    assert (a + [x])[..|a|] == a;
    assert (b + [y])[..|b|] == b;
    ValueBound(a);
    ValueBound(b);
  }

  // ----- the folds, as the loops of the default methods -----

  /** `bool_fold_all`: conjunction, starting from the unit. */
  method FoldAll(elems: seq<bool>) returns (r: bool)
    ensures r <==> forall i :: 0 <= i < |elems| ==> elems[i]
  {
    r := true;
    for k := 0 to |elems|
      invariant r <==> forall i :: 0 <= i < k ==> elems[i]
    {
      r := r && elems[k];
    }
  }

  /** `bool_fold_any`: disjunction, starting from zero. */
  method FoldAny(elems: seq<bool>) returns (r: bool)
    ensures r <==> exists i :: 0 <= i < |elems| && elems[i]
  {
    r := false;
    for k := 0 to |elems|
      invariant r <==> exists i :: 0 <= i < k && elems[i]
    {
      r := Or(r, elems[k]);
    }
  }

  /** `bool_fold_sum`: parity, starting from zero. */
  method FoldSum(elems: seq<bool>) returns (r: bool)
    ensures r <==> Count(elems) % 2 == 1
  {
    r := false;
    for k := 0 to |elems|
      invariant r <==> Count(elems[..k]) % 2 == 1
    {
      assert elems[..k + 1][..k] == elems[..k];
      r := Xor(r, elems[k]);
    }
    assert elems[..|elems|] == elems;
  }

  /**
   * `bool_fold_one`: exactly one element is true. `min1` records that at
   * least one and `min2` that at least two true elements were seen.
   */
  method FoldOne(elems: seq<bool>) returns (r: bool)
    ensures r <==> Count(elems) == 1
  {
    var min1, min2 := false, false;
    for k := 0 to |elems|
      invariant min1 <==> Count(elems[..k]) >= 1
      invariant min2 <==> Count(elems[..k]) >= 2
    {
      assert elems[..k + 1][..k] == elems[..k];
      var tmp := min1 && elems[k];
      min2 := Or(min2, tmp);
      min1 := Or(min1, elems[k]);
    }
    assert elems[..|elems|] == elems;
    min2 := Not(min2);
    r := min1 && min2;
  }

  /** `bool_fold_amo`: at most one element is true. */
  method FoldAmo(elems: seq<bool>) returns (r: bool)
    ensures r <==> Count(elems) <= 1
  {
    var min1, min2 := false, false;
    for k := 0 to |elems|
      invariant min1 <==> Count(elems[..k]) >= 1
      invariant min2 <==> Count(elems[..k]) >= 2
    {
      assert elems[..k + 1][..k] == elems[..k];
      var tmp := min1 && elems[k];
      min2 := Or(min2, tmp);
      min1 := Or(min1, elems[k]);
    }
    assert elems[..|elems|] == elems;
    r := Not(min2);
  }

  // ----- the comparators over a sequence of pairs -----

  /** `bool_cmp_equ`: the two sequences agree at every position. */
  method CmpEqu(pairs: seq<(bool, bool)>) returns (r: bool)
    ensures r <==> Firsts(pairs) == Seconds(pairs)
  {
    r := true;
    for k := 0 to |pairs|
      invariant r <==> forall i :: 0 <= i < k ==> pairs[i].0 == pairs[i].1
    {
      var c := pairs[k].0 == pairs[k].1;
      r := r && c;
    }
    if !r {
      var i :| 0 <= i < |pairs| && pairs[i].0 != pairs[i].1;
      assert Firsts(pairs)[i] != Seconds(pairs)[i];
    }
  }

  /** `bool_cmp_neq`: the negation of `bool_cmp_equ`. */
  method CmpNeq(pairs: seq<(bool, bool)>) returns (r: bool)
    ensures r <==> Firsts(pairs) != Seconds(pairs)
  {
    var e := CmpEqu(pairs);
    r := Not(e);
  }

  /**
   * `bool_cmp_leq`: the first sequence, read as a little-endian binary
   * number, is at most the second. Each pair updates the result with
   * `maj(not a, b, result)`, so the last differing pair decides.
   */
  method CmpLeq(pairs: seq<(bool, bool)>) returns (r: bool)
    ensures r <==> Value(Firsts(pairs)) <= Value(Seconds(pairs))
  {
    r := true;
    for k := 0 to |pairs|
      invariant r <==> Value(Firsts(pairs[..k])) <= Value(Seconds(pairs[..k]))
    {
      var a, b := pairs[k].0, pairs[k].1;
      CmpStep(pairs, k);
      ValueCompareStep(Firsts(pairs[..k]), Seconds(pairs[..k]), a, b);
      MajCompare(a, b, r);
      var na := Not(a);
      r := Maj(na, b, r);
    }
    assert pairs[..|pairs|] == pairs;
  }

  /** `bool_cmp_ltn`: the same scan started from zero, giving strict comparison. */
  method CmpLtn(pairs: seq<(bool, bool)>) returns (r: bool)
    ensures r <==> Value(Firsts(pairs)) < Value(Seconds(pairs))
  {
    r := false;
    for k := 0 to |pairs|
      invariant r <==> Value(Firsts(pairs[..k])) < Value(Seconds(pairs[..k]))
    {
      var a, b := pairs[k].0, pairs[k].1;
      CmpStep(pairs, k);
      ValueCompareStep(Firsts(pairs[..k]), Seconds(pairs[..k]), a, b);
      MajCompare(a, b, r);
      var na := Not(a);
      r := Maj(na, b, r);
    }
    assert pairs[..|pairs|] == pairs;
  }

  lemma CmpStep(pairs: seq<(bool, bool)>, k: nat)
    requires k < |pairs|
    ensures Firsts(pairs[..k + 1]) == Firsts(pairs[..k]) + [pairs[k].0]
    ensures Seconds(pairs[..k + 1]) == Seconds(pairs[..k]) + [pairs[k].1]
  {
  }

  /** The comparison step `maj(not a, b, r)` keeps `r` on equal bits and otherwise returns `b`. */
  lemma MajCompare(a: bool, b: bool, r: bool)
    ensures Maj(Not(a), b, r) == (if a == b then r else b)
  {
  }
}
