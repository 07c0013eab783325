/**
 * Bit vectors as binary numbers: the `BinaryAlg` interface of
 * `src/binary.rs` over the two-element algebra `Boolean` of
 * `src/boolean.rs`, and its length-only instance `Checker`. The subset of
 * the interface that `BoolVecAlg` of `src/boolvec.rs` declares (the bit
 * operations, `concat` and `num_lift`) is the same code and is modelled once
 * here.
 *
 * A vector is read as a number with its first bit least significant
 * (`BitSpec.Value`). `num_add`, `num_neg` and `num_sub` are ripple-carry
 * loops computing modulo `2^len`; `num_leq` is a carry scan that compares the
 * vectors as unsigned numbers.
 */
module Binary {
  import opened BitSpec
  import opened Arith
  import opened Wrappers
  import BoolLogic
  import GenericVector

  // ----- bit operations (pointwise) -----

  /** `bit_lift`: each bool lifted into the algebra, which for `Boolean` is the bool itself. */
  function BitLift(bits: seq<bool>): (r: seq<bool>)
    ensures r == bits
  {
    seq(|bits|, i requires 0 <= i < |bits| => BoolLogic.Lift(bits[i]))
  }

  /** `bit_not`: the ones' complement, whose value is `2^len - 1 - value`. */
  function BitNot(a: seq<bool>): (r: seq<bool>)
    ensures |r| == |a| && forall i :: 0 <= i < |a| ==> r[i] == !a[i]
  {
    seq(|a|, i requires 0 <= i < |a| => BoolLogic.Not(a[i]))
  }

  /** `bit_or`: asserts equal lengths. */
  function BitOr(a: seq<bool>, b: seq<bool>): (r: seq<bool>)
    requires |a| == |b|
    ensures |r| == |a| && forall i :: 0 <= i < |a| ==> r[i] == (a[i] || b[i])
  {
    seq(|a|, i requires 0 <= i < |a| => BoolLogic.Or(a[i], b[i]))
  }

  /** `bit_and`: asserts equal lengths; `Boolean` overrides the default with `&&`. */
  function BitAnd(a: seq<bool>, b: seq<bool>): (r: seq<bool>)
    requires |a| == |b|
    ensures |r| == |a| && forall i :: 0 <= i < |a| ==> r[i] == (a[i] && b[i])
  {
    seq(|a|, i requires 0 <= i < |a| => a[i] && b[i])
  }

  /** `bit_add`: asserts equal lengths; exclusive or. */
  function BitAdd(a: seq<bool>, b: seq<bool>): (r: seq<bool>)
    requires |a| == |b|
    ensures |r| == |a| && forall i :: 0 <= i < |a| ==> r[i] == (a[i] != b[i])
  {
    seq(|a|, i requires 0 <= i < |a| => BoolLogic.Xor(a[i], b[i]))
  }

  /** `bit_equ`: asserts equal lengths; `Boolean` overrides the default with `==`. */
  function BitEqu(a: seq<bool>, b: seq<bool>): (r: seq<bool>)
    requires |a| == |b|
    ensures |r| == |a| && forall i :: 0 <= i < |a| ==> r[i] == (a[i] == b[i])
  {
    seq(|a|, i requires 0 <= i < |a| => a[i] == b[i])
  }

  /** `bit_leq`: asserts equal lengths; `Boolean` overrides the default with `<=` on bools, implication. */
  function BitLeq(a: seq<bool>, b: seq<bool>): (r: seq<bool>)
    requires |a| == |b|
    ensures |r| == |a| && forall i :: 0 <= i < |a| ==> r[i] == (a[i] ==> b[i])
  {
    seq(|a|, i requires 0 <= i < |a| => a[i] ==> b[i])
  }

  /**
   * The overrides of `Boolean` agree with the defaults of the interface
   * (De Morgan for `and`, `xor(not a, b)` for `equ`, `or(not a, b)` for
   * `leq`), and `bit_equ` is true everywhere exactly when the vectors are equal.
   */
  lemma BitOpsDefaults(a: seq<bool>, b: seq<bool>)
    requires |a| == |b|
    ensures BitAnd(a, b) == BitNot(BitOr(BitNot(a), BitNot(b)))
    ensures BitEqu(a, b) == BitAdd(BitNot(a), b)
    ensures BitLeq(a, b) == BitOr(BitNot(a), b)
    ensures BitEqu(a, b) == Constant(|a|, true) <==> a == b
  {
    if BitEqu(a, b) == Constant(|a|, true) {
      assert forall i :: 0 <= i < |a| ==> a[i] == b[i] by {
        forall i | 0 <= i < |a| ensures a[i] == b[i] {
          assert BitEqu(a, b)[i];
        }
      }
    }
  }

  /** The ones' complement: the value of `bit_not(a)` is `2^len - 1 - value(a)`. */
  lemma {:induction false} NotValue(a: seq<bool>)
    ensures Value(BitNot(a)) == Pow2(|a|) - 1 - Value(a)
  {
    if a != [] {
      var p := a[..|a| - 1];
      assert BitNot(a)[..|a| - 1] == BitNot(p);
      NotValue(p);
    }
  }

  // ----- numbers -----

  /** `n` is in the range of `i64`. */
  predicate IsI64(n: int)
  {
    var bound: int := Pow2(63);
    -bound <= n < bound
  }

  /** Bit `i` of `n` in two's complement: `(n >> i) & 1`, with `>>` the arithmetic (flooring) shift. */
  function ShiftBit(n: int, i: nat): bool
  {
    (n / Pow2(i)) % 2 == 1
  }

  /**
   * `num_lift`: bit `i` of the result is bit `i` of the 64-bit integer `n`;
   * the shift `n >> i` needs `i < 64`, so `len` is at most 64. The result
   * is `n` modulo `2^len`, so it depends only on that residue.
   */
  function NumLift(len: nat, n: int): (r: seq<bool>)
    requires len <= 64 && IsI64(n)
    ensures |r| == len && Value(r) == n % Pow2(len)
  {
    LiftValue(len, n);
    Lift(len, n)
  }

  /** The first `len` two's-complement bits of `n`. */
  function Lift(len: nat, n: int): (r: seq<bool>)
    ensures |r| == len
  {
    seq(len, i requires 0 <= i < len => BoolLogic.Lift(ShiftBit(n, i)))
  }

  lemma {:induction false} LiftValue(len: nat, n: int)
    ensures Value(Lift(len, n)) == n % Pow2(len)
  {
    if len > 0 {
      var l := Lift(len, n);
      assert l[..len - 1] == Lift(len - 1, n);
      LiftValue(len - 1, n);
      ModDouble(n, Pow2(len - 1));
    }
  }

  /** The residue modulo `2p` is the residue modulo `p` plus bit `p` of `n`. */
  lemma ModDouble(n: int, p: nat)
    requires p > 0
    ensures n % (2 * p) == n % p + (if (n / p) % 2 == 1 then p else 0)
  {
    var q, m := n / p, n % p;
    var h, b := q / 2, q % 2;
    assert n == q * p + m;
    assert q == 2 * h + b;
    MulDistrib(p, 2 * h, b);
    assert q * p == h * (2 * p) + b * p;
    if b == 1 {
      DivModUnique(n, 2 * p, h, p + m);
    } else {
      DivModUnique(n, 2 * p, h, m);
    }
  }

  /** Vectors of one length with one value are equal: the value determines the bits. */
  lemma {:induction false} ValueInjective(a: seq<bool>, b: seq<bool>)
    requires |a| == |b| && Value(a) == Value(b)
    ensures a == b
  {
    if a != [] {
      var k := |a| - 1;
      ValueBound(a[..k]);
      ValueBound(b[..k]);
      assert a[k] == b[k];
      ValueInjective(a[..k], b[..k]);
      assert a == a[..k] + [a[k]] && b == b[..k] + [b[k]];
    }
  }

  /** `num_lift` gives the same vector for two integers exactly when they agree modulo `2^len`. */
  lemma NumLiftResidue(len: nat, n: int, m: int)
    requires len <= 64 && IsI64(n) && IsI64(m)
    ensures NumLift(len, n) == NumLift(len, m) <==> n % Pow2(len) == m % Pow2(len)
  {
    if n % Pow2(len) == m % Pow2(len) {
      ValueInjective(NumLift(len, n), NumLift(len, m));
    }
  }

  /** Every vector of at most 63 bits is `num_lift` of its value. */
  lemma NumLiftValue(a: seq<bool>)
    requires |a| < 64
    ensures IsI64(Value(a)) && NumLift(|a|, Value(a)) == a
  {
    ValueBound(a);
    Pow2Mono(|a|, 63);
    var v := Value(a);
    assert IsI64(v);
    var l := NumLift(|a|, v);
    DivModUnique(v, Pow2(|a|), 0, v);
    ValueInjective(l, a);
  }

  lemma {:induction false} Pow2Mono(a: nat, b: nat)
    requires a <= b
    ensures Pow2(a) <= Pow2(b)
  {
    if a < b {
      Pow2Mono(a, b - 1);
    }
  }

  // ----- ripple-carry arithmetic -----

  /** The value `p` when `b` holds, else 0. */
  function Bit(b: bool, p: int): int
  {
    if b then p else 0
  }

  /** Appending a bit adds its place value. */
  lemma ValueSnoc(s: seq<bool>, x: bool)
    ensures Value(s + [x]) == Value(s) + Bit(x, Pow2(|s|))
  {
    assert (s + [x])[..|s|] == s;
  }

  /** One full-adder step: `ad3` is the sum bit and `maj` the carry of `x + y + c`. */
  lemma AdderStep(x: bool, y: bool, c: bool, p: int)
    ensures Bit(BoolLogic.Sum3(x, y, c), p) + Bit(BoolLogic.Maj(x, y, c), 2 * p) == Bit(x, p) + Bit(y, p) + Bit(c, p)
  {
  }

  /** One position of a ripple-carry loop: the sum bit and the new carry account for both input bits. */
  lemma RippleStep(r: seq<bool>, x: bool, y: bool, c: bool, acc: int)
    requires Value(r) + Bit(c, Pow2(|r|)) == acc
    ensures Value(r + [BoolLogic.Sum3(x, y, c)]) + Bit(BoolLogic.Maj(x, y, c), Pow2(|r| + 1))
      == acc + Bit(x, Pow2(|r|)) + Bit(y, Pow2(|r|))
  {
    ValueSnoc(r, BoolLogic.Sum3(x, y, c));
    AdderStep(x, y, c, Pow2(|r|));
  }

  /** The value of `a` read up to `i`, as the loops consume it one bit at a time. */
  lemma PrefixSnoc(a: seq<bool>, i: nat)
    requires i < |a|
    ensures Value(a[..i + 1]) == Value(a[..i]) + Bit(a[i], Pow2(i))
  {
    assert a[..i + 1] == a[..i] + [a[i]];
    ValueSnoc(a[..i], a[i]);
  }

  /** A value below `p` that differs from `x` by a multiple `q` of `p` is `x` modulo `p`. */
  lemma ModOfCarry(x: int, p: nat, v: nat, c: bool, k: int)
    requires p > 0 && v < p && x == v + (if c then k + 1 else k) * p
    ensures x % p == v
  {
    DivModUnique(x, p, if c then k + 1 else k, v);
  }

  /** The final carry is dropped: the result is the total modulo `2^len`. */
  lemma CarryOut(r: seq<bool>, c: bool, total: int)
    requires Value(r) + Bit(c, Pow2(|r|)) == total
    ensures Value(r) == total % Pow2(|r|)
  {
    ValueBound(r);
    ModOfCarry(total, Pow2(|r|), Value(r), c, 0);
  }

  /** With a carry-in of 1 the loops compute `total + 2^len`; the result is `total` modulo `2^len`. */
  lemma BorrowOut(r: seq<bool>, c: bool, total: int)
    requires Value(r) + Bit(c, Pow2(|r|)) == total + Pow2(|r|)
    ensures Value(r) == total % Pow2(|r|)
  {
    ValueBound(r);
    ModOfCarry(total, Pow2(|r|), Value(r), c, -1);
  }

  /**
   * `num_add`: asserts equal lengths; a ripple-carry adder from carry 0,
   * whose result is the sum modulo `2^len`.
   */
  method NumAdd(a: seq<bool>, b: seq<bool>) returns (r: seq<bool>)
    requires |a| == |b|
    ensures |r| == |a| && Value(r) == (Value(a) + Value(b)) % Pow2(|a|)
  {
    var carry := false;
    r := [];
    for i := 0 to |a|
      invariant |r| == i && Value(r) + Bit(carry, Pow2(i)) == Value(a[..i]) + Value(b[..i])
    {
      RippleStep(r, a[i], b[i], carry, Value(a[..i]) + Value(b[..i]));
      PrefixSnoc(a, i);
      PrefixSnoc(b, i);
      r := r + [BoolLogic.Sum3(a[i], b[i], carry)];
      carry := BoolLogic.Maj(a[i], b[i], carry);
    }
    assert a[..|a|] == a && b[..|b|] == b;
    CarryOut(r, carry, Value(a) + Value(b));
  }

  /**
   * `num_neg`: the two's complement negation, adding 1 to the ones'
   * complement with a carry that starts at the unit; the result is
   * `-value` modulo `2^len`.
   */
  method NumNeg(a: seq<bool>) returns (r: seq<bool>)
    ensures |r| == |a| && Value(r) == (-(Value(a) as int)) % Pow2(|a|)
  {
    var carry := true;
    r := [];
    for i := 0 to |a|
      invariant |r| == i && Value(r) + Bit(carry, Pow2(i)) == Pow2(i) - Value(a[..i])
    {
      var notElem := BoolLogic.Not(a[i]);
      ValueSnoc(r, BoolLogic.Xor(notElem, carry));
      PrefixSnoc(a, i);
      r := r + [BoolLogic.Xor(notElem, carry)];
      carry := notElem && carry;
    }
    assert a[..|a|] == a;
    BorrowOut(r, carry, -(Value(a) as int));
  }

  /**
   * `num_sub`: asserts equal lengths; adds the ones' complement of `b` to
   * `a` with carry-in 1, giving the difference modulo `2^len`.
   */
  method NumSub(a: seq<bool>, b: seq<bool>) returns (r: seq<bool>)
    requires |a| == |b|
    ensures |r| == |a| && Value(r) == (Value(a) - Value(b)) % Pow2(|a|)
  {
    var carry := true;
    r := [];
    for i := 0 to |a|
      invariant |r| == i && Value(r) + Bit(carry, Pow2(i)) == Value(a[..i]) + Pow2(i) - Value(b[..i])
    {
      var notElem2 := BoolLogic.Not(b[i]);
      RippleStep(r, a[i], notElem2, carry, Value(a[..i]) + Pow2(i) - Value(b[..i]));
      PrefixSnoc(a, i);
      PrefixSnoc(b, i);
      r := r + [BoolLogic.Sum3(a[i], notElem2, carry)];
      carry := BoolLogic.Maj(a[i], notElem2, carry);
    }
    assert a[..|a|] == a && b[..|b|] == b;
    BorrowOut(r, carry, Value(a) - Value(b));
  }

  // ----- comparisons, returned as vectors of length 1 -----

  /** `num_equ`: asserts equal lengths; the conjunction of the bitwise equivalences. */
  method NumEqu(a: seq<bool>, b: seq<bool>) returns (r: seq<bool>)
    requires |a| == |b|
    ensures r == [a == b] && (a == b <==> Value(a) == Value(b))
  {
    var result := true;
    for i := 0 to |a|
      invariant result <==> a[..i] == b[..i]
    {
      assert a[..i + 1] == a[..i] + [a[i]] && b[..i + 1] == b[..i] + [b[i]];
      var temp := a[i] == b[i];
      result := result && temp;
    }
    assert a[..|a|] == a && b[..|b|] == b;
    if Value(a) == Value(b) {
      ValueInjective(a, b);
    }
    r := [result];
  }

  /** `num_neq`: `num_equ` with its bit negated. */
  method NumNeq(a: seq<bool>, b: seq<bool>) returns (r: seq<bool>)
    requires |a| == |b|
    ensures r == [a != b]
  {
    var temp := NumEqu(a, b);
    r := temp[0 := BoolLogic.Not(temp[0])];
  }

  /**
   * `num_leq`: asserts equal lengths; the carry of `a`'s complement plus
   * `b`, started at 1, which is set exactly when `value(a) <= value(b)`.
   */
  method NumLeq(a: seq<bool>, b: seq<bool>) returns (r: seq<bool>)
    requires |a| == |b|
    ensures r == [Value(a) <= Value(b)]
  {
    var carry := true;
    for i := 0 to |a|
      invariant carry <==> Value(a[..i]) <= Value(b[..i])
    {
      assert a[..i + 1] == a[..i] + [a[i]] && b[..i + 1] == b[..i] + [b[i]];
      BoolLogic.ValueCompareStep(a[..i], b[..i], a[i], b[i]);
      BoolLogic.MajCompare(a[i], b[i], carry);
      var notElem1 := BoolLogic.Not(a[i]);
      carry := BoolLogic.Maj(notElem1, b[i], carry);
    }
    assert a[..|a|] == a && b[..|b|] == b;
    r := [carry];
  }

  /** `num_ltn`: `num_leq` with the arguments swapped and its bit negated. */
  method NumLtn(a: seq<bool>, b: seq<bool>) returns (r: seq<bool>)
    requires |a| == |b|
    ensures r == [Value(a) < Value(b)]
  {
    var temp := NumLeq(b, a);
    r := temp[0 := BoolLogic.Not(temp[0])];
  }

  // ----- concat -----

  /**
   * `concat` extends an empty vector by each input in turn (the loop of
   * `GenericVector.Concat`); as numbers, the later input supplies the more
   * significant bits.
   */
  lemma ConcatValue(x: seq<bool>, y: seq<bool>)
    ensures GenericVector.Flatten([x, y]) == x + y
    ensures Value(GenericVector.Flatten([x, y])) == Value(x) + Pow2(|x|) * Value(y)
  {
    assert [x, y][..1] == [x];
    assert [x][..0] == [];
    assert GenericVector.Flatten([x]) == x;
    ValueAppend(x, y);
  }

  // ----- the length-only instance `Checker` -----

  /** `Checker` on a pointwise binary operation or `num_add`/`num_sub`: the common length; `None` where the assertion fails. */
  function CheckBinary(len1: nat, len2: nat): (r: Option<nat>)
    ensures r.Some? <==> len1 == len2
    ensures r.Some? ==> r.value == len1
  {
    if len1 == len2 then Some(len1) else None
  }

  /** `Checker` on `num_equ`/`num_leq`: length 1; `None` where the assertion fails. */
  function CheckCompare(len1: nat, len2: nat): (r: Option<nat>)
    ensures r.Some? <==> len1 == len2
    ensures r.Some? ==> r.value == 1
  {
    if len1 == len2 then Some(1) else None
  }

  /** `Checker` on `concat`: the sum of the lengths. */
  function CheckConcat(lens: seq<nat>): (r: nat)
  {
    if lens == [] then 0 else CheckConcat(lens[..|lens| - 1]) + lens[|lens| - 1]
  }

  /** The lengths of a sequence of vectors. */
  function Lengths(elems: seq<seq<bool>>): (r: seq<nat>)
    ensures |r| == |elems| && forall i :: 0 <= i < |elems| ==> r[i] == |elems[i]|
  {
    seq(|elems|, i requires 0 <= i < |elems| => |elems[i]|)
  }

  /** The `Checker` predicts the length of every `Boolean` result, and fails exactly where `Boolean` does. */
  lemma {:induction false} CheckerAgrees(a: seq<bool>, b: seq<bool>, elems: seq<seq<bool>>)
    ensures CheckBinary(|a|, |b|).Some? ==> CheckBinary(|a|, |b|).value == |BitOr(a, b)| == |BitAdd(a, b)|
    ensures CheckCompare(|a|, |b|).Some? ==> CheckCompare(|a|, |b|).value == |[Value(a) <= Value(b)]|
    ensures CheckConcat(Lengths(elems)) == |GenericVector.Flatten(elems)|
  {
    ConcatLengths(elems);
  }

  lemma {:induction false} ConcatLengths(elems: seq<seq<bool>>)
    ensures CheckConcat(Lengths(elems)) == |GenericVector.Flatten(elems)|
  {
    if elems != [] {
      var init := elems[..|elems| - 1];
      assert Lengths(elems)[..|elems| - 1] == Lengths(init);
      ConcatLengths(init);
    }
  }

  // ----- the unit tests of `src/binary.rs` -----

  /** `num_lift(4, 13)` and `num_lift(4, -3)` are both the bits `1011`, read from the least significant. */
  lemma NumLiftExample()
    ensures NumLift(4, 13) == BitLift([true, false, true, true]) == NumLift(4, -3)
  {
    assert Pow2(4) == 16;
    assert Value([true, false, true, true]) == 13 by {
      assert [true, false, true, true][..3] == [true, false, true];
      assert [true, false, true][..2] == [true, false];
      assert [true, false][..1] == [true];
      assert [true][..0] == [];
      assert Pow2(3) == 8 && Pow2(2) == 4;
    }
    ValueInjective(NumLift(4, 13), [true, false, true, true]);
    ValueInjective(NumLift(4, -3), [true, false, true, true]);
  }

  /** `concat(num_lift(4, 0x3), num_lift(4, 0xd)) == num_lift(8, 0xd3)`. */
  lemma ConcatExample()
    ensures GenericVector.Flatten([NumLift(4, 0x3), NumLift(4, 0xd)]) == NumLift(8, 0xd3)
  {
    assert Pow2(4) == 16 && Pow2(8) == 256;
    ConcatValue(NumLift(4, 0x3), NumLift(4, 0xd));
    ValueInjective(GenericVector.Flatten([NumLift(4, 0x3), NumLift(4, 0xd)]), NumLift(8, 0xd3));
  }

  /** The arithmetic test: `17 + 73 == 90`, `-17`, `17 - 73 == -56` and `73 - 17 == 56` in eight bits. */
  method NumOpsExample() returns (sum: seq<bool>, neg: seq<bool>, diff: seq<bool>, back: seq<bool>)
    ensures sum == NumLift(8, 90) && neg == NumLift(8, -17)
    ensures diff == NumLift(8, -56) && back == NumLift(8, 56)
  {
    assert Pow2(8) == 256;
    var v1, v2 := NumLift(8, 17), NumLift(8, 73);
    sum := NumAdd(v1, v2);
    ValueInjective(sum, NumLift(8, 90));
    neg := NumNeg(v1);
    ValueInjective(neg, NumLift(8, -17));
    diff := NumSub(v1, v2);
    ValueInjective(diff, NumLift(8, -56));
    back := NumSub(v2, v1);
    ValueInjective(back, NumLift(8, 56));
  }

  /** The comparison test on `-5`, `-6` and `3` in eight bits, read unsigned as 251, 250 and 3. */
  method NumRelExample() returns (e1: seq<bool>, e2: seq<bool>, l1: seq<bool>, l2: seq<bool>, l3: seq<bool>, l4: seq<bool>)
    ensures e1 == [true] && e2 == [false]
    ensures l1 == [true] && l2 == [true] && l3 == [false] && l4 == [true]
  {
    assert Pow2(8) == 256;
    var v1, v2, v3 := NumLift(8, -5), NumLift(8, -6), NumLift(8, 3);
    e1 := NumEqu(v1, v1);
    e2 := NumEqu(v1, v2);
    l1 := NumLeq(v1, v1);
    l2 := NumLeq(v2, v1);
    l3 := NumLeq(v1, v2);
    l4 := NumLeq(v3, v2);
  }
}
