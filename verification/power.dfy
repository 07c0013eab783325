/**
 * The power domain `Power<BASE, EXP>` of `src/alg/power.rs` (and its older
 * copy in `src/adt/power.rs`): an element is a function from the exponent,
 * a countable domain of `exponent` elements, to the base domain, stored as
 * the concatenation of its `exponent` parts of `base.bits` bits each. Every
 * operation goes through the parts in order and hands each part (or each
 * pair of parts) to the base domain.
 *
 * The base domain is a parameter: `Base` holds its size and its operations
 * as function values, and the predicates on `Base` state the laws a base
 * domain is expected to satisfy. The lifted operations are proved to keep
 * those laws.
 */
module Powers {
  import opened Arith
  import opened BitSpec
  import opened Radix
  import opened Wrappers
  import GenericVector

  /** A base domain: its bit width, its number of elements and its operations. */
  datatype Base = Base(
    bits: nat,
    size: nat,
    elem: nat -> seq<bool>,
    index: seq<bool> -> nat,
    contains: seq<bool> -> bool,
    equals: (seq<bool>, seq<bool>) -> bool,
    leq: (seq<bool>, seq<bool>) -> bool,
    meet: (seq<bool>, seq<bool>) -> seq<bool>,
    join: (seq<bool>, seq<bool>) -> seq<bool>,
    complement: seq<bool> -> seq<bool>,
    onehot: seq<bool> -> seq<bool>,
    top: seq<bool>,
    bottom: seq<bool>,
    isTop: seq<bool> -> bool,
    isBottom: seq<bool> -> bool)
  {
    /** `elem` yields vectors of `bits` bits, and `index` reads the number back. */
    ghost predicate Countable()
    {
      forall i :: 0 <= i < size ==> |elem(i)| == bits && index(elem(i)) == i
    }

    /** The operations stay inside vectors of `bits` bits. */
    ghost predicate Closed()
    {
      |top| == bits && |bottom| == bits &&
      (forall a, b :: |a| == bits && |b| == bits ==> |meet(a, b)| == bits) &&
      (forall a, b :: |a| == bits && |b| == bits ==> |join(a, b)| == bits) &&
      (forall a :: |a| == bits ==> |complement(a)| == bits)
    }

    /** `equals` is equality of the bit vectors. */
    ghost predicate EqualsIsEquality()
    {
      forall a, b :: |a| == bits && |b| == bits ==> (equals(a, b) <==> a == b)
    }

    /** `leq` is a partial order. */
    ghost predicate PartialOrder()
    {
      (forall a :: |a| == bits ==> leq(a, a)) &&
      (forall a, b :: |a| == bits && |b| == bits && leq(a, b) && leq(b, a) ==> a == b) &&
      (forall a, b, c :: |a| == bits && |b| == bits && |c| == bits && leq(a, b) && leq(b, c) ==> leq(a, c))
    }

    /** `meet` is the greatest lower bound for `leq`. */
    ghost predicate MeetIsGlb()
    {
      forall a, b :: |a| == bits && |b| == bits ==>
        |meet(a, b)| == bits && leq(meet(a, b), a) && leq(meet(a, b), b) &&
        (forall x :: |x| == bits && leq(x, a) && leq(x, b) ==> leq(x, meet(a, b)))
    }

    /** `join` is the least upper bound for `leq`. */
    ghost predicate JoinIsLub()
    {
      forall a, b :: |a| == bits && |b| == bits ==>
        |join(a, b)| == bits && leq(a, join(a, b)) && leq(b, join(a, b)) &&
        (forall x :: |x| == bits && leq(a, x) && leq(b, x) ==> leq(join(a, b), x))
    }

    /** `bottom` and `top` are the least and the greatest vectors for `leq`. */
    ghost predicate Bounded()
    {
      forall a :: |a| == bits ==> leq(bottom, a) && leq(a, top)
    }

    /** `isTop` and `isBottom` recognise exactly `top` and `bottom`. */
    ghost predicate RecognisesBounds()
    {
      forall a :: |a| == bits ==> (isTop(a) <==> a == top) && (isBottom(a) <==> a == bottom)
    }

    /** `contains` holds exactly for the vectors that are some `elem(i)`. */
    ghost predicate ContainsElems()
    {
      forall a :: |a| == bits ==> (contains(a) <==> exists i :: 0 <= i < size && elem(i) == a)
    }

    /** `complement` meets to `bottom` and joins to `top`. */
    ghost predicate Complemented()
    {
      forall a :: |a| == bits ==> meet(a, complement(a)) == bottom && join(a, complement(a)) == top
    }

    /** `onehot` turns the element of index `i` into the vector of `size` bits with only bit `i` set. */
    ghost predicate OnehotOfElem()
    {
      forall i :: 0 <= i < size ==> onehot(elem(i)) == OneHot(size, i)
    }

    /** Without bits there is room for one element at most. */
    lemma NoBitsAtMostOne()
      requires Countable() && bits == 0
      ensures size <= 1
    {
      var first: nat, second: nat := 0, 1;
      assert size >= 2 ==> elem(first) == elem(second);
    }

    /** One more digit appends its base element. */
    lemma FlattenElemsSnoc(ds: seq<nat>, d: nat)
      ensures GenericVector.Flatten(ElemsOf(ds + [d])) == GenericVector.Flatten(ElemsOf(ds)) + elem(d)
    {
      assert ElemsOf(ds + [d])[..|ds|] == ElemsOf(ds);
    }

    /** The base elements of the digits `ds`, in order. */
    function ElemsOf(ds: seq<nat>): (r: seq<seq<bool>>)
      ensures |r| == |ds| && forall k :: 0 <= k < |ds| ==> r[k] == elem(ds[k])
    {
      seq(|ds|, k requires 0 <= k < |ds| => elem(ds[k]))
    }
  }

  /** `n` copies of the radix `b`: the digit radices of a power of a domain of `b` elements. */
  function Uniform(b: nat, n: nat): (r: seq<nat>)
    ensures |r| == n && forall i :: 0 <= i < n ==> r[i] == b
    ensures Volume(r) == Pow(b, n)
  {
    var r := seq(n, _ => b);
    ProdUniform(r, b, n);
    r
  }

  /** The first `n` digits of `idx` in base `b`, least significant first. */
  function ForwardDigits(b: nat, n: nat, idx: nat): (r: seq<nat>)
    requires b > 0 || n == 0
    ensures |r| == n && forall k :: 0 <= k < n ==> r[k] < b
  {
    if n == 0 then [] else [idx % b] + ForwardDigits(b, n - 1, idx / b)
  }

  /** The digits of a number below `b^n` stand for it in the uniform radix `b`. */
  lemma {:induction false} ForwardDigitsLinear(b: nat, n: nat, idx: nat)
    requires (b > 0 || n == 0) && idx < Pow(b, n)
    ensures ValidCoords(Uniform(b, n), ForwardDigits(b, n, idx))
    ensures Linear(Uniform(b, n), ForwardDigits(b, n, idx)) == idx
  {
    if n > 0 {
      var q, r := idx / b, idx % b;
      DigitStep(b, n, idx);
      ForwardDigitsLinear(b, n - 1, q);
      var rest := ForwardDigits(b, n - 1, q);
      assert Uniform(b, n) == [b] + Uniform(b, n - 1);
      LinearCons(b, Uniform(b, n - 1), r, rest);
      assert idx == r + b * q;
      assert ForwardDigits(b, n, idx) == [r] + rest;
    }
  }

  /** The next digit and the digits after it; the rest of the number stays in range. */
  lemma DigitStep(b: nat, m: nat, cur: nat)
    requires b > 0 && m > 0 && cur < Pow(b, m)
    ensures ForwardDigits(b, m, cur) == [cur % b] + ForwardDigits(b, m - 1, cur / b)
    ensures cur / b < Pow(b, m - 1)
  {
    DivBelow(cur, b, Pow(b, m - 1));
  }

  lemma AppendAssoc<T>(a: seq<T>, b: seq<T>, c: seq<T>)
    ensures a + (b + c) == (a + b) + c
  {
  }

  /** A single digit stands for itself. */
  lemma LinearSingle(b: nat, x: nat)
    ensures Linear(Uniform(b, 1), [x]) == x
  {
    var w := PlaceValues(Uniform(b, 1));
    assert w[0] == Prod(Uniform(b, 1), 0) == 1;
    assert Dot([x], w, 1) == Dot([x], w, 0) + x * w[0];
  }

  /** A power of one is one. */
  lemma {:induction false} PowOne(n: nat)
    ensures Pow(1, n) == 1
  {
    if n > 0 {
      PowOne(n - 1);
    }
  }

  /** A power of a positive number is positive, and of zero is zero past the zeroth. */
  lemma {:induction false} PowPositive(b: nat, n: nat)
    ensures Pow(b, n) > 0 <==> b > 0 || n == 0
  {
    if n > 0 {
      PowPositive(b, n - 1);
    }
  }

  /** The power domain: `exponent` is the number of elements of the exponent domain. */
  datatype Power = Power(base: Base, exponent: nat)
  {
    /** `num_bits`: the base width times the exponent size. */
    function NumBits(): nat
    {
      base.bits * exponent
    }

    /** `part`: the bits of the part at `index`. */
    function Part(elem: seq<bool>, index: nat): (r: seq<bool>)
      requires |elem| == NumBits() && (index < exponent || base.bits == 0)
      ensures |r| == base.bits && r == GenericVector.Chunk(elem, index, base.bits)
    {
      var step := base.bits;
      var start := index * step;
      MulSucc(index, step);
      if step != 0 then
        MulLe(index + 1, exponent, step);
        elem[start..start + step]
      else
        elem[start..start + step]
    }

    /** The parts that `part_iter` yields: none when the base has no bits. */
    function Parts(elem: seq<bool>): (r: seq<seq<bool>>)
      requires |elem| == NumBits()
      ensures |r| == (if base.bits == 0 then 0 else exponent)
      ensures forall k :: 0 <= k < |r| ==> r[k] == Part(elem, k)
    {
      if base.bits == 0 then [] else seq(exponent, k requires 0 <= k < exponent => Part(elem, k))
    }

    /** `Parts` and `Flatten` are inverse: the parts in order make up the element. */
    lemma PartsFlatten(elem: seq<bool>)
      requires |elem| == NumBits()
      ensures GenericVector.Flatten(Parts(elem)) == elem
    {
      var parts := Parts(elem);
      GenericVector.FlattenChunks(elem, base.bits, parts);
      if base.bits != 0 {
        assert |parts| * base.bits == |elem|;
      }
    }

    /** Two elements with the same parts are equal. */
    lemma EqualByParts(a: seq<bool>, b: seq<bool>)
      requires |a| == NumBits() && |b| == NumBits()
      requires base.bits != 0 ==> forall k :: 0 <= k < exponent ==> Part(a, k) == Part(b, k)
      ensures a == b
    {
      if base.bits != 0 {
        assert Parts(a) == Parts(b);
        PartsFlatten(a);
        PartsFlatten(b);
      }
    }

    /** Cutting a concatenation of `exponent` parts of the base width gives the parts back. */
    lemma FlattenParts(parts: seq<seq<bool>>)
      requires |parts| == exponent && forall k :: 0 <= k < exponent ==> |parts[k]| == base.bits
      ensures |GenericVector.Flatten(parts)| == NumBits()
      ensures base.bits != 0 ==> Parts(GenericVector.Flatten(parts)) == parts
    {
      GenericVector.ChunkFlatten(parts, base.bits);
      var f := GenericVector.Flatten(parts);
      if base.bits != 0 {
        assert forall k :: 0 <= k < exponent ==> Parts(f)[k] == parts[k];
      }
    }

    // ----- specifications of the lifted operations -----

    /** Every part lies in the base domain. */
    predicate ContainsSpec(elem: seq<bool>)
      requires |elem| == NumBits()
    {
      forall k :: 0 <= k < |Parts(elem)| ==> base.contains(Parts(elem)[k])
    }

    /** The base `equals` holds at every position. */
    predicate EqualsSpec(elem0: seq<bool>, elem1: seq<bool>)
      requires |elem0| == NumBits() && |elem1| == NumBits()
    {
      forall k :: 0 <= k < |Parts(elem0)| ==> base.equals(Parts(elem0)[k], Parts(elem1)[k])
    }

    /** The base `leq` holds at every position. */
    predicate LeqSpec(elem0: seq<bool>, elem1: seq<bool>)
      requires |elem0| == NumBits() && |elem1| == NumBits()
    {
      forall k :: 0 <= k < |Parts(elem0)| ==> base.leq(Parts(elem0)[k], Parts(elem1)[k])
    }

    /** The base operation `f` applied position by position. */
    function Pointwise2(f: (seq<bool>, seq<bool>) -> seq<bool>, elem0: seq<bool>, elem1: seq<bool>): (r: seq<bool>)
      requires |elem0| == NumBits() && |elem1| == NumBits()
    {
      var p0, p1 := Parts(elem0), Parts(elem1);
      GenericVector.Flatten(seq(|p0|, k requires 0 <= k < |p0| => f(p0[k], p1[k])))
    }

    /** `exponent` copies of `part`. */
    function Repeat(part: seq<bool>): (r: seq<bool>)
    {
      GenericVector.Flatten(seq(exponent, _ => part))
    }

    /** The number of elements: `base.size` to the power `exponent`. */
    function SizeSpec(): nat
    {
      Pow(base.size, exponent)
    }

    /** The element whose parts are the base elements of the digits of `index`. */
    function ElemSpec(index: nat): (r: seq<bool>)
      requires base.size > 0 || exponent == 0
    {
      GenericVector.Flatten(base.ElemsOf(ForwardDigits(base.size, exponent, index)))
    }

    /** The base indices of the parts. */
    function Digits(elem: seq<bool>): (r: seq<nat>)
      requires |elem| == NumBits()
      ensures |r| == |Parts(elem)| && |r| <= exponent
    {
      var parts := Parts(elem);
      seq(|parts|, k requires 0 <= k < |parts| => base.index(parts[k]))
    }

    /** The index: the digits of the parts read in the uniform radix `base.size`. */
    function IndexSpec(elem: seq<bool>): nat
      requires |elem| == NumBits()
    {
      var ds := Digits(elem);
      Dot(ds, PlaceValues(Uniform(base.size, exponent)), |ds|)
    }

    // ----- lemmas about the specifications -----

    /** The parts of a position-by-position result are the base results of the parts. */
    lemma Pointwise2Parts(f: (seq<bool>, seq<bool>) -> seq<bool>, elem0: seq<bool>, elem1: seq<bool>)
      requires |elem0| == NumBits() && |elem1| == NumBits()
      requires forall a, b :: |a| == base.bits && |b| == base.bits ==> |f(a, b)| == base.bits
      ensures |Pointwise2(f, elem0, elem1)| == NumBits()
      ensures forall k :: 0 <= k < |Parts(elem0)| ==>
        Parts(Pointwise2(f, elem0, elem1))[k] == f(Parts(elem0)[k], Parts(elem1)[k])
    {
      var p0, p1 := Parts(elem0), Parts(elem1);
      var rs := seq(|p0|, k requires 0 <= k < |p0| => f(p0[k], p1[k]));
      if base.bits != 0 {
        FlattenParts(rs);
      } else {
        GenericVector.ChunkFlatten(rs, 0);
      }
    }

    /** The parts of `Repeat(part)` are all `part`. */
    lemma RepeatParts(part: seq<bool>)
      requires |part| == base.bits
      ensures |Repeat(part)| == NumBits()
      ensures forall k :: 0 <= k < |Parts(Repeat(part))| ==> Parts(Repeat(part))[k] == part
    {
      FlattenParts(seq(exponent, _ => part));
    }

    /** Position-by-position `equals` is equality when the base `equals` is. */
    lemma EqualsLift(elem0: seq<bool>, elem1: seq<bool>)
      requires |elem0| == NumBits() && |elem1| == NumBits() && base.EqualsIsEquality()
      ensures EqualsSpec(elem0, elem1) <==> elem0 == elem1
    {
      if EqualsSpec(elem0, elem1) {
        var p0, p1 := Parts(elem0), Parts(elem1);
        assert p0 == p1 by {
          assert forall k :: 0 <= k < |p0| ==> base.equals(p0[k], p1[k]) && |p0[k]| == base.bits && |p1[k]| == base.bits;
        }
        PartsFlatten(elem0);
        PartsFlatten(elem1);
      }
    }

    /** Position-by-position `leq` is a partial order when the base `leq` is. */
    lemma LeqLift(a: seq<bool>, b: seq<bool>, c: seq<bool>)
      requires |a| == NumBits() && |b| == NumBits() && |c| == NumBits() && base.PartialOrder()
      ensures LeqSpec(a, a)
      ensures LeqSpec(a, b) && LeqSpec(b, a) ==> a == b
      ensures LeqSpec(a, b) && LeqSpec(b, c) ==> LeqSpec(a, c)
    {
      var pa, pb := Parts(a), Parts(b);
      assert forall k :: 0 <= k < |pa| ==> |pa[k]| == base.bits && |pb[k]| == base.bits && |Parts(c)[k]| == base.bits;
      if LeqSpec(a, b) && LeqSpec(b, a) {
        assert pa == pb;
        PartsFlatten(a);
        PartsFlatten(b);
      }
    }

    /** Position-by-position `meet` is the greatest lower bound when the base `meet` is. */
    lemma MeetLift(a: seq<bool>, b: seq<bool>, x: seq<bool>)
      requires |a| == NumBits() && |b| == NumBits() && |x| == NumBits() && base.MeetIsGlb()
      ensures |Pointwise2(base.meet, a, b)| == NumBits()
      ensures LeqSpec(Pointwise2(base.meet, a, b), a) && LeqSpec(Pointwise2(base.meet, a, b), b)
      ensures LeqSpec(x, a) && LeqSpec(x, b) ==> LeqSpec(x, Pointwise2(base.meet, a, b))
    {
      Pointwise2Parts(base.meet, a, b);
      var m := Pointwise2(base.meet, a, b);
      assert forall k :: 0 <= k < |Parts(a)| ==> |Parts(a)[k]| == base.bits && |Parts(b)[k]| == base.bits && |Parts(x)[k]| == base.bits;
      assert forall k :: 0 <= k < |Parts(a)| ==> Parts(m)[k] == base.meet(Parts(a)[k], Parts(b)[k]);
    }

    /** Position-by-position `join` is the least upper bound when the base `join` is. */
    lemma JoinLift(a: seq<bool>, b: seq<bool>, x: seq<bool>)
      requires |a| == NumBits() && |b| == NumBits() && |x| == NumBits() && base.JoinIsLub()
      ensures |Pointwise2(base.join, a, b)| == NumBits()
      ensures LeqSpec(a, Pointwise2(base.join, a, b)) && LeqSpec(b, Pointwise2(base.join, a, b))
      ensures LeqSpec(a, x) && LeqSpec(b, x) ==> LeqSpec(Pointwise2(base.join, a, b), x)
    {
      Pointwise2Parts(base.join, a, b);
      var j := Pointwise2(base.join, a, b);
      assert forall k :: 0 <= k < |Parts(a)| ==> |Parts(a)[k]| == base.bits && |Parts(b)[k]| == base.bits && |Parts(x)[k]| == base.bits;
      assert forall k :: 0 <= k < |Parts(a)| ==> Parts(j)[k] == base.join(Parts(a)[k], Parts(b)[k]);
    }

    /** `exponent` copies of the base bottom and top are the least and the greatest elements when the base ones are. */
    lemma BoundsLift(a: seq<bool>)
      requires |a| == NumBits() && base.Closed() && base.Bounded()
      ensures |Repeat(base.bottom)| == NumBits() && |Repeat(base.top)| == NumBits()
      ensures LeqSpec(Repeat(base.bottom), a) && LeqSpec(a, Repeat(base.top))
    {
      RepeatParts(base.bottom);
      RepeatParts(base.top);
      assert forall k :: 0 <= k < |Parts(a)| ==> |Parts(a)[k]| == base.bits;
    }

    /**
     * With a countable base whose `contains` recognises its elements,
     * `contains` holds exactly for the elements `elem(i)` with `i` below
     * the size.
     */
    lemma ContainsLift(e: seq<bool>)
      requires base.Countable() && base.ContainsElems() && (base.size > 0 || exponent == 0)
      requires |e| == NumBits()
      ensures ContainsSpec(e) <==> exists i :: 0 <= i < SizeSpec() && ElemSpec(i) == e
    {
      if base.bits == 0 {
        if exponent > 0 {
          base.NoBitsAtMostOne();
          PowOne(exponent);
        }
        ElemSpecParts(0);
        assert ElemSpec(0) == e;
      } else {
        if ContainsSpec(e) {
          ContainedIsElem(e);
        }
        if exists i :: 0 <= i < SizeSpec() && ElemSpec(i) == e {
          var i :| 0 <= i < SizeSpec() && ElemSpec(i) == e;
          ElemIsContained(i);
        }
      }
    }

    /** A contained element is `elem` of its index. */
    lemma ContainedIsElem(e: seq<bool>)
      requires base.Countable() && base.ContainsElems() && base.bits != 0
      requires |e| == NumBits() && ContainsSpec(e)
      ensures base.size > 0 || exponent == 0
      ensures IndexSpec(e) < SizeSpec() && ElemSpec(IndexSpec(e)) == e
    {
      var ds, ps := Digits(e), Parts(e);
      forall k | 0 <= k < exponent
        ensures ds[k] < base.size && base.elem(ds[k]) == ps[k]
      {
        assert |ps[k]| == base.bits && base.contains(ps[k]);
        var j :| 0 <= j < base.size && base.elem(j) == ps[k];
      }
      ElemOfIndex(e);
    }

    /** `elem(i)` is contained for every `i` below the size. */
    lemma ElemIsContained(i: nat)
      requires base.Countable() && base.ContainsElems() && base.bits != 0
      requires (base.size > 0 || exponent == 0) && i < SizeSpec()
      ensures |ElemSpec(i)| == NumBits() && ContainsSpec(ElemSpec(i))
    {
      ElemSpecParts(i);
      var fd := ForwardDigits(base.size, exponent, i);
      assert forall k :: 0 <= k < exponent ==> Parts(ElemSpec(i))[k] == base.elem(fd[k]) && |base.elem(fd[k])| == base.bits;
    }

    /** Position-by-position `complement` meets to the bottom and joins to the top when the base one does. */
    lemma ComplementLift(a: seq<bool>)
      requires |a| == NumBits() && base.Closed() && base.Complemented()
      ensures |Pointwise1(base.complement, a)| == NumBits()
      ensures Pointwise2(base.meet, a, Pointwise1(base.complement, a)) == Repeat(base.bottom)
      ensures Pointwise2(base.join, a, Pointwise1(base.complement, a)) == Repeat(base.top)
    {
      Pointwise1Parts(base.complement, a);
      ComplementBound(a, base.meet, base.bottom);
      ComplementBound(a, base.join, base.top);
    }

    /** The pointwise `op` of an element and its complement is `exponent` copies of `bound` when each part's is. */
    lemma ComplementBound(a: seq<bool>, op: (seq<bool>, seq<bool>) -> seq<bool>, bound: seq<bool>)
      requires |a| == NumBits() && base.Closed() && base.Complemented()
      requires |bound| == base.bits
      requires forall x :: |x| == base.bits ==> op(x, base.complement(x)) == bound
      requires forall x, y :: |x| == base.bits && |y| == base.bits ==> |op(x, y)| == base.bits
      ensures |Pointwise1(base.complement, a)| == NumBits()
      ensures Pointwise2(op, a, Pointwise1(base.complement, a)) == Repeat(bound)
    {
      var c := Pointwise1(base.complement, a);
      Pointwise1Parts(base.complement, a);
      Pointwise2Parts(op, a, c);
      RepeatParts(bound);
      var m := Pointwise2(op, a, c);
      if base.bits != 0 {
        forall k | 0 <= k < exponent
          ensures Part(m, k) == Part(Repeat(bound), k)
        {
          var x := Parts(a)[k];
          assert |x| == base.bits;
          assert Parts(c)[k] == base.complement(x);
          assert Parts(m)[k] == op(x, base.complement(x)) == bound;
          assert Part(m, k) == Parts(m)[k];
          assert Part(Repeat(bound), k) == Parts(Repeat(bound))[k] == bound;
        }
      }
      EqualByParts(m, Repeat(bound));
    }

    /** The base operation `f` applied to every part. */
    function Pointwise1(f: seq<bool> -> seq<bool>, elem: seq<bool>): (r: seq<bool>)
      requires |elem| == NumBits()
    {
      var p := Parts(elem);
      GenericVector.Flatten(seq(|p|, k requires 0 <= k < |p| => f(p[k])))
    }

    /** The parts of a part-by-part result are the base results of the parts. */
    lemma Pointwise1Parts(f: seq<bool> -> seq<bool>, elem: seq<bool>)
      requires |elem| == NumBits()
      requires forall a :: |a| == base.bits ==> |f(a)| == base.bits
      ensures |Pointwise1(f, elem)| == NumBits()
      ensures forall k :: 0 <= k < |Parts(elem)| ==> Parts(Pointwise1(f, elem))[k] == f(Parts(elem)[k])
    {
      var p := Parts(elem);
      var rs := seq(|p|, k requires 0 <= k < |p| => f(p[k]));
      if base.bits != 0 {
        FlattenParts(rs);
      } else {
        GenericVector.ChunkFlatten(rs, 0);
      }
    }

    /** The parts of `ElemSpec(index)` are the base elements of its digits. */
    lemma ElemSpecParts(index: nat)
      requires (base.size > 0 || exponent == 0) && base.Countable()
      ensures |ElemSpec(index)| == NumBits()
      ensures base.bits != 0 ==> Parts(ElemSpec(index)) == base.ElemsOf(ForwardDigits(base.size, exponent, index))
    {
      var es := base.ElemsOf(ForwardDigits(base.size, exponent, index));
      assert forall k :: 0 <= k < exponent ==> |es[k]| == base.bits;
      FlattenParts(es);
    }

    /** `index(elem(i)) == i` for every index below the size. */
    lemma IndexOfElem(i: nat)
      requires base.Countable() && i < SizeSpec()
      ensures base.size > 0 || exponent == 0
      ensures |ElemSpec(i)| == NumBits() && IndexSpec(ElemSpec(i)) == i
    {
      PowPositive(base.size, exponent);
      ElemSpecParts(i);
      var fd := ForwardDigits(base.size, exponent, i);
      ForwardDigitsLinear(base.size, exponent, i);
      var e := ElemSpec(i);
      if base.bits != 0 {
        assert Digits(e) == fd;
      } else if exponent > 0 {
        base.NoBitsAtMostOne();
        PowOne(exponent);
      }
    }

    /** `elem(index(x)) == x` for every element whose parts are base elements. */
    lemma ElemOfIndex(elem: seq<bool>)
      requires |elem| == NumBits() && base.Countable() && base.bits != 0
      requires forall k :: 0 <= k < exponent ==> Digits(elem)[k] < base.size && base.elem(Digits(elem)[k]) == Parts(elem)[k]
      ensures base.size > 0 || exponent == 0
      ensures IndexSpec(elem) < SizeSpec() && ElemSpec(IndexSpec(elem)) == elem
    {
      var ds := Digits(elem);
      var dims := Uniform(base.size, exponent);
      assert ValidCoords(dims, ds);
      if exponent > 0 {
        assert ds[0] < base.size;
      }
      LinearBound(dims, ds);
      var i := IndexSpec(elem);
      ForwardDigitsLinear(base.size, exponent, i);
      LinearInjective(dims, ds, ForwardDigits(base.size, exponent, i));
      assert base.ElemsOf(ds) == Parts(elem);
      PartsFlatten(elem);
    }
  }

  // ----- the part iterator -----

  /** `PartIter`: what is left of an element, cut `step` bits at a time. */
  class PartIter {
    var elem: seq<bool>
    const step: nat

    /** `part_iter`: the whole element, cut at the base width. */
    constructor (p: Power, elem: seq<bool>)
      requires |elem| == p.NumBits()
      ensures this.elem == elem && step == p.base.bits
    {
      this.elem := elem;
      step := p.base.bits;
    }

    /** `next`: nothing when no bits are left, otherwise the first `step` bits. */
    method Next() returns (r: Option<seq<bool>>)
      requires elem == [] || step <= |elem|
      modifies this
      ensures old(elem) == [] ==> r == None && elem == []
      ensures old(elem) != [] ==> r == Some(old(elem)[..step]) && elem == old(elem)[step..]
    {
      if elem == [] {
        r := None;
      } else {
        r := Some(elem[..step]);
        elem := elem[step..];
      }
    }

    /** `len`: the number of whole parts left. */
    function Len(): (r: nat)
      reads this
      requires step != 0
      ensures r * step <= |elem| < r * step + step
    {
      DivBounds(|elem|, step);
      |elem| / step
    }
  }

  /** The parts collected so far are the first ones, and `rest` is what follows them. */
  ghost predicate CollectInv(p: Power, elem: seq<bool>, parts: seq<seq<bool>>, rest: seq<bool>)
    requires |elem| == p.NumBits()
  {
    |parts| <= p.exponent && |parts| * p.base.bits <= |elem| &&
    rest == elem[|parts| * p.base.bits..] &&
    (p.base.bits == 0 ==> parts == []) &&
    forall k :: 0 <= k < |parts| ==> parts[k] == p.Part(elem, k)
  }

  /** While bits are left, the next `step` of them are the next part. */
  lemma CollectNext(p: Power, elem: seq<bool>, parts: seq<seq<bool>>, rest: seq<bool>)
    requires |elem| == p.NumBits()
    requires CollectInv(p, elem, parts, rest) && rest != []
    ensures p.base.bits <= |rest|
    ensures CollectInv(p, elem, parts + [rest[..p.base.bits]], rest[p.base.bits..])
  {
    var n, bits := |parts|, p.base.bits;
    MulLtCancel(n, p.exponent, bits);
    MulSucc(n, bits);
    MulLe(n + 1, p.exponent, bits);
    assert rest[..bits] == p.Part(elem, n);
    assert rest[bits..] == elem[(n + 1) * bits..];
  }

  /** When no bits are left, every part has been collected. */
  lemma CollectDone(p: Power, elem: seq<bool>, parts: seq<seq<bool>>)
    requires |elem| == p.NumBits()
    requires CollectInv(p, elem, parts, [])
    ensures parts == p.Parts(elem)
  {
    if p.base.bits != 0 {
      MulCancel(|parts|, p.exponent, p.base.bits);
    }
  }

  /** Runs a part iterator to the end: it yields `Parts(elem)`. */
  method CollectParts(p: Power, elem: seq<bool>) returns (parts: seq<seq<bool>>)
    requires |elem| == p.NumBits()
    ensures parts == p.Parts(elem)
  {
    var iter := new PartIter(p, elem);
    parts := [];
    while true
      invariant iter.step == p.base.bits
      invariant CollectInv(p, elem, parts, iter.elem)
      decreases |iter.elem|
    {
      if iter.elem != [] {
        CollectNext(p, elem, parts, iter.elem);
      }
      var r := iter.Next();
      if r == None {
        break;
      }
      parts := parts + [r.value];
    }
    CollectDone(p, elem, parts);
  }

  // ----- the operations of `Power` -----

  /** `contains`: the conjunction of `contains` of the base over the parts. */
  method Contains(p: Power, elem: seq<bool>) returns (valid: bool)
    requires |elem| == p.NumBits()
    ensures valid == p.ContainsSpec(elem)
  {
    var parts := CollectParts(p, elem);
    valid := true;
    for k := 0 to |parts|
      invariant valid <==> forall j :: 0 <= j < k ==> p.base.contains(parts[j])
    {
      valid := valid && p.base.contains(parts[k]);
    }
  }

  /** `equals`: the conjunction of `equals` of the base over the pairs of parts. */
  method Equals(p: Power, elem0: seq<bool>, elem1: seq<bool>) returns (valid: bool)
    requires |elem0| == p.NumBits() && |elem1| == p.NumBits()
    ensures valid == p.EqualsSpec(elem0, elem1)
  {
    var parts0 := CollectParts(p, elem0);
    var parts1 := CollectParts(p, elem1);
    valid := true;
    for k := 0 to |parts0|
      invariant valid <==> forall j :: 0 <= j < k ==> p.base.equals(parts0[j], parts1[j])
    {
      valid := valid && p.base.equals(parts0[k], parts1[k]);
    }
  }

  /** `leq`: the conjunction of `leq` of the base over the pairs of parts. */
  method Leq(p: Power, elem0: seq<bool>, elem1: seq<bool>) returns (valid: bool)
    requires |elem0| == p.NumBits() && |elem1| == p.NumBits()
    ensures valid == p.LeqSpec(elem0, elem1)
  {
    var parts0 := CollectParts(p, elem0);
    var parts1 := CollectParts(p, elem1);
    valid := true;
    for k := 0 to |parts0|
      invariant valid <==> forall j :: 0 <= j < k ==> p.base.leq(parts0[j], parts1[j])
    {
      valid := valid && p.base.leq(parts0[k], parts1[k]);
    }
  }

  /** `size`: `base.size` multiplied `exponent` times, the number of digit tuples. */
  method Size(p: Power) returns (result: nat)
    ensures result == p.SizeSpec() && result == Volume(Uniform(p.base.size, p.exponent))
  {
    result := 1;
    for k := 0 to p.exponent
      invariant result == Pow(p.base.size, k)
    {
      result := result * p.base.size;
    }
  }

  /**
   * `elem`: the base elements of the digits of `index`, least significant
   * first; the final assertion that all digits were used and that the
   * length is right becomes the precondition.
   */
  method Elem(p: Power, index: nat) returns (result: seq<bool>)
    requires p.base.size > 0 || p.exponent == 0
    requires p.base.Countable() && index < p.SizeSpec()
    ensures result == p.ElemSpec(index) && |result| == p.NumBits()
  {
    result := ElemLoop(p.base, p.exponent, index);
    p.ElemSpecParts(index);
  }

  /** The loop of `elem`: the base element of the next digit, then the rest of the number. */
  method ElemLoop(base: Base, n: nat, index: nat) returns (result: seq<bool>)
    requires (base.size > 0 || n == 0) && index < Pow(base.size, n)
    ensures result == GenericVector.Flatten(base.ElemsOf(ForwardDigits(base.size, n, index)))
  {
    var bs := base.size;
    var cur: nat := index;
    result := [];
    ghost var digits: seq<nat> := [];
    for k := 0 to n
      invariant ElemLoopInv(base, n, index, k, digits, cur, result)
    {
      ElemLoopStep(base, n, index, k, digits, cur, result);
      var d := cur % bs;
      result := result + base.elem(d);
      digits := digits + [d];
      cur := cur / bs;
    }
    ElemLoopDone(base, n, index, digits, cur, result);
  }

  /** After `k` rounds of `elem`: `digits` are the first `k` digits, `cur` the number they leave. */
  ghost predicate ElemLoopInv(base: Base, n: nat, index: nat, k: nat, digits: seq<nat>, cur: nat, result: seq<bool>)
    requires base.size > 0 || n == 0
  {
    k <= n && |digits| == k && digits + ForwardDigits(base.size, n - k, cur) == ForwardDigits(base.size, n, index) &&
    cur < Pow(base.size, n - k) && result == GenericVector.Flatten(base.ElemsOf(digits))
  }

  /** After all `n` rounds the digits are all of `index`'s, so `result` is the whole element. */
  lemma ElemLoopDone(base: Base, n: nat, index: nat, digits: seq<nat>, cur: nat, result: seq<bool>)
    requires (base.size > 0 || n == 0) && ElemLoopInv(base, n, index, n, digits, cur, result)
    ensures result == GenericVector.Flatten(base.ElemsOf(ForwardDigits(base.size, n, index)))
  {
    assert digits + ForwardDigits(base.size, 0, cur) == digits;
  }

  /** One round of `elem` keeps `ElemLoopInv`. */
  lemma ElemLoopStep(base: Base, n: nat, index: nat, k: nat, digits: seq<nat>, cur: nat, result: seq<bool>)
    requires (base.size > 0 || n == 0) && k < n && ElemLoopInv(base, n, index, k, digits, cur, result)
    ensures base.size > 0
    ensures ElemLoopInv(base, n, index, k + 1, digits + [cur % base.size], cur / base.size, result + base.elem(cur % base.size))
  {
    var bs := base.size;
    var d := cur % bs;
    DigitStep(bs, n - k, cur);
    AppendAssoc(digits, [d], ForwardDigits(bs, n - k - 1, cur / bs));
    base.FlattenElemsSnoc(digits, d);
  }

  /** `index`: the base indices of the parts, weighted by the powers of `base.size`. */
  method Index(p: Power, elem: seq<bool>) returns (index: nat)
    requires |elem| == p.NumBits()
    ensures index == p.IndexSpec(elem)
  {
    var parts := CollectParts(p, elem);
    ghost var ds := p.Digits(elem);
    ghost var dims := Uniform(p.base.size, p.exponent);
    index := 0;
    var power := 1;
    for k := 0 to |parts|
      invariant index == Dot(ds, PlaceValues(dims), k) && power == Pow(p.base.size, k)
    {
      ProdUniform(dims, p.base.size, k);
      var d := p.base.index(parts[k]);
      DotNext(ds, PlaceValues(dims), k, d, power);
      index := index + d * power;
      power := power * p.base.size;
    }
  }

  /** `top`: `exponent` copies of the base top. */
  method Top(p: Power) returns (elem: seq<bool>)
    ensures elem == p.Repeat(p.base.top)
  {
    elem := Copies(p.exponent, p.base.top);
  }

  /** `bottom`: `exponent` copies of the base bottom. */
  method Bottom(p: Power) returns (elem: seq<bool>)
    ensures elem == p.Repeat(p.base.bottom)
  {
    elem := Copies(p.exponent, p.base.bottom);
  }

  /** Extends an empty vector by `part` `count` times. */
  method Copies(count: nat, part: seq<bool>) returns (elem: seq<bool>)
    ensures elem == GenericVector.Flatten(seq(count, _ => part))
  {
    elem := [];
    for k := 0 to count
      invariant elem == GenericVector.Flatten(seq(k, _ => part))
    {
      assert seq(k + 1, _ => part)[..k] == seq(k, _ => part);
      elem := elem + part;
    }
  }

  /** `meet`: the base meets of the pairs of parts, concatenated. */
  method Meet(p: Power, elem0: seq<bool>, elem1: seq<bool>) returns (elem: seq<bool>)
    requires |elem0| == p.NumBits() && |elem1| == p.NumBits()
    ensures elem == p.Pointwise2(p.base.meet, elem0, elem1)
  {
    elem := Zip2(p, p.base.meet, elem0, elem1);
  }

  /** `join`: the base joins of the pairs of parts, concatenated. */
  method Join(p: Power, elem0: seq<bool>, elem1: seq<bool>) returns (elem: seq<bool>)
    requires |elem0| == p.NumBits() && |elem1| == p.NumBits()
    ensures elem == p.Pointwise2(p.base.join, elem0, elem1)
  {
    elem := Zip2(p, p.base.join, elem0, elem1);
  }

  /** The loop of `meet` and `join`: extends the result by `f` of each pair of parts. */
  method Zip2(p: Power, f: (seq<bool>, seq<bool>) -> seq<bool>, elem0: seq<bool>, elem1: seq<bool>) returns (elem: seq<bool>)
    requires |elem0| == p.NumBits() && |elem1| == p.NumBits()
    ensures elem == p.Pointwise2(f, elem0, elem1)
  {
    var parts0 := CollectParts(p, elem0);
    var parts1 := CollectParts(p, elem1);
    ghost var rs := seq(|parts0|, k requires 0 <= k < |parts0| => f(parts0[k], parts1[k]));
    elem := [];
    for k := 0 to |parts0|
      invariant elem == GenericVector.Flatten(rs[..k])
    {
      assert rs[..k + 1][..k] == rs[..k];
      elem := elem + f(parts0[k], parts1[k]);
    }
    assert rs[..|parts0|] == rs;
  }

  /** `complement`: the base complements of the parts, concatenated. */
  method Complement(p: Power, elem: seq<bool>) returns (result: seq<bool>)
    requires |elem| == p.NumBits()
    ensures result == p.Pointwise1(p.base.complement, elem)
  {
    var parts := CollectParts(p, elem);
    ghost var rs := seq(|parts|, k requires 0 <= k < |parts| => p.base.complement(parts[k]));
    result := [];
    for k := 0 to |parts|
      invariant result == GenericVector.Flatten(rs[..k])
    {
      assert rs[..k + 1][..k] == rs[..k];
      result := result + p.base.complement(parts[k]);
    }
    assert rs[..|parts|] == rs;
  }
}
