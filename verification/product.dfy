/**
 * Products of domains.
 *
 * `Product2` of `src/alg/product.rs` is the product of two domains: an
 * element is a pair, stored as the bits of the first component followed by
 * the bits of the second. Every operation cuts its arguments at `dom0.bits`
 * (`head`/`tail`), applies the component operations and concatenates or
 * conjoins the results.
 *
 * `Product` of `src/adt/product.rs` is the product of a list of domains, of
 * which only `num_bits` and `contains` exist; `contains` walks the list with
 * a running bit position.
 */
module Products {
  import opened Arith
  import opened Powers

  datatype Product2 = Product2(dom0: Base, dom1: Base)
  {
    function NumBits(): nat
    {
      dom0.bits + dom1.bits
    }

    /** `part0`: the first `dom0.bits` bits, the first component. */
    function Part0(elem: seq<bool>): (r: seq<bool>)
      requires |elem| == NumBits()
      ensures |r| == dom0.bits && r + Part1(elem) == elem
    {
      elem[..dom0.bits]
    }

    /** `part1`: the bits after the first component, the second component. */
    function Part1(elem: seq<bool>): (r: seq<bool>)
      requires |elem| == NumBits()
      ensures |r| == dom1.bits
    {
      elem[dom0.bits..]
    }

    /** Cutting a pair of components at `dom0.bits` gives the components back. */
    lemma PartsOfPair(a: seq<bool>, b: seq<bool>)
      requires |a| == dom0.bits && |b| == dom1.bits
      ensures |a + b| == NumBits() && Part0(a + b) == a && Part1(a + b) == b
    {
      assert (a + b)[..|a|] == a;
      assert (a + b)[|a|..] == b;
    }

    /** Two elements with the same components are equal. */
    lemma EqualByParts(a: seq<bool>, b: seq<bool>)
      requires |a| == NumBits() && |b| == NumBits()
      requires Part0(a) == Part0(b) && Part1(a) == Part1(b)
      ensures a == b
    {
    }

    function Contains(elem: seq<bool>): bool
      requires |elem| == NumBits()
    {
      dom0.contains(Part0(elem)) && dom1.contains(Part1(elem))
    }

    function Equals(elem0: seq<bool>, elem1: seq<bool>): bool
      requires |elem0| == NumBits() && |elem1| == NumBits()
    {
      dom0.equals(Part0(elem0), Part0(elem1)) && dom1.equals(Part1(elem0), Part1(elem1))
    }

    function Size(): nat
    {
      dom0.size * dom1.size
    }

    /** `elem`: the first component numbers `index % size0`, the second `index / size0`. */
    function Elem(index: nat): (r: seq<bool>)
      requires index < Size()
    {
      dom0.elem(index % dom0.size) + dom1.elem(index / dom0.size)
    }

    /** `index`: `i0 + size0 * i1` for the indices of the components. */
    function Index(elem: seq<bool>): nat
      requires |elem| == NumBits()
    {
      dom0.index(Part0(elem)) + dom0.size * dom1.index(Part1(elem))
    }

    /** `is_edge`: both components are related. */
    function IsEdge(elem0: seq<bool>, elem1: seq<bool>): bool
      requires |elem0| == NumBits() && |elem1| == NumBits()
    {
      dom0.leq(Part0(elem0), Part0(elem1)) && dom1.leq(Part1(elem0), Part1(elem1))
    }

    function Top(): seq<bool>
    {
      dom0.top + dom1.top
    }

    function IsTop(elem: seq<bool>): bool
      requires |elem| == NumBits()
    {
      dom0.isTop(Part0(elem)) && dom1.isTop(Part1(elem))
    }

    function Bottom(): seq<bool>
    {
      dom0.bottom + dom1.bottom
    }

    function IsBottom(elem: seq<bool>): bool
      requires |elem| == NumBits()
    {
      dom0.isBottom(Part0(elem)) && dom1.isBottom(Part1(elem))
    }

    function Meet(elem0: seq<bool>, elem1: seq<bool>): seq<bool>
      requires |elem0| == NumBits() && |elem1| == NumBits()
    {
      dom0.meet(Part0(elem0), Part0(elem1)) + dom1.meet(Part1(elem0), Part1(elem1))
    }

    function Join(elem0: seq<bool>, elem1: seq<bool>): seq<bool>
      requires |elem0| == NumBits() && |elem1| == NumBits()
    {
      dom0.join(Part0(elem0), Part0(elem1)) + dom1.join(Part1(elem0), Part1(elem1))
    }

    /** `complement` as written: only the complement of the first component is emitted. */
    function ComplementAsWritten(elem: seq<bool>): (r: seq<bool>)
      requires |elem| == NumBits()
      ensures dom0.Closed() ==> |r| == dom0.bits
    {
      dom0.complement(Part0(elem))
    }

    /** `complement` as intended: the complements of both components. */
    function Complement(elem: seq<bool>): seq<bool>
      requires |elem| == NumBits()
    {
      dom0.complement(Part0(elem)) + dom1.complement(Part1(elem))
    }

    // ----- properties -----

    /** `elem` gives vectors of `num_bits` bits and `index` numbers them back: `index(elem(i)) == i`. */
    lemma IndexOfElem(i: nat)
      requires dom0.Countable() && dom1.Countable() && i < Size()
      ensures |Elem(i)| == NumBits() && Index(Elem(i)) == i
    {
      var s0 := dom0.size;
      assert s0 > 0;
      DivBelow(i, s0, dom1.size);
      var i0, i1 := i % s0, i / s0;
      PartsOfPair(dom0.elem(i0), dom1.elem(i1));
    }

    /** Every pair of component elements is `elem` of its index: `elem(index(e)) == e`. */
    lemma ElemOfIndex(i0: nat, i1: nat)
      requires dom0.Countable() && dom1.Countable() && i0 < dom0.size && i1 < dom1.size
      ensures |dom0.elem(i0) + dom1.elem(i1)| == NumBits()
      ensures Index(dom0.elem(i0) + dom1.elem(i1)) == i0 + dom0.size * i1 < Size()
      ensures Elem(Index(dom0.elem(i0) + dom1.elem(i1))) == dom0.elem(i0) + dom1.elem(i1)
    {
      var e := dom0.elem(i0) + dom1.elem(i1);
      PartsOfPair(dom0.elem(i0), dom1.elem(i1));
      var i := i0 + dom0.size * i1;
      MulLe(i1 + 1, dom1.size, dom0.size);
      MulSucc(i1, dom0.size);
      DivModUnique(i, dom0.size, i1, i0);
    }

    /** `contains` holds exactly for the elements `elem(i)` when it does so in both components. */
    lemma ContainsLift(e: seq<bool>)
      requires dom0.Countable() && dom1.Countable() && dom0.ContainsElems() && dom1.ContainsElems()
      requires |e| == NumBits()
      ensures Contains(e) <==> exists i :: 0 <= i < Size() && Elem(i) == e
    {
      if Contains(e) {
        ContainedIsElem(e);
      }
      if exists i :: 0 <= i < Size() && Elem(i) == e {
        var i :| 0 <= i < Size() && Elem(i) == e;
        ElemIsContained(i);
      }
    }

    /** A contained vector is `elem` of its index. */
    lemma ContainedIsElem(e: seq<bool>)
      requires dom0.Countable() && dom1.Countable() && dom0.ContainsElems() && dom1.ContainsElems()
      requires |e| == NumBits() && Contains(e)
      ensures Index(e) < Size() && Elem(Index(e)) == e
    {
      var i0 :| 0 <= i0 < dom0.size && dom0.elem(i0) == Part0(e);
      var i1 :| 0 <= i1 < dom1.size && dom1.elem(i1) == Part1(e);
      ElemOfIndex(i0, i1);
      assert e == dom0.elem(i0) + dom1.elem(i1);
    }

    /** Every `elem(i)` is contained. */
    lemma ElemIsContained(i: nat)
      requires dom0.Countable() && dom1.Countable() && dom0.ContainsElems() && dom1.ContainsElems()
      requires i < Size()
      ensures |Elem(i)| == NumBits() && Contains(Elem(i))
    {
      var s0 := dom0.size;
      DivBelow(i, s0, dom1.size);
      PartsOfPair(dom0.elem(i % s0), dom1.elem(i / s0));
    }

    /** `equals` is equality when it is so in both components. */
    lemma EqualsLift(a: seq<bool>, b: seq<bool>)
      requires dom0.EqualsIsEquality() && dom1.EqualsIsEquality()
      requires |a| == NumBits() && |b| == NumBits()
      ensures Equals(a, b) <==> a == b
    {
      if Equals(a, b) {
        EqualByParts(a, b);
      }
    }

    /** `is_edge` is a partial order when both component orders are. */
    lemma IsEdgePartialOrder(a: seq<bool>, b: seq<bool>, c: seq<bool>)
      requires dom0.PartialOrder() && dom1.PartialOrder()
      requires |a| == NumBits() && |b| == NumBits() && |c| == NumBits()
      ensures IsEdge(a, a)
      ensures IsEdge(a, b) && IsEdge(b, a) ==> a == b
      ensures IsEdge(a, b) && IsEdge(b, c) ==> IsEdge(a, c)
    {
      if IsEdge(a, b) && IsEdge(b, a) {
        EqualByParts(a, b);
      }
    }

    /** `top` and `bottom` are the greatest and least elements, and `is_top`/`is_bottom` recognise them. */
    lemma BoundsLift(a: seq<bool>)
      requires dom0.Closed() && dom1.Closed() && dom0.Bounded() && dom1.Bounded() && dom0.RecognisesBounds() && dom1.RecognisesBounds()
      requires |a| == NumBits()
      ensures |Top()| == NumBits() && |Bottom()| == NumBits()
      ensures IsEdge(Bottom(), a) && IsEdge(a, Top())
      ensures IsTop(a) <==> a == Top()
      ensures IsBottom(a) <==> a == Bottom()
    {
      PartsOfPair(dom0.top, dom1.top);
      PartsOfPair(dom0.bottom, dom1.bottom);
      if Part0(a) == dom0.top && Part1(a) == dom1.top {
        EqualByParts(a, Top());
      }
      if Part0(a) == dom0.bottom && Part1(a) == dom1.bottom {
        EqualByParts(a, Bottom());
      }
    }

    /** `meet` is the greatest lower bound when it is so in both components. */
    lemma MeetLift(a: seq<bool>, b: seq<bool>, x: seq<bool>)
      requires dom0.MeetIsGlb() && dom1.MeetIsGlb()
      requires |a| == NumBits() && |b| == NumBits() && |x| == NumBits()
      ensures |Meet(a, b)| == NumBits()
      ensures IsEdge(Meet(a, b), a) && IsEdge(Meet(a, b), b)
      ensures IsEdge(x, a) && IsEdge(x, b) ==> IsEdge(x, Meet(a, b))
    {
      PartsOfPair(dom0.meet(Part0(a), Part0(b)), dom1.meet(Part1(a), Part1(b)));
    }

    /** `join` is the least upper bound when it is so in both components. */
    lemma JoinLift(a: seq<bool>, b: seq<bool>, x: seq<bool>)
      requires dom0.JoinIsLub() && dom1.JoinIsLub()
      requires |a| == NumBits() && |b| == NumBits() && |x| == NumBits()
      ensures |Join(a, b)| == NumBits()
      ensures IsEdge(a, Join(a, b)) && IsEdge(b, Join(a, b))
      ensures IsEdge(a, x) && IsEdge(b, x) ==> IsEdge(Join(a, b), x)
    {
      PartsOfPair(dom0.join(Part0(a), Part0(b)), dom1.join(Part1(a), Part1(b)));
    }

    /** The intended `complement` meets to `bottom` and joins to `top` when both component complements do. */
    lemma ComplementLift(a: seq<bool>)
      requires dom0.Closed() && dom1.Closed() && dom0.Complemented() && dom1.Complemented()
      requires |a| == NumBits()
      ensures |Complement(a)| == NumBits()
      ensures Meet(a, Complement(a)) == Bottom() && Join(a, Complement(a)) == Top()
    {
      PartsOfPair(dom0.complement(Part0(a)), dom1.complement(Part1(a)));
    }

    /**
     * The `complement` as written is `num_bits` bits long only when the
     * second domain has no bits, so for any other product its result is not
     * an element, while the intended one always has the right length.
     */
    lemma ComplementAsWrittenTooShort(a: seq<bool>)
      requires dom0.Closed() && dom1.Closed() && dom1.bits > 0
      requires |a| == NumBits()
      ensures |ComplementAsWritten(a)| == dom0.bits < NumBits()
      ensures |Complement(a)| == NumBits()
    {
    }
  }

  // ----- the list product of `src/adt/product.rs` -----

  /** The bit position where part `k` starts: the widths of the parts before it. */
  function Offset(parts: seq<Base>, k: nat): nat
    requires k <= |parts|
  {
    if k == 0 then 0 else Offset(parts, k - 1) + parts[k - 1].bits
  }

  /** `num_bits`: the sum of the widths of all parts. */
  function ListNumBits(parts: seq<Base>): nat
  {
    Offset(parts, |parts|)
  }

  /** Offsets grow with the part number. */
  lemma {:induction false} OffsetMono(parts: seq<Base>, j: nat, k: nat)
    requires j <= k <= |parts|
    ensures Offset(parts, j) <= Offset(parts, k)
    decreases k - j
  {
    if j < k {
      OffsetMono(parts, j, k - 1);
    }
  }

  /** The bits of part `k` within an element. */
  function Slice(parts: seq<Base>, elem: seq<bool>, k: nat): (r: seq<bool>)
    requires k < |parts| && |elem| == ListNumBits(parts)
    ensures |r| == parts[k].bits
  {
    OffsetMono(parts, k + 1, |parts|);
    elem[Offset(parts, k)..Offset(parts, k + 1)]
  }

  /** Part `k` contains its slice. */
  predicate PartContains(parts: seq<Base>, elem: seq<bool>, k: nat)
    requires k < |parts| && |elem| == ListNumBits(parts)
  {
    parts[k].contains(Slice(parts, elem, k))
  }

  /** Every part contains its slice. */
  predicate ListContainsSpec(parts: seq<Base>, elem: seq<bool>)
    requires |elem| == ListNumBits(parts)
  {
    forall k :: 0 <= k < |parts| ==> PartContains(parts, elem, k)
  }

  /**
   * `contains`: conjoins the parts' verdicts on consecutive slices; the
   * slices must cover the element exactly, so an empty product accepts only
   * the empty element, and does accept it.
   */
  method ListContains(parts: seq<Base>, elem: seq<bool>) returns (valid: bool)
    requires |elem| == ListNumBits(parts)
    ensures valid <==> ListContainsSpec(parts, elem)
    ensures |parts| == 0 ==> valid
  {
    valid := true;
    var pos: nat := 0;
    for k := 0 to |parts|
      invariant pos == Offset(parts, k)
      invariant valid == PrefixContains(parts, elem, k)
    {
      OffsetMono(parts, k + 1, |parts|);
      var end := pos + parts[k].bits;
      assert elem[pos..end] == Slice(parts, elem, k);
      var v := parts[k].contains(elem[pos..end]);
      valid := valid && v;
      pos := end;
    }
    PrefixContainsSpec(parts, elem, |parts|);
  }

  /** The first `k` parts contain their slices. */
  predicate PrefixContains(parts: seq<Base>, elem: seq<bool>, k: nat)
    requires k <= |parts| && |elem| == ListNumBits(parts)
  {
    if k == 0 then true else PrefixContains(parts, elem, k - 1) && PartContains(parts, elem, k - 1)
  }

  lemma {:induction false} PrefixContainsSpec(parts: seq<Base>, elem: seq<bool>, k: nat)
    requires k <= |parts| && |elem| == ListNumBits(parts)
    ensures PrefixContains(parts, elem, k) <==> forall j :: 0 <= j < k ==> PartContains(parts, elem, j)
  {
    if k > 0 {
      PrefixContainsSpec(parts, elem, k - 1);
    }
  }

  /** The list product of two domains accepts the same elements as `Product2` of them. */
  lemma ListOfTwo(d0: Base, d1: Base, elem: seq<bool>)
    requires |elem| == d0.bits + d1.bits
    ensures ListNumBits([d0, d1]) == Product2(d0, d1).NumBits()
    ensures ListContainsSpec([d0, d1], elem) <==> Product2(d0, d1).Contains(elem)
  {
    var parts := [d0, d1];
    assert Offset(parts, 1) == d0.bits;
    assert Offset(parts, 2) == d0.bits + d1.bits;
    assert Slice(parts, elem, 0) == Product2(d0, d1).Part0(elem);
    assert Slice(parts, elem, 1) == Product2(d0, d1).Part1(elem);
    assert PartContains(parts, elem, 0) == d0.contains(Product2(d0, d1).Part0(elem));
    assert PartContains(parts, elem, 1) == d1.contains(Product2(d0, d1).Part1(elem));
  }
}
