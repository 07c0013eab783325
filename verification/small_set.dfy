/**
 * The one-hot small sets `SmallSet` of `src/adt/small_set.rs` and
 * `src/alg/small_set.rs`, and the compile-time sized `FixedSet` of
 * `src/alg/fixed_set.rs`. The number `i < size` is the vector of `size`
 * bits whose only set bit is bit `i`, and the numbers are ordered as a
 * chain. The operations run over the `bool` logic on the bits of slices.
 */
module SmallSets {
  import opened BitSpec
  import BoolLogic

  // ----- specification vocabulary -----

  /** The last position below `k` holding `true`, or `|s|` when there is none. */
  function LastTrue(s: seq<bool>, k: nat): (r: nat)
    requires k <= |s|
    ensures r <= |s|
    ensures r == |s| <==> forall j :: 0 <= j < k ==> !s[j]
    ensures r < |s| ==> r < k && s[r] && forall j :: r < j < k ==> !s[j]
  {
    if k == 0 then |s| else if s[k - 1] then k - 1 else LastTrue(s, k - 1)
  }

  /** The number a vector stands for: the position of its last set bit, or `|s|` for none. */
  function IndexOf(s: seq<bool>): (r: nat)
    ensures r <= |s| && (Count(s) > 0 ==> r < |s| && s[r])
  {
    CountBounds(s);
    LastTrue(s, |s|)
  }

  /** A valid element: exactly one bit set. */
  predicate IsOneHot(s: seq<bool>)
  {
    Count(s) == 1
  }

  function Min(a: nat, b: nat): nat { if a <= b then a else b }

  function Max(a: nat, b: nat): nat { if a <= b then b else a }

  /** The pairs of bits at equal positions, up to the shorter of the two. */
  function Zip(a: seq<bool>, b: seq<bool>): (r: seq<(bool, bool)>)
    ensures |r| == Min(|a|, |b|)
    ensures forall i :: 0 <= i < |r| ==> r[i] == (a[i], b[i])
  {
    var n := Min(|a|, |b|);
    seq(n, i requires 0 <= i < n => (a[i], b[i]))
  }

  /** No bit of `a` or `b` is set below `k`. */
  predicate NoneBefore(a: seq<bool>, b: seq<bool>, k: nat)
    requires k <= |a| && k <= |b|
  {
    forall m :: 0 <= m < k ==> !a[m] && !b[m]
  }

  /** Whether the number of bits set in `a` and `b` below `k` together is odd. */
  function OddBefore(a: seq<bool>, b: seq<bool>, k: nat): bool
    requires k <= |a| && k <= |b|
  {
    (Count(a[..k]) + Count(b[..k])) % 2 == 1
  }

  /** One more position flips the parity by each of its set bits. */
  lemma OddBeforeStep(a: seq<bool>, b: seq<bool>, k: nat)
    requires k < |a| && k < |b|
    ensures OddBefore(a, b, k + 1) == BoolLogic.Sum3(OddBefore(a, b, k), a[k], b[k])
  {
    assert a[..k + 1][..k] == a[..k];
    assert b[..k + 1][..k] == b[..k];
  }

  // ----- lemmas about one-hot vectors -----

  /** The number of a one-hot vector is its set position. */
  lemma {:induction false} IndexOfOneHot(n: nat, i: nat)
    requires i < n
    ensures IndexOf(OneHot(n, i)) == i
  {
    var s := OneHot(n, i);
    assert s[i];
  }

  /** A vector with exactly one bit set is the one-hot vector of its number. */
  lemma OneHotOfIndex(s: seq<bool>)
    ensures IsOneHot(s) ==> IndexOf(s) < |s| && OneHot(|s|, IndexOf(s)) == s
  {
    if IsOneHot(s) {
      CountBounds(s);
      var r := IndexOf(s);
      assert r < |s|;
      CountOneUnique(s, r);
    }
  }

  /** Vectors with no set bit have value 0. */
  lemma {:induction false} ValueZero(s: seq<bool>)
    requires forall j :: 0 <= j < |s| ==> !s[j]
    ensures Value(s) == 0
  {
    if s != [] {
      ValueZero(s[..|s| - 1]);
    }
  }

  /** The value of the one-hot vector at `i` is `2^i`. */
  lemma {:induction false} ValueOneHot(n: nat, i: nat)
    requires i < n
    ensures Value(OneHot(n, i)) == Pow2(i)
  {
    var s := OneHot(n, i);
    if i == n - 1 {
      ValueZero(s[..n - 1]);
    } else {
      ValueOneHot(n - 1, i);
      assert s[..n - 1] == OneHot(n - 1, i);
    }
  }

  /** Powers of two are strictly increasing. */
  lemma {:induction false} Pow2Less(i: nat, j: nat)
    requires i < j
    ensures Pow2(i) < Pow2(j)
  {
    if i < j - 1 {
      Pow2Less(i, j - 1);
    }
  }

  /** On one-hot vectors, comparing values compares the numbers. */
  lemma OneHotValueOrder(n: nat, i: nat, j: nat)
    requires i < n && j < n
    ensures Value(OneHot(n, i)) <= Value(OneHot(n, j)) <==> i <= j
  {
    ValueOneHot(n, i);
    ValueOneHot(n, j);
    if i < j {
      Pow2Less(i, j);
    } else if j < i {
      Pow2Less(j, i);
    }
  }

  /** On one-hot vectors, a shared set bit means equal numbers. */
  lemma OneHotShared(n: nat, i: nat, j: nat)
    requires i < n && j < n
    ensures (exists k :: 0 <= k < n && OneHot(n, i)[k] && OneHot(n, j)[k]) <==> i == j
  {
    if i == j {
      assert OneHot(n, i)[i] && OneHot(n, j)[i];
    }
  }

  /** The bits set in a prefix of a one-hot vector: one once the prefix passes its set bit. */
  lemma {:induction false} CountOneHotPrefix(n: nat, i: nat, k: nat)
    requires i < n && k <= n
    ensures Count(OneHot(n, i)[..k]) == if i < k then 1 else 0
  {
    var s := OneHot(n, i);
    if k > 0 {
      CountOneHotPrefix(n, i, k - 1);
      assert s[..k][..k - 1] == s[..k - 1];
    } else {
      assert s[..k] == [];
    }
  }

  // ----- the small set -----

  /** `SmallSet`: the numbers `0..size`, one bit per number. */
  datatype SmallSet = SmallSet(size: nat)
  {
    /** `num_bits`. */
    function NumBits(): (r: nat)
      ensures r == size
    {
      size
    }

    /** `contains`: asserts the length; exactly one bit is set. */
    method Contains(elem: seq<bool>) returns (r: bool)
      requires |elem| == size
      ensures r <==> IsOneHot(elem)
    {
      r := BoolLogic.FoldOne(elem);
    }

    /** `equals`: asserts both lengths; some bit is set in both. On valid elements this is equality. */
    method Equals(elem0: seq<bool>, elem1: seq<bool>) returns (r: bool)
      requires |elem0| == size && |elem1| == size
      ensures r <==> exists i :: 0 <= i < size && elem0[i] && elem1[i]
      ensures IsOneHot(elem0) && IsOneHot(elem1) ==> (r <==> elem0 == elem1)
    {
      r := BoolLogic.Lift(false);
      for i := 0 to size
        invariant r <==> exists j :: 0 <= j < i && elem0[j] && elem1[j]
      {
        var v := elem0[i] && elem1[i];
        r := BoolLogic.Or(r, v);
      }
      if IsOneHot(elem0) && IsOneHot(elem1) {
        OneHotOfIndex(elem0);
        OneHotOfIndex(elem1);
        OneHotShared(size, IndexOf(elem0), IndexOf(elem1));
      }
    }

    /** `size`. */
    function Size(): (r: nat)
      ensures r == NumBits()
    {
      size
    }

    /** `elem`: asserts `index < size`; one push per number, true only at `index`. */
    method Elem(index: nat) returns (v: seq<bool>)
      requires index < size
      ensures v == OneHot(size, index) && IndexOf(v) == index
    {
      v := [];
      for i := 0 to size
        invariant v == OneHot(size, index)[..i]
      {
        v := v + [i == index];
      }
      IndexOfOneHot(size, index);
    }

    /** `index`: the last set bit; asserts the length and that some bit is set. */
    method Index(elem: seq<bool>) returns (index: nat)
      requires |elem| == size && exists i :: 0 <= i < size && elem[i]
      ensures index == IndexOf(elem) && index < size && elem[index]
      ensures IsOneHot(elem) ==> elem == OneHot(size, index)
    {
      index := size;
      for i := 0 to size
        invariant index == LastTrue(elem, i)
      {
        if elem[i] {
          index := i;
        }
      }
      if IsOneHot(elem) {
        OneHotOfIndex(elem);
      }
    }

    /**
     * `leq` (`is_edge` in `src/alg/small_set.rs`): the pairs compared as
     * little-endian binary numbers. On valid elements this is the order
     * of the numbers.
     */
    method Leq(elem0: seq<bool>, elem1: seq<bool>) returns (r: bool)
      requires |elem0| == size && |elem1| == size
      ensures r <==> Value(elem0) <= Value(elem1)
      ensures IsOneHot(elem0) && IsOneHot(elem1) ==> (r <==> IndexOf(elem0) <= IndexOf(elem1))
    {
      var pairs := Zip(elem0, elem1);
      assert BoolLogic.Firsts(pairs) == elem0;
      assert BoolLogic.Seconds(pairs) == elem1;
      r := BoolLogic.CmpLeq(pairs);
      if IsOneHot(elem0) && IsOneHot(elem1) {
        OneHotOfIndex(elem0);
        OneHotOfIndex(elem1);
        OneHotValueOrder(size, IndexOf(elem0), IndexOf(elem1));
      }
    }

    /** `bottom`: asserts a non-empty set; the element 0. */
    method Bottom() returns (v: seq<bool>)
      requires size != 0
      ensures v == OneHot(size, 0)
    {
      v := Elem(0);
    }

    /** `top`: asserts a non-empty set; the element `size - 1`. */
    method Top() returns (v: seq<bool>)
      requires size != 0
      ensures v == OneHot(size, size - 1)
    {
      v := Elem(size - 1);
    }

    /** `is_bottom` of `src/alg/small_set.rs`: bit 0. On valid elements, whether it is the element 0. */
    function IsBottom(elem: seq<bool>): (r: bool)
      requires size != 0 && 0 < |elem|
      ensures IsOneHot(elem) ==> (r <==> IndexOf(elem) == 0)
    {
      if IsOneHot(elem) then OneHotOfIndex(elem); elem[0] else elem[0]
    }

    /** `is_top` of `src/alg/small_set.rs`: bit `size - 1`. On valid elements, whether it is the element `size - 1`. */
    function IsTop(elem: seq<bool>): (r: bool)
      requires size != 0 && size - 1 < |elem|
      ensures |elem| == size && IsOneHot(elem) ==> (r <==> IndexOf(elem) == size - 1)
    {
      if |elem| == size && IsOneHot(elem) then OneHotOfIndex(elem); elem[size - 1] else elem[size - 1]
    }

    /**
     * `meet`: scanning the pairs, the first position where either bit is
     * set is marked and every other is cleared. On valid elements this
     * is the smaller number.
     */
    method Meet(elem0: seq<bool>, elem1: seq<bool>) returns (v: seq<bool>)
      ensures |v| == Min(|elem0|, |elem1|)
      ensures forall k :: 0 <= k < |v| ==> (v[k] <==> (elem0[k] || elem1[k]) && NoneBefore(elem0, elem1, k))
      ensures |elem0| == size && |elem1| == size && IsOneHot(elem0) && IsOneHot(elem1) ==>
        v == OneHot(size, Min(IndexOf(elem0), IndexOf(elem1)))
    {
      var n := Min(|elem0|, |elem1|);
      v := [];
      var looking := BoolLogic.Lift(true);
      for k := 0 to n
        invariant |v| == k && (looking <==> NoneBefore(elem0, elem1, k))
        invariant forall m :: 0 <= m < k ==> (v[m] <==> (elem0[m] || elem1[m]) && NoneBefore(elem0, elem1, m))
      {
        var found := BoolLogic.Or(elem0[k], elem1[k]);
        v := v + [looking && found];
        looking := looking && BoolLogic.Not(found);
      }
      if |elem0| == size && |elem1| == size && IsOneHot(elem0) && IsOneHot(elem1) {
        OneHotOfIndex(elem0);
        OneHotOfIndex(elem1);
        MeetOneHot(size, IndexOf(elem0), IndexOf(elem1), v);
      }
    }

    /**
     * `join`: scanning the pairs, `looking` is the parity of the bits set
     * so far and each position gets the majority of `looking` and the two
     * bits. On valid elements this is the larger number.
     */
    method Join(elem0: seq<bool>, elem1: seq<bool>) returns (v: seq<bool>)
      ensures |v| == Min(|elem0|, |elem1|)
      ensures forall k :: 0 <= k < |v| ==> (v[k] <==> BoolLogic.Maj(OddBefore(elem0, elem1, k), elem0[k], elem1[k]))
      ensures |elem0| == size && |elem1| == size && IsOneHot(elem0) && IsOneHot(elem1) ==>
        v == OneHot(size, Max(IndexOf(elem0), IndexOf(elem1)))
    {
      v := MajorityScan(elem0, elem1);
      if |elem0| == size && |elem1| == size && IsOneHot(elem0) && IsOneHot(elem1) {
        OneHotOfIndex(elem0);
        OneHotOfIndex(elem1);
        JoinOneHot(size, IndexOf(elem0), IndexOf(elem1), v);
      }
    }
  }

  /** The loop of `join`: each position gets the majority of `looking` and the two bits, then `looking` takes their sum. */
  method MajorityScan(elem0: seq<bool>, elem1: seq<bool>) returns (v: seq<bool>)
    ensures |v| == Min(|elem0|, |elem1|)
    ensures forall k :: 0 <= k < |v| ==> (v[k] <==> JoinBit(elem0, elem1, k))
  {
    var n := Min(|elem0|, |elem1|);
    v := [];
    var looking := BoolLogic.Lift(false);
    for k := 0 to n
      invariant |v| == k && looking == OddBefore(elem0, elem1, k)
      invariant forall m :: 0 <= m < k ==> (v[m] <==> JoinBit(elem0, elem1, m))
    {
      var bit := BoolLogic.Maj(looking, elem0[k], elem1[k]);
      assert bit == JoinBit(elem0, elem1, k);
      v := v + [bit];
      OddBeforeStep(elem0, elem1, k);
      looking := BoolLogic.Sum3(looking, elem0[k], elem1[k]);
    }
  }

  /** Bit `k` of `join`: the majority of the parity so far and the two bits. */
  predicate JoinBit(a: seq<bool>, b: seq<bool>, k: nat)
    requires k < |a| && k < |b|
  {
    BoolLogic.Maj(OddBefore(a, b, k), a[k], b[k])
  }

  /** What the meet loop marks, on the one-hot vectors of `i` and `j`, is the one-hot vector of the smaller. */
  lemma MeetOneHot(n: nat, i: nat, j: nat, v: seq<bool>)
    requires i < n && j < n && |v| == n
    requires forall k :: 0 <= k < n ==>
      (v[k] <==> (OneHot(n, i)[k] || OneHot(n, j)[k]) && NoneBefore(OneHot(n, i), OneHot(n, j), k))
    ensures v == OneHot(n, Min(i, j))
  {
    var a, b := OneHot(n, i), OneHot(n, j);
    forall k | 0 <= k < n
      ensures v[k] == OneHot(n, Min(i, j))[k]
    {
      if k > Min(i, j) {
        assert a[Min(i, j)] || b[Min(i, j)];
      }
    }
  }

  /** What the join loop computes, on the one-hot vectors of `i` and `j`, is the one-hot vector of the larger. */
  lemma JoinOneHot(n: nat, i: nat, j: nat, v: seq<bool>)
    requires i < n && j < n && |v| == n
    requires forall k :: 0 <= k < n ==>
      (v[k] <==> BoolLogic.Maj(OddBefore(OneHot(n, i), OneHot(n, j), k), OneHot(n, i)[k], OneHot(n, j)[k]))
    ensures v == OneHot(n, Max(i, j))
  {
    var a, b := OneHot(n, i), OneHot(n, j);
    forall k | 0 <= k < n
      ensures v[k] == OneHot(n, Max(i, j))[k]
    {
      var odd := (i < k) != (j < k);
      OddBeforeOneHot(n, i, j, k);
      assert a[k] == (k == i) && b[k] == (k == j);
      assert v[k] == BoolLogic.Maj(odd, k == i, k == j);
      assert BoolLogic.Maj(odd, k == i, k == j) == (k == Max(i, j));
    }
  }

  /** Before position `k`, the one-hot vectors of `i` and `j` hold an odd number of set bits when exactly one of `i`, `j` is below `k`. */
  lemma OddBeforeOneHot(n: nat, i: nat, j: nat, k: nat)
    requires i < n && j < n && k <= n
    ensures OddBefore(OneHot(n, i), OneHot(n, j), k) == ((i < k) != (j < k))
  {
    CountOneHotPrefix(n, i, k);
    CountOneHotPrefix(n, j, k);
    var ca, cb := Count(OneHot(n, i)[..k]), Count(OneHot(n, j)[..k]);
    if i < k && j < k {
      assert ca + cb == 2;
    } else if i < k || j < k {
      assert ca + cb == 1;
    } else {
      assert ca + cb == 0;
    }
  }

  // ----- the fixed-size set -----

  /** `FixedSet<SIZE>`: the same domain with the size fixed at compile time. */
  datatype FixedSet = FixedSet(SIZE: nat)
  {
    /** `num_bits` and `size`: both `SIZE`. */
    function NumBits(): (r: nat)
      ensures r == SIZE && r == SmallSet(SIZE).NumBits()
    {
      SIZE
    }

    /** `get_elem`: asserts `index < SIZE`; a vector of `SIZE` zeros with bit `index` set. */
    function GetElem(index: nat): (v: seq<bool>)
      requires index < SIZE
      ensures v == OneHot(SIZE, index) && IndexOf(v) == index
    {
      IndexOfOneHot(SIZE, index);
      Constant(SIZE, false)[index := true]
    }

    /** `onehot`: a copy of the element, which for a valid element is its own one-hot encoding. */
    function OneHotOf(elem: seq<bool>): (v: seq<bool>)
      requires |elem| == SIZE
      ensures v == elem
      ensures IsOneHot(elem) ==> v == OneHot(SIZE, IndexOf(elem))
    {
      OneHotOfIndex(elem);
      elem
    }
  }
}
