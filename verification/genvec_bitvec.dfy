/**
 * The second-generation bit vector of `src/genvec/bitvec.rs`. Its `BitVec`
 * operations (new, with_capacity, from_elem, clear, truncate, resize, push,
 * pop, append, get, set, their unchecked variants and `IntoIter`) are the
 * same code as `src/core/bitvec.rs` and are modelled once, in `CoreBitVec`.
 * This module adds what is new here: equality that ignores the padding bits
 * of the last word, and the borrowed `BitSlice` view, which is also the
 * vector's iterator.
 */
module GenVecBitVec {
  import opened CoreBitVec
  import opened Wrappers

  /**
   * `PartialEq::eq`: equal lengths, equal whole words below `len / 32`, and
   * equal low `len % 32` bits of the partial word (the XOR of the two words
   * masked with `(1 << rest) - 1`).
   */
  function Equals(a: BitVec, b: BitVec): (r: bool)
    reads a, b
    requires a.Valid() && b.Valid()
    ensures r <==> a.Contents() == b.Contents()
  {
    if a.len != b.len then
      false
    else
      var index := a.len / 32;
      var rest := a.len % 32;
      if a.data[..32 * index] != b.data[..32 * index] then
        assert a.Contents()[..32 * index] != b.Contents()[..32 * index];
        false
      else if rest != 0 then
        var r := a.data[32 * index..32 * index + rest] == b.data[32 * index..32 * index + rest];
        assert a.Contents() == a.data[..32 * index] + a.data[32 * index..32 * index + rest];
        assert b.Contents() == b.data[..32 * index] + b.data[32 * index..32 * index + rest];
        assert !r ==> a.Contents()[32 * index..] != b.Contents()[32 * index..];
        r
      else
        assert a.Contents() == a.data[..32 * index];
        true
  }

  /**
   * `BitSlice`: the positions `start..end` of a vector. It is `Copy`; as an
   * iterator it advances `start` from the front and `end` from the back.
   */
  class BitSlice {
    const vec: BitVec
    var start: nat
    var end: nat

    ghost predicate Valid()
      reads this, vec
    {
      vec.Valid() && start <= end <= vec.len
    }

    /** The bits the slice views. */
    function Contents(): (s: seq<bool>)
      reads this, vec
      requires Valid()
      ensures |s| == end - start
    {
      vec.Contents()[start..end]
    }

    /** `BitVec::slice` and `BitVec::copy_iter`: the whole vector. */
    constructor (vec: BitVec)
      requires vec.Valid()
      ensures this.vec == vec && Valid() && Contents() == vec.Contents()
    {
      this.vec := vec;
      start := 0;
      end := vec.len;
      new;
      assert vec.Contents()[0..vec.len] == vec.Contents();
    }

    constructor Sub(vec: BitVec, start: nat, end: nat)
      requires vec.Valid() && start <= end <= vec.len
      ensures this.vec == vec && this.start == start && this.end == end
    {
      this.vec := vec;
      this.start := start;
      this.end := end;
    }

    /** `len`. */
    function Len(): (r: nat)
      reads this, vec
      requires Valid()
      ensures r == |Contents()|
    {
      end - start
    }

    /** `is_empty`. */
    function IsEmpty(): (r: bool)
      reads this, vec
      requires Valid()
      ensures r <==> Contents() == []
    {
      start >= end
    }

    /** `get`: position `index` of the slice, which must lie below `end`. */
    method Get(index: nat) returns (b: bool)
      requires Valid() && start + index < end
      ensures b == Contents()[index]
    {
      b := vec.Get(start + index);
    }

    /** `slice`: a sub-slice with bounds relative to this one. */
    method Slice(s: nat, e: nat) returns (r: BitSlice)
      requires Valid() && s <= e && start + e <= end
      ensures fresh(r) && r.vec == vec && r.Valid()
      ensures r.Contents() == Contents()[s..e]
    {
      r := new BitSlice.Sub(vec, start + s, start + e);
      assert vec.Contents()[start..end][s..e] == vec.Contents()[start + s..start + e];
    }

    /** `next`: the bit at `start`, advancing `start`. */
    method Next() returns (r: Option<bool>)
      requires Valid()
      modifies this
      ensures Valid() && end == old(end)
      ensures old(start) < old(end) ==> r == Some(old(Contents())[0]) && Contents() == old(Contents())[1..]
      ensures old(start) >= old(end) ==> r == None && start == old(start)
    {
      if start < end {
        r := Some(vec.data[start]);
        start := start + 1;
      } else {
        r := None;
      }
    }

    /**
     * `next_back`, reading the bit at `end - 1` before moving `end` back.
     * The source reads the bit at `start`; see `NextBackAsWritten`.
     */
    method NextBack() returns (r: Option<bool>)
      requires Valid()
      modifies this
      ensures Valid() && start == old(start)
      ensures old(start) < old(end) ==> r == Some(old(Contents())[old(end) - old(start) - 1]) && Contents() == old(Contents())[..old(end) - old(start) - 1]
      ensures old(start) >= old(end) ==> r == None && end == old(end)
    {
      if start < end {
        r := Some(vec.data[end - 1]);
        end := end - 1;
      } else {
        r := None;
      }
    }

    /** `size_hint`: exact, the number of bits left. */
    function SizeHint(): (r: (nat, Option<nat>))
      reads this, vec
      requires Valid()
      ensures r.0 == |Contents()| && r.1 == Some(r.0)
    {
      (end - start, Some(end - start))
    }
  }

  /**
   * `next_back` as written, on the viewed bits `bits` and the bounds of the
   * slice: it reads position `start` and moves `end` back.
   */
  function NextBackAsWritten(bits: seq<bool>, start: nat, end: nat): (r: (Option<bool>, nat))
    requires start <= end <= |bits|
    ensures start < end ==> r == (Some(bits[start]), end - 1)
    ensures start >= end ==> r == (None, end)
  {
    if start < end then (Some(bits[start]), end - 1) else (None, end)
  }

  /** On the slice `[true, false]`, `next_back` as written yields the front `true`, not the back `false`. */
  lemma NextBackAsWrittenReadsFront()
    ensures NextBackAsWritten([true, false], 0, 2).0 == Some(true)
    ensures [true, false][2 - 1] == false
  {
  }

  /** Iterating a slice from the front yields its bits in order. */
  method CollectForward(s: BitSlice) returns (items: seq<bool>)
    requires s.Valid()
    modifies s
    ensures items == old(s.Contents())
  {
    items := [];
    ghost var all := s.Contents();
    while true
      invariant s.Valid() && items + s.Contents() == all
      decreases s.end - s.start
    {
      var next := s.Next();
      match next {
        case None =>
          break;
        case Some(b) =>
          items := items + [b];
      }
    }
  }

  /** Iterating a slice from the back yields its bits in reverse order. */
  method CollectBackward(s: BitSlice) returns (items: seq<bool>)
    requires s.Valid()
    modifies s
    ensures |items| == |old(s.Contents())|
    ensures forall i :: 0 <= i < |items| ==> items[i] == old(s.Contents())[|items| - 1 - i]
  {
    items := [];
    ghost var all := s.Contents();
    while true
      invariant s.Valid() && |items| + |s.Contents()| == |all|
      invariant s.Contents() == all[..|s.Contents()|]
      invariant forall i :: 0 <= i < |items| ==> items[i] == all[|all| - 1 - i]
      decreases s.end - s.start
    {
      var next := s.NextBack();
      match next {
        case None =>
          break;
        case Some(b) =>
          items := items + [b];
      }
    }
  }
}
