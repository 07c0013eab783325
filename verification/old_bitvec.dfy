/**
 * The first-generation bit vector of `src/bitvec.rs`. Unlike the later
 * versions it keeps exactly the words that `len` needs: `push` adds a word
 * on a word boundary, `pop` drops it again, and `resize` first overwrites
 * the unused high bits of the partial word with the fill value (the mask
 * `!0 << (len & 31)`) before resizing the word vector.
 *
 * The word vector is modelled as in `CoreBitVec`: bit `k` of word `w` is
 * entry `32 * w + k` of `data`.
 */
module OldBitVec {
  import opened BitSpec
  import opened Wrappers
  import CoreBitVec

  /** `data` with the entries from `lo` up to `hi` replaced by `b`: the effect of OR-ing or AND-NOT-ing a mask. */
  function FillRange(data: seq<bool>, lo: nat, hi: nat, b: bool): (r: seq<bool>)
    requires lo <= hi <= |data|
    ensures |r| == |data|
    ensures forall i :: 0 <= i < |r| ==> r[i] == if lo <= i < hi then b else data[i]
  {
    data[..lo] + Constant(hi - lo, b) + data[hi..]
  }

  /**
   * The words after `resize` from `len` to `newLen`: the bits below `len`
   * are kept, and every bit from `len` up to `newLen` is the fill value,
   * whether it sat in the old partial word or in an appended one.
   */
  lemma ResizeData(data: seq<bool>, len: nat, newLen: nat, value: bool)
    requires |data| == 32 * CoreBitVec.WordsFor(len)
    ensures var filled := if len % 32 != 0 then FillRange(data, len, |data|, value) else data;
      var r := CoreBitVec.WordsResize(filled, CoreBitVec.WordsFor(newLen), value);
      |r| == 32 * CoreBitVec.WordsFor(newLen) &&
      (newLen <= len ==> r[..newLen] == data[..len][..newLen]) &&
      (newLen > len ==> r[..newLen] == data[..len] + Constant(newLen - len, value))
  {
    var filled := if len % 32 != 0 then FillRange(data, len, |data|, value) else data;
    var r := CoreBitVec.WordsResize(filled, CoreBitVec.WordsFor(newLen), value);
    if newLen > len {
      var want := data[..len] + Constant(newLen - len, value);
      forall i | 0 <= i < newLen
        ensures r[i] == want[i]
      {
      }
    }
  }

  class BitVec {
    var data: seq<bool>
    var len: nat

    /** The word vector holds exactly `(len + 31) >> 5` words. */
    ghost predicate Valid()
      reads this
    {
      |data| == 32 * CoreBitVec.WordsFor(len)
    }

    function Contents(): (s: seq<bool>)
      reads this
      requires Valid()
      ensures |s| == len
    {
      data[..len]
    }

    /** `new`. */
    constructor ()
      ensures Valid() && Contents() == []
    {
      data, len := [], 0;
    }

    /** `with_capacity`: the capacity only reserves memory. */
    constructor WithCapacity(capacity: nat)
      ensures Valid() && Contents() == []
    {
      data, len := [], 0;
    }

    /** `clear`. */
    method Clear()
      modifies this
      ensures Valid() && Contents() == [] && data == []
    {
      data, len := [], 0;
    }

    /**
     * `resize`: sets the bits of the partial word at and above `len` to
     * `value`, resizes the word vector with the fill word and sets `len`.
     */
    method Resize(new_len: nat, value: bool)
      requires Valid()
      modifies this
      ensures Valid()
      ensures new_len <= old(len) ==> Contents() == old(Contents())[..new_len]
      ensures new_len > old(len) ==> Contents() == old(Contents()) + Constant(new_len - old(len), value)
    {
      ResizeData(data, len, new_len, value);
      if len % 32 != 0 {
        data := FillRange(data, len, |data|, value);
      }
      data := CoreBitVec.WordsResize(data, CoreBitVec.WordsFor(new_len), value);
      len := new_len;
    }

    /** `push`: a zero word on a word boundary, then bit `len` is set or cleared. */
    method Push(value: bool)
      requires Valid()
      modifies this
      ensures Valid() && Contents() == old(Contents()) + [value]
    {
      if len % 32 == 0 {
        data := data + Constant(32, false);
      }
      data := data[len := value];
      len := len + 1;
    }

    /** `pop`: the last bit, dropping the last word when the new length is a multiple of 32. */
    method Pop() returns (r: Option<bool>)
      requires Valid()
      modifies this
      ensures Valid()
      ensures old(len) == 0 ==> r == None && len == 0
      ensures old(len) > 0 ==> r == Some(old(Contents())[old(len) - 1]) && Contents() == old(Contents())[..old(len) - 1]
    {
      if len == 0 {
        return None;
      }
      len := len - 1;
      var b := data[len];
      if len % 32 == 0 {
        data := data[..|data| - 32];
      }
      r := Some(b);
    }

    /** `get`. */
    method Get(index: nat) returns (b: bool)
      requires Valid() && index < len
      ensures b == Contents()[index]
    {
      b := data[index];
    }

    /** `set`: only bit `index` changes. */
    method Set(index: nat, value: bool)
      requires Valid() && index < len
      modifies this
      ensures Valid() && Contents() == old(Contents())[index := value]
    {
      data := data[index := value];
    }

    /** `is_empty`. */
    function IsEmpty(): (r: bool)
      reads this
      requires Valid()
      ensures r <==> Contents() == []
    {
      len == 0
    }
  }

  /** Pushing a bit and popping it returns that bit and restores the vector. */
  method PushPop(v: BitVec, b: bool) returns (r: Option<bool>)
    requires v.Valid()
    modifies v
    ensures v.Valid() && r == Some(b) && v.Contents() == old(v.Contents())
  {
    v.Push(b);
    r := v.Pop();
  }
}
