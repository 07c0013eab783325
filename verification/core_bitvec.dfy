/**
 * The packed bit vector of `src/core/bitvec.rs`: a length `len` and a
 * vector of 32-bit words `data`. Bit `i` of the vector is bit `i % 32` of
 * word `i / 32`.
 *
 * A word vector is modelled as the concatenation of the bits of its words,
 * least significant bit first: bit `k` of word `w` is entry `32 * w + k` of
 * `data`, so `|data|` is 32 times the number of words. Pushing the word `0`
 * appends 32 `false` entries, pushing `0xffffffff` appends 32 `true` ones,
 * and `Vec::truncate`/`Vec::resize` on words become `WordsTruncate` and
 * `WordsResize` below.
 *
 * `pop` never drops a word, so words past the last one that `len` needs
 * may survive; the storage invariant is only that the words cover `len`.
 */
module CoreBitVec {
  import opened BitSpec
  import opened Wrappers

  /** The number of 32-bit words needed for `n` bits, `(n + 31) / 32`. */
  function WordsFor(n: nat): (r: nat)
    ensures 32 * r >= n && 32 * r < n + 32
  {
    (n + 31) / 32
  }

  /** `Vec::truncate(words)` on the word vector: keeps at most `words` words. */
  function WordsTruncate(data: seq<bool>, words: nat): (r: seq<bool>)
    ensures |r| == if 32 * words <= |data| then 32 * words else |data|
    ensures r == data[..|r|]
  {
    if 32 * words <= |data| then data[..32 * words] else data
  }

  /** `Vec::resize(words, fill)` on the word vector: truncates or pads with copies of the fill word. */
  function WordsResize(data: seq<bool>, words: nat, fill: bool): (r: seq<bool>)
    ensures |r| == 32 * words
    ensures forall i :: 0 <= i < |r| ==> r[i] == if i < |data| then data[i] else fill
  {
    if 32 * words <= |data| then data[..32 * words] else data + Constant(32 * words - |data|, fill)
  }

  /** The storage invariant: whole words, and enough of them to cover `len`. */
  predicate Fits(len: nat, data: seq<bool>)
  {
    |data| % 32 == 0 && len <= |data|
  }

  // ----- `resize` as written -----

  /** The `while len < new_len && len % 32 != 0 { push(elem) }` loop of `resize`. */
  function FillPartialWord(len: nat, data: seq<bool>, new_len: nat, elem: bool): (r: (nat, seq<bool>))
    requires Fits(len, data)
    ensures Fits(r.0, r.1) && |r.1| == |data| && r.1[..len] == data[..len]
    ensures r.0 == (if len < new_len && len % 32 != 0 then (if new_len < 32 * WordsFor(len) then new_len else 32 * WordsFor(len)) else len)
    ensures forall i :: len <= i < r.0 ==> r.1[i] == elem
    decreases new_len - len
  {
    if len < new_len && len % 32 != 0 then
      PartialWordStep(len, |data|);
      var r := FillPartialWord(len + 1, data[len := elem], new_len, elem);
      assert r.1[len] == data[len := elem][..len + 1][len];
      r
    else
      (len, data)
  }

  /** Inside a partial word, one more bit needs no new word and stays within the words present. */
  lemma PartialWordStep(len: nat, size: nat)
    requires len % 32 != 0 && size % 32 == 0 && len <= size
    ensures len < size && WordsFor(len + 1) == WordsFor(len) && len < 32 * WordsFor(len)
    ensures (len + 1) % 32 == 0 ==> len + 1 == 32 * WordsFor(len)
    ensures (len + 1) % 32 != 0 ==> len + 1 < 32 * WordsFor(len)
  {
  }

  /**
   * The word store after the fixed `resize`: when the partial word has been
   * filled up to a word boundary, truncating to `len` and padding with the
   * fill word gives the old bits followed by copies of the fill bit.
   */
  lemma ResizeWords(len: nat, data: seq<bool>, new_len: nat, elem: bool)
    requires Fits(len, data) && (len < new_len ==> len % 32 == 0)
    ensures var r := WordsResize(WordsTruncate(data, WordsFor(len)), WordsFor(new_len), elem);
      new_len <= |r| &&
      (new_len <= len ==> r[..new_len] == data[..new_len]) &&
      (new_len > len ==> r[..new_len] == data[..len] + Constant(new_len - len, elem))
  {
    var t := WordsTruncate(data, WordsFor(len));
    var r := WordsResize(t, WordsFor(new_len), elem);
    if new_len > len {
      assert 32 * WordsFor(len) == len;
      assert t == data[..len];
      assert r[..new_len] == data[..len] + Constant(new_len - len, elem);
    } else {
      assert r[..new_len] == data[..new_len];
    }
  }

  /** The bits after the fixed `resize`, from those after its first loop. */
  lemma ResizeBits(before: seq<bool>, len: nat, data: seq<bool>, new_len: nat, elem: bool)
    requires Fits(len, data) && |before| <= len && (len <= new_len || len == |before|)
    requires len < new_len ==> len % 32 == 0
    requires data[..len] == before + Constant(len - |before|, elem)
    ensures var r := WordsResize(WordsTruncate(data, WordsFor(len)), WordsFor(new_len), elem);
      new_len <= |r| &&
      (new_len <= |before| ==> r[..new_len] == before[..new_len]) &&
      (new_len > |before| ==> r[..new_len] == before + Constant(new_len - |before|, elem))
  {
    ResizeWords(len, data, new_len, elem);
    if new_len > |before| {
      ConstantSplit(before, len - |before|, new_len - |before|, elem);
    } else {
      assert data[..new_len] == data[..len][..new_len];
    }
  }

  /** A prefix of fill bits followed by more fill bits is one run of fill bits. */
  lemma ConstantSplit(before: seq<bool>, m: nat, n: nat, elem: bool)
    requires m <= n
    ensures (before + Constant(m, elem)) + Constant(n - m, elem) == before + Constant(n, elem)
  {
  }

  /**
   * The bits of the vector after `resize` as written: the partial word is
   * filled by pushes, `len` is set, and the word vector is resized with the
   * fill word. Words that `pop` left behind are kept as they are.
   */
  function ResizeAsWritten(len: nat, data: seq<bool>, new_len: nat, elem: bool): (r: seq<bool>)
    requires Fits(len, data)
    ensures |r| == new_len
    ensures new_len <= len ==> r == data[..new_len]
  {
    var (l, d) := FillPartialWord(len, data, new_len, elem);
    WordsResize(d, WordsFor(new_len), elem)[..new_len]
  }

  /**
   * Pushing 33 `true` bits and popping one leaves `len == 32` with the
   * second word still holding a `true` bit 0. Growing that vector to 33
   * bits with `false` reads `true` at index 32.
   */
  lemma ResizeAfterPopKeepsStaleWord()
    ensures var data := Constant(33, true) + Constant(31, false);
            Fits(32, data) && ResizeAsWritten(32, data, 33, false)[32] == true
  {
    var data := Constant(33, true) + Constant(31, false);
    assert data[32] == true;
    var r := ResizeAsWritten(32, data, 33, false);
    assert FillPartialWord(32, data, 33, false) == (32, data);
    assert WordsResize(data, WordsFor(33), false)[32] == data[32];
  }

  class BitVec {
    var len: nat
    var data: seq<bool>

    ghost predicate Valid()
      reads this
    {
      Fits(len, data)
    }

    /** The bits of the vector: the first `len` bits of the word store. */
    function Contents(): (s: seq<bool>)
      reads this
      requires Valid()
      ensures |s| == len
    {
      data[..len]
    }

    /** `new`: the empty vector with no words. */
    constructor ()
      ensures Valid() && Contents() == [] && data == []
    {
      len, data := 0, [];
    }

    /** `with_capacity`: the empty vector; the capacity only reserves memory. */
    constructor WithCapacity(capacity: nat)
      ensures Valid() && Contents() == [] && data == []
    {
      len, data := 0, [];
    }

    /** `from_elem`: one bit held in one word. */
    constructor FromElem(elem: bool)
      ensures Valid() && Contents() == [elem] && |data| == 32
    {
      len := 1;
      data := [elem] + Constant(31, false);
    }

    /** `clear`: no bits and no words. */
    method Clear()
      modifies this
      ensures Valid() && Contents() == [] && data == []
    {
      len, data := 0, [];
    }

    /** `truncate`: keeps the first `new_len` bits and at most the words they need. */
    method Truncate(new_len: nat)
      requires Valid() && new_len <= len
      modifies this
      ensures Valid() && Contents() == old(Contents())[..new_len]
      ensures data == WordsTruncate(old(data), WordsFor(new_len))
    {
      len := new_len;
      data := WordsTruncate(data, WordsFor(new_len));
    }

    /** `push`: a fresh zero word is added when `len` is on a word boundary, then bit `len` is set. */
    method Push(elem: bool)
      requires Valid()
      modifies this
      ensures Valid() && Contents() == old(Contents()) + [elem]
      ensures data == (if old(len) % 32 == 0 then old(data) + Constant(32, false) else old(data))[old(len) := elem]
    {
      if len % 32 == 0 {
        data := data + Constant(32, false);
      }
      len := len + 1;
      data := data[len - 1 := elem];
    }

    /** `pop`: `None` on an empty vector, otherwise the last bit; the words are kept. */
    method Pop() returns (r: Option<bool>)
      requires Valid()
      modifies this
      ensures Valid() && data == old(data)
      ensures old(len) == 0 ==> r == None && len == 0
      ensures old(len) > 0 ==> r == Some(old(Contents())[old(len) - 1]) && Contents() == old(Contents())[..old(len) - 1]
    {
      if len == 0 {
        return None;
      }
      r := Some(data[len - 1]);
      len := len - 1;
    }

    /** `get`: bit `index % 32` of word `index / 32`. */
    method Get(index: nat) returns (b: bool)
      requires Valid() && index < len
      ensures b == Contents()[index]
    {
      b := data[index];
    }

    /** `set`: sets or clears bit `index % 32` of word `index / 32`. */
    method Set(index: nat, elem: bool)
      requires Valid() && index < len
      modifies this
      ensures Valid() && Contents() == old(Contents())[index := elem]
      ensures |data| == |old(data)|
    {
      data := data[index := elem];
    }

    /** `is_empty`. */
    function IsEmpty(): (r: bool)
      reads this
      requires Valid()
      ensures r <==> Contents() == []
    {
      len == 0
    }

    /**
     * `resize`, with the stale words dropped before the word vector is
     * resized: pushes fill the partial word, then the words past `len` are
     * discarded, `len` is set and the word vector is resized with the fill
     * word. The source omits the truncation; see `ResizeAsWritten`.
     */
    method Resize(new_len: nat, elem: bool)
      requires Valid()
      modifies this
      ensures Valid()
      ensures new_len <= old(len) ==> Contents() == old(Contents())[..new_len]
      ensures new_len > old(len) ==> Contents() == old(Contents()) + Constant(new_len - old(len), elem)
      ensures |data| == 32 * WordsFor(new_len)
    {
      ghost var before := Contents();
      FillWord(new_len, elem);
      ResizeBits(before, len, data, new_len, elem);
      data := WordsTruncate(data, WordsFor(len));
      len := new_len;
      data := WordsResize(data, WordsFor(new_len), elem);
    }

    /** The first loop of `resize`: pushes the fill bit until the partial word is full or `new_len` is reached. */
    method FillWord(new_len: nat, elem: bool)
      requires Valid()
      modifies this
      ensures Valid() && old(len) <= len && (len <= new_len || len == old(len))
      ensures len < new_len ==> len % 32 == 0
      ensures Contents() == old(Contents()) + Constant(len - old(len), elem)
    {
      ghost var before := Contents();
      while len < new_len && len % 32 != 0
        invariant Valid() && old(len) <= len
        invariant len <= new_len || len == old(len)
        invariant Contents() == before + Constant(len - old(len), elem)
        decreases new_len - len
      {
        Push(elem);
      }
    }

    /** `append`: pushes every bit of `other` in order, then clears `other`. */
    method Append(other: BitVec)
      requires Valid() && other.Valid() && other != this
      modifies this, other
      ensures Valid() && other.Valid()
      ensures Contents() == old(Contents()) + old(other.Contents())
      ensures other.Contents() == [] && other.data == []
    {
      var it := new CopyIter(other);
      while true
        invariant Valid() && other.Valid() && it.vec == other
        invariant other.len == old(other.len) && other.data == old(other.data)
        invariant it.pos <= other.len
        invariant Contents() == old(Contents()) + other.Contents()[..it.pos]
        decreases other.len - it.pos
      {
        var next := it.Next();
        match next {
          case None =>
            break;
          case Some(b) =>
            assert other.Contents()[..it.pos] == other.Contents()[..it.pos - 1] + [b];
            Push(b);
        }
      }
      assert other.Contents()[..other.len] == other.Contents();
      other.Clear();
    }

    /** `Extend`: pushes the items of the iterator in order. */
    method Extend(items: seq<bool>)
      requires Valid()
      modifies this
      ensures Valid() && Contents() == old(Contents()) + items
    {
      for k := 0 to |items|
        invariant Valid() && Contents() == old(Contents()) + items[..k]
      {
        assert items[..k + 1] == items[..k] + [items[k]];
        Push(items[k]);
      }
      assert items[..|items|] == items;
    }
  }

  /**
   * The borrowing iterator `copy_iter` (and the owning `IntoIter`, which
   * walks the same positions): a position that runs from 0 up to `len`.
   */
  class CopyIter {
    const vec: BitVec
    var pos: nat

    constructor (vec: BitVec)
      ensures this.vec == vec && pos == 0
    {
      this.vec := vec;
      pos := 0;
    }

    /** `next`: the bit at `pos` while `pos < len`, then `None`. */
    method Next() returns (r: Option<bool>)
      requires vec.Valid() && pos <= vec.len
      modifies this
      ensures pos <= vec.len
      ensures old(pos) < vec.len ==> r == Some(vec.Contents()[old(pos)]) && pos == old(pos) + 1
      ensures old(pos) == vec.len ==> r == None && pos == old(pos)
    {
      if pos < vec.len {
        r := Some(vec.data[pos]);
        pos := pos + 1;
      } else {
        r := None;
      }
    }

    /** `size_hint`: exact, the number of bits not yet yielded. */
    function SizeHint(): (r: (nat, Option<nat>))
      reads this, vec
      requires pos <= vec.len
      ensures r.0 + pos == vec.len && r.1 == Some(r.0)
    {
      (vec.len - pos, Some(vec.len - pos))
    }
  }

  /**
   * `BitVec::from_iter`: a fresh vector extended by the items, so it holds
   * exactly the items in order.
   */
  method FromIter(items: seq<bool>) returns (v: BitVec)
    ensures fresh(v) && v.Valid() && v.Contents() == items
  {
    v := new BitVec();
    v.Extend(items);
  }

  /** Draining `copy_iter` yields the bits of the vector in order. */
  method CollectCopyIter(v: BitVec) returns (items: seq<bool>)
    requires v.Valid()
    ensures items == v.Contents()
  {
    var it := new CopyIter(v);
    items := [];
    while true
      invariant it.vec == v && it.pos <= v.len && items == v.Contents()[..it.pos]
      decreases v.len - it.pos
    {
      var next := it.Next();
      match next {
        case None =>
          break;
        case Some(b) =>
          items := items + [b];
      }
    }
    assert v.Contents()[..v.len] == v.Contents();
  }
}
