/**
 * The generic vector interface (`GenericVector` of `src/core/genvec.rs`,
 * `GenVec` of `src/genvec/traits.rs`) and its implementations that are not
 * bit vectors. A generic vector of `T` behaves as a sequence of `T`; this
 * module models the default methods that build vectors out of others
 * (`concat`, `split`, `from_elem`), the unit vector `UnitVec` that stores
 * only its length, its iterator `UnitIter`, and the unchecked word access
 * of the bit vector implementation.
 */
module GenericVector {
  import opened Wrappers
  import opened Arith

  // ----- default methods over any element type -----

  /** The concatenation of `parts` in order. */
  function Flatten<T>(parts: seq<seq<T>>): seq<T>
  {
    if parts == [] then [] else Flatten(parts[..|parts| - 1]) + parts[|parts| - 1]
  }

  /** The sum of the lengths of `parts`. */
  function TotalLen<T>(parts: seq<seq<T>>): nat
  {
    if parts == [] then 0 else TotalLen(parts[..|parts| - 1]) + |parts[|parts| - 1]|
  }

  lemma {:induction false} FlattenLen<T>(parts: seq<seq<T>>)
    ensures |Flatten(parts)| == TotalLen(parts)
  {
    if parts != [] {
      FlattenLen(parts[..|parts| - 1]);
    }
  }

  /**
   * `concat`: the parts are extended one after the other into a vector
   * whose capacity is the sum of their lengths.
   */
  method Concat<T>(parts: seq<seq<T>>) returns (result: seq<T>)
    ensures result == Flatten(parts) && |result| == TotalLen(parts)
  {
    result := [];
    for k := 0 to |parts|
      invariant result == Flatten(parts[..k])
    {
      assert parts[..k + 1][..k] == parts[..k];
      result := result + parts[k];
    }
    assert parts[..|parts|] == parts;
    FlattenLen(parts);
  }

  /**
   * `split`: an empty vector gives no parts; otherwise `len` must not be 0
   * and the result is the `count = self.len() / len` consecutive chunks of
   * `len` elements, each filled by pushing from one shared iterator. The
   * remainder is dropped.
   */
  method Split<T>(v: seq<T>, len: nat) returns (result: seq<seq<T>>)
    requires |v| == 0 || len != 0
    ensures |v| == 0 ==> result == []
    ensures |v| > 0 ==> |result| == |v| / len
    ensures forall i :: 0 <= i < |result| ==> result[i] == Chunk(v, i, len)
  {
    if |v| == 0 {
      return [];
    }
    var count := |v| / len;
    DivBounds(|v|, len);
    result := [];
    var pos := 0;
    for i := 0 to count
      invariant |result| == i && pos == i * len
      invariant forall j :: 0 <= j < i ==> result[j] == Chunk(v, j, len)
    {
      MulSucc(i, len);
      MulLe(i + 1, count, len);
      var vec := PushChunk(v, pos, len);
      assert vec == Chunk(v, i, len);
      result := result + [vec];
      pos := pos + len;
    }
  }

  /** The inner loop of `split`: `len` elements pushed from the iterator, which stands at `start`. */
  method PushChunk<T>(v: seq<T>, start: nat, len: nat) returns (vec: seq<T>)
    requires start + len <= |v|
    ensures vec == v[start..start + len]
  {
    vec := [];
    for k := 0 to len
      invariant vec == v[start..start + k]
    {
      vec := vec + [v[start + k]];
    }
  }

  /** The `i`-th chunk of `len` consecutive elements of `v`. */
  function Chunk<T>(v: seq<T>, i: nat, len: nat): (r: seq<T>)
    ensures (i + 1) * len <= |v| ==> |r| == len
  {
    MulSucc(i, len);
    if (i + 1) * len <= |v| then v[i * len..i * len + len] else []
  }

  /** Splitting and concatenating gives back the vector without its remainder. */
  lemma {:induction false} FlattenChunks<T>(v: seq<T>, len: nat, parts: seq<seq<T>>)
    requires forall i :: 0 <= i < |parts| ==> parts[i] == Chunk(v, i, len)
    requires |parts| * len <= |v|
    ensures Flatten(parts) == v[..|parts| * len]
  {
    if parts != [] {
      var n := |parts| - 1;
      MulNat(n, len);
      MulSucc(n, len);
      FlattenChunks(v, len, parts[..n]);
      FlattenChunkStep(v, len, parts, n * len);
    }
  }

  /** The last part of a chunking extends the flattened prefix by one chunk. */
  lemma FlattenChunkStep<T>(v: seq<T>, len: nat, parts: seq<seq<T>>, a: nat)
    requires parts != [] && a == (|parts| - 1) * len && |parts| * len == a + len <= |v|
    requires parts[|parts| - 1] == Chunk(v, |parts| - 1, len)
    requires Flatten(parts[..|parts| - 1]) == v[..a]
    ensures Flatten(parts) == v[..a + len]
  {
    var n := |parts| - 1;
    assert parts[n] == v[a..a + len];
  }

  /** One more part of the prefix appends that part. */
  lemma FlattenPrefixStep<T>(parts: seq<seq<T>>, k: nat)
    requires k < |parts|
    ensures Flatten(parts[..k + 1]) == Flatten(parts[..k]) + parts[k]
  {
    assert parts[..k + 1][..k] == parts[..k];
  }

  /** Concatenating parts of one length `len` and cutting into chunks of `len` gives the parts back. */
  lemma {:induction false} ChunkFlatten<T>(parts: seq<seq<T>>, len: nat)
    requires forall i :: 0 <= i < |parts| ==> |parts[i]| == len
    ensures |Flatten(parts)| == |parts| * len
    ensures forall i :: 0 <= i < |parts| ==> Chunk(Flatten(parts), i, len) == parts[i]
  {
    if parts != [] {
      var n := |parts| - 1;
      var init := parts[..n];
      ChunkFlatten(init, len);
      MulSucc(n, len);
      var f := Flatten(parts);
      assert f == Flatten(init) + parts[n];
      forall i | 0 <= i < |parts|
        ensures Chunk(f, i, len) == parts[i]
      {
        ChunkOfAppend(Flatten(init), parts[n], n, i, len);
      }
    }
  }

  /** Chunks of `g + p`, where `g` holds `n` chunks and `p` is one more. */
  lemma ChunkOfAppend<T>(g: seq<T>, p: seq<T>, n: nat, i: nat, len: nat)
    requires |g| == n * len && |p| == len && i <= n
    ensures i < n ==> Chunk(g + p, i, len) == Chunk(g, i, len)
    ensures i == n ==> Chunk(g + p, i, len) == p
  {
    MulSucc(i, len);
    MulSucc(n, len);
    if i < n {
      MulLe(i + 1, n, len);
      assert (g + p)[i * len..i * len + len] == g[i * len..i * len + len];
    } else {
      assert (g + p)[i * len..i * len + len] == p;
    }
  }

  /** `from_elem`: a vector with one element, made by one push. */
  function FromElem<T>(elem: T): (r: seq<T>)
    ensures |r| == 1 && r[0] == elem
  {
    [] + [elem]
  }

  // ----- the unchecked word access of the bit vector implementation -----

  /** Word `w` of a bit store, as its 32 bits. */
  function Word(storage: seq<bool>, w: nat): (r: seq<bool>)
    requires 32 * w + 32 <= |storage|
    ensures |r| == 32
  {
    storage[32 * w..32 * w + 32]
  }

  /** `gen_get_unchecked`: bit `index % 32` of word `index / 32`; it reads the same bit as `gen_get`. */
  function GetUnchecked(storage: seq<bool>, index: nat): (r: bool)
    requires |storage| % 32 == 0 && index < |storage|
    ensures r == storage[index]
  {
    Word(storage, index / 32)[index % 32]
  }

  /** `gen_set_unchecked`: sets or clears bit `index % 32` of word `index / 32`, which is exactly bit `index`. */
  function SetUnchecked(storage: seq<bool>, index: nat, elem: bool): (r: seq<bool>)
    requires |storage| % 32 == 0 && index < |storage|
    ensures r == storage[index := elem]
  {
    var w := index / 32;
    storage[..32 * w] + Word(storage, w)[index % 32 := elem] + storage[32 * w + 32..]
  }

  // ----- the unit vector -----

  /** A vector of `()` elements: only the length is stored. */
  class UnitVec {
    var len: nat

    /** The elements the vector stands for. */
    function Contents(): (s: seq<()>)
      reads this
      ensures |s| == len
    {
      seq(len, _ => ())
    }

    /** `new` and `with_capacity`. */
    constructor ()
      ensures Contents() == []
    {
      len := 0;
    }

    /** `from_elem`. */
    constructor FromElem()
      ensures Contents() == [()]
    {
      len := 1;
    }

    /** `FromIterator`: the number of items. */
    constructor FromIter(count: nat)
      ensures |Contents()| == count
    {
      len := count;
    }

    /** `clear`. */
    method Clear()
      modifies this
      ensures Contents() == []
    {
      len := 0;
    }

    /** `truncate`: requires `new_len <= len`. */
    method Truncate(new_len: nat)
      requires new_len <= len
      modifies this
      ensures Contents() == old(Contents())[..new_len]
    {
      len := new_len;
    }

    /** `resize`: the length becomes `new_len` in both directions. */
    method Resize(new_len: nat)
      modifies this
      ensures new_len <= old(len) ==> Contents() == old(Contents())[..new_len]
      ensures new_len > old(len) ==> Contents() == old(Contents()) + seq(new_len - old(len), _ => ())
    {
      len := new_len;
    }

    /** `push`. */
    method Push()
      modifies this
      ensures Contents() == old(Contents()) + [()]
    {
      len := len + 1;
    }

    /** `pop`: `None` on an empty vector. */
    method Pop() returns (r: Option<()>)
      modifies this
      ensures old(len) == 0 ==> r == None && len == 0
      ensures old(len) > 0 ==> r == Some(()) && Contents() == old(Contents())[..old(len) - 1]
    {
      if len > 0 {
        len := len - 1;
        r := Some(());
      } else {
        r := None;
      }
    }

    /** `append`: moves all elements of `other`. */
    method Append(other: UnitVec)
      requires other != this
      modifies this, other
      ensures Contents() == old(Contents()) + old(other.Contents())
      ensures other.Contents() == []
    {
      len := len + other.len;
      other.len := 0;
    }

    /** `Extend`: adds the number of items. */
    method Extend(count: nat)
      modifies this
      ensures |Contents()| == old(len) + count
    {
      len := len + count;
    }

    /** `get` and `set` only check the bound. */
    method Get(index: nat)
      requires index < len
    {
    }

    /** `split`: `len / k` vectors of length `k`; none for an empty vector. Each is given by its length. */
    function Split(k: nat): (r: seq<nat>)
      reads this
      requires len == 0 || k != 0
      ensures |r| == (if len == 0 then 0 else len / k)
      ensures forall i :: 0 <= i < |r| ==> r[i] == k
      ensures |r| * k <= len
      ensures len > 0 ==> len - |r| * k < k
    {
      if len == 0 then [] else seq(len / k, _ => k)
    }

    /** `slice`: only `start <= end` is checked, not `end <= len`. */
    function Slice(start: nat, end: nat): (r: nat)
      requires start <= end
      ensures r + start == end
    {
      end - start
    }
  }

  /** The iterator of a unit vector: the number of items left. */
  class UnitIter {
    var pos: nat

    /** `into_iter`. */
    constructor (v: UnitVec)
      ensures pos == v.len
    {
      pos := v.len;
    }

    /** `next` (and `next_back`). */
    method Next() returns (r: Option<()>)
      modifies this
      ensures old(pos) > 0 ==> r == Some(()) && pos == old(pos) - 1
      ensures old(pos) == 0 ==> r == None && pos == 0
    {
      if pos > 0 {
        pos := pos - 1;
        r := Some(());
      } else {
        r := None;
      }
    }

    /** `size_hint`: exact. */
    function SizeHint(): (r: (nat, Option<nat>))
      reads this
      ensures r.0 == pos && r.1 == Some(pos)
    {
      (pos, Some(pos))
    }

    /** `count`. */
    function Count(): (r: nat)
      reads this
      ensures r == pos
    {
      pos
    }

    /** `last`. */
    function Last(): (r: Option<()>)
      reads this
      ensures r.Some? <==> pos > 0
    {
      if pos > 0 then Some(()) else None
    }

    /** `nth(n)`: succeeds iff more than `n` items are left, consuming `n + 1`; otherwise exhausts the iterator. */
    method Nth(n: nat) returns (r: Option<()>)
      modifies this
      ensures old(pos) > n ==> r == Some(()) && pos == old(pos) - (n + 1)
      ensures old(pos) <= n ==> r == None && pos == 0
    {
      if pos > n {
        pos := pos - (n + 1);
        r := Some(());
      } else {
        pos := 0;
        r := None;
      }
    }
  }

  /** Draining the iterator of a unit vector yields exactly `len` items. */
  method DrainUnitIter(v: UnitVec) returns (items: nat)
    ensures items == v.len
  {
    var it := new UnitIter(v);
    items := 0;
    while true
      invariant items + it.pos == v.len
      decreases it.pos
    {
      var next := it.Next();
      if next == None {
        break;
      }
      items := items + 1;
    }
  }
}
