/**
 * Specification vocabulary shared by the bit-level modules: the number of
 * true entries of a bit sequence, its value as a little-endian binary
 * number, powers of two, and one-hot vectors.
 */
module BitSpec {
  import opened Arith

  /** The number of `true` entries of `s`. */
  function Count(s: seq<bool>): nat
  {
    if s == [] then 0 else Count(s[..|s| - 1]) + (if s[|s| - 1] then 1 else 0)
  }

  /** Two to the power `n`. */
  function Pow2(n: nat): (r: nat)
    ensures r >= 1
  {
    if n == 0 then 1 else 2 * Pow2(n - 1)
  }

  /** `b` to the power `n`. */
  function Pow(b: nat, n: nat): nat
  {
    if n == 0 then 1 else Pow(b, n - 1) * b
  }

  /** The value of `s` read as a binary number whose first entry is the least significant bit. */
  function Value(s: seq<bool>): nat
  {
    if s == [] then 0 else Value(s[..|s| - 1]) + (if s[|s| - 1] then Pow2(|s| - 1) else 0)
  }

  /** The vector of length `n` whose only `true` entry is at `i`. */
  function OneHot(n: nat, i: nat): (r: seq<bool>)
    requires i < n
    ensures |r| == n && r[i] && Count(r) == 1
    ensures forall j :: 0 <= j < n && j != i ==> !r[j]
  {
    var r := seq(n, j => j == i);
    CountOneHot(r, i);
    r
  }

  /** The vector of length `n` with every entry equal to `b`. */
  function Constant(n: nat, b: bool): (r: seq<bool>)
    ensures |r| == n && forall j :: 0 <= j < n ==> r[j] == b
  {
    seq(n, _ => b)
  }

  lemma {:induction false} CountBounds(s: seq<bool>)
    ensures Count(s) <= |s|
    ensures Count(s) == 0 <==> forall j :: 0 <= j < |s| ==> !s[j]
    ensures Count(s) == |s| <==> forall j :: 0 <= j < |s| ==> s[j]
  {
    if s != [] {
      var p := s[..|s| - 1];
      CountBounds(p);
      assert forall j :: 0 <= j < |p| ==> p[j] == s[j];
    }
  }

  lemma {:induction false} CountAppend(s: seq<bool>, t: seq<bool>)
    ensures Count(s + t) == Count(s) + Count(t)
  {
    if t != [] {
      var t' := t[..|t| - 1];
      assert (s + t)[..|s + t| - 1] == s + t';
      CountAppend(s, t');
    } else {
      assert s + t == s;
    }
  }

  lemma Count3(a: bool, b: bool, c: bool)
    ensures Count([a, b, c]) == (if a then 1 else 0) + (if b then 1 else 0) + (if c then 1 else 0)
  {
    assert [a][..0] == [];
    assert Count([a]) == (if a then 1 else 0);
    assert [a, b][..1] == [a];
    assert Count([a, b]) == Count([a]) + (if b then 1 else 0);
    assert [a, b, c][..2] == [a, b];
  }

  lemma CountConstant(n: nat, b: bool)
    ensures Count(Constant(n, b)) == if b then n else 0
  {
    CountBounds(Constant(n, b));
  }

  lemma {:induction false} CountOneHot(s: seq<bool>, i: nat)
    requires i < |s| && s[i]
    requires forall j :: 0 <= j < |s| && j != i ==> !s[j]
    ensures Count(s) == 1
  {
    CountAppend(s[..i], s[i..]);
    CountAppend([s[i]], s[i + 1..]);
    assert s == s[..i] + s[i..];
    assert s[i..] == [s[i]] + s[i + 1..];
    assert Count([s[i]]) == Count([]) + 1 by {
      assert [s[i]][..0] == [];
    }
    var a, b := s[..i], s[i + 1..];
    assert forall j :: 0 <= j < |a| ==> !a[j];
    assert forall j :: 0 <= j < |b| ==> !b[j] by {
      forall j | 0 <= j < |b| ensures !b[j] { assert b[j] == s[i + 1 + j]; }
    }
    CountBounds(a);
    CountBounds(b);
  }

  /** Two distinct `true` entries make the count at least two. */
  lemma CountTwo(s: seq<bool>, i: nat, j: nat)
    requires i < |s| && j < |s| && i != j
    ensures s[i] && s[j] ==> Count(s) >= 2
  {
    if s[i] && s[j] {
      var lo, hi := if i < j then i else j, if i < j then j else i;
      var a, b := s[..hi], s[hi..];
      assert s == a + b;
      CountAppend(a, b);
      assert a[lo];
      assert b[0];
      CountBounds(a);
      CountBounds(b);
    }
  }

  /** A vector with exactly one `true` entry has no other `true` entry. */
  lemma CountOneUnique(s: seq<bool>, i: nat)
    requires i < |s| && s[i] && Count(s) == 1
    ensures forall j :: 0 <= j < |s| && j != i ==> !s[j]
  {
    forall j | 0 <= j < |s| && j != i
      ensures !s[j]
    {
      CountTwo(s, i, j);
    }
  }

  lemma {:induction false} ValueBound(s: seq<bool>)
    ensures Value(s) < Pow2(|s|)
  {
    if s != [] {
      ValueBound(s[..|s| - 1]);
    }
  }

  lemma {:induction false} ValueAppend(s: seq<bool>, t: seq<bool>)
    ensures Value(s + t) == Value(s) + Pow2(|s|) * Value(t)
  {
    if t == [] {
      assert s + t == s;
    } else {
      var t' := t[..|t| - 1];
      assert (s + t)[..|s + t| - 1] == s + t';
      ValueAppend(s, t');
      Pow2Add(|s|, |t'|);
      var bit := if t[|t| - 1] then Pow2(|t'|) else 0;
      assert Value(t) == Value(t') + bit;
      calc {
        Value(s + t);
        Value(s + t') + (if t[|t| - 1] then Pow2(|s| + |t'|) else 0);
        Value(s) + Pow2(|s|) * Value(t') + Pow2(|s|) * bit;
        { MulDistrib(Pow2(|s|), Value(t'), bit); }
        Value(s) + Pow2(|s|) * Value(t);
      }
    }
  }

  lemma {:induction false} Pow2Add(a: nat, b: nat)
    ensures Pow2(a + b) == Pow2(a) * Pow2(b)
  {
    if b > 0 {
      Pow2Add(a, b - 1);
    }
  }

  /** Bit `i` of `Value(s)` is `s[i]`. */
  lemma {:induction false} ValueBit(s: seq<bool>, i: nat)
    requires i < |s|
    ensures (Value(s) / Pow2(i)) % 2 == (if s[i] then 1 else 0)
  {
    ValueSplit(s, i);
    ValueBound(s[..i]);
    DivMulAdd(Value(s[..i]), Value(s[i..]), Pow2(i));
    OddPart(Value(s[i..]), if s[i] then 1 else 0, Value(s[i + 1..]));
  }

  /** The bits below `i`, bit `i` and the bits above it. */
  lemma ValueSplit(s: seq<bool>, i: nat)
    requires i < |s|
    ensures Value(s) == Value(s[..i]) + Pow2(i) * Value(s[i..])
    ensures Value(s[i..]) == (if s[i] then 1 else 0) + 2 * Value(s[i + 1..])
  {
    assert s == s[..i] + s[i..];
    ValueAppend(s[..i], s[i..]);
    ValueCons(s[i..]);
    assert s[i..][1..] == s[i + 1..];
  }

  /** The first bit counts 1 and the rest count double. */
  lemma ValueCons(t: seq<bool>)
    requires t != []
    ensures Value(t) == (if t[0] then 1 else 0) + 2 * Value(t[1..])
  {
    var b := [t[0]];
    assert t == b + t[1..];
    ValueAppend(b, t[1..]);
    assert b[..0] == [];
    assert Value(b) == (if t[0] then 1 else 0);
    assert Pow2(1) == 2;
  }

  lemma OddPart(w: nat, b: nat, r: nat)
    requires b <= 1 && w == b + 2 * r
    ensures w % 2 == b
  {
  }
}
