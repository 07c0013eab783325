/**
 * The permutation groups of `src/alg/permutations.rs`. A permutation of a
 * domain of `n` elements is stored as its `n` by `n` relation matrix, row
 * `i` holding a single `true` at the column the permutation sends `i` to;
 * bit `i * n + j` is row `i`, column `j`.
 *
 * Elements are numbered by their Lehmer codes: digit `i` (radix `n - i`,
 * the first digit most significant) says which of the columns not yet
 * used by earlier rows row `i` takes, counting the unused columns from 0.
 * `SymmetricGroup` numbers all `n!` permutations this way;
 * `AlternatingGroup` numbers the even ones, the permutation of number `k`
 * being the one of Lehmer number `2k` or `2k + 1`, whichever has an even
 * digit sum. Digit `i` of the Lehmer code of a permutation counts the
 * later rows whose columns are smaller than that of row `i`, so the digit
 * sum is the number of inversions, and an even sum is an even permutation.
 */
module Permutations {
  import opened Arith
  import opened Wrappers

  // ----- factorials and Lehmer digits -----

  function Fact(n: nat): (r: nat)
    ensures r >= 1
  {
    if n == 0 then 1 else MulMono(Fact(n - 1), n); n * Fact(n - 1)
  }

  /** The factorial is 2 only at 2. */
  lemma FactTwo(m: nat)
    ensures Fact(m) == 2 <==> m == 2
  {
    if m >= 3 {
      assert Fact(2) == 2;
      FactAtLeast(m);
    }
  }

  lemma {:induction false} FactAtLeast(m: nat)
    requires m >= 3
    ensures Fact(m) >= 6
  {
    if m > 3 {
      FactAtLeast(m - 1);
      MulMono(m, Fact(m - 1));
    } else {
      assert Fact(3) == 6;
    }
  }

  /** Factorials from 2 on are even. */
  lemma {:induction false} FactEven(m: nat)
    requires m >= 2
    ensures Fact(m) % 2 == 0
  {
    if m > 2 {
      FactEven(m - 1);
      var h := Fact(m - 1) / 2;
      assert Fact(m - 1) == 2 * h;
      assert Fact(m) == 2 * (m * h);
    }
  }

  /** Digit `i` of the Lehmer number `k` among `n` rows. */
  function Digit(n: nat, k: nat, i: nat): nat
    requires i < n
  {
    DivNat(k % Fact(n - i), Fact(n - 1 - i));
    (k % Fact(n - i)) / Fact(n - 1 - i)
  }

  function LehmerDigits(n: nat, k: nat): (ds: seq<nat>)
    ensures |ds| == n && forall i :: 0 <= i < n ==> ds[i] == Digit(n, k, i)
  {
    seq(n, i requires 0 <= i < n => Digit(n, k, i))
  }

  /** Digit `i` may take `n - i` values. */
  predicate ValidDigits(n: nat, ds: seq<nat>)
  {
    |ds| == n && forall i :: 0 <= i < n ==> ds[i] < n - i
  }

  /** The number of the first `i` digits, read as in `get_index`: multiply by the radix, add the digit. */
  function Rank(ds: seq<nat>, n: nat, i: nat): nat
    requires |ds| == n && i <= n
  {
    if i == 0 then 0 else Rank(ds, n, i - 1) * (n - (i - 1)) + ds[i - 1]
  }

  /** The digits of every number below `n!` are valid. */
  lemma LehmerDigitsValid(n: nat, k: nat)
    ensures ValidDigits(n, LehmerDigits(n, k))
  {
    forall i | 0 <= i < n
      ensures Digit(n, k, i) < n - i
    {
      var g := Fact(n - 1 - i);
      assert Fact(n - i) == (n - i) * g;
      DivBelow(k % Fact(n - i), g, n - i);
    }
  }

  /** Dividing by `d * g` and then by `g` splits a division by `g`. */
  lemma DivSplit(k: nat, d: nat, g: nat)
    requires d > 0 && g > 0
    ensures (k / (d * g)) * d + (k % (d * g)) / g == k / g
    ensures (k % (d * g)) % g == k % g
  {
    var f := d * g;
    MulMono(d, g);
    var q, rem := k / f, k % f;
    var a, c := rem / g, rem % g;
    assert k == q * f + rem;
    assert rem == a * g + c;
    assert q * f == (q * d) * g;
    assert k == (q * d + a) * g + c;
    DivModUnique(k, g, q * d + a, c);
  }

  /** The first `i` digits of `k` read back give `k / (n - i)!`; all of them give `k` back. */
  lemma {:induction false} RankDigits(n: nat, k: nat, i: nat)
    requires k < Fact(n) && i <= n
    ensures Rank(LehmerDigits(n, k), n, i) == k / Fact(n - i)
  {
    var ds := LehmerDigits(n, k);
    if i == 0 {
      DivModUnique(k, Fact(n), 0, k);
    } else {
      RankDigits(n, k, i - 1);
      var l := i - 1;
      var g := Fact(n - 1 - l);
      assert Fact(n - l) == (n - l) * g;
      DivSplit(k, n - l, g);
    }
  }

  /** `k` is the number of its own digits. */
  lemma RankOfLehmer(n: nat, k: nat)
    requires k < Fact(n)
    ensures Rank(LehmerDigits(n, k), n, n) == k
  {
    RankDigits(n, k, n);
  }

  /** Numbers that agree on their first `i` digits agree on their rank so far. */
  lemma {:induction false} RankPrefix(ds: seq<nat>, es: seq<nat>, n: nat, i: nat)
    requires |ds| == n && |es| == n && i <= n && ds[..i] == es[..i]
    ensures Rank(ds, n, i) == Rank(es, n, i)
  {
    if i > 0 {
      assert ds[..i - 1] == es[..i - 1] by {
        assert ds[..i - 1] == ds[..i][..i - 1];
        assert es[..i - 1] == es[..i][..i - 1];
      }
      assert ds[i - 1] == ds[..i][i - 1];
      assert es[i - 1] == es[..i][i - 1];
      RankPrefix(ds, es, n, i - 1);
    }
  }

  // ----- choosing among the unused columns -----

  /** The number of unused columns before column `j`. */
  function Unused(used: seq<bool>, j: nat): nat
    requires j <= |used|
  {
    if j == 0 then 0 else Unused(used, j - 1) + (if used[j - 1] then 0 else 1)
  }

  lemma {:induction false} UnusedMono(used: seq<bool>, a: nat, b: nat)
    requires a <= b <= |used|
    ensures Unused(used, a) <= Unused(used, b) <= Unused(used, a) + (b - a)
    ensures a < b && !used[a] ==> Unused(used, a) < Unused(used, b)
    decreases b - a
  {
    if a < b {
      UnusedMono(used, a, b - 1);
      if !used[a] && a == b - 1 {
        assert Unused(used, b) == Unused(used, a) + 1;
      }
    }
  }

  /** Marking an unused column removes it from the counts past it. */
  lemma {:induction false} UnusedMark(used: seq<bool>, s: nat, j: nat)
    requires s < |used| && !used[s] && j <= |used|
    ensures Unused(used[s := true], j) == Unused(used, j) - (if s < j then 1 else 0)
    ensures s < j ==> Unused(used, j) >= 1
  {
    if j > 0 {
      UnusedMark(used, s, j - 1);
    }
  }

  /** No unused column left: every column is used. */
  lemma {:induction false} NoneUnused(used: seq<bool>, j: nat)
    requires j <= |used| && Unused(used, j) == 0
    ensures forall x :: 0 <= x < j ==> used[x]
  {
    if j > 0 {
      NoneUnused(used, j - 1);
    }
  }

  /**
   * The column of the `r`-th unused column at or after `j`, scanning as
   * the inner loop of `get_elem` does.
   */
  function SelectFrom(used: seq<bool>, r: nat, j: nat): nat
    requires j <= |used|
    decreases |used| - j
  {
    if j == |used| then j
    else if used[j] then SelectFrom(used, r, j + 1)
    else if r == 0 then j
    else SelectFrom(used, r - 1, j + 1)
  }

  /** When there are enough unused columns, the scan stops at an unused one with exactly `r` unused before it. */
  lemma {:induction false} SelectSpec(used: seq<bool>, r: nat, j: nat)
    requires j <= |used| && Unused(used, j) + r < Unused(used, |used|)
    ensures j <= SelectFrom(used, r, j) < |used|
    ensures !used[SelectFrom(used, r, j)] && Unused(used, SelectFrom(used, r, j)) == Unused(used, j) + r
    decreases |used| - j
  {
    if j == |used| {
    } else {
      UnusedMono(used, j + 1, |used|);
      if used[j] {
        SelectSpec(used, r, j + 1);
      } else if r > 0 {
        SelectSpec(used, r - 1, j + 1);
      }
    }
  }

  // ----- the permutation of a digit sequence -----

  /** The columns `used` marks: those in `cols`. */
  function UsedOf(n: nat, cols: seq<nat>): (u: seq<bool>)
    ensures |u| == n && forall j :: 0 <= j < n ==> (u[j] <==> j in cols)
  {
    seq(n, j requires 0 <= j < n => j in cols)
  }

  /** The columns of the first `i` rows: each row takes the unused column its digit names. */
  function Cols(n: nat, ds: seq<nat>, i: nat): (cols: seq<nat>)
    requires i <= |ds|
    ensures |cols| == i
  {
    if i == 0 then [] else
      var c := Cols(n, ds, i - 1);
      c + [SelectFrom(UsedOf(n, c), ds[i - 1], 0)]
  }

  lemma {:induction false} ColsPrefix(n: nat, ds: seq<nat>, i: nat, k: nat)
    requires i <= k <= |ds|
    ensures Cols(n, ds, k)[..i] == Cols(n, ds, i)
    decreases k - i
  {
    if i < k {
      ColsPrefix(n, ds, i, k - 1);
      assert Cols(n, ds, k)[..k - 1] == Cols(n, ds, k - 1);
    }
  }

  /** `cols` lists distinct columns below `n`. */
  predicate Injective(n: nat, cols: seq<nat>)
  {
    (forall a :: 0 <= a < |cols| ==> cols[a] < n) &&
    (forall a, b :: 0 <= a < b < |cols| ==> cols[a] != cols[b])
  }

  /** `cols` sends the rows `0..n` one to one onto the columns `0..n`. */
  predicate IsPermutation(n: nat, cols: seq<nat>)
  {
    |cols| == n && Injective(n, cols) && forall j :: 0 <= j < n ==> j in cols
  }

  /** Valid digits choose distinct columns, and `n - i` columns stay unused after `i` rows. */
  lemma {:induction false} ColsInjective(n: nat, ds: seq<nat>, i: nat)
    requires ValidDigits(n, ds) && i <= n
    ensures Injective(n, Cols(n, ds, i))
    ensures Unused(UsedOf(n, Cols(n, ds, i)), n) == n - i
  {
    if i == 0 {
      ZeroUnused(n);
    } else {
      ColsInjective(n, ds, i - 1);
      var c := Cols(n, ds, i - 1);
      var u := UsedOf(n, c);
      SelectSpec(u, ds[i - 1], 0);
      var s := SelectFrom(u, ds[i - 1], 0);
      assert UsedOf(n, c + [s]) == u[s := true];
      UnusedMark(u, s, n);
    }
  }

  /** With no column used, all `n` are unused. */
  lemma {:induction false} ZeroUnused(n: nat)
    ensures Unused(UsedOf(n, []), n) == n
  {
    var u := UsedOf(n, []);
    var j := 0;
    while j < n
      invariant j <= n && Unused(u, j) == j
    {
      j := j + 1;
    }
  }

  /** The columns of all `n` rows form a permutation. */
  lemma ColsPermutation(n: nat, ds: seq<nat>)
    requires ValidDigits(n, ds)
    ensures IsPermutation(n, Cols(n, ds, n))
  {
    ColsInjective(n, ds, n);
    var u := UsedOf(n, Cols(n, ds, n));
    NoneUnused(u, n);
  }

  // ----- relation matrices -----

  lemma RowIndex(n: nat, i: nat, j: nat)
    requires i < n && j < n
    ensures i * n + j < n * n && (i * n + j) / n == i && (i * n + j) % n == j
  {
    MulLe(i + 1, n, n);
    DivModUnique(i * n + j, n, i, j);
  }

  /** The matrix whose row `i` holds `true` at column `cols[i]` only. */
  function Matrix(n: nat, cols: seq<nat>): (m: seq<bool>)
    ensures |m| == n * n
  {
    seq(n * n, x requires 0 <= x < n * n => x / n < |cols| && cols[x / n] == x % n)
  }

  lemma MatrixAt(n: nat, cols: seq<nat>, i: nat, j: nat)
    requires i < n && j < n
    ensures i * n + j < n * n && (Matrix(n, cols)[i * n + j] <==> i < |cols| && cols[i] == j)
  {
    RowIndex(n, i, j);
  }

  /** Two `n` by `n` matrices agreeing at every row and column are equal. */
  lemma MatrixExt(n: nat, a: seq<bool>, b: seq<bool>)
    requires |a| == n * n && |b| == n * n
    requires forall i, j :: 0 <= i < n && 0 <= j < n ==> At(a, n, i, j) == At(b, n, i, j)
    ensures a == b
  {
    forall x | 0 <= x < n * n
      ensures a[x] == b[x]
    {
      var i, j := x / n, x % n;
      DivBounds(x, n);
      DivBelow(x, n, n);
      assert x == i * n + j;
      assert At(a, n, i, j) == At(b, n, i, j);
    }
  }

  /** Row `i`, column `j` of a matrix. */
  function At(m: seq<bool>, n: nat, i: nat, j: nat): bool
    requires |m| == n * n && i < n && j < n
  {
    RowIndex(n, i, j);
    m[i * n + j]
  }

  /** The permutation matrix of a sequence of digits. */
  function ElemSpec(n: nat, ds: seq<nat>): (m: seq<bool>)
    requires |ds| == n
    ensures |m| == n * n
  {
    Matrix(n, Cols(n, ds, n))
  }

  /** `get_elem` gives a permutation matrix: exactly one `true` in each row and each column. */
  lemma ElemIsPermutation(n: nat, ds: seq<nat>)
    requires ValidDigits(n, ds)
    ensures IsPermutation(n, Cols(n, ds, n))
    ensures forall i, j :: 0 <= i < n && 0 <= j < n ==> (At(ElemSpec(n, ds), n, i, j) <==> Cols(n, ds, n)[i] == j)
  {
    ColsPermutation(n, ds);
    forall i, j | 0 <= i < n && 0 <= j < n
      ensures At(ElemSpec(n, ds), n, i, j) <==> Cols(n, ds, n)[i] == j
    {
      MatrixAt(n, Cols(n, ds, n), i, j);
    }
  }

  function Range(n: nat): (r: seq<nat>)
    ensures |r| == n && forall i :: 0 <= i < n ==> r[i] == i
  {
    seq(n, i => i)
  }

  /** Scanning past used columns `j..i` stops at the first unused `i`. */
  lemma {:induction false} SelectFirstUnused(used: seq<bool>, i: nat, j: nat)
    requires j <= i < |used| && !used[i] && forall x :: j <= x < i ==> used[x]
    ensures SelectFrom(used, 0, j) == i
    decreases i - j
  {
    if j < i {
      SelectFirstUnused(used, i, j + 1);
    }
  }

  /** Number 0 is the identity permutation. */
  lemma {:induction false} ElemZeroIsIdentity(n: nat)
    ensures ElemSpec(n, LehmerDigits(n, 0)) == Matrix(n, Range(n))
  {
    var ds := LehmerDigits(n, 0);
    var i := 0;
    while i < n
      invariant i <= n && Cols(n, ds, i) == Range(i)
    {
      IdentityStep(n, ds, i);
      i := i + 1;
    }
  }

  lemma IdentityStep(n: nat, ds: seq<nat>, i: nat)
    requires |ds| == n && i < n && ds[i] == 0 && Cols(n, ds, i) == Range(i)
    ensures Cols(n, ds, i + 1) == Range(i + 1)
  {
    var u := UsedOf(n, Range(i));
    forall x | 0 <= x < i
      ensures u[x]
    {
      assert Range(i)[x] == x;
    }
    SelectFirstUnused(u, i, 0);
    assert Range(i) + [i] == Range(i + 1);
  }

  // ----- reading a matrix back: `get_index` -----

  /** The first unused column at or after `j` that row `i` marks. */
  function FirstHit(m: seq<bool>, n: nat, i: nat, used: seq<bool>, j: nat): (r: Option<nat>)
    requires |m| == n * n && i < n && |used| == n && j <= n
    ensures r.Some? ==> j <= r.value < n && !used[r.value] && At(m, n, i, r.value)
    decreases n - j
  {
    if j == n then None
    else if !used[j] && At(m, n, i, j) then Some(j)
    else FirstHit(m, n, i, used, j + 1)
  }

  /**
   * The number read from the first `i` rows and the columns they used, or
   * `None` where the bound check of `get_index` fails.
   */
  function IndexState(m: seq<bool>, n: nat, i: nat): (r: Option<(nat, seq<bool>)>)
    requires |m| == n * n && i <= n
    ensures r.Some? ==> |r.value.1| == n
  {
    if i == 0 then Some((0, seq(n, _ => false)))
    else
      var prev := IndexState(m, n, i - 1);
      if prev.None? then None else RowStep(m, n, i - 1, prev.value.0, prev.value.1)
  }

  /** Row `i` of `get_index`: multiply by the radix `n - i`, then add the count of unused columns before the hit. */
  function RowStep(m: seq<bool>, n: nat, i: nat, index: nat, used: seq<bool>): (r: Option<(nat, seq<bool>)>)
    requires |m| == n * n && i < n && |used| == n
    ensures r.Some? ==> |r.value.1| == n
  {
    var hit := FirstHit(m, n, i, used, 0);
    if hit.None? then Some((index * (n - i), used))
    else if Unused(used, hit.value) < n - i then Some((index * (n - i) + Unused(used, hit.value), used[hit.value := true]))
    else None
  }

  /** `get_index`: the Lehmer number of a matrix. */
  function IndexSpec(m: seq<bool>, n: nat): Option<nat>
    requires |m| == n * n
  {
    match IndexState(m, n, n)
    case None => None
    case Some(state) => Some(state.0)
  }

  /** When row `i` marks exactly one unused column `s` from `j` on, the scan finds `s`. */
  lemma {:induction false} FirstHitOnly(m: seq<bool>, n: nat, i: nat, used: seq<bool>, j: nat, s: nat)
    requires |m| == n * n && i < n && |used| == n && j <= s < n
    requires forall x :: j <= x < n ==> (!used[x] && At(m, n, i, x) <==> x == s)
    ensures FirstHit(m, n, i, used, j) == Some(s)
    decreases n - j
  {
    if j < s {
      FirstHitOnly(m, n, i, used, j + 1, s);
    }
  }

  /** Reading the matrix of valid digits back gives, row by row, the rank of the digits and the columns taken. */
  lemma {:induction false} IndexOfDigits(n: nat, ds: seq<nat>, i: nat)
    requires ValidDigits(n, ds) && i <= n
    ensures IndexState(ElemSpec(n, ds), n, i) == Some((Rank(ds, n, i), UsedOf(n, Cols(n, ds, i))))
  {
    if i == 0 {
      assert UsedOf(n, []) == seq(n, _ => false);
    } else {
      IndexOfDigits(n, ds, i - 1);
      RowOfDigits(n, ds, i - 1);
    }
  }

  /** Row `l` of the matrix of valid digits marks one unused column, the one digit `l` selects. */
  lemma RowOfDigits(n: nat, ds: seq<nat>, l: nat)
    requires ValidDigits(n, ds) && l < n
    ensures RowStep(ElemSpec(n, ds), n, l, Rank(ds, n, l), UsedOf(n, Cols(n, ds, l)))
      == Some((Rank(ds, n, l + 1), UsedOf(n, Cols(n, ds, l + 1))))
  {
    var m := ElemSpec(n, ds);
    var c := Cols(n, ds, l);
    var u := UsedOf(n, c);
    ColsInjective(n, ds, l);
    SelectSpec(u, ds[l], 0);
    var s := SelectFrom(u, ds[l], 0);
    RowHit(n, ds, l, s);
    FirstHitOnly(m, n, l, u, 0, s);
    assert UsedOf(n, c + [s]) == u[s := true];
  }

  /** The only unused column that row `l` marks is the one digit `l` selects. */
  lemma RowHit(n: nat, ds: seq<nat>, l: nat, s: nat)
    requires ValidDigits(n, ds) && l < n && |UsedOf(n, Cols(n, ds, l))| == n
    requires s < n && s == SelectFrom(UsedOf(n, Cols(n, ds, l)), ds[l], 0) && !UsedOf(n, Cols(n, ds, l))[s]
    ensures forall x :: 0 <= x < n ==> (!UsedOf(n, Cols(n, ds, l))[x] && At(ElemSpec(n, ds), n, l, x) <==> x == s)
  {
    var u := UsedOf(n, Cols(n, ds, l));
    ColsPrefix(n, ds, l + 1, n);
    var all := Cols(n, ds, n);
    assert all[l] == Cols(n, ds, l + 1)[l] == s;
    assert ElemSpec(n, ds) == Matrix(n, all);
    forall x | 0 <= x < n
      ensures !u[x] && At(ElemSpec(n, ds), n, l, x) <==> x == s
    {
      MatrixAt(n, all, l, x);
    }
  }

  /** `get_index(get_elem(k)) == k` for every digit sequence. */
  lemma IndexOfElem(n: nat, ds: seq<nat>)
    requires ValidDigits(n, ds)
    ensures IndexSpec(ElemSpec(n, ds), n) == Some(Rank(ds, n, n))
  {
    IndexOfDigits(n, ds, n);
  }

  // ----- the symmetric group -----

  /** `size` of `SymmetricGroup`: the product `2 * 3 * ... * n`. */
  method SymmetricSize(n: nat) returns (size: nat)
    ensures size == Fact(n)
  {
    size := 1;
    var i: nat := 1;
    while i < n
      invariant 1 <= i && (i <= n || i == 1) && size == Fact(i)
    {
      size := size * (i + 1);
      i := i + 1;
    }
    assert Fact(1) == Fact(0);
  }

  /** Column `j` with `r` unused columns before it: the inner loop of `get_elem`, counting down `r`. */
  method TakeUnused(used: seq<bool>, r: nat) returns (j: nat)
    requires r < Unused(used, |used|)
    ensures j == SelectFrom(used, r, 0)
    ensures j < |used| && !used[j] && Unused(used, j) == r
  {
    SelectSpec(used, r, 0);
    var rem := r;
    j := 0;
    while true
      invariant j <= |used| && SelectFrom(used, rem, j) == SelectFrom(used, r, 0)
      decreases |used| - j
    {
      if !used[j] {
        if rem == 0 {
          return;
        }
        rem := rem - 1;
      }
      j := j + 1;
    }
  }

  /** After `i` rows: `used` marks the columns taken so far and `result` holds their rows. */
  ghost predicate RowsInv(n: nat, ds: seq<nat>, i: nat, used: seq<bool>, result: seq<bool>)
  {
    |ds| == n && i <= n && used == UsedOf(n, Cols(n, ds, i)) && result == Matrix(n, Cols(n, ds, i))
  }

  /** Placing row `i` at the column its digit selects keeps `RowsInv`. */
  lemma RowsStep(n: nat, ds: seq<nat>, i: nat, used: seq<bool>, result: seq<bool>, j: nat)
    requires ValidDigits(n, ds) && i < n && RowsInv(n, ds, i, used, result)
    requires j == SelectFrom(used, ds[i], 0) && j < n
    ensures i * n + j < |result|
    ensures RowsInv(n, ds, i + 1, used[j := true], result[i * n + j := true])
  {
    var c := Cols(n, ds, i);
    RowIndex(n, i, j);
    assert Cols(n, ds, i + 1) == c + [j];
    assert UsedOf(n, c + [j]) == used[j := true];
    var next := result[i * n + j := true];
    forall a, b | 0 <= a < n && 0 <= b < n
      ensures At(next, n, a, b) == At(Matrix(n, c + [j]), n, a, b)
    {
      MatrixAddRow(n, c, j, a, b);
    }
    MatrixExt(n, next, Matrix(n, c + [j]));
  }

  /** Adding a row at column `j` sets exactly the bit of that row and column. */
  lemma MatrixAddRow(n: nat, c: seq<nat>, j: nat, a: nat, b: nat)
    requires |c| < n && j < n && a < n && b < n
    ensures |c| * n + j < n * n
    ensures At(Matrix(n, c)[|c| * n + j := true], n, a, b) == At(Matrix(n, c + [j]), n, a, b)
  {
    RowIndex(n, |c|, j);
    MatrixAt(n, c, a, b);
    MatrixAt(n, c + [j], a, b);
    RowIndex(n, a, b);
  }

  /** Before row `i`, digit `i` names one of the `n - i` unused columns. */
  lemma RowsRoom(n: nat, ds: seq<nat>, i: nat, used: seq<bool>, result: seq<bool>)
    requires ValidDigits(n, ds) && i < n && RowsInv(n, ds, i, used, result)
    ensures |used| == n && ds[i] < Unused(used, |used|)
  {
    ColsInjective(n, ds, i);
  }

  /** Row `i` of `get_elem`: mark the column `r` names among the unused ones and set its bit. */
  method PlaceRow(n: nat, ghost ds: seq<nat>, i: nat, used: seq<bool>, result: seq<bool>, r: nat)
    returns (used': seq<bool>, result': seq<bool>)
    requires ValidDigits(n, ds) && i < n && RowsInv(n, ds, i, used, result) && r == ds[i]
    ensures RowsInv(n, ds, i + 1, used', result')
  {
    RowsRoom(n, ds, i, used, result);
    var j := TakeUnused(used, r);
    RowsStep(n, ds, i, used, result, j);
    used' := used[j := true];
    result' := result[i * n + j := true];
  }

  /** `get_elem` of `SymmetricGroup`: the permutation matrix of the Lehmer digits of `index`. */
  method GetElem(n: nat, index: nat) returns (result: seq<bool>)
    requires index < Fact(n)
    ensures result == ElemSpec(n, LehmerDigits(n, index))
  {
    ghost var ds := LehmerDigits(n, index);
    LehmerDigitsValid(n, index);
    var used := seq(n, _ => false);
    var stride := SymmetricSize(n);
    var rest := index;
    DivModUnique(index, Fact(n), 0, index);
    result := seq(n * n, _ => false);
    RowsStart(n, ds, used, result);
    for i := 0 to n
      invariant stride == Fact(n - i) && rest == index % Fact(n - i)
      invariant RowsInv(n, ds, i, used, result)
    {
      StrideStep(n, index, i);
      stride := stride / (n - i);
      var r := rest / stride;
      rest := rest % stride;
      used, result := PlaceRow(n, ds, i, used, result, r);
    }
  }

  /** One row of `get_elem`: the stride shrinks to `(n - 1 - i)!`, the quotient is digit `i` and the remainder moves on. */
  lemma StrideStep(n: nat, index: nat, i: nat)
    requires i < n
    ensures Fact(n - i) / (n - i) == Fact(n - 1 - i)
    ensures (index % Fact(n - i)) / Fact(n - 1 - i) == Digit(n, index, i)
    ensures (index % Fact(n - i)) % Fact(n - 1 - i) == index % Fact(n - 1 - i)
  {
    DivMulAdd(0, Fact(n - 1 - i), n - i);
    DivSplit(index, n - i, Fact(n - 1 - i));
  }

  /** A failed bound check stays failed for the remaining rows. */
  lemma {:induction false} IndexStateNone(m: seq<bool>, n: nat, i: nat, k: nat)
    requires |m| == n * n && i <= k <= n && IndexState(m, n, i) == None
    ensures IndexState(m, n, k) == None
    decreases k - i
  {
    if i < k {
      IndexStateNone(m, n, i, k - 1);
    }
  }

  /** `get_index` of `SymmetricGroup`; `None` where its bound check on `r` fails. */
  method GetIndex(n: nat, elem: seq<bool>) returns (result: Option<nat>)
    requires |elem| == n * n
    ensures result == IndexSpec(elem, n)
  {
    var used := seq(n, _ => false);
    var index := 0;
    for i := 0 to n
      invariant IndexState(elem, n, i) == Some((index, used))
    {
      var ok;
      ok, index, used := ScanRow(n, elem, i, index, used);
      if !ok {
        IndexStateNone(elem, n, i + 1, n);
        return None;
      }
    }
    result := Some(index);
  }

  /**
   * One row of `get_index`: scale the number by the radix `n - i`, find the
   * first unused column marked in row `i` and add the count of unused columns
   * before it; `ok` is false where the bound check on that count fails.
   */
  method ScanRow(n: nat, elem: seq<bool>, i: nat, index: nat, used: seq<bool>)
      returns (ok: bool, next: nat, nextUsed: seq<bool>)
    requires |elem| == n * n && i < n && |used| == n
    ensures ok ==> RowStep(elem, n, i, index, used) == Some((next, nextUsed))
    ensures !ok ==> RowStep(elem, n, i, index, used) == None
  {
    MulNat(index, n - i);
    var scaled := index * (n - i);
    var r := 0;
    var j := 0;
    while j < n
      invariant j <= n && r == Unused(used, j)
      invariant FirstHit(elem, n, i, used, 0) == FirstHit(elem, n, i, used, j)
    {
      if !used[j] {
        RowIndex(n, i, j);
        if elem[i * n + j] {
          RowStepHit(elem, n, i, index, used, j, scaled);
          if r >= n - i {
            return false, 0, used;
          }
          return true, scaled + r, used[j := true];
        }
        r := r + 1;
      }
      j := j + 1;
    }
    RowStepMiss(elem, n, i, index, used, scaled);
    return true, scaled, used;
  }

  /** When the scan of row `i` hits column `j`, the row's step is decided by the count of unused columns before `j`. */
  lemma RowStepHit(m: seq<bool>, n: nat, i: nat, index: nat, used: seq<bool>, j: nat, scaled: nat)
    requires |m| == n * n && i < n && |used| == n && j < n && scaled == index * (n - i)
    requires FirstHit(m, n, i, used, 0) == FirstHit(m, n, i, used, j) && !used[j] && At(m, n, i, j)
    ensures Unused(used, j) < n - i ==> RowStep(m, n, i, index, used) == Some((scaled + Unused(used, j), used[j := true]))
    ensures Unused(used, j) >= n - i ==> RowStep(m, n, i, index, used) == None
  {
    assert FirstHit(m, n, i, used, 0) == Some(j);
  }

  /** When row `i` marks no unused column, its step only scales the number. */
  lemma RowStepMiss(m: seq<bool>, n: nat, i: nat, index: nat, used: seq<bool>, scaled: nat)
    requires |m| == n * n && i < n && |used| == n && scaled == index * (n - i)
    requires FirstHit(m, n, i, used, 0) == FirstHit(m, n, i, used, n)
    ensures RowStep(m, n, i, index, used) == Some((scaled, used))
  {
  }

  /** `get_index(get_elem(k)) == k` for every `k` below `n!`, and the element is a permutation matrix. */
  lemma SymmetricRoundTrip(n: nat, k: nat)
    requires k < Fact(n)
    ensures IsPermutation(n, Cols(n, LehmerDigits(n, k), n))
    ensures IndexSpec(ElemSpec(n, LehmerDigits(n, k)), n) == Some(k)
  {
    LehmerDigitsValid(n, k);
    ColsPermutation(n, LehmerDigits(n, k));
    IndexOfElem(n, LehmerDigits(n, k));
    RankOfLehmer(n, k);
  }

  // ----- Lehmer codes of permutations -----

  /** The number of entries of `s` below `c`. */
  function Below(s: seq<nat>, c: nat): (r: nat)
    ensures r <= |s|
  {
    if s == [] then 0 else Below(s[..|s| - 1], c) + (if s[|s| - 1] < c then 1 else 0)
  }

  /** The number of entries of `s` equal to `v`. */
  function Occurrences(s: seq<nat>, v: nat): nat
  {
    if s == [] then 0 else Occurrences(s[..|s| - 1], v) + (if s[|s| - 1] == v then 1 else 0)
  }

  lemma {:induction false} BelowZero(s: seq<nat>)
    ensures Below(s, 0) == 0
  {
    if s != [] {
      BelowZero(s[..|s| - 1]);
    }
  }

  lemma {:induction false} BelowAppend(a: seq<nat>, b: seq<nat>, c: nat)
    ensures Below(a + b, c) == Below(a, c) + Below(b, c)
    decreases |b|
  {
    if b == [] {
      assert a + b == a;
    } else {
      var b' := b[..|b| - 1];
      assert (a + b)[..|a + b| - 1] == a + b';
      BelowAppend(a, b', c);
    }
  }

  /** Raising the bound by one adds the entries equal to the old bound. */
  lemma {:induction false} BelowNext(s: seq<nat>, c: nat)
    ensures Below(s, c + 1) == Below(s, c) + Occurrences(s, c)
  {
    if s != [] {
      BelowNext(s[..|s| - 1], c);
    }
  }

  /** Distinct entries occur once each. */
  lemma {:induction false} OccurrencesInjective(n: nat, s: seq<nat>, v: nat)
    requires Injective(n, s)
    ensures Occurrences(s, v) == if v in s then 1 else 0
  {
    if s != [] {
      var s', last := s[..|s| - 1], s[|s| - 1];
      OccurrencesInjective(n, s', v);
      assert s == s' + [last];
      forall a | 0 <= a < |s'|
        ensures s'[a] != last
      {
        assert s'[a] == s[a];
      }
    }
  }

  /** Every column below `j` is either unused or one of the distinct columns `pre`. */
  lemma {:induction false} UnusedBelow(n: nat, pre: seq<nat>, j: nat)
    requires Injective(n, pre) && j <= n
    ensures Unused(UsedOf(n, pre), j) + Below(pre, j) == j
  {
    if j == 0 {
      BelowZero(pre);
    } else {
      UnusedBelow(n, pre, j - 1);
      BelowNext(pre, j - 1);
      OccurrencesInjective(n, pre, j - 1);
    }
  }

  /** When every column below `j` is used, none is unused. */
  lemma {:induction false} AllUsed(used: seq<bool>, j: nat)
    requires j <= |used| && forall x :: 0 <= x < j ==> used[x]
    ensures Unused(used, j) == 0
  {
    if j > 0 {
      AllUsed(used, j - 1);
    }
  }

  /**
   * In a permutation, the columns left unused by the rows above row `i`
   * and smaller than its column are the columns of later rows that are
   * smaller than it.
   */
  lemma LaterSmaller(n: nat, cols: seq<nat>, i: nat)
    requires IsPermutation(n, cols) && i < n
    ensures Unused(UsedOf(n, cols[..i]), cols[i]) == Below(cols[i + 1..], cols[i])
  {
    assert Injective(n, cols[..i]);
    UnusedBelow(n, cols[..i], cols[i]);
    PermutationBelow(n, cols, cols[i]);
    BelowAround(cols, i);
  }

  /** A permutation has exactly `c` entries below `c`. */
  lemma PermutationBelow(n: nat, cols: seq<nat>, c: nat)
    requires IsPermutation(n, cols) && c <= n
    ensures Below(cols, c) == c
  {
    UnusedBelow(n, cols, c);
    AllUsed(UsedOf(n, cols), c);
  }

  /** The entries below `s[i]` lie before or after position `i`. */
  lemma BelowAround(s: seq<nat>, i: nat)
    requires i < |s|
    ensures Below(s, s[i]) == Below(s[..i], s[i]) + Below(s[i + 1..], s[i])
  {
    var c := s[i];
    assert s == s[..i] + ([c] + s[i + 1..]);
    BelowAppend(s[..i], [c] + s[i + 1..], c);
    BelowAppend([c], s[i + 1..], c);
    assert [c][..0] == [];
  }

  /** The scan from `j` stops at the unused column `s` that has `r` unused columns between `j` and it. */
  lemma {:induction false} SelectAt(used: seq<bool>, r: nat, j: nat, s: nat)
    requires j <= s < |used| && !used[s] && Unused(used, s) == Unused(used, j) + r
    ensures SelectFrom(used, r, j) == s
    decreases s - j
  {
    if j < s {
      UnusedMono(used, j + 1, s);
      if used[j] {
        SelectAt(used, r, j + 1, s);
      } else {
        SelectAt(used, r - 1, j + 1, s);
      }
    }
  }

  /** Digit `i` of valid digits counts the later rows whose columns are smaller than the column of row `i`. */
  lemma DigitCountsLater(n: nat, ds: seq<nat>, i: nat)
    requires ValidDigits(n, ds) && i < n
    ensures ds[i] == Below(Cols(n, ds, n)[i + 1..], Cols(n, ds, n)[i])
  {
    var cols := Cols(n, ds, n);
    ColsPermutation(n, ds);
    ColsPrefix(n, ds, i, n);
    ColsPrefix(n, ds, i + 1, n);
    ColsInjective(n, ds, i);
    var u := UsedOf(n, Cols(n, ds, i));
    SelectSpec(u, ds[i], 0);
    assert cols[i] == cols[..i + 1][i] == SelectFrom(u, ds[i], 0);
    LaterSmaller(n, cols, i);
  }

  /** The Lehmer code of a permutation: digit `i` counts the later rows with a smaller column. */
  function LehmerCode(cols: seq<nat>): (ds: seq<nat>)
    ensures |ds| == |cols|
  {
    seq(|cols|, i requires 0 <= i < |cols| => Below(cols[i + 1..], cols[i]))
  }

  /** The Lehmer code of a permutation is valid, places the columns of the permutation back and sums to its inversions. */
  lemma LehmerCodeSpec(n: nat, cols: seq<nat>)
    requires IsPermutation(n, cols)
    ensures ValidDigits(n, LehmerCode(cols))
    ensures Cols(n, LehmerCode(cols), n) == cols
    ensures DigitSum(LehmerCode(cols), n) == Inversions(cols, n)
  {
    var ds := LehmerCode(cols);
    var i := 0;
    while i < n
      invariant i <= n && Cols(n, ds, i) == cols[..i]
    {
      LehmerCodeStep(n, cols, i);
      i := i + 1;
    }
    assert cols[..n] == cols;
    DigitSumIsInversions(n, ds, n);
  }

  lemma LehmerCodeStep(n: nat, cols: seq<nat>, i: nat)
    requires IsPermutation(n, cols) && i < n && Cols(n, LehmerCode(cols), i) == cols[..i]
    ensures Cols(n, LehmerCode(cols), i + 1) == cols[..i + 1]
  {
    var ds, pre, c := LehmerCode(cols), cols[..i], cols[i];
    var u := UsedOf(n, pre);
    assert !u[c] by {
      forall a | 0 <= a < i
        ensures pre[a] != c
      {
      }
    }
    assert ds[i] == Below(cols[i + 1..], c);
    LaterSmaller(n, cols, i);
    SelectAt(u, ds[i], 0, c);
    assert Cols(n, ds, i + 1) == pre + [SelectFrom(u, ds[i], 0)];
    assert cols[..i + 1] == pre + [c];
  }

  /** Valid digits of the same rank so far agree so far. */
  lemma {:induction false} RankInjective(ds: seq<nat>, es: seq<nat>, n: nat, i: nat)
    requires ValidDigits(n, ds) && ValidDigits(n, es) && i <= n && Rank(ds, n, i) == Rank(es, n, i)
    ensures ds[..i] == es[..i]
  {
    if i > 0 {
      var l := i - 1;
      DivModUnique(Rank(ds, n, i), n - l, Rank(ds, n, l), ds[l]);
      DivModUnique(Rank(es, n, i), n - l, Rank(es, n, l), es[l]);
      RankInjective(ds, es, n, l);
      assert ds[..i] == ds[..l] + [ds[l]];
      assert es[..i] == es[..l] + [es[l]];
    }
  }

  /** The first `i` valid digits rank below `n! / (n - i)!`; all `n` of them below `n!`. */
  lemma {:induction false} RankBound(ds: seq<nat>, n: nat, i: nat)
    requires ValidDigits(n, ds) && i <= n
    ensures (Rank(ds, n, i) + 1) * Fact(n - i) <= Fact(n)
  {
    if i > 0 {
      var l := i - 1;
      RankBound(ds, n, l);
      assert Fact(n - l) == (n - l) * Fact(n - i);
      NextDigitBound(Rank(ds, n, l), ds[l], n - l, Fact(n - i));
    }
  }

  /** One more digit below the radix `r` keeps the rank within the next block of `r * g`. */
  lemma NextDigitBound(q: nat, d: nat, r: nat, g: nat)
    requires d < r
    ensures (q * r + d + 1) * g <= (q + 1) * (r * g)
  {
    MulSucc(q, r);
    MulLe(q * r + d + 1, (q + 1) * r, g);
    assert ((q + 1) * r) * g == (q + 1) * (r * g);
  }

  /**
   * Every permutation matrix is `get_elem` of the number `get_index` reads
   * from it, and that number is below `n!`: with `SymmetricRoundTrip`,
   * `get_elem` and `get_index` are inverse bijections.
   */
  lemma SymmetricElemOfIndex(n: nat, cols: seq<nat>)
    requires IsPermutation(n, cols)
    ensures IndexSpec(Matrix(n, cols), n).Some?
    ensures IndexSpec(Matrix(n, cols), n).value < Fact(n)
    ensures ElemSpec(n, LehmerDigits(n, IndexSpec(Matrix(n, cols), n).value)) == Matrix(n, cols)
  {
    var ds := LehmerCode(cols);
    LehmerCodeSpec(n, cols);
    IndexOfElem(n, ds);
    var k := Rank(ds, n, n);
    RankBound(ds, n, n);
    RankOfLehmer(n, k);
    LehmerDigitsValid(n, k);
    RankInjective(LehmerDigits(n, k), ds, n, n);
    assert LehmerDigits(n, k) == LehmerDigits(n, k)[..n] == ds[..n] == ds;
  }

  // ----- the alternating group -----

  /** `size` of `AlternatingGroup`: the product `3 * 4 * ... * n`, half of `n!` from `n = 2` on. */
  method AlternatingSize(n: nat) returns (size: nat)
    ensures n < 2 ==> size == 1
    ensures n >= 2 ==> 2 * size == Fact(n)
  {
    size := 1;
    var i: nat := 2;
    assert Fact(2) == 2;
    while i < n
      invariant 2 <= i && (i <= n || i == 2) && 2 * size == Fact(i)
    {
      size := size * (i + 1);
      i := i + 1;
    }
  }

  /** The sum of the first `i` digits. */
  function DigitSum(ds: seq<nat>, i: nat): nat
    requires i <= |ds|
  {
    if i == 0 then 0 else DigitSum(ds, i - 1) + ds[i - 1]
  }

  lemma {:induction false} DigitSumPrefix(ds: seq<nat>, es: seq<nat>, i: nat)
    requires i <= |ds| && i <= |es| && ds[..i] == es[..i]
    ensures DigitSum(ds, i) == DigitSum(es, i)
  {
    if i > 0 {
      assert ds[..i - 1] == ds[..i][..i - 1];
      assert es[..i - 1] == es[..i][..i - 1];
      assert ds[i - 1] == ds[..i][i - 1];
      assert es[i - 1] == es[..i][i - 1];
      DigitSumPrefix(ds, es, i - 1);
    }
  }

  /** 1 when the first `n - 2` Lehmer digits of `2k` have an odd sum. */
  function ParityBit(n: nat, k: nat): nat
  {
    if n >= 2 && DigitSum(LehmerDigits(n, 2 * k), n - 2) % 2 == 1 then 1 else 0
  }

  /** The digits `get_elem` of `AlternatingGroup` uses: those of `2k`, with the parity bit in the second-to-last place. */
  function AltDigits(n: nat, k: nat): (ds: seq<nat>)
    ensures |ds| == n
  {
    seq(n, i requires 0 <= i < n =>
      if i + 2 < n then Digit(n, 2 * k, i) else if i + 2 == n then ParityBit(n, k) else 0)
  }

  /** The alternating digits are valid, number `2k` plus the parity bit, and have an even sum. */
  lemma AltDigitsSpec(n: nat, k: nat)
    requires 2 * k < Fact(n)
    ensures ValidDigits(n, AltDigits(n, k))
    ensures Rank(AltDigits(n, k), n, n) == 2 * k + ParityBit(n, k) < Fact(n)
    ensures DigitSum(AltDigits(n, k), n) % 2 == 0
  {
    AltDigitsValid(n, k);
    AltBelowFact(n, k);
    if n >= 2 {
      AltDigitsRank(n, k);
      AltDigitsEven(n, k);
    } else {
      AltDigitsSmall(n, k);
    }
  }

  lemma AltBelowFact(n: nat, k: nat)
    requires 2 * k < Fact(n)
    ensures 2 * k + ParityBit(n, k) < Fact(n)
  {
    var b := ParityBit(n, k);
    assert b <= 1;
    if n >= 2 {
      FactEven(n);
      EvenGap(2 * k, Fact(n));
    }
  }

  lemma EvenGap(a: nat, f: nat)
    requires a % 2 == 0 && f % 2 == 0 && a < f
    ensures a + 1 < f
  {
  }

  lemma AltDigitsSmall(n: nat, k: nat)
    requires n < 2 && 2 * k < Fact(n)
    ensures Rank(AltDigits(n, k), n, n) == 2 * k + ParityBit(n, k)
    ensures DigitSum(AltDigits(n, k), n) % 2 == 0
  {
    assert Fact(n) == 1 by {
      assert Fact(1) == Fact(0);
    }
    if n == 1 {
      var ds := AltDigits(n, k);
      assert ds[0] == 0;
      assert Rank(ds, 1, 1) == 0;
      assert DigitSum(ds, 1) == 0;
    }
  }

  lemma AltDigitsValid(n: nat, k: nat)
    ensures ValidDigits(n, AltDigits(n, k))
  {
    LehmerDigitsValid(n, 2 * k);
    var ds := AltDigits(n, k);
    forall i | 0 <= i < n
      ensures ds[i] < n - i
    {
      if i + 2 < n {
        assert ds[i] == LehmerDigits(n, 2 * k)[i];
      } else if i + 2 == n {
        assert ds[i] == ParityBit(n, k) <= 1;
      } else {
        assert ds[i] == 0;
      }
    }
  }

  /** The alternating digits agree with those of `2k` before the last two rows. */
  lemma AltDigitsPrefix(n: nat, k: nat)
    requires n >= 2
    ensures AltDigits(n, k)[..n - 2] == LehmerDigits(n, 2 * k)[..n - 2]
    ensures AltDigits(n, k)[n - 2] == ParityBit(n, k) && AltDigits(n, k)[n - 1] == 0
  {
  }

  lemma AltDigitsRank(n: nat, k: nat)
    requires n >= 2 && 2 * k < Fact(n)
    ensures Rank(AltDigits(n, k), n, n) == 2 * k + ParityBit(n, k)
  {
    var ds, ls := AltDigits(n, k), LehmerDigits(n, 2 * k);
    var m := n - 2;
    AltDigitsPrefix(n, k);
    RankPrefix(ds, ls, n, m);
    RankDigits(n, 2 * k, m);
    assert Fact(n - m) == Fact(2) == 2;
    assert Rank(ds, n, m) == (2 * k) / 2 == k;
    RankLastTwo(ds, n);
  }

  /** The last two digits weigh `2` and `1`. */
  lemma RankLastTwo(ds: seq<nat>, n: nat)
    requires n >= 2 && |ds| == n
    ensures Rank(ds, n, n) == 2 * Rank(ds, n, n - 2) + ds[n - 2] + ds[n - 1]
  {
    assert Rank(ds, n, n - 1) == Rank(ds, n, n - 2) * 2 + ds[n - 2];
    assert Rank(ds, n, n) == Rank(ds, n, n - 1) * 1 + ds[n - 1];
  }

  lemma AltDigitsEven(n: nat, k: nat)
    requires n >= 2
    ensures DigitSum(AltDigits(n, k), n) % 2 == 0
  {
    var ds, ls := AltDigits(n, k), LehmerDigits(n, 2 * k);
    AltDigitsPrefix(n, k);
    DigitSumPrefix(ds, ls, n - 2);
    var s := DigitSum(ds, n - 2);
    assert DigitSum(ds, n) == s + ParityBit(n, k) + 0;
  }

  /** One row of the alternating `get_elem`: the bump, the digit read and the remainder left. */
  lemma AltStep(n: nat, k: nat, i: nat, index: nat, parity: bool, bumped: nat)
    requires 2 * k < Fact(n) && i < n
    requires index == AltRest(n, k, i)
    requires parity == (DigitSum(AltDigits(n, k), i) % 2 == 1)
    requires bumped == if Fact(n - i) == 2 && parity then index + 1 else index
    ensures Fact(n - i) / (n - i) == Fact(n - 1 - i)
    ensures bumped / Fact(n - 1 - i) == AltDigits(n, k)[i]
    ensures bumped % Fact(n - 1 - i) == AltRest(n, k, i + 1)
  {
    DivMulAdd(0, Fact(n - 1 - i), n - i);
    FactTwo(n - i);
    if i + 2 < n {
      AltStepEarly(n, k, i);
    } else if i + 2 == n {
      AltStepBump(n, k, parity, bumped);
    } else {
      assert Fact(1) == 1 && Fact(0) == 1;
    }
  }

  lemma AltStepEarly(n: nat, k: nat, i: nat)
    requires i + 2 < n
    ensures ((2 * k) % Fact(n - i)) / Fact(n - 1 - i) == AltDigits(n, k)[i]
    ensures ((2 * k) % Fact(n - i)) % Fact(n - 1 - i) == AltRest(n, k, i + 1)
  {
    StrideStep(n, 2 * k, i);
    assert AltDigits(n, k)[i] == Digit(n, 2 * k, i);
  }

  lemma AltStepBump(n: nat, k: nat, parity: bool, bumped: nat)
    requires n >= 2
    requires parity == (DigitSum(AltDigits(n, k), n - 2) % 2 == 1)
    requires bumped == if parity then (2 * k) % 2 + 1 else (2 * k) % 2
    ensures bumped / 1 == AltDigits(n, k)[n - 2] && bumped % 1 == 0
  {
    AltDigitsPrefix(n, k);
    DigitSumPrefix(AltDigits(n, k), LehmerDigits(n, 2 * k), n - 2);
  }

  /** `get_elem` of `AlternatingGroup`: the Lehmer digits of `2k`, bumped to `2k + 1` when needed for an even digit sum. */
  method AlternatingGetElem(n: nat, k: nat) returns (result: seq<bool>)
    requires 2 * k < Fact(n)
    ensures result == ElemSpec(n, AltDigits(n, k))
  {
    ghost var ds := AltDigits(n, k);
    AltDigitsValid(n, k);
    var used := seq(n, _ => false);
    var size := AlternatingSize(n);
    var stride: nat := if n < 2 then 1 else 2 * size;
    var index: nat := 2 * k;
    var parity := false;
    AltStart(n, k, size, stride);
    result := seq(n * n, _ => false);
    RowsStart(n, ds, used, result);
    for i := 0 to n
      invariant AltInv(n, k, i, stride, index, parity)
      invariant RowsInv(n, ds, i, used, result)
    {
      stride, index, parity, used, result := AltRow(n, k, ds, i, stride, index, parity, used, result);
    }
  }

  lemma RowsStart(n: nat, ds: seq<nat>, used: seq<bool>, result: seq<bool>)
    requires |ds| == n && used == seq(n, _ => false) && result == seq(n * n, _ => false)
    ensures RowsInv(n, ds, 0, used, result)
  {
    assert used == UsedOf(n, []) && result == Matrix(n, []);
  }

  /** The loop state of the alternating `get_elem` before row `i`. */
  ghost predicate AltInv(n: nat, k: nat, i: nat, stride: nat, index: nat, parity: bool)
    requires i <= n
  {
    stride == Fact(n - i) && index == AltRest(n, k, i) && parity == (DigitSum(AltDigits(n, k), i) % 2 == 1)
  }

  lemma AltStart(n: nat, k: nat, size: nat, stride: nat)
    requires 2 * k < Fact(n)
    requires n < 2 ==> size == 1
    requires n >= 2 ==> 2 * size == Fact(n)
    requires stride == if n < 2 then 1 else 2 * size
    ensures AltInv(n, k, 0, stride, 2 * k, false)
  {
    if n < 2 {
      assert Fact(n) == 1 by { assert Fact(1) == Fact(0); }
    } else {
      DivModUnique(2 * k, Fact(n), 0, 2 * k);
    }
  }

  /** One row of the alternating `get_elem`: bump the index on the last two rows when the parity is odd, then place the digit. */
  method AltRow(n: nat, k: nat, ghost ds: seq<nat>, i: nat, stride: nat, index: nat, parity: bool,
                used: seq<bool>, result: seq<bool>)
    returns (stride': nat, index': nat, parity': bool, used': seq<bool>, result': seq<bool>)
    requires 2 * k < Fact(n) && i < n && ds == AltDigits(n, k) && ValidDigits(n, ds)
    requires AltInv(n, k, i, stride, index, parity) && RowsInv(n, ds, i, used, result)
    ensures AltInv(n, k, i + 1, stride', index', parity') && RowsInv(n, ds, i + 1, used', result')
  {
    ghost var bumped := if Fact(n - i) == 2 && parity then index + 1 else index;
    AltStep(n, k, i, index, parity, bumped);
    index' := index;
    if stride == 2 && parity {
      index' := index + 1;
    }
    assert index' == bumped;
    stride' := stride / (n - i);
    assert stride' == Fact(n - 1 - i);
    var r := index' / stride';
    assert r == ds[i];
    index' := index' % stride';
    ParityAdd(DigitSum(ds, i), r);
    parity' := parity != (r % 2 != 0);
    used', result' := PlaceRow(n, ds, i, used, result, r);
  }

  /** The index left before row `i` of the alternating `get_elem`. */
  function AltRest(n: nat, k: nat, i: nat): nat
    requires i <= n
  {
    if i + 2 <= n then (2 * k) % Fact(n - i) else 0
  }

  lemma ParityAdd(a: nat, r: nat)
    ensures ((a + r) % 2 == 1) == ((a % 2 == 1) != (r % 2 != 0))
  {
  }

  /** `get_index` of `AlternatingGroup`: half the Lehmer number (the row loop is the same as in `SymmetricGroup`). */
  method AlternatingGetIndex(n: nat, elem: seq<bool>) returns (result: Option<nat>)
    requires |elem| == n * n
    ensures IndexSpec(elem, n).None? ==> result.None?
    ensures IndexSpec(elem, n).Some? ==> result == Some(IndexSpec(elem, n).value / 2)
  {
    var lehmer := GetIndex(n, elem);
    if lehmer.None? {
      return None;
    }
    result := Some(lehmer.value / 2);
  }

  /** For the alternating group, `get_index(get_elem(k)) == k`, and the element is an even permutation. */
  lemma AlternatingRoundTrip(n: nat, k: nat)
    requires 2 * k < Fact(n)
    ensures IsPermutation(n, Cols(n, AltDigits(n, k), n))
    ensures Inversions(Cols(n, AltDigits(n, k), n), n) % 2 == 0
    ensures IndexSpec(ElemSpec(n, AltDigits(n, k)), n) == Some(2 * k + ParityBit(n, k))
    ensures (2 * k + ParityBit(n, k)) / 2 == k
  {
    AltDigitsSpec(n, k);
    ColsPermutation(n, AltDigits(n, k));
    DigitSumIsInversions(n, AltDigits(n, k), n);
    IndexOfElem(n, AltDigits(n, k));
  }

  /**
   * The inversions of `cols` whose upper row is among the first `i`: the
   * pairs of rows `r < s` with `r < i` and `cols[r] > cols[s]`, counted row
   * by row. A permutation is even when all `n` rows give an even count.
   */
  function Inversions(cols: seq<nat>, i: nat): nat
    requires i <= |cols|
  {
    if i == 0 then 0 else Inversions(cols, i - 1) + Below(cols[i..], cols[i - 1])
  }

  /** The digit sum of valid digits is the number of inversions of their permutation. */
  lemma {:induction false} DigitSumIsInversions(n: nat, ds: seq<nat>, i: nat)
    requires ValidDigits(n, ds) && i <= n
    ensures DigitSum(ds, i) == Inversions(Cols(n, ds, n), i)
  {
    if i > 0 {
      DigitSumIsInversions(n, ds, i - 1);
      DigitCountsLater(n, ds, i - 1);
    }
  }

  /**
   * Every even permutation matrix is the alternating `get_elem` of the
   * number the alternating `get_index` reads from it, and that number is
   * below `n!/2`.
   */
  lemma AlternatingElemOfIndex(n: nat, cols: seq<nat>)
    requires IsPermutation(n, cols) && Inversions(cols, n) % 2 == 0
    ensures IndexSpec(Matrix(n, cols), n).Some?
    ensures 2 * (IndexSpec(Matrix(n, cols), n).value / 2) < Fact(n)
    ensures ElemSpec(n, AltDigits(n, IndexSpec(Matrix(n, cols), n).value / 2)) == Matrix(n, cols)
  {
    var ds := LehmerCode(cols);
    LehmerCodeSpec(n, cols);
    IndexOfElem(n, ds);
    AltOfEven(n, ds);
  }

  /** Valid digits with an even sum are the alternating digits of half their rank. */
  lemma AltOfEven(n: nat, ds: seq<nat>)
    requires ValidDigits(n, ds) && DigitSum(ds, n) % 2 == 0
    ensures 2 * (Rank(ds, n, n) / 2) < Fact(n)
    ensures AltDigits(n, Rank(ds, n, n) / 2) == ds
  {
    RankBound(ds, n, n);
    var k := Rank(ds, n, n) / 2;
    if n < 2 {
      assert Fact(n) == 1 by { assert Fact(1) == Fact(0); }
      assert k == 0;
      if n == 1 {
        assert AltDigits(n, k)[0] == 0 == ds[0];
      }
    } else {
      AltOfEvenLong(n, ds);
    }
  }

  lemma AltOfEvenLong(n: nat, ds: seq<nat>)
    requires n >= 2 && ValidDigits(n, ds) && DigitSum(ds, n) % 2 == 0 && Rank(ds, n, n) < Fact(n)
    ensures AltDigits(n, Rank(ds, n, n) / 2) == ds
  {
    var m := n - 2;
    HalfRank(n, ds);
    var k := Rank(ds, n, m);
    LehmerOfHalf(n, ds);
    var ls := LehmerDigits(n, 2 * k);
    DigitSumPrefix(ls, ds, m);
    assert DigitSum(ds, n) == DigitSum(ds, m) + ds[m] + ds[n - 1];
    AltDigitsPrefix(n, k);
    var alt := AltDigits(n, k);
    forall i | 0 <= i < n
      ensures alt[i] == ds[i]
    {
      if i < m {
        assert alt[i] == alt[..m][i] == ls[..m][i];
      }
    }
  }

  /** Half the rank of valid digits is the rank of all but the last two; the last digit is 0. */
  lemma HalfRank(n: nat, ds: seq<nat>)
    requires n >= 2 && ValidDigits(n, ds)
    ensures ds[n - 1] == 0 && Rank(ds, n, n) / 2 == Rank(ds, n, n - 2)
  {
    var m := n - 2;
    var q := Rank(ds, n, m);
    assert Rank(ds, n, n) == (q * 2 + ds[m]) * 1 + ds[n - 1];
    DivModUnique(Rank(ds, n, n), 2, q, ds[m]);
  }

  /** The digits of twice the rank of all but the last two digits agree with `ds` before the last two rows. */
  lemma LehmerOfHalf(n: nat, ds: seq<nat>)
    requires n >= 2 && ValidDigits(n, ds) && 2 * Rank(ds, n, n - 2) < Fact(n)
    ensures LehmerDigits(n, 2 * Rank(ds, n, n - 2))[..n - 2] == ds[..n - 2]
  {
    var m := n - 2;
    var q := Rank(ds, n, m);
    var es := ds[m := 0];
    assert es[..m] == ds[..m];
    RankPrefix(es, ds, n, m);
    assert Rank(es, n, n) == (q * 2 + 0) * 1 + es[n - 1];
    LehmerDigitsValid(n, 2 * q);
    RankOfLehmer(n, 2 * q);
    var ls := LehmerDigits(n, 2 * q);
    RankInjective(ls, es, n, n);
    assert ls[..m] == ls[..n][..m];
    assert es[..m] == es[..n][..m];
  }

  // ----- inverse: the converse relation -----

  /** The row and column of bit `x`. */
  function Cell(n: nat, x: nat): (p: (nat, nat))
    requires x < n * n
    ensures p.0 < n && p.1 < n && x == p.0 * n + p.1
  {
    DivBounds(x, n);
    DivBelow(x, n, n);
    (x / n, x % n)
  }

  /** `inverse`: the converse of the relation, row and column exchanged. */
  function Converse(n: nat, m: seq<bool>): (r: seq<bool>)
    requires |m| == n * n
    ensures |r| == n * n
  {
    seq(n * n, x requires 0 <= x < n * n => At(m, n, Cell(n, x).1, Cell(n, x).0))
  }

  /** The relational product: `i` relates to `k` when some `j` has `a(i, j)` and `b(j, k)`. */
  function Compose(n: nat, a: seq<bool>, b: seq<bool>): (r: seq<bool>)
    requires |a| == n * n && |b| == n * n
    ensures |r| == n * n
  {
    seq(n * n, x requires 0 <= x < n * n =>
      exists j :: 0 <= j < n && At(a, n, Cell(n, x).0, j) && At(b, n, j, Cell(n, x).1))
  }

  lemma CellAt(n: nat, i: nat, j: nat)
    requires i < n && j < n
    ensures i * n + j < n * n && Cell(n, i * n + j) == (i, j)
  {
    RowIndex(n, i, j);
  }

  /** The converse of the converse is the relation itself. */
  lemma ConverseInvolution(n: nat, m: seq<bool>)
    requires |m| == n * n
    ensures Converse(n, Converse(n, m)) == m
  {
    forall i, j | 0 <= i < n && 0 <= j < n
      ensures At(Converse(n, Converse(n, m)), n, i, j) == At(m, n, i, j)
    {
      CellAt(n, i, j);
      CellAt(n, j, i);
    }
    MatrixExt(n, Converse(n, Converse(n, m)), m);
  }

  /** For a permutation matrix the converse is its inverse: both products give the identity. */
  lemma ConverseIsInverse(n: nat, cols: seq<nat>)
    requires IsPermutation(n, cols)
    ensures Compose(n, Matrix(n, cols), Converse(n, Matrix(n, cols))) == Matrix(n, Range(n))
    ensures Compose(n, Converse(n, Matrix(n, cols)), Matrix(n, cols)) == Matrix(n, Range(n))
  {
    var m := Matrix(n, cols);
    var t := Converse(n, m);
    var id := Matrix(n, Range(n));
    forall i, k | 0 <= i < n && 0 <= k < n
      ensures At(Compose(n, m, t), n, i, k) == At(id, n, i, k)
    {
      ComposeConverseCell(n, cols, i, k);
    }
    forall i, k | 0 <= i < n && 0 <= k < n
      ensures At(Compose(n, t, m), n, i, k) == At(id, n, i, k)
    {
      ConverseComposeCell(n, cols, i, k);
    }
    MatrixExt(n, Compose(n, m, t), id);
    MatrixExt(n, Compose(n, t, m), id);
  }

  /** The entries of a permutation matrix and of its converse. */
  lemma PermutationCells(n: nat, cols: seq<nat>, i: nat, j: nat)
    requires IsPermutation(n, cols) && i < n && j < n
    ensures At(Matrix(n, cols), n, i, j) == (cols[i] == j)
    ensures At(Converse(n, Matrix(n, cols)), n, i, j) == (cols[j] == i)
  {
    MatrixAt(n, cols, i, j);
    MatrixAt(n, cols, j, i);
    CellAt(n, i, j);
  }

  /** Entry `(i, k)` of the relational product. */
  lemma ComposeAt(n: nat, a: seq<bool>, b: seq<bool>, i: nat, k: nat)
    requires |a| == n * n && |b| == n * n && i < n && k < n
    ensures At(Compose(n, a, b), n, i, k) <==> exists j :: 0 <= j < n && At(a, n, i, j) && At(b, n, j, k)
  {
    CellAt(n, i, k);
  }

  lemma ComposeConverseCell(n: nat, cols: seq<nat>, i: nat, k: nat)
    requires IsPermutation(n, cols) && i < n && k < n
    ensures At(Compose(n, Matrix(n, cols), Converse(n, Matrix(n, cols))), n, i, k) == At(Matrix(n, Range(n)), n, i, k)
  {
    var m := Matrix(n, cols);
    var t := Converse(n, m);
    ComposeAt(n, m, t, i, k);
    MatrixAt(n, Range(n), i, k);
    if i == k {
      PermutationCells(n, cols, i, cols[i]);
      PermutationCells(n, cols, cols[i], k);
    } else {
      forall j | 0 <= j < n
        ensures !(At(m, n, i, j) && At(t, n, j, k))
      {
        PermutationCells(n, cols, i, j);
        PermutationCells(n, cols, j, k);
      }
    }
  }

  lemma ConverseComposeCell(n: nat, cols: seq<nat>, i: nat, k: nat)
    requires IsPermutation(n, cols) && i < n && k < n
    ensures At(Compose(n, Converse(n, Matrix(n, cols)), Matrix(n, cols)), n, i, k) == At(Matrix(n, Range(n)), n, i, k)
  {
    var m := Matrix(n, cols);
    var t := Converse(n, m);
    ComposeAt(n, t, m, i, k);
    MatrixAt(n, Range(n), i, k);
    if i == k {
      assert i in cols;
      var j :| 0 <= j < |cols| && cols[j] == i;
      PermutationCells(n, cols, i, j);
      PermutationCells(n, cols, j, k);
    } else {
      forall j | 0 <= j < n
        ensures !(At(t, n, i, j) && At(m, n, j, k))
      {
        PermutationCells(n, cols, i, j);
        PermutationCells(n, cols, j, k);
      }
    }
  }
}
