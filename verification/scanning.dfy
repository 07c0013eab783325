/**
 * What the two lexers (`src/lexer.rs` and `src/old/lexer.rs`) share: the
 * classes of characters they test, the runs of one class that a token
 * consumes, and the line and column of a character in the text.
 *
 * Characters are taken to be ASCII: `is_alphabetic`, `is_alphanumeric`
 * and `is_whitespace` are the ASCII letters, letters and digits, and
 * white space; `is_digit(10)` and `to_digit(10)` are the decimal digits,
 * as in Rust.
 */
module Scanning {
  predicate IsAlphabetic(c: char)
  {
    'a' <= c <= 'z' || 'A' <= c <= 'Z'
  }

  predicate IsDigit(c: char)
  {
    '0' <= c <= '9'
  }

  predicate IsAlphanumeric(c: char)
  {
    IsAlphabetic(c) || IsDigit(c)
  }

  predicate IsWhitespace(c: char)
  {
    c == ' ' || c == '\t' || c == '\n' || c == '\r' || c == '\U{000B}' || c == '\U{000C}'
  }

  /** `to_digit(10)` of a decimal digit. */
  function DigitValue(c: char): (r: nat)
    requires IsDigit(c)
    ensures r < 10
  {
    (c as int) - ('0' as int)
  }

  /** The classes of characters a run of one token consists of. */
  datatype CharClass = Alphanumeric | AlphanumericOrUnderscore | Digit | Whitespace

  predicate InClass(cls: CharClass, c: char)
  {
    match cls
    case Alphanumeric => IsAlphanumeric(c)
    case AlphanumericOrUnderscore => IsAlphanumeric(c) || c == '_'
    case Digit => IsDigit(c)
    case Whitespace => IsWhitespace(c)
  }

  /** The end of the longest run of `cls` characters starting at `k`. */
  function RunEnd(text: seq<char>, k: nat, cls: CharClass): (r: nat)
    requires k <= |text|
    ensures k <= r <= |text|
    ensures forall i :: k <= i < r ==> InClass(cls, text[i])
    ensures r == |text| || !InClass(cls, text[r])
    decreases |text| - k
  {
    if k < |text| && InClass(cls, text[k]) then RunEnd(text, k + 1, cls) else k
  }

  /** A run of `cls` characters from `k` to `e` that cannot be extended ends at `RunEnd`. */
  lemma {:induction false} RunEndUnique(text: seq<char>, k: nat, e: nat, cls: CharClass)
    requires k <= e <= |text|
    requires forall i :: k <= i < e ==> InClass(cls, text[i])
    requires e == |text| || !InClass(cls, text[e])
    ensures RunEnd(text, k, cls) == e
    decreases e - k
  {
    if k < e {
      RunEndUnique(text, k + 1, e, cls);
    }
  }

  /** A line and a column, both counted from 1. */
  datatype Pos = Pos(line: nat, column: nat)

  /** Reading `c` moves to the next column, or to the first column of the next line after a newline. */
  function Step(p: Pos, c: char): Pos
  {
    if c == '\n' then Pos(p.line + 1, 1) else Pos(p.line, p.column + 1)
  }

  /** The position of the character that follows `s`. */
  function PosAfter(s: seq<char>): (r: Pos)
    ensures r.line >= 1 && r.column >= 1
  {
    if s == [] then Pos(1, 1) else Step(PosAfter(s[..|s| - 1]), s[|s| - 1])
  }

  /** Reading one more character of the text steps the position. */
  lemma PosAfterNext(text: seq<char>, k: nat)
    requires k < |text|
    ensures PosAfter(text[..k + 1]) == Step(PosAfter(text[..k]), text[k])
  {
    assert text[..k + 1][..k] == text[..k];
  }

  /** Within a line, the column counts the characters since the last newline. */
  lemma {:induction false} PosAfterNoNewline(s: seq<char>, t: seq<char>)
    requires forall i :: 0 <= i < |t| ==> t[i] != '\n'
    ensures PosAfter(s + t) == Pos(PosAfter(s).line, PosAfter(s).column + |t|)
  {
    if t != [] {
      var u := t[..|t| - 1];
      assert (s + t)[..|s + t| - 1] == s + u;
      PosAfterNoNewline(s, u);
    } else {
      assert s + t == s;
    }
  }

  /** After a newline the column starts again at 1, on the next line. */
  lemma PosAfterNewline(s: seq<char>)
    ensures PosAfter(s + ['\n']) == Pos(PosAfter(s).line + 1, 1)
  {
    assert (s + ['\n'])[..|s|] == s;
  }
}
