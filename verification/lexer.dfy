/**
 * The lexer of `src/lexer.rs`. It reads a character stream one character
 * ahead (`next`), skips white space, and yields items with the position of
 * their first character: identifiers, `u32` integers, single-character
 * operators, and errors. An error clears `next`, so the stream ends there.
 *
 * The character iterator is the text itself with the offset of `next`;
 * the offset is part of the model, not of the source's state.
 */
module Lexers {
  import opened Wrappers
  import opened Scanning

  /** One more than the largest `u32` value. */
  const U32_LIMIT: nat := 0x1_0000_0000

  /** The single-character operators. */
  const OPERATORS: seq<char> := "()[],=."

  /** What the lexer yields. */
  datatype Item = Error(msg: string) | Identifier(name: string) | Operator(op: char) | Integer(value: nat)

  /** `u32::checked_mul`. */
  function CheckedMul(a: nat, b: nat): (r: Option<nat>)
    ensures r.Some? <==> a * b < U32_LIMIT
    ensures r.Some? ==> r.value == a * b
  {
    if a * b < U32_LIMIT then Some(a * b) else None
  }

  /** `u32::checked_add`. */
  function CheckedAdd(a: nat, b: nat): (r: Option<nat>)
    ensures r.Some? <==> a + b < U32_LIMIT
    ensures r.Some? ==> r.value == a + b
  {
    if a + b < U32_LIMIT then Some(a + b) else None
  }

  /** `add_digit`: `10 * n + d` when it fits in a `u32`, and `None` otherwise. */
  function AddDigit(n: nat, d: nat): (r: Option<nat>)
    ensures r.Some? <==> 10 * n + d < U32_LIMIT
    ensures r.Some? ==> r.value == 10 * n + d
  {
    match CheckedMul(n, 10)
    case Some(n2) =>
      (match CheckedAdd(n2, d)
       case Some(n3) => Some(n3)
       case None => None)
    case None => None
  }

  /** All characters are decimal digits. */
  predicate AllDigits(s: seq<char>)
  {
    forall i :: 0 <= i < |s| ==> IsDigit(s[i])
  }

  /** The number a run of decimal digits stands for, most significant first. */
  function Decimal(s: seq<char>): nat
    requires AllDigits(s)
  {
    if s == [] then 0 else 10 * Decimal(s[..|s| - 1]) + DigitValue(s[|s| - 1])
  }

  /** A longer run of digits stands for a number at least as large. */
  lemma {:induction false} DecimalPrefix(s: seq<char>, i: nat)
    requires AllDigits(s) && i <= |s|
    ensures Decimal(s[..i]) <= Decimal(s)
    decreases |s|
  {
    if i < |s| {
      var u := s[..|s| - 1];
      assert u[..i] == s[..i];
      DecimalPrefix(u, i);
    } else {
      assert s[..i] == s;
    }
  }

  /** Reading one more digit multiplies by ten and adds it. */
  lemma DecimalNext(text: seq<char>, start: nat, k: nat)
    requires start <= k < |text| && AllDigits(text[start..k + 1])
    ensures AllDigits(text[start..k])
    ensures Decimal(text[start..k + 1]) == 10 * Decimal(text[start..k]) + DigitValue(text[k])
  {
    assert text[start..k + 1][..k - start] == text[start..k];
  }

  /** A run of digits followed by a digit is a run of digits. */
  lemma DigitsSnoc(text: seq<char>, start: nat, k: nat)
    requires start <= k < |text| && AllDigits(text[start..k]) && IsDigit(text[k])
    ensures AllDigits(text[start..k + 1])
  {
    assert text[start..k + 1] == text[start..k] + [text[k]];
  }

  /** Once a prefix of a digit run overflows, so does the whole run. */
  lemma TooLarge(text: seq<char>, start: nat, k: nat)
    requires start <= |text| && start <= k < RunEnd(text, start, Digit)
    requires AllDigits(text[start..k + 1]) && Decimal(text[start..k + 1]) >= U32_LIMIT
    ensures AllDigits(text[start..RunEnd(text, start, Digit)])
    ensures Decimal(text[start..RunEnd(text, start, Digit)]) >= U32_LIMIT
  {
    var e := RunEnd(text, start, Digit);
    assert text[start..e][..k + 1 - start] == text[start..k + 1];
    DecimalPrefix(text[start..e], k + 1 - start);
  }

  /**
   * The item the lexer reads at `k`, the first character after the white
   * space: whether it stops the stream, and otherwise where the next read
   * starts (`end`).
   */
  predicate ReadsItem(text: seq<char>, k: nat, item: Item, end: nat, stop: bool)
    requires k < |text|
  {
    var c := text[k];
    if IsAlphabetic(c) then
      var e := RunEnd(text, k, Alphanumeric);
      item == Identifier(text[k..e]) && end == e && !stop
    else if IsDigit(c) then
      var e := RunEnd(text, k, Digit);
      if Decimal(text[k..e]) < U32_LIMIT then
        item == Integer(Decimal(text[k..e])) && end == e && !stop
      else
        item == Error("too large integer") && stop
    else if c in OPERATORS then
      item == Operator(c) && end == k + 1 && !stop
    else
      item == Error("unexpected character") && stop
  }

  class Lexer {
    /** The characters of the stream. */
    const text: seq<char>
    /** The offset of `next` in the text. */
    var offset: nat
    /** The character read ahead; `None` at the end of the text and after an error. */
    var next: Option<char>
    var line: nat
    var col: nat
    /** An error has ended the stream. */
    ghost var failed: bool

    /** `next` is the character at the offset, and the position is the one after the consumed text. */
    ghost predicate Valid()
      reads this
    {
      offset <= |text| &&
      (next.Some? ==> offset < |text| && next.value == text[offset]) &&
      (!failed ==> (next.Some? <==> offset < |text|)) &&
      (failed ==> next.None?) &&
      Pos(line, col) == PosAfter(text[..offset])
    }

    /** `new`: reads the first character; the position is line 1, column 1. */
    constructor (input: seq<char>)
      ensures Valid() && !failed
      ensures text == input && offset == 0 && line == 1 && col == 1
    {
      text := input;
      offset := 0;
      next := if |input| > 0 then Some(input[0]) else None;
      line := 1;
      col := 1;
      failed := false;
    }

    /** Consumes `next` after the position has been stepped over it. */
    method ReadChar()
      requires offset < |text| && next == Some(text[offset]) && !failed
      requires Pos(line, col) == Step(PosAfter(text[..offset]), text[offset])
      modifies this
      ensures Valid() && !failed && offset == old(offset) + 1
      ensures line == old(line) && col == old(col)
    {
      PosAfterNext(text, offset);
      offset := offset + 1;
      next := if offset < |text| then Some(text[offset]) else None;
    }

    /** `eat_whitespace`: a newline moves to column 1 of the next line, anything else to the next column. */
    method EatWhitespace(c: char)
      requires Valid() && next == Some(c)
      modifies this
      ensures Valid() && !failed && offset == old(offset) + 1
      ensures c == '\n' ==> line == old(line) + 1 && col == 1
      ensures c != '\n' ==> line == old(line) && col == old(col) + 1
    {
      if c == '\n' {
        line := line + 1;
        col := 1;
      } else {
        col := col + 1;
      }
      ReadChar();
    }

    /** `get_error`: clears `next`, which ends the stream. */
    method GetError(msg: string) returns (item: Item)
      requires Valid()
      modifies this
      ensures Valid() && failed && next.None?
      ensures offset == old(offset) && line == old(line) && col == old(col)
      ensures item == Error(msg)
    {
      next := None;
      failed := true;
      item := Error(msg);
    }

    /** The digits from `start` up to `next` have been read, and their value `n` fits in a `u32`. */
    ghost predicate DigitsRead(start: nat, e: nat, n: nat)
      reads this
    {
      Valid() && !failed && start <= offset <= e && e <= |text| &&
      RunEnd(text, start, Digit) == e && RunEnd(text, offset, Digit) == e && AllDigits(text[start..offset]) &&
      n == Decimal(text[start..offset]) && n < U32_LIMIT
    }

    /**
     * One turn of the loop of `get_integer` on the digit `next`: `add_digit`,
     * and on success the step past the digit. On overflow nothing moves, and
     * the whole run of digits is too large.
     */
    method ReadDigit(ghost start: nat, ghost e: nat, n: nat) returns (r: Option<nat>)
      requires DigitsRead(start, e, n) && next.Some? && IsDigit(next.value)
      modifies this
      ensures r.Some? ==> DigitsRead(start, e, r.value) && offset == old(offset) + 1
      ensures r.None? ==> Valid() && !failed && offset == old(offset) && next == old(next)
      ensures r.None? ==> AllDigits(text[start..e]) && Decimal(text[start..e]) >= U32_LIMIT
    {
      var c := next.value;
      ghost var k := offset;
      assert RunEnd(text, k + 1, Digit) == e && c != '\n';
      DigitsSnoc(text, start, k);
      DecimalNext(text, start, k);
      r := AddDigit(n, DigitValue(c));
      if r.None? {
        TooLarge(text, start, k);
        return;
      }
      assert k + 1 <= e && r.value == Decimal(text[start..k + 1]) && r.value < U32_LIMIT;
      col := col + 1;
      ReadChar();
      assert offset == k + 1;
    }

    /** `get_integer`: accumulates digits with `add_digit`; an overflow is an error. */
    method GetInteger() returns (item: Item)
      requires Valid() && next.Some?
      modifies this
      ensures Valid()
      ensures var e := RunEnd(text, old(offset), Digit);
        if Decimal(text[old(offset)..e]) < U32_LIMIT then
          item == Integer(Decimal(text[old(offset)..e])) && offset == e && !failed
        else
          item == Error("too large integer") && failed
    {
      ghost var start := offset;
      ghost var e := RunEnd(text, start, Digit);
      var n: nat := 0;
      assert text[start..start] == [];
      while next.Some?
        invariant DigitsRead(start, e, n)
        decreases |text| - offset
      {
        if !IsDigit(next.value) {
          break;
        }
        var r := ReadDigit(start, e, n);
        if r.None? {
          item := GetError("too large integer");
          return;
        }
        n := r.value;
      }
      item := Integer(n);
    }

    /** `get_identifier`: collects the run of alphanumeric characters. */
    method GetIdentifier() returns (item: Item)
      requires Valid() && next.Some?
      modifies this
      ensures Valid() && !failed
      ensures offset == RunEnd(text, old(offset), Alphanumeric)
      ensures item == Identifier(text[old(offset)..offset])
    {
      ghost var start := offset;
      var s: seq<char> := [];
      while next.Some? && IsAlphanumeric(next.value)
        invariant Valid() && !failed && start <= offset
        invariant RunEnd(text, offset, Alphanumeric) == RunEnd(text, start, Alphanumeric)
        invariant s == text[start..offset]
        decreases |text| - offset
      {
        s := s + [next.value];
        col := col + 1;
        ReadChar();
      }
      item := Identifier(s);
    }

    /** `get_operator`: the character itself. */
    method GetOperator() returns (item: Item)
      requires Valid() && next.Some? && next.value in OPERATORS
      modifies this
      ensures Valid() && !failed && offset == old(offset) + 1
      ensures item == Operator(text[old(offset)])
    {
      var c := next.value;
      col := col + 1;
      ReadChar();
      item := Operator(c);
    }

    /**
     * `next`: skips white space, then reads the item at the first other
     * character and pairs it with that character's position. After the
     * end of the text or an error it yields `None` and changes nothing.
     */
    method Next() returns (r: Option<(Pos, Item)>)
      requires Valid()
      modifies this
      ensures Valid()
      ensures old(next).None? ==> r.None? && next.None? && offset == old(offset) && failed == old(failed)
      ensures old(next).Some? ==>
        var k := RunEnd(text, old(offset), Whitespace);
        if k == |text| then
          r.None? && next.None? && offset == k && !failed
        else
          r.Some? && r.value.0 == PosAfter(text[..k]) && ReadsItem(text, k, r.value.1, offset, failed)
    {
      ghost var k := if next.Some? then RunEnd(text, offset, Whitespace) else offset;
      while next.Some?
        invariant Valid()
        invariant old(next).None? ==> next.None? && offset == old(offset) && failed == old(failed)
        invariant old(next).Some? ==> !failed && old(offset) <= offset <= k && RunEnd(text, offset, Whitespace) == k
        decreases |text| - offset
      {
        var c := next.value;
        if !IsWhitespace(c) {
          var p := Pos(line, col);
          var item := ReadItem();
          return Some((p, item));
        }
        EatWhitespace(c);
      }
      return None;
    }

    /**
     * The item branches of `next`, at a character that is not white
     * space: an identifier, an integer, an operator, or else the error
     * `unexpected character`. (The source tests white space among these;
     * the classes do not overlap, so the order does not matter.)
     */
    method ReadItem() returns (item: Item)
      requires Valid() && !failed && next.Some? && !IsWhitespace(next.value)
      modifies this
      ensures Valid() && ReadsItem(text, old(offset), item, offset, failed)
    {
      var c := next.value;
      if IsAlphabetic(c) {
        item := GetIdentifier();
      } else if IsDigit(c) {
        item := GetInteger();
      } else if c in OPERATORS {
        item := GetOperator();
      } else {
        item := GetError("unexpected character");
      }
    }
  }

  /** On a text without newlines, the character at offset `k` is in column `k + 1` of line 1. */
  lemma SingleLine(text: seq<char>)
    requires forall i :: 0 <= i < |text| ==> text[i] != '\n'
    ensures forall k :: 0 <= k <= |text| ==> PosAfter(text[..k]) == Pos(1, k + 1)
  {
    forall k | 0 <= k <= |text|
      ensures PosAfter(text[..k]) == Pos(1, k + 1)
    {
      PosAfterNoNewline([], text[..k]);
      assert [] + text[..k] == text[..k];
    }
  }

  /** The item read at `k` is determined by the text: two readings that do not stop agree. */
  lemma ReadsItemUnique(text: seq<char>, k: nat, item: Item, end: nat, item2: Item, end2: nat, stop2: bool)
    requires k < |text|
    requires ReadsItem(text, k, item, end, false) && ReadsItem(text, k, item2, end2, stop2)
    ensures item2 == item && end2 == end && !stop2
  {
  }

  /** A `next` that reads an item which does not stop the stream. */
  method NextItem(lexer: Lexer, ghost k: nat, ghost item: Item, ghost end: nat) returns (r: Option<(Pos, Item)>)
    requires lexer.Valid() && !lexer.failed && lexer.offset < |lexer.text|
    requires k < |lexer.text| && RunEnd(lexer.text, lexer.offset, Whitespace) == k
    requires ReadsItem(lexer.text, k, item, end, false)
    modifies lexer
    ensures lexer.Valid() && !lexer.failed && lexer.offset == end
    ensures r == Some((PosAfter(lexer.text[..k]), item))
  {
    r := lexer.Next();
    ReadsItemUnique(lexer.text, k, item, end, r.value.1, lexer.offset, lexer.failed);
  }

  /** Where the items of `x1 = 7` start, and what is read there. */
  lemma ExampleItems(text: seq<char>)
    requires text == "x1 = 7"
    ensures RunEnd(text, 0, Whitespace) == 0 && ReadsItem(text, 0, Identifier("x1"), 2, false)
    ensures RunEnd(text, 2, Whitespace) == 3 && ReadsItem(text, 3, Operator('='), 4, false)
    ensures RunEnd(text, 4, Whitespace) == 5 && ReadsItem(text, 5, Integer(7), 6, false)
  {
    RunEndUnique(text, 0, 2, Alphanumeric);
    assert text[0..2] == "x1";
    RunEndUnique(text, 5, 6, Digit);
    assert text[5..6] == "7";
    assert Decimal("7") == 7 by {
      assert "7"[..0] == [];
    }
  }

  /** `x1 = 7` lexes to an identifier, an operator and an integer, each at its column, and then ends. */
  method LexerExample() returns (items: seq<Option<(Pos, Item)>>)
    ensures items == [
      Some((Pos(1, 1), Identifier("x1"))),
      Some((Pos(1, 4), Operator('='))),
      Some((Pos(1, 6), Integer(7))),
      None]
  {
    var text := "x1 = 7";
    SingleLine(text);
    ExampleItems(text);
    var lexer := new Lexer(text);
    var r0 := NextItem(lexer, 0, Identifier("x1"), 2);
    var r1 := NextItem(lexer, 3, Operator('='), 4);
    var r2 := NextItem(lexer, 5, Integer(7), 6);
    var r3 := lexer.Next();
    items := [r0, r1, r2, r3];
  }

  /** Appending a digit multiplies by ten and adds it. */
  lemma DecimalSnoc(s: seq<char>, c: char)
    requires AllDigits(s) && IsDigit(c)
    ensures AllDigits(s + [c]) && Decimal(s + [c]) == 10 * Decimal(s) + DigitValue(c)
  {
    assert (s + [c])[..|s|] == s;
  }

  /** The first digits of the largest `u32`, in decimal. */
  lemma DecimalLimitHigh()
    ensures AllDigits("42949") && Decimal("42949") == 42949
  {
    DecimalSnoc([], '4');
    assert [] + ['4'] == "4";
    DecimalSnoc("4", '2');
    assert "4" + ['2'] == "42";
    DecimalSnoc("42", '9');
    assert "42" + ['9'] == "429";
    DecimalSnoc("429", '4');
    assert "429" + ['4'] == "4294";
    DecimalSnoc("4294", '9');
    assert "4294" + ['9'] == "42949";
  }

  /** All but the last digit of the largest `u32`, in decimal. */
  lemma DecimalLimitLow()
    ensures AllDigits("429496729") && Decimal("429496729") == 429496729
  {
    DecimalLimitHigh();
    DecimalSnoc("42949", '6');
    assert "42949" + ['6'] == "429496";
    DecimalSnoc("429496", '7');
    assert "429496" + ['7'] == "4294967";
    DecimalSnoc("4294967", '2');
    assert "4294967" + ['2'] == "42949672";
    DecimalSnoc("42949672", '9');
    assert "42949672" + ['9'] == "429496729";
  }

  /** The largest `u32` and the number after it, in decimal. */
  lemma DecimalLimit()
    ensures AllDigits("4294967295") && Decimal("4294967295") == U32_LIMIT - 1
    ensures AllDigits("4294967296") && Decimal("4294967296") == U32_LIMIT
  {
    DecimalLimitLow();
    DecimalSnoc("429496729", '5');
    assert "429496729" + ['5'] == "4294967295";
    DecimalSnoc("429496729", '6');
    assert "429496729" + ['6'] == "4294967296";
  }

  /** What is read at the start of `4294967295`: the largest integer item. */
  lemma LargestItem(small: seq<char>)
    requires small == "4294967295"
    ensures RunEnd(small, 0, Whitespace) == 0 && ReadsItem(small, 0, Integer(U32_LIMIT - 1), 10, false)
  {
    assert small[0..10] == small;
    DecimalLimit();
    RunEndUnique(small, 0, 10, Digit);
    assert IsDigit(small[0]) && !IsAlphabetic(small[0]);
    assert Decimal(small[0..10]) == U32_LIMIT - 1;
  }

  /** What is read at the start of `4294967296 x`: an error that stops the stream. */
  lemma TooLargeItem(large: seq<char>)
    requires large == "4294967296 x"
    ensures RunEnd(large, 0, Whitespace) == 0
    ensures forall item, end, stop :: ReadsItem(large, 0, item, end, stop) ==> item == Error("too large integer") && stop
  {
    DecimalLimit();
    assert large[10] == ' ';
    RunEndUnique(large, 0, 10, Digit);
    assert large[0..10] == "4294967296";
  }

  /** `4294967295` is the largest integer item; `4294967296` is an error, after which the stream ends. */
  method OverflowExample() returns (fits: Option<(Pos, Item)>, overflow: Option<(Pos, Item)>, after: Option<(Pos, Item)>)
    ensures fits == Some((Pos(1, 1), Integer(U32_LIMIT - 1)))
    ensures overflow == Some((Pos(1, 1), Error("too large integer")))
    ensures after == None
  {
    var small := "4294967295";
    var large := "4294967296 x";
    LargestItem(small);
    TooLargeItem(large);
    var lexer := new Lexer(small);
    fits := NextItem(lexer, 0, Integer(U32_LIMIT - 1), 10);
    lexer := new Lexer(large);
    overflow := lexer.Next();
    after := lexer.Next();
  }
}
