/**
 * The older lexer of `src/old/lexer.rs`. It yields tokens that are slices
 * of the text, each with a kind and the line and column of its first
 * character: identifiers, decimal integers, single-character operators,
 * and one-character `Unknown` tokens for anything else. White space is
 * skipped, and lexing never stops before the end of the text.
 *
 * Offsets count characters; the source's `char_indices` counts bytes of
 * the UTF-8 encoding, which is the same for ASCII text.
 */
module OldLexers {
  import opened Wrappers
  import opened Scanning

  /** The single-character operators. */
  const OPERATORS: seq<char> := "()[],="

  datatype Kind = Identifier | Operator | Integer | Unknown

  /** A slice of the text with its kind and the position of its first character. */
  datatype Token = Token(data: seq<char>, kind: Kind, line: nat, column: nat)

  /** Where a token starts. */
  predicate StartsIdentifier(c: char)
  {
    IsAlphabetic(c) || c == '_'
  }

  /** The kind of the token at `k` and the offset just after it. */
  datatype Scan = Scan(kind: Kind, end: nat)

  /**
   * The token that starts at the non-blank character `k`: a maximal run of
   * identifier characters or of digits, or else the single character.
   */
  function ScanAt(text: seq<char>, k: nat): (r: Scan)
    requires k < |text|
    ensures k < r.end <= |text|
    ensures r.kind == Identifier <==> StartsIdentifier(text[k])
    ensures r.kind == Integer <==> IsDigit(text[k])
    ensures r.kind == Operator <==> !StartsIdentifier(text[k]) && !IsDigit(text[k]) && text[k] in OPERATORS
    ensures r.kind == Identifier ==>
      (forall i :: k <= i < r.end ==> InClass(AlphanumericOrUnderscore, text[i])) &&
      (r.end == |text| || !InClass(AlphanumericOrUnderscore, text[r.end]))
    ensures r.kind == Integer ==>
      (forall i :: k <= i < r.end ==> IsDigit(text[i])) && (r.end == |text| || !IsDigit(text[r.end]))
    ensures r.kind == Operator || r.kind == Unknown ==> r.end == k + 1
  {
    var c := text[k];
    if StartsIdentifier(c) then
      Scan(Identifier, RunEnd(text, k, AlphanumericOrUnderscore))
    else if IsDigit(c) then
      Scan(Integer, RunEnd(text, k, Digit))
    else if c in OPERATORS then
      Scan(Operator, k + 1)
    else
      Scan(Unknown, k + 1)
  }

  /** The data of all tokens from offset `k` to the end of the text. */
  function Tokens(text: seq<char>, k: nat): seq<seq<char>>
    requires k <= |text|
    decreases |text| - k
  {
    var j := RunEnd(text, k, Whitespace);
    if j == |text| then [] else [text[j..ScanAt(text, j).end]] + Tokens(text, ScanAt(text, j).end)
  }

  /** One step of `Tokens`: the token after the white space at `k`, if any, comes first. */
  lemma TokensStep(text: seq<char>, k: nat)
    requires k <= |text|
    ensures var j := RunEnd(text, k, Whitespace);
      (Tokens(text, k) == [] <==> j == |text|) &&
      (j < |text| ==> Tokens(text, k) == [text[j..ScanAt(text, j).end]] + Tokens(text, ScanAt(text, j).end))
  {
  }

  /** The strings of a list, one after the other. */
  function Concat(ss: seq<seq<char>>): seq<char>
  {
    if ss == [] then [] else ss[0] + Concat(ss[1..])
  }

  lemma ConcatCons(s: seq<char>, ss: seq<seq<char>>)
    ensures Concat([s] + ss) == s + Concat(ss)
  {
    assert ([s] + ss)[1..] == ss;
  }

  /** The text without its white space. */
  function NonBlank(s: seq<char>): (r: seq<char>)
    ensures forall i :: 0 <= i < |r| ==> !IsWhitespace(r[i])
  {
    if s == [] then [] else (if IsWhitespace(s[0]) then [] else [s[0]]) + NonBlank(s[1..])
  }

  lemma {:induction false} NonBlankAppend(a: seq<char>, b: seq<char>)
    ensures NonBlank(a + b) == NonBlank(a) + NonBlank(b)
  {
    if a == [] {
      assert a + b == b;
    } else {
      assert (a + b)[1..] == a[1..] + b;
      NonBlankAppend(a[1..], b);
    }
  }

  /** `NonBlank` removes exactly the white space: a string of blanks vanishes, one without blanks stays. */
  lemma {:induction false} NonBlankExact(s: seq<char>)
    ensures (forall i :: 0 <= i < |s| ==> IsWhitespace(s[i])) ==> NonBlank(s) == []
    ensures (forall i :: 0 <= i < |s| ==> !IsWhitespace(s[i])) ==> NonBlank(s) == s
  {
    if s != [] {
      NonBlankExact(s[1..]);
    }
  }

  /** A token holds no white space. */
  lemma TokenNotBlank(text: seq<char>, k: nat)
    requires k < |text| && !IsWhitespace(text[k])
    ensures forall i :: k <= i < ScanAt(text, k).end ==> !IsWhitespace(text[i])
  {
  }

  lemma SplitAt(s: seq<char>, a: nat, b: nat, c: nat)
    requires a <= b <= c <= |s|
    ensures s[a..] == s[a..b] + (s[b..c] + s[c..])
  {
    assert s[b..] == s[b..c] + s[c..];
    assert s[a..] == s[a..b] + s[b..];
  }

  /** Removing the blanks before a token and after it leaves the token followed by the rest. */
  lemma BlanksThenToken(text: seq<char>, k: nat)
    requires k <= |text|
    ensures var j := RunEnd(text, k, Whitespace);
      (j == |text| ==> NonBlank(text[k..]) == []) &&
      (j < |text| ==> NonBlank(text[k..]) == text[j..ScanAt(text, j).end] + NonBlank(text[ScanAt(text, j).end..]))
  {
    var j := RunEnd(text, k, Whitespace);
    var blanks := text[k..j];
    assert forall i :: 0 <= i < |blanks| ==> IsWhitespace(blanks[i]);
    NonBlankExact(blanks);
    if j == |text| {
      assert text[k..] == blanks;
    } else {
      var e := ScanAt(text, j).end;
      var token := text[j..e];
      TokenNotBlank(text, j);
      assert forall i :: 0 <= i < |token| ==> !IsWhitespace(token[i]);
      NonBlankExact(token);
      SplitAt(text, k, j, e);
      NonBlankAppend(blanks, token + text[e..]);
      NonBlankAppend(token, text[e..]);
    }
  }

  /**
   * Lexing loses nothing but white space: the tokens from `k` on, one
   * after the other, are the rest of the text with its blanks removed.
   */
  lemma {:induction false} TokensKeepText(text: seq<char>, k: nat)
    requires k <= |text|
    ensures Concat(Tokens(text, k)) == NonBlank(text[k..])
    decreases |text| - k
  {
    var j := RunEnd(text, k, Whitespace);
    TokensStep(text, k);
    BlanksThenToken(text, k);
    if j < |text| {
      var e := ScanAt(text, j).end;
      TokensKeepText(text, e);
      ConcatCons(text[j..e], Tokens(text, e));
    }
  }

  class Lexer {
    /** The characters of the text. */
    const text: seq<char>
    /** The offset of `next`, or the length of the text at its end. */
    var offset: nat
    /** The character read ahead. */
    var next: Option<char>
    var line: nat
    var column: nat

    /**
     * `next` is the character at the offset, and while there is one the
     * position is the one after the consumed text. (At the end of the
     * text the column is no longer advanced.)
     */
    ghost predicate Valid()
      reads this
    {
      offset <= |text| &&
      (next.Some? <==> offset < |text|) &&
      (next.Some? ==> next.value == text[offset] && Pos(line, column) == PosAfter(text[..offset]))
    }

    /** `new`: reads the first character; the position is line 1, column 1. */
    constructor (data: seq<char>)
      ensures Valid() && text == data && offset == 0 && line == 1 && column == 1
    {
      text := data;
      offset := 0;
      next := if |data| > 0 then Some(data[0]) else None;
      line := 1;
      column := 1;
    }

    /**
     * `read_char`: moves past `next`, advancing the column only when
     * another character follows. The caller has already moved the
     * position to where `column + 1` is the next character's column.
     */
    method ReadChar()
      requires offset < |text| && next == Some(text[offset])
      requires Pos(line, column + 1) == Step(PosAfter(text[..offset]), text[offset])
      modifies this
      ensures Valid() && offset == old(offset) + 1 && line == old(line)
      ensures column == if next.Some? then old(column) + 1 else old(column)
    {
      PosAfterNext(text, offset);
      offset := offset + 1;
      if offset < |text| {
        next := Some(text[offset]);
        column := column + 1;
      } else {
        next := None;
      }
    }

    /** `get_range`: the maximal run of `cls` characters at the offset, which it moves past. */
    method GetRange(cls: CharClass) returns (data: seq<char>)
      requires Valid() && !InClass(cls, '\n')
      modifies this
      ensures Valid()
      ensures offset == RunEnd(text, old(offset), cls) && data == text[old(offset)..offset]
    {
      var start := offset;
      while next.Some?
        invariant Valid() && start <= offset
        invariant RunEnd(text, offset, cls) == RunEnd(text, start, cls)
        decreases |text| - offset
      {
        if InClass(cls, next.value) {
          ReadChar();
        } else {
          break;
        }
      }
      data := text[start..offset];
    }

    /** `get_single`: the character at the offset, which it moves past. */
    method GetSingle() returns (data: seq<char>)
      requires Valid() && next.Some? && next.value != '\n'
      modifies this
      ensures Valid() && offset == old(offset) + 1
      ensures data == text[old(offset)..offset] && data == [old(next).value]
    {
      var start := offset;
      ReadChar();
      data := text[start..offset];
    }

    /**
     * The token branches of `next`, at a character that is not white space:
     * an identifier or an integer is the run of its class, an operator or
     * any other character is that character alone. The token carries the
     * position of its first character.
     */
    method ReadToken() returns (tok: Token)
      requires Valid() && next.Some? && !IsWhitespace(next.value)
      modifies this
      ensures Valid() && offset == ScanAt(text, old(offset)).end
      ensures tok == Token(text[old(offset)..offset], ScanAt(text, old(offset)).kind, old(line), old(column))
    {
      var c := next.value;
      if StartsIdentifier(c) {
        tok := Token([], Identifier, line, column);
        var data := GetRange(AlphanumericOrUnderscore);
        tok := tok.(data := data);
      } else if IsDigit(c) {
        tok := Token([], Integer, line, column);
        var data := GetRange(Digit);
        tok := tok.(data := data);
      } else if c in OPERATORS {
        tok := Token([], Operator, line, column);
        var data := GetSingle();
        tok := tok.(data := data);
      } else {
        tok := Token([], Unknown, line, column);
        var data := GetSingle();
        tok := tok.(data := data);
      }
    }

    /**
     * `next`: skips white space, a newline moving to the next line; then
     * yields the token at the first other character with that
     * character's position. At the end of the text it yields `None`, and
     * keeps doing so. (The source tests the token classes before white
     * space; the classes do not overlap, so the order does not matter.)
     */
    method Next() returns (r: Option<Token>)
      requires Valid()
      modifies this
      ensures Valid()
      ensures old(next).None? ==> r.None? && offset == old(offset)
      ensures r.None? ==> next.None?
      ensures r.None? <==> Tokens(text, old(offset)) == []
      ensures r.Some? ==>
        var k := RunEnd(text, old(offset), Whitespace);
        k < |text| && offset == ScanAt(text, k).end &&
        r.value == Token(text[k..offset], ScanAt(text, k).kind, PosAfter(text[..k]).line, PosAfter(text[..k]).column)
      ensures r.Some? ==> old(offset) < offset && Tokens(text, old(offset)) == [r.value.data] + Tokens(text, offset)
    {
      ghost var k := RunEnd(text, offset, Whitespace);
      TokensStep(text, offset);
      while next.Some?
        invariant Valid() && old(offset) <= offset <= k
        invariant RunEnd(text, offset, Whitespace) == k
        decreases |text| - offset
      {
        if !IsWhitespace(next.value) {
          var tok := ReadToken();
          return Some(tok);
        }
        SkipBlank();
      }
      return None;
    }

    /** The white-space branch of `next`: a newline moves to the next line. */
    method SkipBlank()
      requires Valid() && next.Some? && IsWhitespace(next.value)
      modifies this
      ensures Valid() && offset == old(offset) + 1
    {
      if next.value == '\n' {
        line := line + 1;
        column := 0;
      }
      ReadChar();
    }
  }

  /** A `next` that yields a token. */
  method NextToken(lexer: Lexer, ghost k: nat) returns (r: Option<Token>)
    requires lexer.Valid() && lexer.offset <= k < |lexer.text|
    requires RunEnd(lexer.text, lexer.offset, Whitespace) == k
    modifies lexer
    ensures lexer.Valid() && lexer.offset == ScanAt(lexer.text, k).end
    ensures r == Some(Token(lexer.text[k..lexer.offset], ScanAt(lexer.text, k).kind, PosAfter(lexer.text[..k]).line, PosAfter(lexer.text[..k]).column))
  {
    r := lexer.Next();
  }

  /** Where the tokens of the example text start. */
  lemma ExamplePositions(text: seq<char>)
    requires text == "ab\n ,12"
    ensures PosAfter(text[..0]) == Pos(1, 1)
    ensures PosAfter(text[..4]) == Pos(2, 2)
    ensures PosAfter(text[..5]) == Pos(2, 3)
  {
    assert text[..0] == [];
    PosAfterNoNewline([], "ab");
    assert [] + "ab" == "ab";
    PosAfterNewline("ab");
    assert "ab" + ['\n'] == "ab\n";
    PosAfterNoNewline("ab\n", " ");
    assert text[..4] == "ab\n" + " ";
    PosAfterNoNewline("ab\n", " ,");
    assert text[..5] == "ab\n" + " ,";
  }

  /** Where the tokens of the example text start and end. */
  lemma ExampleScans(text: seq<char>)
    requires text == "ab\n ,12"
    ensures RunEnd(text, 0, Whitespace) == 0 && ScanAt(text, 0) == Scan(Identifier, 2) && text[0..2] == "ab"
    ensures RunEnd(text, 2, Whitespace) == 4 && ScanAt(text, 4) == Scan(Operator, 5) && text[4..5] == ","
    ensures RunEnd(text, 5, Whitespace) == 5 && ScanAt(text, 5) == Scan(Integer, 7) && text[5..7] == "12"
    ensures RunEnd(text, 7, Whitespace) == 7
  {
    assert RunEnd(text, 2, AlphanumericOrUnderscore) == 2;
    assert text[2] == '\n' && text[3] == ' ' && text[4] == ',';
    assert RunEnd(text, 4, Whitespace) == 4;
    assert RunEnd(text, 7, Digit) == 7;
  }

  /** `ab`, a newline, a blank, `,` and `12` lex to three tokens, the last two on line 2, and then end. */
  method LexerExample() returns (tokens: seq<Option<Token>>)
    ensures tokens == [
      Some(Token("ab", Identifier, 1, 1)),
      Some(Token(",", Operator, 2, 2)),
      Some(Token("12", Integer, 2, 3)),
      None]
  {
    var text := "ab\n ,12";
    ExamplePositions(text);
    ExampleScans(text);
    var lexer := new Lexer(text);
    var r0 := NextToken(lexer, 0);
    var r1 := NextToken(lexer, 4);
    var r2 := NextToken(lexer, 5);
    var r3 := lexer.Next();
    tokens := [r0, r1, r2, r3];
  }
}
