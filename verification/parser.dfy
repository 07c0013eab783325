/**
 * The backtracking parser combinators of `src/parser.rs`. A parser reads
 * from the front of a text cursor (a `&mut &str` that it moves forward)
 * and either yields a value or an error. Every parser keeps one rule: on
 * error the cursor is where it was, and on success the cursor is a suffix
 * of what it was. `Tag` matches a fixed string, a pair runs two parsers in
 * sequence, `Map` post-processes the value with a function that may fail,
 * and `Opt` turns failure into `None`.
 *
 * The outputs of the source's parsers have one Rust type per parser; here
 * they form one datatype of values. The position in an error is the
 * source's address in the text; here it is the number of characters left
 * at that point, which names the same place in a given input.
 */
module Parsers {
  /** Where and why parsing failed: `err` and the position of the cursor. */
  datatype Error = Error(err: string, remaining: nat)

  datatype Result<T> = Ok(value: T) | Err(error: Error)

  /** What the parsers yield. */
  datatype Value =
    | Str(s: string)
    | Tuple(first: Value, second: Value)
    | Present(inner: Value)
    | Absent
    | Bool(b: bool)

  /** The combinators; `map`, `pair` and `opt` only build these. */
  datatype Parser =
    | Tag(tag: string, msg: string)
    | Pair(left: Parser, right: Parser)
    | Map(par: Parser, fun: Value -> Result<Value>)
    | Opt(opt: Parser)

  /** `s` is what is left of `t` after reading some characters from its front. */
  predicate IsSuffix(s: string, t: string)
  {
    |s| <= |t| && t[|t| - |s|..] == s
  }

  lemma SuffixTransitive(s: string, t: string, u: string)
    requires IsSuffix(s, t) && IsSuffix(t, u)
    ensures IsSuffix(s, u)
  {
    assert u[|u| - |s|..] == u[|u| - |t|..][|t| - |s|..];
  }

  /** The value or error of a parse, and what is left of the text. */
  datatype Outcome = Outcome(result: Result<Value>, rest: string)

  /**
   * What `parse` yields and where it leaves the cursor. The contract is the
   * rule every parser keeps: an error leaves the text as it was, a success
   * leaves a suffix of it.
   */
  function Run(p: Parser, text: string): (r: Outcome)
    ensures r.result.Err? ==> r.rest == text
    ensures r.result.Ok? ==> IsSuffix(r.rest, text)
    decreases p
  {
    match p
    case Tag(tag, msg) =>
      if tag <= text then Outcome(Ok(Str(tag)), text[|tag|..]) else Outcome(Err(Error(msg, |text|)), text)
    case Pair(p0, p1) =>
      var o0 := Run(p0, text);
      if o0.result.Err? then
        Outcome(o0.result, o0.rest)
      else
        var o1 := Run(p1, o0.rest);
        if o1.result.Err? then
          Outcome(o1.result, text)
        else
          SuffixTransitive(o1.rest, o0.rest, text);
          Outcome(Ok(Tuple(o0.result.value, o1.result.value)), o1.rest)
    case Map(par, fun) =>
      var o := Run(par, text);
      if o.result.Err? then
        Outcome(o.result, o.rest)
      else
        var v := fun(o.result.value);
        if v.Err? then Outcome(v, text) else Outcome(v, o.rest)
    case Opt(par) =>
      var o := Run(par, text);
      if o.result.Ok? then Outcome(Ok(Present(o.result.value)), o.rest) else Outcome(Ok(Absent), o.rest)
  }

  /** A `Tag` succeeds exactly when the text starts with the tag, and then consumes just the tag. */
  lemma TagParses(tag: string, msg: string, text: string)
    ensures Run(Tag(tag, msg), text).result.Ok? <==> |tag| <= |text| && text[..|tag|] == tag
    ensures Run(Tag(tag, msg), text).result.Ok? ==>
      Run(Tag(tag, msg), text) == Outcome(Ok(Str(tag)), text[|tag|..]) && tag + text[|tag|..] == text
    ensures Run(Tag(tag, msg), text).result.Err? ==> Run(Tag(tag, msg), text).result.error == Error(msg, |text|)
  {
  }

  /**
   * A pair succeeds exactly when its first parser succeeds and its second
   * succeeds on what is left; otherwise it yields the first error and the
   * text is restored.
   */
  lemma PairParses(p0: Parser, p1: Parser, text: string)
    ensures var o0 := Run(p0, text);
      var o := Run(Pair(p0, p1), text);
      (o.result.Ok? <==> o0.result.Ok? && Run(p1, o0.rest).result.Ok?) &&
      (o.result.Ok? ==>
        o.result.value == Tuple(o0.result.value, Run(p1, o0.rest).result.value) && o.rest == Run(p1, o0.rest).rest) &&
      (o.result.Err? ==>
        o.rest == text &&
        o.result.error == (if o0.result.Err? then o0.result.error else Run(p1, o0.rest).result.error))
  {
  }

  /** `Map` succeeds exactly when its parser and then `fun` succeed; when `fun` fails the text is restored. */
  lemma MapParses(par: Parser, fun: Value -> Result<Value>, text: string)
    ensures var o0 := Run(par, text);
      var o := Run(Map(par, fun), text);
      (o.result.Ok? <==> o0.result.Ok? && fun(o0.result.value).Ok?) &&
      (o0.result.Ok? ==> o.result == fun(o0.result.value)) &&
      (o.result.Ok? ==> o.rest == o0.rest) &&
      (o.result.Err? ==> o.rest == text)
  {
  }

  /** `Opt` never fails: `Some` of the value on success, and `None` with the text untouched otherwise. */
  lemma OptNeverFails(par: Parser, text: string)
    ensures var o0 := Run(par, text);
      var o := Run(Opt(par), text);
      o.result.Ok? &&
      (o.result.value.Present? <==> o0.result.Ok?) &&
      (o0.result.Ok? ==> o == Outcome(Ok(Present(o0.result.value)), o0.rest)) &&
      (o0.result.Err? ==> o == Outcome(Ok(Absent), text))
  {
  }

  /** Regrouping a pair of pairs. */
  function Reassociate(v: Value): Value
  {
    match v
    case Tuple(Tuple(a, b), c) => Tuple(a, Tuple(b, c))
    case _ => v
  }

  /**
   * Pairing is associative: `((a, b), c)` and `(a, (b, c))` accept the same
   * texts, leave the same rest, fail with the same error, and yield the same
   * values up to regrouping.
   */
  lemma PairAssociative(a: Parser, b: Parser, c: Parser, text: string)
    ensures var l := Run(Pair(Pair(a, b), c), text);
      var r := Run(Pair(a, Pair(b, c)), text);
      l.rest == r.rest && l.result.Ok? == r.result.Ok? &&
      (l.result.Ok? ==> Reassociate(l.result.value) == r.result.value) &&
      (l.result.Err? ==> l.result.error == r.result.error)
  {
    var oa := Run(a, text);
    if oa.result.Ok? {
      var ob := Run(b, oa.rest);
      if ob.result.Ok? {
        var oc := Run(c, ob.rest);
        assert Run(Pair(a, b), text) == Outcome(Ok(Tuple(oa.result.value, ob.result.value)), ob.rest);
        assert Run(Pair(b, c), oa.rest).result.Ok? == oc.result.Ok?;
      }
    }
  }

  /** The `&mut &str` that the parsers read from and move forward. */
  class Cursor {
    var text: string

    constructor (text: string)
      ensures this.text == text
    {
      this.text := text;
    }
  }

  /**
   * `parse`: reads from the cursor, which it moves past what it consumed; a
   * pair and `Map` restore it on a later failure.
   */
  method Parse(p: Parser, cursor: Cursor) returns (r: Result<Value>)
    modifies cursor
    ensures Outcome(r, cursor.text) == Run(p, old(cursor.text))
    decreases p
  {
    match p
    case Tag(tag, msg) =>
      var len := |tag|;
      if len <= |cursor.text| && cursor.text[..len] == tag {
        cursor.text := cursor.text[len..];
        r := Ok(Str(tag));
      } else {
        r := Err(Error(msg, |cursor.text|));
      }
    case Pair(p0, p1) =>
      var old_text := cursor.text;
      var r0 := Parse(p0, cursor);
      match r0 {
        case Err(err) =>
          r := Err(err);
        case Ok(val0) =>
          var r1 := Parse(p1, cursor);
          match r1 {
            case Err(err) =>
              cursor.text := old_text;
              r := Err(err);
            case Ok(val1) =>
              r := Ok(Tuple(val0, val1));
          }
      }
    case Map(par, fun) =>
      var old_text := cursor.text;
      var r0 := Parse(par, cursor);
      match r0 {
        case Err(err) =>
          r := Err(err);
        case Ok(val) =>
          r := fun(val);
          if r.Err? {
            cursor.text := old_text;
          }
      }
    case Opt(par) =>
      var r0 := Parse(par, cursor);
      match r0 {
        case Ok(val) =>
          r := Ok(Present(val));
        case Err(_) =>
          r := Ok(Absent);
      }
  }

  /** The runs behind `ParserExample`, one input at a time. */
  lemma ExampleRuns()
    ensures Run(Tag("1", "expected one"), "212") == Outcome(Err(Error("expected one", 3)), "212")
    ensures Run(Tag("2", "expected two"), "212") == Outcome(Ok(Str("2")), "12")
    ensures Run(Pair(Tag("1", "expected one"), Tag("1", "expected one")), "12")
      == Outcome(Err(Error("expected one", 1)), "12")
    ensures Run(Pair(Tag("1", "expected one"), Tag("2", "expected two")), "12")
      == Outcome(Ok(Tuple(Str("1"), Str("2"))), "")
  {
    assert "212"[0] != '1' && "2" <= "212" && "212"[1..] == "12";
    assert "1" <= "12" && "12"[1..] == "2";
    assert "2"[0] != '1' && "2" <= "2" && "2"[1..] == "";
  }

  /**
   * On `212`, the tag `1` fails and leaves 3 characters; the tag `2` reads
   * `2` and leaves 2; the pair of two `1`s fails at the second `1`, one
   * character before the end, and still leaves 2; the
   * pair of `1` and `2` reads both and leaves none.
   */
  method ParserExample() returns (results: seq<Result<Value>>, lengths: seq<nat>)
    ensures |results| == 4 && |lengths| == 4
    ensures results[0] == Err(Error("expected one", 3)) && lengths[0] == 3
    ensures results[1] == Ok(Str("2")) && lengths[1] == 2
    ensures results[2] == Err(Error("expected one", 1)) && lengths[2] == 2
    ensures results[3] == Ok(Tuple(Str("1"), Str("2"))) && lengths[3] == 0
  {
    ExampleRuns();
    var cursor := new Cursor("212");
    var tag1 := Tag("1", "expected one");
    var tag2 := Tag("2", "expected two");
    var r0 := Parse(tag1, cursor);
    assert cursor.text == "212";
    var r1 := Parse(tag2, cursor);
    assert cursor.text == "12";
    var r2 := Parse(Pair(tag1, tag1), cursor);
    assert cursor.text == "12";
    var r3 := Parse(Pair(tag1, tag2), cursor);
    results := [r0, r1, r2, r3];
    lengths := [3, 2, 2, |cursor.text|];
  }

  /** On `12`, the tag `1` mapped to `true` yields `true` and leaves `2`. */
  method MapExample() returns (r: Result<Value>, rest: string)
    ensures r == Ok(Bool(true)) && rest == "2"
  {
    var tag1 := Tag("1", "expected one");
    assert "1" <= "12" && "12"[1..] == "2";
    var cursor := new Cursor("12");
    r := Parse(Map(tag1, _ => Ok(Bool(true))), cursor);
    rest := cursor.text;
  }
}
