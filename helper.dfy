/** Span arithmetic and the decoding of quoted text */
module Helper {
  import opened Rules
  import opened Errors

  // ---------------------------------------------------------------------------
  // Spans

  /** The smallest span covering both arguments, where a span ending at 0
      counts as absent and is ignored. */
  function Join(first: Span, second: Span): (r: Span)
    ensures first.end == 0 ==> r == second
    ensures first.end != 0 && second.end == 0 ==> r == first
    ensures first.end != 0 && second.end != 0 ==>
      Covers(r, first) && Covers(r, second)
      && (r.start == first.start || r.start == second.start)
      && (r.end == first.end || r.end == second.end)
  {
    if first.end == 0 then second
    else if second.end == 0 then first
    else Span(Min(first.start, second.start), Max(first.end, second.end))
  }

  function Min(a: nat, b: nat): nat {
    if a <= b then a else b
  }

  function Max(a: nat, b: nat): nat {
    if a >= b then a else b
  }

  /** Joining two present spans does not depend on their order */
  lemma JoinCommutative(a: Span, b: Span)
    requires a.end != 0 && b.end != 0
    ensures Join(a, b) == Join(b, a)
  {
  }

  /** Joining two present spans never gives an absent one */
  lemma JoinPresent(a: Span, b: Span)
    requires a.end != 0 || b.end != 0
    ensures Join(a, b).end != 0
  {
  }

  /** The order in which a chain of spans is joined does not matter */
  lemma JoinAssociative(a: Span, b: Span, c: Span)
    ensures Join(Join(a, b), c) == Join(a, Join(b, c))
  {
  }

  /** Joining spans that lie within a text of length `n` gives one that does */
  lemma JoinValid(a: Span, b: Span, n: nat)
    requires ValidSpan(a, n) && ValidSpan(b, n)
    ensures ValidSpan(Join(a, b), n)
  {
  }

  // ---------------------------------------------------------------------------
  // Quoted text

  /** `input.slice(1, input.length - 1)`: the input without its first and last
      characters, and empty when there are fewer than two. */
  function StripFirstLast(input: string): (r: string)
    ensures |input| >= 2 ==> |r| == |input| - 2 && forall i :: 0 <= i < |r| ==> r[i] == input[i + 1]
    ensures |input| < 2 ==> r == []
  {
    if |input| < 2 then [] else input[1..|input| - 1]
  }

  /** The replacement of every `\\` by `\` and every `\"` by `"`, scanning
      from left to right; any other backslash is kept. */
  function Unescape(s: string): (r: string)
    ensures |r| <= |s|
    decreases |s|
  {
    if |s| >= 2 && s[0] == '\\' && (s[1] == '\\' || s[1] == '"') then [s[1]] + Unescape(s[2..])
    else if |s| == 0 then []
    else [s[0]] + Unescape(s[1..])
  }

  /** The text of a string literal: the delimiters removed and, for a double
      quote only, the two escapes resolved. A single-quoted text keeps every
      backslash; a double-quoted one only gets shorter. */
  function ParseQuotedText(input: string): (r: string)
    ensures |input| >= 2 && input[0] != '"' ==> r == input[1..|input| - 1]
    ensures |input| >= 2 && input[0] == '"' ==> |r| <= |input| - 2
    ensures |input| < 2 ==> r == []
  {
    if |input| > 0 && input[0] == '"' then Unescape(StripFirstLast(input))
    else StripFirstLast(input)
  }

  /** `Unescape` by cases: `\\` and `\"` become the escaped character; a
      backslash before any other character, or at the very end, is kept
      together with what follows it; any other character is kept. */
  lemma UnescapeCases(s: string)
    ensures |s| == 0 ==> Unescape(s) == []
    ensures |s| >= 2 && s[0] == '\\' && (s[1] == '\\' || s[1] == '"') ==> Unescape(s) == [s[1]] + Unescape(s[2..])
    ensures |s| >= 2 && s[0] == '\\' && s[1] != '\\' && s[1] != '"' ==> Unescape(s) == ['\\', s[1]] + Unescape(s[2..])
    ensures s == ['\\'] ==> Unescape(s) == s
    ensures |s| > 0 && s[0] != '\\' ==> Unescape(s) == [s[0]] + Unescape(s[1..])
  {
    if |s| >= 2 && s[0] == '\\' && s[1] != '\\' && s[1] != '"' {
      var t := s[1..];
      assert t[0] == s[1] && t[1..] == s[2..];
      assert Unescape(t) == [t[0]] + Unescape(t[1..]);
      assert Unescape(s) == [s[0]] + Unescape(t);
    }
  }

  /** A double-quoted literal keeps a backslash before any character other
      than a backslash or a double quote: `"\n"` decodes to `\n` */
  lemma UnescapeKeepsOtherEscapes(c: char, rest: string)
    requires c != '\\' && c != '"'
    ensures ParseQuotedText(['"', '\\', c] + rest + ['"']) == ['\\', c] + Unescape(rest)
  {
    var input := ['"', '\\', c] + rest + ['"'];
    assert StripFirstLast(input) == ['\\', c] + rest;
    UnescapeCases(['\\', c] + rest);
    assert (['\\', c] + rest)[2..] == rest;
  }

  /** Text without a backslash is left alone by `Unescape` */
  lemma {:induction false} UnescapePlain(s: string)
    requires forall i :: 0 <= i < |s| ==> s[i] != '\\'
    ensures Unescape(s) == s
    decreases |s|
  {
    if |s| > 0 {
      UnescapePlain(s[1..]);
      assert s == [s[0]] + s[1..];
    }
  }

  /** The escaping a double-quoted literal needs: a backslash before every
      backslash and every double quote */
  function Escape(s: string): (r: string)
    ensures |r| >= |s|
  {
    if |s| == 0 then []
    else if s[0] == '\\' || s[0] == '"' then ['\\', s[0]] + Escape(s[1..])
    else [s[0]] + Escape(s[1..])
  }

  /** `Unescape` undoes `Escape` */
  lemma {:induction false} UnescapeEscape(s: string)
    ensures Unescape(Escape(s)) == s
  {
    if |s| > 0 {
      UnescapeEscape(s[1..]);
      var e := Escape(s);
      if s[0] == '\\' || s[0] == '"' {
        assert e[2..] == Escape(s[1..]);
      } else {
        assert e[1..] == Escape(s[1..]);
      }
      assert s == [s[0]] + s[1..];
    }
  }

  /** A double-quoted literal built by escaping any text parses back to
      that text; a single-quoted one gives back its contents unchanged. */
  lemma QuotedRoundTrip(s: string)
    ensures ParseQuotedText(['"'] + Escape(s) + ['"']) == s
    ensures ParseQuotedText(['\''] + s + ['\'']) == s
  {
    var dq := ['"'] + Escape(s) + ['"'];
    assert StripFirstLast(dq) == Escape(s);
    UnescapeEscape(s);
    var sq := ['\''] + s + ['\''];
    assert StripFirstLast(sq) == s;
  }

  // ---------------------------------------------------------------------------
  // Range endpoints in character classes

  /** A range endpoint: the raw text of a string token, or a code point
      written as `U+...` or as a shorthand such as `n` */
  datatype StringOrChar = Quoted(text: string) | CodePointChar(codePoint: nat, isShorthand: bool)

  /** The single code point a range endpoint denotes. A string must decode to
      exactly one character. */
  function StringOrCharToString(c: StringOrChar, span: Span): (r: Result<nat>)
    ensures c.CodePointChar? ==> r == Ok(c.codePoint)
    ensures c.Quoted? ==>
      var content := ParseQuotedText(c.text);
      && (|content| == 0 <==> r == Throw(Fail(EmptyStringInCharSetRange, span)))
      && (|content| > 1 <==> r == Throw(Fail(StringTooLongInCharSetRange, span)))
      && (|content| == 1 <==> r.Ok?)
      && (r.Ok? ==> r.value == content[0] as nat && IsValidCodePoint(r.value))
  {
    match c
    case CodePointChar(codePoint, _) => Ok(codePoint)
    case Quoted(text) =>
      var content := ParseQuotedText(text);
      if |content| == 0 then Throw(Fail(EmptyStringInCharSetRange, span))
      else if |content| > 1 then Throw(Fail(StringTooLongInCharSetRange, span))
      else Ok(content[0] as nat)
  }
}
