/** The recursive-descent parser: a cursor over the token list and two
    ambient flags, building a `Rule` tree. Every production returns a
    `Result`; the first failure aborts the parse. */
module Parsing {
  import opened Options
  import opened Rules
  import opened Tokenizer
  import opened Errors
  import opened Helper

  // ---------------------------------------------------------------------------
  // Numbers

  predicate AllDigits(s: string) {
    forall k :: 0 <= k < |s| ==> IsAsciiDigit(s[k])
  }

  function DigitValue(c: char): (r: nat)
    requires IsAsciiDigit(c)
    ensures r < 10
  {
    c as int - '0' as int
  }

  /** The value of a string of decimal digits, most significant first */
  function DecimalValue(s: string): nat
    requires AllDigits(s)
  {
    if |s| == 0 then 0 else DecimalValue(s[..|s| - 1]) * 10 + DigitValue(s[|s| - 1])
  }

  /** `+text` on the text of a number token. A run of digits converts to its
      value; any other text, in particular one holding `_`, converts to NaN,
      written `None`. */
  function NumberValue(text: string): (r: Option<nat>)
    ensures r.Some? <==> AllDigits(text)
    ensures r.Some? ==> r.value == DecimalValue(text)
  {
    if AllDigits(text) then Some(DecimalValue(text)) else None
  }

  function Pow2(n: nat): nat {
    if n == 0 then 1 else 2 * Pow2(n - 1)
  }

  /** 2^1024 - 2^970: the least integer that rounds to infinity as a double
      (the midpoint between the largest finite double, 2^1024 - 2^971, and
      2^1024, which ties to the even neighbour, infinity) */
  const DoubleOverflow: int := Pow2(1024) - Pow2(970)

  /** `Number.isFinite` of the double that an integer literal converts to */
  predicate IsFiniteNumber(v: nat) {
    v < DoubleOverflow
  }

  // ---------------------------------------------------------------------------
  // Code points

  predicate AllHex(s: string) {
    forall k :: 0 <= k < |s| ==> IsHexDigit(s[k])
  }

  function HexDigitValue(c: char): (r: nat)
    requires IsHexDigit(c)
    ensures r < 16
  {
    if '0' <= c <= '9' then c as int - '0' as int
    else if 'a' <= c <= 'f' then c as int - 'a' as int + 10
    else c as int - 'A' as int + 10
  }

  /** `Number.parseInt(s, 16)` on a string of hex digits */
  function HexValue(s: string): nat
    requires AllHex(s)
  {
    if |s| == 0 then 0 else HexValue(s[..|s| - 1]) * 16 + HexDigitValue(s[|s| - 1])
  }

  /** `text.replace(/^U\s*\+?\s*\/, '')`: drops a leading `U`, whitespace, an
      optional `+` and more whitespace; text not starting with `U` is kept. */
  function StripCodePointPrefix(text: string): (r: string)
    ensures |r| <= |text|
  {
    if |text| == 0 || text[0] != 'U' then text
    else
      var plus := 1 + Run(text[1..], IsWhitespace);
      var afterPlus := if plus < |text| && text[plus] == '+' then plus + 1 else plus;
      text[afterPlus + Run(text[afterPlus..], IsWhitespace)..]
  }

  /** What is left of a code-point lexeme after its prefix is dropped is a
      nonempty string of hex digits */
  lemma CodePointDigits(text: string)
    requires IsCodePointLexeme(text)
    ensures var d := StripCodePointPrefix(text); |d| > 0 && AllHex(d)
  {
    var plus := 1 + Run(text[1..], IsWhitespace);
    var digits := plus + 1 + Run(text[plus + 1..], IsWhitespace);
    var d := StripCodePointPrefix(text);
    assert d == text[digits..];
    forall k | 0 <= k < |d| ensures IsHexDigit(d[k]) {
      assert d[k] == text[digits + k];
    }
  }

  /** The value a code-point lexeme denotes */
  function CodePointValue(text: string): nat
    requires IsCodePointLexeme(text)
  {
    CodePointDigits(text);
    HexValue(StripCodePointPrefix(text))
  }

  /** The shorthand code points allowed in character classes: `n`, `r`, `t`,
      `a`, `e` and `f` */
  function SpecialChar(name: string): (r: Option<nat>)
    ensures r.Some? <==> name in {"n", "r", "t", "a", "e", "f"}
    ensures r.Some? ==> IsValidCodePoint(r.value) && r.value < 0x20
  {
    if name == "n" then Some(0x0A)
    else if name == "r" then Some(0x0D)
    else if name == "t" then Some(0x09)
    else if name == "a" then Some(0x07)
    else if name == "e" then Some(0x1B)
    else if name == "f" then Some(0x0C)
    else None
  }

  // ---------------------------------------------------------------------------
  // Checks made while parsing

  /** The repetition `{lower,upper}` or `{lower}` once its numbers are read.
      With a comma a missing lower bound is 0 and the bounds are checked only
      when the upper one is present and nonzero, so `{5,0}` is accepted.
      Without a comma exactly the lower bound must be present. */
  function BracesRepetition(lower: Option<nat>, comma: bool, upper: Option<nat>,
                            numSpan: Span, numEnd: Span, here: Span): (r: Result<RepetitionKind>)
    ensures comma ==>
      var low := if lower.Some? then lower.value else 0;
      if upper.Some? && upper.value != 0 && low > upper.value
      then r == Throw(Fail(NotAscendingRepetition, numSpan))
      else r == Ok(RepetitionKind(low, upper))
    ensures !comma && lower.Some? && upper.Some? ==> r == Throw(ExpectedError(numEnd, ExpectsBraceOrComma))
    ensures !comma && lower.Some? && upper.None? ==> r == Ok(RepetitionKind(lower.value, lower))
    ensures !comma && lower.None? ==> r == Throw(ExpectedError(here, ExpectsNumber))
    ensures (r.Ok? && (lower.Some? ==> lower.value <= MaxRepetitionBound)
             && (upper.Some? ==> upper.value <= MaxRepetitionBound))
            ==> RepetitionWellFormed(r.value)
  {
    if comma then
      var kind := RepetitionKind(if lower.Some? then lower.value else 0, upper);
      if upper.Some? && upper.value != 0 && kind.lower > upper.value
      then Throw(Fail(NotAscendingRepetition, numSpan))
      else Ok(kind)
    else if lower.Some? && upper.Some? then Throw(ExpectedError(numEnd, ExpectsBraceOrComma))
    else if lower.Some? then Ok(RepetitionKind(lower.value, Some(lower.value)))
    else Throw(ExpectedError(here, ExpectsNumber))
  }

  /** A capture name must match `[a-zA-Z0-9]*`, and only then is its length
      checked against 128. */
  function CheckGroupName(name: string, span: Span): (r: Result<GroupKindOrName>)
    ensures r.Ok? <==> IsValidGroupName(name)
    ensures r.Ok? ==> r.value == GroupName(name)
    ensures !(forall i :: 0 <= i < |name| ==> IsAsciiAlphanumeric(name[i])) ==>
      r == Throw(Fail(InvalidCharsInGroupName, span))
    ensures (forall i :: 0 <= i < |name| ==> IsAsciiAlphanumeric(name[i])) && |name| > MaxGroupNameLength ==>
      r == Throw(Fail(GroupNameTooLong, span))
  {
    if !(forall i :: 0 <= i < |name| ==> IsAsciiAlphanumeric(name[i])) then Throw(Fail(InvalidCharsInGroupName, span))
    else if |name| > 128 then Throw(Fail(GroupNameTooLong, span))
    else Ok(GroupName(name))
  }

  /** The radix of a `range`: 10 without `base`, otherwise the given number,
      which must lie in 2..36 */
  function RangeRadix(base: Option<nat>, span: Span): (r: Result<nat>)
    ensures base.None? ==> r == Ok(10)
    ensures base.Some? ==> (r.Ok? <==> 2 <= base.value <= 36)
    ensures base.Some? && r.Ok? ==> r.value == base.value
    ensures r.Throw? ==> r == Throw(Fail(InvalidRangeBase, span))
    ensures r.Ok? ==> 2 <= r.value <= 36
  {
    if base.None? then Ok(10)
    else if base.value > 36 || base.value < 2 then Throw(Fail(InvalidRangeBase, span))
    else Ok(base.value)
  }

  /** The items a string denotes inside a character class: one code point
      per character of its decoded text */
  function QuotedChars(text: string): (r: seq<GroupItem>)
    ensures var content := ParseQuotedText(text);
      |r| == |content| && forall i :: 0 <= i < |r| ==> r[i] == Char(content[i] as nat)
    ensures forall i :: 0 <= i < |r| ==> r[i].Char? && IsValidCodePoint(r[i].codePoint)
  {
    var content := ParseQuotedText(text);
    seq(|content|, i requires 0 <= i < |content| => Char(content[i] as nat))
  }

  /** The members a single string, code point or shorthand denotes in a
      class */
  function ItemsOf(c: StringOrChar): (r: seq<GroupItem>)
    ensures c.Quoted? ==> r == QuotedChars(c.text)
    ensures c.CodePointChar? ==> r == [Char(c.codePoint)]
  {
    match c
    case Quoted(text) => QuotedChars(text)
    case CodePointChar(c, _) => [Char(c)]
  }

  /** The test case a `match` statement denotes. With `in` it matches all the
      strings; otherwise it must have at most one string, and with none there
      is no test case. */
  function TestCaseOf(matches: seq<TestMatch>, literal: Option<QuotedLiteral>): (r: Result<Option<TestCase>>)
    ensures literal.Some? ==> r == Ok(Some(MatchAll(literal.value, matches)))
    ensures literal.None? && |matches| > 1 ==>
      r == Throw(Fail(MultipleStringsInTestCase, Join(matches[0].span, matches[|matches| - 1].span)))
    ensures literal.None? && |matches| == 1 ==> r == Ok(Some(Match(matches[0])))
    ensures literal.None? && |matches| == 0 ==> r == Ok(None)
  {
    if literal.Some? then Ok(Some(MatchAll(literal.value, matches)))
    else if |matches| > 1 then
      Throw(Fail(MultipleStringsInTestCase, Join(matches[0].span, matches[|matches| - 1].span)))
    else if |matches| == 1 then Ok(Some(Match(matches[0])))
    else Ok(None)
  }

  // ---------------------------------------------------------------------------
  // Statements in front of an expression

  /** The statements wrapped around `inner`, the first one outermost; every
      wrapper's span joins its statement's span with `spanEnd` */
  function Nest(stmts: seq<(Stmt, Span)>, inner: Rule, spanEnd: Span): Rule {
    if |stmts| == 0 then inner
    else
      var (stmt, span) := stmts[|stmts| - 1];
      Nest(stmts[..|stmts| - 1], StmtExpr(stmt, inner, Join(span, spanEnd)), spanEnd)
  }

  /** Wraps the rule in the statements, innermost (last) first */
  method NestStatements(stmts: seq<(Stmt, Span)>, inner: Rule) returns (rule: Rule)
    ensures rule == Nest(stmts, inner, inner.span)
  {
    var spanEnd := inner.span;
    rule := inner;
    var i := |stmts|;
    assert stmts[..i] == stmts;
    while i > 0
      invariant 0 <= i <= |stmts|
      invariant Nest(stmts[..i], rule, spanEnd) == Nest(stmts, inner, spanEnd)
    {
      assert stmts[..i][..i - 1] == stmts[..i - 1];
      i := i - 1;
      var (stmt, span) := stmts[i];
      rule := StmtExpr(stmt, rule, Join(span, spanEnd));
    }
  }

  /** The value a flag has after `stmts`, starting from `value`: the last
      `enable` or `disable` of `setting` among them decides, if there is one */
  function SettingAfter(stmts: seq<(Stmt, Span)>, setting: BooleanSetting, value: bool): bool
    decreases |stmts|
  {
    if |stmts| == 0 then value
    else
      var last := stmts[|stmts| - 1].0;
      if (last.Enable? || last.Disable?) && last.setting == setting then last.Enable?
      else SettingAfter(stmts[..|stmts| - 1], setting, value)
  }

  /** The first statement is the outermost wrapper, around the nesting of the
      others */
  lemma {:induction false} NestFirstOutermost(stmts: seq<(Stmt, Span)>, inner: Rule, spanEnd: Span)
    requires |stmts| > 0
    ensures Nest(stmts, inner, spanEnd)
      == StmtExpr(stmts[0].0, Nest(stmts[1..], inner, spanEnd), Join(stmts[0].1, spanEnd))
    decreases |stmts|
  {
    if |stmts| > 1 {
      var last := stmts[|stmts| - 1];
      var wrapped := StmtExpr(last.0, inner, Join(last.1, spanEnd));
      var front := stmts[..|stmts| - 1];
      NestFirstOutermost(front, wrapped, spanEnd);
      assert front[1..] == stmts[1..][..|stmts[1..]| - 1];
    }
  }

  /** Nesting well-formed statements around a well-formed rule gives a
      well-formed rule */
  lemma {:induction false} NestWellFormed(stmts: seq<(Stmt, Span)>, inner: Rule, spanEnd: Span, n: nat)
    requires forall i :: 0 <= i < |stmts| ==> StmtWellFormed(stmts[i].0, n) && ValidSpan(stmts[i].1, n)
    requires WellFormed(inner, n) && ValidSpan(spanEnd, n)
    ensures WellFormed(Nest(stmts, inner, spanEnd), n)
    decreases |stmts|
  {
    if |stmts| > 0 {
      var (stmt, span) := stmts[|stmts| - 1];
      NestWellFormed(stmts[..|stmts| - 1], StmtExpr(stmt, inner, Join(span, spanEnd)), spanEnd, n);
    }
  }

  /** A well-formed rule has a valid span */
  lemma WellFormedSpan(r: Rule, n: nat)
    requires WellFormed(r, n)
    ensures ValidSpan(r.span, n)
  {
  }

  /** A literal with a valid span is well formed */
  lemma LiteralRuleWellFormed(content: string, span: Span, n: nat)
    requires ValidSpan(span, n)
    ensures WellFormed(Literal(content, span), n)
  {
  }

  /** An alternation of two or more well-formed rules is well formed */
  lemma AlternationWellFormed(rules: seq<Rule>, span: Span, n: nat)
    requires |rules| >= 2 && forall i :: 0 <= i < |rules| ==> WellFormed(rules[i], n)
    requires ValidSpan(span, n)
    ensures WellFormed(Alternation(rules, span), n)
  {
  }

  /** A group around one well-formed rule is well formed when its kind
      allows one rule */
  lemma SingleGroupWellFormed(rule: Rule, kind: GroupKindOrName, span: Span, n: nat)
    requires WellFormed(rule, n) && GroupWellFormed([rule], kind) && ValidSpan(span, n)
    ensures WellFormed(Group([rule], kind, span), n)
  {
  }

  /** An intersection of two or more well-formed rules is well formed */
  lemma IntersectionWellFormed(rules: seq<Rule>, span: Span, n: nat)
    requires |rules| >= 2 && forall i :: 0 <= i < |rules| ==> WellFormed(rules[i], n)
    requires ValidSpan(span, n)
    ensures WellFormed(Intersection(rules, span), n)
  {
  }

  /** A negation of a well-formed rule, spanning the rule and the `!`s, is
      well formed */
  lemma NegationWellFormed(rule: Rule, notSpan: Span, n: nat)
    requires WellFormed(rule, n) && ValidSpan(notSpan, n)
    ensures WellFormed(Negation(rule, notSpan, Join(rule.span, notSpan)), n)
  {
  }

  /** A repetition with checked bounds of a well-formed rule is well formed */
  lemma RepeatedWellFormed(rule: Rule, kind: RepetitionKind, quantifier: Quantifier, span: Span, n: nat)
    requires WellFormed(rule, n) && RepetitionWellFormed(kind) && ValidSpan(span, n)
    ensures WellFormed(Repetition(rule, kind, quantifier, Join(rule.span, span)), n)
  {
  }

  /** `rule` under `n` negations, the innermost first, each carrying the span
      of all the `!`s and spanning the rule it negates joined with them */
  function Negated(rule: Rule, n: nat, notsSpan: Span): Rule {
    if n == 0 then rule
    else
      var inner := Negated(rule, n - 1, notsSpan);
      Negation(inner, notsSpan, Join(inner.span, notsSpan))
  }

  /** How many negations wrap a rule */
  function NegationDepth(rule: Rule): nat {
    if rule.Negation? then 1 + NegationDepth(rule.rule) else 0
  }

  /** Negating a rule that is not itself a negation `n` times nests exactly
      `n` negations around it, each with the span of the `!`s */
  lemma {:induction false} NegatedDepth(rule: Rule, n: nat, notsSpan: Span)
    requires !rule.Negation?
    ensures NegationDepth(Negated(rule, n, notsSpan)) == n
    ensures n > 0 ==> Negated(rule, n, notsSpan).notSpan == notsSpan
  {
    if n > 0 {
      NegatedDepth(rule, n - 1, notsSpan);
    }
  }

  /** Negations of a well-formed rule are well formed */
  lemma {:induction false} NegatedWellFormed(rule: Rule, n: nat, notsSpan: Span, size: nat)
    requires WellFormed(rule, size) && ValidSpan(notsSpan, size)
    ensures WellFormed(Negated(rule, n, notsSpan), size)
  {
    if n > 0 {
      NegatedWellFormed(rule, n - 1, notsSpan, size);
      NegationWellFormed(Negated(rule, n - 1, notsSpan), notsSpan, size);
    }
  }

  /** What the fixes of a sequence give: nothing for none, the fix itself
      for one, and an implicit group spanning the first to the last for more */
  function SequenceOf(fixes: seq<Rule>): (r: Option<Rule>)
    ensures r.None? <==> fixes == []
  {
    if |fixes| == 0 then None
    else if |fixes| == 1 then Some(fixes[0])
    else Some(Group(fixes, Implicit, Join(fixes[0].span, fixes[|fixes| - 1].span)))
  }

  /** The sequence of well-formed fixes is well formed */
  lemma SequenceOfWellFormed(fixes: seq<Rule>, n: nat)
    requires fixes != [] && forall i :: 0 <= i < |fixes| ==> WellFormed(fixes[i], n)
    ensures WellFormed(SequenceOf(fixes).value, n)
  {
    if |fixes| >= 2 {
      WellFormedSpan(fixes[0], n);
      WellFormedSpan(fixes[|fixes| - 1], n);
    }
  }

  // ---------------------------------------------------------------------------
  // What `Expected` errors say was expected

  const ExpectsExpression := "expression"
  const ExpectsNumber := "number"
  const ExpectsBraceOrComma := "`}` or `,`"
  const ExpectsNumberOrName := "number or group name"
  const ExpectsCharacter := "code point or character"
  const ExpectsMode := "`lazy` or `unicode`"
  const ExpectsSemicolon := "expression or `;`"
  const ExpectsCloseParen := "`)` or an expression"
  const ExpectsClassEnd := "character class, string, code point, Unicode property or `]`"

  // ---------------------------------------------------------------------------
  // Positions and flags

  /** What a production gives when it starts at some token: its value and
      the position after it, or the exception it raises */
  type Parsed<T> = Result<(T, nat)>

  /** The two flags that statements set and some atoms read */
  datatype Flags = Flags(isLazy: bool, isUnicodeAware: bool)

  /** The flags after `stmts`, starting from `f` */
  function FlagsAfter(f: Flags, stmts: seq<(Stmt, Span)>): Flags {
    Flags(SettingAfter(stmts, Laziness, f.isLazy), SettingAfter(stmts, UnicodeAwareness, f.isUnicodeAware))
  }

  // ---------------------------------------------------------------------------
  // The parser

  class Parser {
    const source: string
    const tokens: seq<Token>
    var offset: nat
    var isLazy: bool
    var isUnicodeAware: bool

    /** The cursor lies within the token list, and the tokens are those of a
        lexer: ordered, within the source, code points well shaped */
    ghost predicate Valid()
      reads this`offset
    {
      offset <= |tokens| && TokensWellFormed(source, tokens)
    }

    /** A parser over the tokens of `source`, eager and Unicode-aware */
    constructor (t: UnicodeTables, source: string)
      ensures Valid() && this.source == source && tokens == Lex(t, source)
      ensures offset == 0 && !isLazy && isUnicodeAware
    {
      this.source := source;
      var toks := Tokenize(t, source);
      tokens := toks;
      offset := 0;
      isLazy := false;
      isUnicodeAware := true;
      new;
      LexWellFormed(t, source);
    }

    // -------------------------------------------------------------------------
    // The cursor

    /** The text of token `i` */
    function TokenText(i: nat): string
      requires TokensWellFormed(source, tokens) && i < |tokens|
    {
      assert TokenPlaced(source, tokens, i);
      source[tokens[i].start..tokens[i].end]
    }

    function TokenSpan(i: nat): (s: Span)
      requires TokensWellFormed(source, tokens) && i < |tokens|
      ensures ValidSpan(s, |source|) && s.start < s.end
    {
      assert TokenPlaced(source, tokens, i);
      Span(tokens[i].start, tokens[i].end)
    }

    /** The span from the start of token `i` to the end of token `j` */
    function TokensSpan(i: nat, j: nat): (s: Span)
      requires TokensWellFormed(source, tokens) && i < |tokens| && j < |tokens|
      ensures ValidSpan(s, |source|)
    {
      Join(TokenSpan(i), TokenSpan(j))
    }

    /** Token `i` exists and has kind `kind` */
    predicate IsAt(i: nat, kind: TokenKind)
      ensures IsAt(i, kind) ==> i < |tokens|
    {
      i < |tokens| && tokens[i].kind == kind
    }

    /** Token `i` has kind `kind` and text `word` */
    predicate IsWordAt(i: nat, kind: TokenKind, word: string)
      requires TokensWellFormed(source, tokens)
      ensures IsWordAt(i, kind, word) ==> IsAt(i, kind) && TextAt(i, word)
    {
      IsAt(i, kind) && TokenText(i) == word
    }

    /** Token `i` exists and has text `word`, whatever its kind */
    predicate TextAt(i: nat, word: string)
      requires TokensWellFormed(source, tokens)
    {
      i < |tokens| && TokenText(i) == word
    }

    /** The span of token `i`; past the last token, the empty span at the end
        of the source */
    function SpanAt(i: nat): (s: Span)
      requires TokensWellFormed(source, tokens)
      ensures ValidSpan(s, |source|)
    {
      if i < |tokens| then TokenSpan(i) else Span(|source|, |source|)
    }

    /** What `expect(kind)` throws when token `i` does not have that kind: an
        `ExpectedToken` error at it, or the type error of reading past the
        last token */
    function ExpectFailure(i: nat, kind: TokenKind): Exception
      requires TokensWellFormed(source, tokens)
    {
      if i < |tokens| then ExpectedTokenError(TokenSpan(i), kind) else TypeError
    }

    /** What `consumeNumber(max)` gives at token `i`: nothing without a number
        token, its value when that is at most `max`, else `NumberTooLarge` */
    function NumberAt(i: nat, max: nat): (r: Result<Option<nat>>)
      requires TokensWellFormed(source, tokens)
      ensures r.Ok? && r.value.Some? ==> r.value.value <= max
      ensures r.Ok? && r.value.None? <==> !IsAt(i, Number)
    {
      if !IsAt(i, Number) then Ok(None)
      else
        var v := NumberValue(TokenText(i));
        if v.Some? && v.value <= max then Ok(Some(v.value)) else Throw(Fail(NumberTooLarge, TokenSpan(i)))
    }

    /** What `expectNumber()` gives at token `i`: the value of a number token
        that is finite as a double, else `NumberTooLarge`, or the failure of
        expecting a number */
    function FiniteNumberAt(i: nat): Result<nat>
      requires TokensWellFormed(source, tokens)
    {
      if !IsAt(i, Number) then Throw(ExpectFailure(i, Number))
      else
        var v := NumberValue(TokenText(i));
        if v.Some? && IsFiniteNumber(v.value) then Ok(v.value) else Throw(Fail(NumberTooLarge, TokenSpan(i)))
    }

    /** The target of a reference whose `::` is token `k - 1`, and the
        position after it: `+n` and `-n` are relative, a number (at most
        65535) is absolute, and anything else must be a group name */
    function ReferenceTargetAt(k: nat): (r: Result<(ReferenceTarget, nat)>)
      requires TokensWellFormed(source, tokens)
      ensures r.Ok? ==> k < r.value.1 <= |tokens|
      ensures r.Ok? && r.value.0.ByNumber? ==> r.value.0.number <= MaxReferenceNumber
    {
      if IsAt(k, Plus) then
        var n :- FiniteNumberAt(k + 1);
        Ok((ByRelative(n), k + 2))
      else if IsAt(k, Dash) then
        var n :- FiniteNumberAt(k + 1);
        Ok((ByRelative(-(n as int)), k + 2))
      else if IsAt(k, Number) then
        var n :- NumberAt(k, MaxReferenceNumber);
        Ok((ByNumber(n.value), k + 1))
      else if IsAt(k, Identifier) then
        Ok((ByName(TokenText(k)), k + 1))
      else
        Throw(Rethrow(ExpectFailure(k, Identifier), ExpectsNumberOrName))
    }

    /** The range whose `range` keyword is token `i`, and the position after
        it: a string, `-` and a string, their quotes stripped, then the radix */
    function RangeAt(i: nat): (r: Result<(Rule, nat)>)
      requires TokensWellFormed(source, tokens) && i < |tokens|
      ensures r.Ok? ==> i + 4 <= r.value.1 <= |tokens| && r.value.0.Range? && WellFormed(r.value.0, |source|)
    {
      if !IsAt(i + 1, String) then Throw(ExpectFailure(i + 1, String))
      else if !IsAt(i + 2, Dash) then Throw(ExpectFailure(i + 2, Dash))
      else if !IsAt(i + 3, String) then Throw(ExpectFailure(i + 3, String))
      else
        var (radix, end) :- RangeRadixAt(i + 4);
        Ok((RangeOf(i, radix, end), end))
    }

    /** The range whose `range` keyword is token `i`, its strings tokens
        `i + 1` and `i + 3` with their quotes stripped, its radix `radix`,
        and its last token `end - 1` */
    function RangeOf(i: nat, radix: nat, end: nat): (r: Rule)
      requires TokensWellFormed(source, tokens) && i + 4 <= end <= |tokens| && 2 <= radix <= 36
      ensures r.Range? && WellFormed(r, |source|)
    {
      hide *;
      Range(StripFirstLast(TokenText(i + 1)), StripFirstLast(TokenText(i + 3)), radix, TokensSpan(i, end - 1))
    }

    /** The radix of a range whose second string is token `j - 1`, and the
        position after the range: `base` and a finite number that
        `RangeRadix` checks, or 10 without `base` */
    function RangeRadixAt(j: nat): (r: Result<(nat, nat)>)
      requires TokensWellFormed(source, tokens) && 0 < j <= |tokens|
      ensures r.Ok? ==> j <= r.value.1 <= |tokens| && 2 <= r.value.0 <= 36
    {
      if IsWordAt(j, ReservedName, "base") then
        var n :- FiniteNumberAt(j + 1);
        var radix :- RangeRadix(Some(n), TokenSpan(j + 1));
        Ok((radix, j + 2))
      else Ok((10, j))
    }

    /** What token `i` denotes as a class member or range end: a string's raw
        text, a code point that must be a Unicode scalar value, or the code
        point of a shorthand such as `n`; any other token denotes nothing */
    function StringOrCharAt(i: nat): (r: Result<Option<StringOrChar>>)
      requires TokensWellFormed(source, tokens)
      ensures r.Ok? && r.value.None? <==>
        !IsAt(i, String) && !IsAt(i, CodePoint) && !(IsAt(i, Identifier) && SpecialChar(TokenText(i)).Some?)
      ensures r.Ok? && r.value.Some? && r.value.value.CodePointChar? ==> IsValidCodePoint(r.value.value.codePoint)
      ensures r.Ok? && r.value.Some? ==> i < |tokens|
    {
      if IsAt(i, String) then Ok(Some(Quoted(TokenText(i))))
      else if IsAt(i, CodePoint) then
        var v := CodePointAt(i);
        if IsValidCodePoint(v) then Ok(Some(CodePointChar(v, false))) else Throw(Fail(InvalidCodePoint, TokenSpan(i)))
      else if IsAt(i, Identifier) && SpecialChar(TokenText(i)).Some? then
        Ok(Some(CodePointChar(SpecialChar(TokenText(i)).value, true)))
      else Ok(None)
    }

    /** The class members that token `i` begins, and the position after
        them: a range `first-last` of two single code points in ascending
        order, or else the code points of a string or the one of a code point
        or shorthand */
    function CharsOrRangeAt(i: nat): (r: Result<Option<(seq<GroupItem>, nat)>>)
      requires TokensWellFormed(source, tokens)
      ensures r.Ok? && r.value.None? <==> StringOrCharAt(i) == Ok(None)
      ensures r.Ok? && r.value.Some? ==> i < r.value.value.1 <= |tokens|
      ensures r.Ok? && r.value.Some? ==> forall k :: 0 <= k < |r.value.value.0| ==> ItemWellFormed(r.value.value.0[k], |source|)
    {
      var first :- StringOrCharAt(i);
      if first.None? then Ok(None)
      else if !IsAt(i + 1, Dash) then Ok(Some((ItemsOf(first.value), i + 1)))
      else
        var range :- CharRangeAt(first.value, i);
        Ok(Some(range))
    }

    /** The range that token `i`, denoting `first`, begins with the `-` after
        it: the other end must be given, both ends must be single code points,
        and they must be in ascending order */
    function CharRangeAt(first: StringOrChar, i: nat): (r: Result<(seq<GroupItem>, nat)>)
      requires TokensWellFormed(source, tokens) && IsAt(i + 1, Dash)
      requires first.CodePointChar? ==> IsValidCodePoint(first.codePoint)
      ensures r.Ok? ==> r.value.1 == i + 3 <= |tokens|
      ensures r.Ok? ==> forall k :: 0 <= k < |r.value.0| ==> ItemWellFormed(r.value.0[k], |source|)
    {
      var last :- StringOrCharAt(i + 2);
      if last.None? then Throw(ExpectedError(SpanAt(i + 2), ExpectsCharacter))
      else
        var firstChar :- StringOrCharToString(first, TokenSpan(i));
        var lastChar :- StringOrCharToString(last.value, TokenSpan(i + 2));
        if firstChar > lastChar then Throw(Fail(NotAscendingCharRange, SpanAt(i + 3)))
        else Ok(([CodeRange(firstChar, lastChar)], i + 3))
    }

    /** The error a `!` at token `i` raises when no Unicode property or
        class name follows it: an error of the item after it, a `!` before a
        character or range, or a missing name; nothing when a name follows */
    function NegationError(i: nat): (r: Option<Exception>)
      requires TokensWellFormed(source, tokens)
      ensures r.None? ==> IsAt(i + 1, Identifier)
    {
      var c := CharsOrRangeAt(i + 1);
      if c.Throw? then Some(c.exception)
      else if c.value.Some? then Some(Fail(UnallowedNotInCharSet, TokenSpan(i)))
      else if !IsAt(i + 1, Identifier) then Some(ExpectedTokenError(SpanAt(i + 1), Identifier))
      else None
    }

    /** Token `i` can begin a group: `atomic`, `:` or `(` */
    predicate StartsGroup(i: nat)
      requires TokensWellFormed(source, tokens)
    {
      IsWordAt(i, ReservedName, "atomic") || IsAt(i, Colon) || IsAt(i, OpenParen)
    }

    /** The prefix of a group at `p`, before its `(`: `atomic` makes the
        group atomic, `:name` named (the name checked by `CheckGroupName`),
        a bare `:` capturing, and no prefix normal. It gives the kind, the
        span the group starts with, and the position of the `(`. */
    function GroupKindAt(p: nat): (r: Parsed<(GroupKindOrName, Span)>)
      requires TokensWellFormed(source, tokens) && p <= |tokens|
      ensures r.Ok? ==> p <= r.value.1 <= |tokens| && ValidSpan(r.value.0.1, |source|)
      ensures r.Ok? ==> GroupWellFormed([Literal("", Span(0, 0))], r.value.0.0)
      ensures r.Ok? ==> (r.value.0.0 == Normal <==> r.value.1 == p) && (r.value.1 == p <==> !StartsGroup(p) || IsAt(p, OpenParen))
      ensures r.Ok? && (r.value.1 > p || IsAt(p, OpenParen)) ==> r.value.0.1 == TokenSpan(p)
      ensures r.Throw? <==> IsAt(p, Colon) && IsAt(p + 1, Identifier) && !IsValidGroupName(TokenText(p + 1))
    {
      if IsWordAt(p, ReservedName, "atomic") then Ok(((Atomic, TokenSpan(p)), p + 1))
      else if IsAt(p, Colon) then
        if IsAt(p + 1, Identifier) then
          var kindParsed := CheckGroupName(TokenText(p + 1), TokenSpan(p + 1));
          if kindParsed.Throw? then Throw(kindParsed.exception) else
          Ok(((kindParsed.value, TokenSpan(p)), p + 2))
        else Ok(((Capturing, TokenSpan(p)), p + 1))
      else Ok(((Normal, SpanAt(p)), p))
    }

    /** Token `i` can begin an atom that holds no expression */
    predicate StartsLeafAtom(i: nat)
      requires TokensWellFormed(source, tokens)
    {
      IsAt(i, String) || IsAt(i, OpenBracket) || StartsBoundary(i) || IsAt(i, DoubleColon)
      || IsAt(i, CodePoint) || StartsKeywordAtom(i)
    }

    /** Token `i` can begin one of the last leaf atoms: `range`, `regex`, a
        variable, `.` or `recursion` */
    predicate StartsKeywordAtom(i: nat)
      requires TokensWellFormed(source, tokens)
    {
      IsWordAt(i, ReservedName, "range") || IsWordAt(i, ReservedName, "regex")
      || IsAt(i, Identifier) || IsAt(i, TokenKind.Dot) || IsWordAt(i, ReservedName, "recursion")
    }

    /** Token `i` can begin an atom */
    predicate StartsAtom(i: nat)
      requires TokensWellFormed(source, tokens)
    {
      StartsGroup(i) || StartsLeafAtom(i)
    }

    /** Token `i` can begin a prefixed and suffixed expression: `!`, a
        lookaround or an atom */
    predicate StartsFix(i: nat)
      requires TokensWellFormed(source, tokens)
    {
      IsAt(i, Not) || IsAt(i, LookAhead) || IsAt(i, LookBehind) || StartsAtom(i)
    }

    /** Token `i` can begin an intersection: `&` or a sequence */
    predicate StartsAnd(i: nat)
      requires TokensWellFormed(source, tokens)
    {
      IsAt(i, Ampersand) || StartsFix(i)
    }

    /** Token `i` can begin a repetition operator */
    predicate StartsRepetition(i: nat)
      requires TokensWellFormed(source, tokens)
    {
      IsAt(i, Plus) || IsAt(i, Star) || IsAt(i, QuestionMark) || IsAt(i, OpenBrace)
    }

    /** The span of `n` leading `!`s from token `i`, built as the parser
        builds it: the span at `i`, joined with each `!` in turn */
    function NotsSpan(i: nat, n: nat): (s: Span)
      requires TokensWellFormed(source, tokens) && i + n <= |tokens|
      ensures ValidSpan(s, |source|)
    {
      if n == 0 then SpanAt(i) else Join(NotsSpan(i, n - 1), TokenSpan(i + n - 1))
    }

    /** The span of one or more `!`s runs from the first one's start to the
        last one's end */
    lemma {:induction false} NotsSpanCovers(i: nat, n: nat)
      requires TokensWellFormed(source, tokens) && 0 < n && i + n <= |tokens|
      ensures NotsSpan(i, n) == Span(tokens[i].start, tokens[i + n - 1].end)
      ensures tokens[i].start <= tokens[i + n - 1].start
    {
      if n > 1 {
        NotsSpanCovers(i, n - 1);
        assert TokenPlaced(source, tokens, i + n - 2);
      }
    }

    /** Token `i` can begin a member of a class */
    predicate StartsItem(i: nat) {
      IsAt(i, Not) || IsAt(i, String) || IsAt(i, CodePoint) || IsAt(i, Identifier)
    }

    /** What the braces of a repetition denote when their `{` is token
        `i - 1`: the repetition and the position after the `}`, or the error
        raised. The numbers and the comma are each optional; the table of
        `BracesRepetition` decides, and then a `}` is required. */
    function BracesAt(i: nat): (r: Result<(RepetitionKind, nat)>)
      requires TokensWellFormed(source, tokens) && 0 < i <= |tokens|
      ensures r.Ok? ==> i < r.value.1 <= |tokens| && IsAt(r.value.1 - 1, CloseBrace)
      ensures r.Ok? ==> RepetitionWellFormed(r.value.0)
    {
      var lower :- NumberAt(i, MaxRepetitionBound);
      var j := if lower.Some? then i + 1 else i;
      var comma := IsAt(j, Comma);
      var k := if comma then j + 1 else j;
      var upper :- NumberAt(k, MaxRepetitionBound);
      var m := if upper.Some? then k + 1 else k;
      var kind :- BracesRepetition(lower, comma, upper, Join(SpanAt(i), TokenSpan(m - 1)), TokenSpan(m - 1), SpanAt(m));
      if IsAt(m, CloseBrace) then Ok((kind, m + 1)) else Throw(ExpectFailure(m, CloseBrace))
    }

    /** Token `i` is one of the boundary operators `^`, `$`, `%`, `<`, `>` */
    predicate StartsBoundary(i: nat) {
      IsAt(i, Caret) || IsAt(i, Dollar) || IsAt(i, Percent) || IsAt(i, AngleLeft) || IsAt(i, AngleRight)
    }

    // -------------------------------------------------------------------------
    // The grammar, as functions of token positions
    //
    // Each production is a function of the position it starts at (and of the
    // flags, where it reads them). It gives the value the source builds and
    // the position after it, or the exception it raises; each parsing method
    // is proved to give the same and to leave the cursor at that position.

    /** The decoded string of token `i` and its span */
    function QuotedLiteralAt(i: nat): (lit: QuotedLiteral)
      requires TokensWellFormed(source, tokens) && i < |tokens|
      ensures LiteralWellFormed(lit, |source|)
    {
      QuotedLiteral(ParseQuotedText(TokenText(i)), TokenSpan(i))
    }

    /** Token `i` begins a statement: `enable`, `disable`, `let` or `test` */
    predicate StartsStatement(i: nat)
      requires TokensWellFormed(source, tokens)
    {
      IsWordAt(i, ReservedName, "enable") || IsWordAt(i, ReservedName, "disable")
      || IsWordAt(i, ReservedName, "let") || IsWordAt(i, ReservedName, "test")
    }

    /** An expression at `p`: the statements in front of it, each `enable`
        and `disable` setting its flag for what follows, then an alternation
        under those flags, the statements wrapped around it */
    function ModifiedAt(p: nat, f: Flags): (r: Parsed<Rule>)
      requires TokensWellFormed(source, tokens) && p <= |tokens|
      ensures r.Ok? ==> p <= r.value.1 <= |tokens| && WellFormed(r.value.0, |source|)
      decreases |tokens| - p, 20
    {
      hide *;
      var stmtsParsed := StatementsFrom(p, [], f);
      if stmtsParsed.Throw? then Throw(stmtsParsed.exception) else
      var (stmts, e) := stmtsParsed.value;
      var ruleParsed := OrAt(e, FlagsAfter(f, stmts));
      if ruleParsed.Throw? then Throw(ruleParsed.exception) else
      var (rule, end) := ruleParsed.value;
      WellFormedSpan(rule, |source|);
      NestWellFormed(stmts, rule, rule.span, |source|);
      Ok((Nest(stmts, rule, rule.span), end))
    }

    /** The statements from `p` on, after `stmts` were read: each is parsed
        under the flags the statements before it leave, and the list ends
        where no statement begins */
    function StatementsFrom(p: nat, stmts: seq<(Stmt, Span)>, f: Flags): (r: Parsed<seq<(Stmt, Span)>>)
      requires TokensWellFormed(source, tokens) && p <= |tokens|
      requires forall i :: 0 <= i < |stmts| ==> StmtWellFormed(stmts[i].0, |source|) && ValidSpan(stmts[i].1, |source|)
      ensures r.Ok? ==> p <= r.value.1 <= |tokens| && |stmts| <= |r.value.0| && r.value.0[..|stmts|] == stmts
      ensures r.Ok? ==> forall i :: 0 <= i < |r.value.0| ==>
        StmtWellFormed(r.value.0[i].0, |source|) && ValidSpan(r.value.0[i].1, |source|)
      decreases |tokens| - p, 19
    {
      hide *;
      var stmtParsed := StatementAt(p, FlagsAfter(f, stmts));
      if stmtParsed.Throw? then Throw(stmtParsed.exception) else
      var (stmt, e) := stmtParsed.value;
      if stmt.None? then Ok((stmts, p))
      else
        assert (stmts + [stmt.value])[..|stmts|] == stmts;
        StatementsFrom(e, stmts + [stmt.value], f)
    }

    /** A statement at `p`: a mode modifier, else a `let`, else a `test`.
        Exactly where none of their keywords is, there is none. */
    function StatementAt(p: nat, f: Flags): (r: Parsed<Option<(Stmt, Span)>>)
      requires TokensWellFormed(source, tokens) && p <= |tokens|
      ensures r.Ok? ==> p <= r.value.1 <= |tokens| && (r.value.0.None? <==> r.value.1 == p)
      ensures r.Ok? && r.value.0.Some? ==> StmtWellFormed(r.value.0.value.0, |source|) && ValidSpan(r.value.0.value.1, |source|)
      decreases |tokens| - p, 18
    {
      hide *;
      var modifierParsed := ModeModifierAt(p);
      if modifierParsed.Throw? then Throw(modifierParsed.exception) else
      var (modifier, e) := modifierParsed.value;
      if modifier.Some? then Ok((modifier, e))
      else
        var bindingParsed := LetAt(p, f);
        if bindingParsed.Throw? then Throw(bindingParsed.exception) else
        var (binding, e') := bindingParsed.value;
        if binding.Some? then Ok((binding, e')) else TestAt(p)
    }

    /** `enable` or `disable` at `p`, then `lazy` or `unicode`, then `;` */
    function ModeModifierAt(p: nat): (r: Parsed<Option<(Stmt, Span)>>)
      requires TokensWellFormed(source, tokens) && p <= |tokens|
      ensures r.Ok? ==> p <= r.value.1 <= |tokens| && (r.value.0.None? <==> r.value.1 == p)
      ensures r.Ok? && r.value.0.Some? ==> StmtWellFormed(r.value.0.value.0, |source|) && ValidSpan(r.value.0.value.1, |source|)
    {
      hide *;
      if !IsWordAt(p, ReservedName, "enable") && !IsWordAt(p, ReservedName, "disable") then Ok((None, p))
      else if !IsWordAt(p + 1, ReservedName, "lazy") && !IsWordAt(p + 1, Identifier, "unicode") then
        Throw(ExpectedError(SpanAt(p + 1), ExpectsMode))
      else if !IsAt(p + 2, Semicolon) then Throw(ExpectFailure(p + 2, Semicolon))
      else
        var setting := if IsWordAt(p + 1, ReservedName, "lazy") then Laziness else UnicodeAwareness;
        var span := TokensSpan(p, p + 2);
        var stmt := if IsWordAt(p, ReservedName, "enable") then Enable(setting, span) else Disable(setting, span);
        Ok((Some((stmt, span)), p + 3))
    }

    /** `let name = expression;` at `p`; a missing `;` is reported as a
        missing expression or `;` */
    function LetAt(p: nat, f: Flags): (r: Parsed<Option<(Stmt, Span)>>)
      requires TokensWellFormed(source, tokens) && p <= |tokens|
      ensures r.Ok? ==> p <= r.value.1 <= |tokens| && (r.value.0.None? <==> r.value.1 == p)
      ensures r.Ok? && r.value.0.Some? ==> StmtWellFormed(r.value.0.value.0, |source|) && ValidSpan(r.value.0.value.1, |source|)
      decreases |tokens| - p, 17
    {
      hide *;
      if !IsWordAt(p, ReservedName, "let") then Ok((None, p))
      else if !IsAt(p + 1, Identifier) then Throw(ExpectFailure(p + 1, Identifier))
      else if !IsAt(p + 2, Equals) then Throw(ExpectFailure(p + 2, Equals))
      else
        var ruleParsed := OrAt(p + 3, f);
        if ruleParsed.Throw? then Throw(ruleParsed.exception) else LetEndAt(p, ruleParsed.value.0, ruleParsed.value.1)
    }

    /** The end of `let name = rule;` at `p`, once `rule` has been parsed up
        to `e`: a `;` must follow */
    function LetEndAt(p: nat, rule: Rule, e: nat): (r: Parsed<Option<(Stmt, Span)>>)
      requires TokensWellFormed(source, tokens) && p + 3 <= e <= |tokens| && WellFormed(rule, |source|)
      ensures r.Ok? ==> r.value.1 == e + 1 <= |tokens| && r.value.0.Some?
      ensures r.Ok? ==> StmtWellFormed(r.value.0.value.0, |source|) && ValidSpan(r.value.0.value.1, |source|)
    {
      hide *;
      if !IsAt(e, Semicolon) then Throw(Rethrow(ExpectFailure(e, Semicolon), ExpectsSemicolon))
      else
        var span := TokensSpan(p, e);
        Ok((Some((Let(TokenText(p + 1), TokenSpan(p + 1), rule), span)), e + 1))
    }

    /** `test { cases }` at `p` */
    function TestAt(p: nat): (r: Parsed<Option<(Stmt, Span)>>)
      requires TokensWellFormed(source, tokens) && p <= |tokens|
      ensures r.Ok? ==> p <= r.value.1 <= |tokens| && (r.value.0.None? <==> r.value.1 == p)
      ensures r.Ok? && r.value.0.Some? ==> StmtWellFormed(r.value.0.value.0, |source|) && ValidSpan(r.value.0.value.1, |source|)
    {
      hide *;
      if !IsWordAt(p, ReservedName, "test") then Ok((None, p))
      else if !IsAt(p + 1, OpenBrace) then Throw(ExpectFailure(p + 1, OpenBrace))
      else
        var casesParsed := TestCasesFrom(p + 2, []);
        if casesParsed.Throw? then Throw(casesParsed.exception) else TestEndAt(p, casesParsed.value.0, casesParsed.value.1)
    }

    /** The end of `test { cases }` at `p`, once the cases have been parsed
        up to `e`: a `}` must follow */
    function TestEndAt(p: nat, cases: seq<TestCase>, e: nat): (r: Parsed<Option<(Stmt, Span)>>)
      requires TokensWellFormed(source, tokens) && p < e <= |tokens|
      requires forall i :: 0 <= i < |cases| ==> TestCaseWellFormed(cases[i], |source|)
      ensures r.Ok? ==> r.value.1 == e + 1 <= |tokens| && r.value.0.Some?
      ensures r.Ok? ==> StmtWellFormed(r.value.0.value.0, |source|) && ValidSpan(r.value.0.value.1, |source|)
    {
      hide *;
      if !IsAt(e, CloseBrace) then Throw(ExpectFailure(e, CloseBrace))
      else
        var span := TokensSpan(p, e);
        Ok((Some((Test(cases, span), span)), e + 1))
    }

    /** The test cases from `p` on, after `cases`: they end at the first
        position that gives no case */
    function TestCasesFrom(p: nat, cases: seq<TestCase>): (r: Parsed<seq<TestCase>>)
      requires TokensWellFormed(source, tokens) && p <= |tokens|
      requires forall i :: 0 <= i < |cases| ==> TestCaseWellFormed(cases[i], |source|)
      ensures r.Ok? ==> p <= r.value.1 <= |tokens| && |cases| <= |r.value.0| && r.value.0[..|cases|] == cases
      ensures r.Ok? ==> forall i :: 0 <= i < |r.value.0| ==> TestCaseWellFormed(r.value.0[i], |source|)
      decreases |tokens| - p
    {
      hide *;
      var testCaseParsed := TestCaseAt(p);
      if testCaseParsed.Throw? then Throw(testCaseParsed.exception) else
      var (testCase, e) := testCaseParsed.value;
      if testCase.None? then Ok((cases, e))
      else
        assert (cases + [testCase.value])[..|cases|] == cases;
        TestCasesFrom(e, cases + [testCase.value])
    }

    /** A `match` or `reject` case at `p`; any other token gives none */
    function TestCaseAt(p: nat): (r: Parsed<Option<TestCase>>)
      requires TokensWellFormed(source, tokens) && p <= |tokens|
      ensures r.Ok? ==> p <= r.value.1 <= |tokens|
      ensures r.Ok? && r.value.0.Some? ==> p < r.value.1 && TestCaseWellFormed(r.value.0.value, |source|)
    {
      hide *;
      if IsWordAt(p, Identifier, "match") then MatchCaseAt(p + 1)
      else if IsWordAt(p, Identifier, "reject") then RejectCaseAt(p + 1)
      else Ok((None, p))
    }

    /** What follows `match` at `p`: strings separated by commas, unless the
        token at `p` reads `in`, then the tail */
    function MatchCaseAt(p: nat): (r: Parsed<Option<TestCase>>)
      requires TokensWellFormed(source, tokens) && p <= |tokens|
      ensures r.Ok? ==> p < r.value.1 <= |tokens|
      ensures r.Ok? && r.value.0.Some? ==> TestCaseWellFormed(r.value.0.value, |source|)
    {
      hide *;
      if TextAt(p, "in") then MatchTailAt(p, [])
      else
        var first := TestMatchAt(p);
        if first.Throw? then Throw(first.exception)
        else MatchesFrom(first.value.1, [first.value.0])
    }

    /** More strings of a `match` case at `p`, each after a comma, then the
        tail */
    function MatchesFrom(p: nat, matches: seq<TestMatch>): (r: Parsed<Option<TestCase>>)
      requires TokensWellFormed(source, tokens) && p <= |tokens|
      requires forall i :: 0 <= i < |matches| ==> MatchWellFormed(matches[i], |source|)
      ensures r.Ok? ==> p < r.value.1 <= |tokens|
      ensures r.Ok? && r.value.0.Some? ==> TestCaseWellFormed(r.value.0.value, |source|)
      decreases |tokens| - p
    {
      hide *;
      if IsAt(p, Comma) then
        var next := TestMatchAt(p + 1);
        if next.Throw? then Throw(next.exception)
        else
          MatchesFrom(next.value.1, matches + [next.value.0])
      else MatchTailAt(p, matches)
    }

    /** The end of a `match` case at `p`: optionally `in` and a string, then
        `;`; the case is what `TestCaseOf` makes of the strings and that
        literal */
    function MatchTailAt(p: nat, matches: seq<TestMatch>): (r: Parsed<Option<TestCase>>)
      requires TokensWellFormed(source, tokens) && p <= |tokens|
      requires forall i :: 0 <= i < |matches| ==> MatchWellFormed(matches[i], |source|)
      ensures r.Ok? ==> p < r.value.1 <= |tokens|
      ensures r.Ok? && r.value.0.Some? ==> TestCaseWellFormed(r.value.0.value, |source|)
    {
      hide *;
      if IsWordAt(p, Identifier, "in") && !IsAt(p + 1, String) then Throw(ExpectedTokenError(SpanAt(p + 1), String))
      else
        var literal := if IsWordAt(p, Identifier, "in") then Some(QuotedLiteralAt(p + 1)) else None;
        var k := if literal.Some? then p + 2 else p;
        if !IsAt(k, Semicolon) then Throw(ExpectFailure(k, Semicolon))
        else
          var testCaseParsed := TestCaseOf(matches, literal);
          if testCaseParsed.Throw? then Throw(testCaseParsed.exception) else
          var testCase := testCaseParsed.value;
          Ok((testCase, k + 1))
    }

    /** What follows `reject` at `p`: optionally `in`, then a string and `;` */
    function RejectCaseAt(p: nat): (r: Parsed<Option<TestCase>>)
      requires TokensWellFormed(source, tokens) && p <= |tokens|
      ensures r.Ok? ==> p < r.value.1 <= |tokens| && r.value.0.Some? && TestCaseWellFormed(r.value.0.value, |source|)
    {
      hide *;
      var k := if IsWordAt(p, Identifier, "in") then p + 1 else p;
      if !IsAt(k, String) then Throw(ExpectedTokenError(SpanAt(k), String))
      else if !IsAt(k + 1, Semicolon) then Throw(ExpectFailure(k + 1, Semicolon))
      else Ok((Some(Reject(QuotedLiteralAt(k), IsWordAt(p, Identifier, "in"))), k + 2))
    }

    /** A string of a `match` case at `p`, optionally followed by `as {` and
        captures separated by commas; the list is not closed by an expected
        `}` */
    function TestMatchAt(p: nat): (r: Parsed<TestMatch>)
      requires TokensWellFormed(source, tokens) && p <= |tokens|
      ensures r.Ok? ==> p < r.value.1 <= |tokens| && MatchWellFormed(r.value.0, |source|)
    {
      hide *;
      if !IsAt(p, String) then Throw(ExpectedTokenError(SpanAt(p), String))
      else
        var capturesParsed: Parsed<seq<TestCapture>> :=
          if !IsWordAt(p + 1, Identifier, "as") then Ok(([], p + 1))
          else if !IsAt(p + 2, OpenBrace) then Throw(ExpectFailure(p + 2, OpenBrace))
          else CapturesFrom(p + 3, [], true);
        if capturesParsed.Throw? then Throw(capturesParsed.exception) else
        var (captures, e) := capturesParsed.value;
        Ok((TestMatch(QuotedLiteralAt(p), captures, TokensSpan(p, e - 1)), e))
    }

    /** The captures of a match from `p` on, after `captures`: a comma must
        come before every capture but the first, and the list ends at the
        first position where no capture follows */
    function CapturesFrom(p: nat, captures: seq<TestCapture>, first: bool): (r: Parsed<seq<TestCapture>>)
      requires TokensWellFormed(source, tokens) && 0 < p <= |tokens|
      requires forall i :: 0 <= i < |captures| ==> CaptureWellFormed(captures[i], |source|)
      ensures r.Ok? ==> p <= r.value.1 <= |tokens| && |captures| <= |r.value.0| && r.value.0[..|captures|] == captures
      ensures r.Ok? ==> forall i :: 0 <= i < |r.value.0| ==> CaptureWellFormed(r.value.0[i], |source|)
      decreases |tokens| - p
    {
      hide *;
      if !first && !IsAt(p, Comma) then Ok((captures, p))
      else
        var q := if first then p else p + 1;
        var captureParsed := TestCaptureAt(q);
        if captureParsed.Throw? then Throw(captureParsed.exception) else
        var (capture, e) := captureParsed.value;
        if capture.None? then Ok((captures, q))
        else
          assert (captures + [capture.value])[..|captures|] == captures;
          CapturesFrom(e, captures + [capture.value], false)
    }

    /** A capture at `p`: a number of at most 65536 or an identifier, then
        `:` and a string */
    function TestCaptureAt(p: nat): (r: Parsed<Option<TestCapture>>)
      requires TokensWellFormed(source, tokens) && p <= |tokens|
      ensures r.Ok? ==> p <= r.value.1 <= |tokens| && (r.value.0.None? <==> r.value.1 == p)
      ensures r.Ok? && r.value.0.Some? ==> CaptureWellFormed(r.value.0.value, |source|)
    {
      hide *;
      var numberParsed := NumberAt(p, MaxCaptureNumber);
      if numberParsed.Throw? then Throw(numberParsed.exception) else
      var number := numberParsed.value;
      if number.None? && !IsAt(p, Identifier) then Ok((None, p))
      else
        var ident := if number.Some? then CaptureNumber(number.value) else CaptureName(TokenText(p));
        if !IsAt(p + 1, Colon) then Throw(ExpectFailure(p + 1, Colon))
        else if !IsAt(p + 2, String) then Throw(ExpectedTokenError(SpanAt(p + 2), String))
        else Ok((Some(TestCapture(ident, TokenSpan(p), QuotedLiteralAt(p + 2))), p + 3))
    }

    /** Alternatives at `p` separated by `|`, with an optional leading `|`.
        Nothing at all is the empty literal; a `|` without an alternative
        after it is `LonePipe` at that `|`. */
    function OrAt(p: nat, f: Flags): (r: Parsed<Rule>)
      requires TokensWellFormed(source, tokens) && p <= |tokens|
      ensures r.Ok? ==> p <= r.value.1 <= |tokens| && WellFormed(r.value.0, |source|)
      decreases |tokens| - p, 16
    {
      hide *;
      var q := if IsAt(p, Pipe) then p + 1 else p;
      var firstParsed := AndAt(q, f);
      if firstParsed.Throw? then Throw(firstParsed.exception) else
      var (first, e) := firstParsed.value;
      if first.None? then
        if IsAt(p, Pipe) then Throw(Fail(LonePipe, TokenSpan(p)))
        else
          LiteralRuleWellFormed("", Span(0, 0), |source|);
          Ok((Literal("", Span(0, 0)), p))
      else AlternativesFrom(e, [first.value], SpanAt(p), f)
    }

    /** The alternatives from `p` on, after `alts`, each after a `|`: one
        alternative stands alone, more form an alternation whose span joins
        `span` with each later alternative's */
    function AlternativesFrom(p: nat, alts: seq<Rule>, span: Span, f: Flags): (r: Parsed<Rule>)
      requires TokensWellFormed(source, tokens) && p <= |tokens|
      requires |alts| >= 1 && (forall i :: 0 <= i < |alts| ==> WellFormed(alts[i], |source|)) && ValidSpan(span, |source|)
      ensures r.Ok? ==> p <= r.value.1 <= |tokens| && WellFormed(r.value.0, |source|)
      decreases |tokens| - p, 15
    {
      hide *;
      if !IsAt(p, Pipe) then
        if |alts| == 1 then Ok((alts[0], p))
        else
          AlternationWellFormed(alts, span, |source|);
          Ok((Alternation(alts, span), p))
      else
        var nextParsed := AndAt(p + 1, f);
        if nextParsed.Throw? then Throw(nextParsed.exception) else
        var (next, e) := nextParsed.value;
        if next.None? then Throw(Fail(LonePipe, TokenSpan(p)))
        else
          WellFormedSpan(next.value, |source|);
          AlternativesFrom(e, alts + [next.value], Join(span, next.value.span), f)
    }

    /** Sequences at `p` separated by `&`, with an optional leading `&`; a
        `&` without a sequence after it is `Expected` "expression" at the
        token after it */
    function AndAt(p: nat, f: Flags): (r: Parsed<Option<Rule>>)
      requires TokensWellFormed(source, tokens) && p <= |tokens|
      ensures r.Ok? ==> p <= r.value.1 <= |tokens| && (r.value.0.None? <==> r.value.1 == p)
      ensures r.Ok? && r.value.0.Some? ==> WellFormed(r.value.0.value, |source|)
      decreases |tokens| - p, 14
    {
      hide *;
      var q := if IsAt(p, Ampersand) then p + 1 else p;
      var firstParsed := SequenceAt(q, f);
      if firstParsed.Throw? then Throw(firstParsed.exception) else
      var (first, e) := firstParsed.value;
      if first.None? then
        if IsAt(p, Ampersand) then Throw(ExpectedError(SpanAt(q), ExpectsExpression)) else Ok((None, p))
      else if !IsAt(e, Ampersand) then Ok((first, e))
      else IntersectionFrom(e, [first.value], SpanAt(p), f)
    }

    /** The sequences from `p` on, after `rules`, each after a `&`; they
        form an intersection spanning `start` to the last token read */
    function IntersectionFrom(p: nat, rules: seq<Rule>, start: Span, f: Flags): (r: Parsed<Option<Rule>>)
      requires TokensWellFormed(source, tokens) && 0 < p <= |tokens|
      requires |rules| >= 1 && (forall i :: 0 <= i < |rules| ==> WellFormed(rules[i], |source|)) && ValidSpan(start, |source|)
      requires |rules| == 1 ==> IsAt(p, Ampersand)
      ensures r.Ok? ==> p <= r.value.1 <= |tokens| && r.value.0.Some? && WellFormed(r.value.0.value, |source|)
      decreases |tokens| - p, 13
    {
      hide *;
      if !IsAt(p, Ampersand) then
        var span := Join(start, TokenSpan(p - 1));
        IntersectionWellFormed(rules, span, |source|);
        Ok((Some(Intersection(rules, span)), p))
      else
        var nextParsed := SequenceAt(p + 1, f);
        if nextParsed.Throw? then Throw(nextParsed.exception) else
        var (next, e) := nextParsed.value;
        if next.None? then Throw(ExpectedError(SpanAt(p + 1), ExpectsExpression))
        else IntersectionFrom(e, rules + [next.value], start, f)
    }

    /** Juxtaposed fixes at `p` */
    function SequenceAt(p: nat, f: Flags): (r: Parsed<Option<Rule>>)
      requires TokensWellFormed(source, tokens) && p <= |tokens|
      ensures r.Ok? ==> p <= r.value.1 <= |tokens| && (r.value.0.None? <==> r.value.1 == p)
      ensures r.Ok? && r.value.0.Some? ==> WellFormed(r.value.0.value, |source|)
      decreases |tokens| - p, 12
    {
      hide *;
      SequenceFrom(p, [], f)
    }

    /** The fixes from `p` on, after `fixes`, up to the first position where
        none begins; `SequenceOf` combines them */
    function SequenceFrom(p: nat, fixes: seq<Rule>, f: Flags): (r: Parsed<Option<Rule>>)
      requires TokensWellFormed(source, tokens) && p <= |tokens|
      requires forall i :: 0 <= i < |fixes| ==> WellFormed(fixes[i], |source|)
      ensures r.Ok? ==> p <= r.value.1 <= |tokens| && (r.value.0.None? <==> fixes == [] && r.value.1 == p)
      ensures r.Ok? && r.value.0.Some? ==> WellFormed(r.value.0.value, |source|)
      decreases |tokens| - p, 11
    {
      hide *;
      var fixParsed := FixesAt(p, f);
      if fixParsed.Throw? then Throw(fixParsed.exception) else
      var (fix, e) := fixParsed.value;
      if fix.None? then
        if fixes == [] then Ok((None, p))
        else
          SequenceOfWellFormed(fixes, |source|);
          Ok((SequenceOf(fixes), p))
      else SequenceFrom(e, fixes + [fix.value], f)
    }

    /** The number of `!`s from token `p` on */
    function NotsAt(p: nat): (n: nat)
      requires p <= |tokens|
      ensures p + n <= |tokens| && !IsAt(p + n, Not)
      ensures forall k :: p <= k < p + n ==> IsAt(k, Not)
      decreases |tokens| - p
    {
      hide *;
      if IsAt(p, Not) then 1 + NotsAt(p + 1) else 0
    }

    /** `!`s at `p`, a lookaround or atom, then repetition suffixes. Every
        negation carries the span of all the `!`s; `!`s before no
        expression are `Expected` "expression". */
    function FixesAt(p: nat, f: Flags): (r: Parsed<Option<Rule>>)
      requires TokensWellFormed(source, tokens) && p <= |tokens|
      ensures r.Ok? ==> p <= r.value.1 <= |tokens| && (r.value.0.None? <==> r.value.1 == p)
      ensures r.Ok? && r.value.0.Some? ==> WellFormed(r.value.0.value, |source|)
      decreases |tokens| - p, 10
    {
      hide *;
      var n := NotsAt(p);
      var foundParsed := LookaroundOrAtomAt(p + n, f);
      if foundParsed.Throw? then Throw(foundParsed.exception) else
      var (found, e) := foundParsed.value;
      if found.None? then
        if n == 0 then Ok((None, p)) else Throw(ExpectedError(SpanAt(p + n), ExpectsExpression))
      else
        NegatedWellFormed(found.value, n, NotsSpan(p, n), |source|);
        var ruleParsed := RepetitionsFrom(e, Negated(found.value, n, NotsSpan(p, n)), f.isLazy);
        if ruleParsed.Throw? then Throw(ruleParsed.exception) else
        var (rule, end) := ruleParsed.value;
        Ok((Some(rule), end))
    }

    /** A lookaround at `p`, else an atom */
    function LookaroundOrAtomAt(p: nat, f: Flags): (r: Parsed<Option<Rule>>)
      requires TokensWellFormed(source, tokens) && p <= |tokens|
      ensures r.Ok? ==> p <= r.value.1 <= |tokens| && (r.value.0.None? <==> r.value.1 == p)
      ensures r.Ok? && r.value.0.Some? ==> WellFormed(r.value.0.value, |source|)
      decreases |tokens| - p, 9
    {
      hide *;
      var lookaroundParsed := LookaroundAt(p, f);
      if lookaroundParsed.Throw? then Throw(lookaroundParsed.exception) else
      var (lookaround, e) := lookaroundParsed.value;
      if lookaround.Some? then Ok((lookaround, e)) else AtomAt(p, f)
    }

    /** `>>` or `<<` at `p` and an expression, spanning from the operator to
        the end of that expression */
    function LookaroundAt(p: nat, f: Flags): (r: Parsed<Option<Rule>>)
      requires TokensWellFormed(source, tokens) && p <= |tokens|
      ensures r.Ok? ==> p <= r.value.1 <= |tokens| && (r.value.0.None? <==> r.value.1 == p)
      ensures r.Ok? && r.value.0.Some? ==> WellFormed(r.value.0.value, |source|)
      decreases |tokens| - p, 8
    {
      hide *;
      if !IsAt(p, LookAhead) && !IsAt(p, LookBehind) then Ok((None, p))
      else
        var ruleParsed := ModifiedAt(p + 1, f);
        if ruleParsed.Throw? then Throw(ruleParsed.exception)
        else Ok((Some(LookaroundOf(p, ruleParsed.value.0)), ruleParsed.value.1))
    }

    /** The lookaround whose `>>` or `<<` is token `p`, around `rule` */
    function LookaroundOf(p: nat, rule: Rule): (r: Rule)
      requires TokensWellFormed(source, tokens) && (IsAt(p, LookAhead) || IsAt(p, LookBehind))
      requires WellFormed(rule, |source|)
      ensures WellFormed(r, |source|)
    {
      hide *;
      WellFormedSpan(rule, |source|);
      var kind := if IsAt(p, LookAhead) then Ahead else Behind;
      Lookaround(rule, kind, Join(TokenSpan(p), rule.span))
    }

    /** A group at `p`, else one of the atoms that hold no expression */
    function AtomAt(p: nat, f: Flags): (r: Parsed<Option<Rule>>)
      requires TokensWellFormed(source, tokens) && p <= |tokens|
      ensures r.Ok? ==> p <= r.value.1 <= |tokens| && (r.value.0.None? <==> r.value.1 == p)
      ensures r.Ok? && r.value.0.Some? ==> WellFormed(r.value.0.value, |source|)
      decreases |tokens| - p, 7
    {
      hide *;
      var groupParsed := GroupAt(p, f);
      if groupParsed.Throw? then Throw(groupParsed.exception) else
      var (group, e) := groupParsed.value;
      if group.Some? then Ok((group, e)) else LeafAtomAt(p, f.isUnicodeAware)
    }

    /** A group at `p`: `(`, `atomic (`, `:(` or `:name(`, the name checked
        by `CheckGroupName` */
    function GroupAt(p: nat, f: Flags): (r: Parsed<Option<Rule>>)
      requires TokensWellFormed(source, tokens) && p <= |tokens|
      ensures r.Ok? ==> p <= r.value.1 <= |tokens| && (r.value.0.None? <==> r.value.1 == p)
      ensures r.Ok? && r.value.0.Some? ==> WellFormed(r.value.0.value, |source|)
      decreases |tokens| - p, 6
    {
      hide *;
      var kindParsed := GroupKindAt(p);
      if kindParsed.Throw? then Throw(kindParsed.exception) else
      var ((kind, _), q) := kindParsed.value;
      if kind == Normal && !IsAt(q, OpenParen) then Ok((None, p))
      else GroupBodyAt(p, kind, q, f)
    }

    /** The parenthesized expression of a group of kind `kind` starting at
        `p`, its `(` at `q`; a missing `)` is reported as a missing `)` or
        expression */
    function GroupBodyAt(p: nat, kind: GroupKindOrName, q: nat, f: Flags): (r: Parsed<Option<Rule>>)
      requires TokensWellFormed(source, tokens) && p <= q <= |tokens| && p < |tokens|
      requires GroupWellFormed([Literal("", Span(0, 0))], kind)
      ensures r.Ok? ==> q < r.value.1 <= |tokens| && r.value.0.Some? && WellFormed(r.value.0.value, |source|)
      decreases |tokens| - q, 5
    {
      hide *;
      if !IsAt(q, OpenParen) then Throw(ExpectFailure(q, OpenParen))
      else
        var ruleParsed := ModifiedAt(q + 1, f);
        if ruleParsed.Throw? then Throw(ruleParsed.exception)
        else GroupEndAt(p, kind, ruleParsed.value.0, ruleParsed.value.1)
    }

    /** The end of a group of kind `kind` starting at `p`, once its
        expression `rule` has been parsed up to `e`: a `)` must follow */
    function GroupEndAt(p: nat, kind: GroupKindOrName, rule: Rule, e: nat): (r: Parsed<Option<Rule>>)
      requires TokensWellFormed(source, tokens) && p < e <= |tokens|
      requires GroupWellFormed([Literal("", Span(0, 0))], kind) && WellFormed(rule, |source|)
      ensures r.Ok? ==> r.value.1 == e + 1 <= |tokens| && r.value.0.Some? && WellFormed(r.value.0.value, |source|)
    {
      hide *;
      if !IsAt(e, CloseParen) then Throw(Rethrow(ExpectFailure(e, CloseParen), ExpectsCloseParen))
      else
        var span := TokensSpan(p, e);
        SingleGroupWellFormed(rule, kind, span, |source|);
        Ok((Some(Group([rule], kind, span)), e + 1))
    }

    /** The atoms after groups at `p`, in the source's order: a literal, a
        class, a boundary, a reference, a code point, then the keyword atoms */
    function LeafAtomAt(p: nat, unicode: bool): (r: Parsed<Option<Rule>>)
      requires TokensWellFormed(source, tokens) && p <= |tokens|
      ensures r.Ok? ==> p <= r.value.1 <= |tokens| && (r.value.0.None? <==> r.value.1 == p)
      ensures r.Ok? && r.value.0.Some? ==> WellFormed(r.value.0.value, |source|)
    {
      hide *;
      if IsAt(p, String) then Ok((Some(Literal(ParseQuotedText(TokenText(p)), TokenSpan(p))), p + 1))
      else if IsAt(p, OpenBracket) then CharSetAt(p, unicode)
      else if StartsBoundary(p) then Ok((Some(Boundary(BoundaryKindAt(p), TokenSpan(p))), p + 1))
      else if IsAt(p, DoubleColon) then ReferenceAt(p)
      else if IsAt(p, CodePoint) then CodePointRuleAt(p, unicode)
      else KeywordAtomAt(p)
    }

    /** A reference `::target` at `p`, spanning from `::` to the target's
        last token */
    function ReferenceAt(p: nat): (r: Parsed<Option<Rule>>)
      requires TokensWellFormed(source, tokens) && IsAt(p, DoubleColon)
      ensures r.Ok? ==> p < r.value.1 <= |tokens| && r.value.0.Some? && WellFormed(r.value.0.value, |source|)
    {
      hide *;
      var targetParsed := ReferenceTargetAt(p + 1);
      if targetParsed.Throw? then Throw(targetParsed.exception) else
      var (target, e) := targetParsed.value;
      Ok((Some(Reference(target, TokensSpan(p, e - 1))), e))
    }

    /** A code point at `p` as a one-member class, Unicode-aware exactly when
        `unicode` is set; a value that is no Unicode scalar value is
        `InvalidCodePoint` */
    function CodePointRuleAt(p: nat, unicode: bool): (r: Parsed<Option<Rule>>)
      requires TokensWellFormed(source, tokens) && IsAt(p, CodePoint)
      ensures r.Ok? ==> r.value.1 == p + 1 <= |tokens| && r.value.0.Some? && WellFormed(r.value.0.value, |source|)
    {
      hide *;
      var v := CodePointAt(p);
      if IsValidCodePoint(v) then Ok((Some(CharClass([Char(v)], unicode, TokenSpan(p))), p + 1))
      else Throw(Fail(InvalidCodePoint, TokenSpan(p)))
    }

    /** The boundary a boundary token denotes */
    function BoundaryKindAt(p: nat): (k: BoundaryKind)
      requires StartsBoundary(p)
      ensures k != NotWord
    {
      hide *;
      if IsAt(p, Caret) then Start
      else if IsAt(p, Dollar) then End
      else if IsAt(p, Percent) then Word
      else if IsAt(p, AngleLeft) then WordStart
      else WordEnd
    }

    /** The last leaf atoms at `p`, in order: a range, a regex, a variable,
        `.` and `recursion` */
    function KeywordAtomAt(p: nat): (r: Parsed<Option<Rule>>)
      requires TokensWellFormed(source, tokens) && p <= |tokens|
      ensures r.Ok? ==> p <= r.value.1 <= |tokens| && (r.value.0.None? <==> r.value.1 == p)
      ensures r.Ok? && r.value.0.Some? ==> WellFormed(r.value.0.value, |source|)
    {
      hide *;
      if IsWordAt(p, ReservedName, "range") then
        var rangeParsed := RangeAt(p);
        if rangeParsed.Throw? then Throw(rangeParsed.exception) else
        var (range, e) := rangeParsed.value;
        Ok((Some(range), e))
      else if IsWordAt(p, ReservedName, "regex") then RegexAt(p)
      else
        var atom := OneTokenAtomAt(p);
        if atom.Some? then Ok((atom, p + 1)) else Ok((None, p))
    }

    /** The atoms of one token at `p`: a variable, `.` or `recursion` */
    function OneTokenAtomAt(p: nat): (r: Option<Rule>)
      requires TokensWellFormed(source, tokens)
      ensures r.Some? <==> IsAt(p, Identifier) || IsAt(p, TokenKind.Dot) || IsWordAt(p, ReservedName, "recursion")
      ensures r.Some? ==> WellFormed(r.value, |source|) && r.value.span == TokenSpan(p)
    {
      hide *;
      if IsAt(p, Identifier) then Some(Variable(TokenText(p), TokenSpan(p)))
      else if IsAt(p, TokenKind.Dot) then Some(Rule.Dot(TokenSpan(p)))
      else if IsWordAt(p, ReservedName, "recursion") then Some(Recursion(TokenSpan(p)))
      else None
    }

    /** `regex` at `p` and a string, its text decoded */
    function RegexAt(p: nat): (r: Parsed<Option<Rule>>)
      requires TokensWellFormed(source, tokens) && p < |tokens|
      ensures r.Ok? ==> r.value.1 == p + 2 <= |tokens| && r.value.0.Some? && WellFormed(r.value.0.value, |source|)
    {
      hide *;
      if !IsAt(p + 1, String) then Throw(ExpectFailure(p + 1, String))
      else Ok((Some(Regex(ParseQuotedText(TokenText(p + 1)), TokensSpan(p, p + 1))), p + 2))
    }

    /** A class `[items]` at `p`: it must not be empty, and it is
        Unicode-aware exactly when `unicode` is set */
    function CharSetAt(p: nat, unicode: bool): (r: Parsed<Option<Rule>>)
      requires TokensWellFormed(source, tokens) && p <= |tokens|
      ensures r.Ok? ==> p <= r.value.1 <= |tokens| && (r.value.0.None? <==> r.value.1 == p)
      ensures r.Ok? && r.value.0.Some? ==> WellFormed(r.value.0.value, |source|)
    {
      hide *;
      if !IsAt(p, OpenBracket) then Ok((None, p))
      else
        var itemsParsed := ItemsFrom(p + 1, []);
        if itemsParsed.Throw? then Throw(itemsParsed.exception)
        else CharSetEndAt(p, itemsParsed.value.0, itemsParsed.value.1, unicode)
    }

    /** The end of a class at `p` once its members `items` have been parsed
        up to `e`: a `]` must follow, and there must be at least one member */
    function CharSetEndAt(p: nat, items: seq<GroupItem>, e: nat, unicode: bool): (r: Parsed<Option<Rule>>)
      requires TokensWellFormed(source, tokens) && p < e <= |tokens|
      requires forall i :: 0 <= i < |items| ==> ItemWellFormed(items[i], |source|)
      ensures r.Ok? ==> r.value.1 == e + 1 <= |tokens| && r.value.0.Some? && WellFormed(r.value.0.value, |source|)
    {
      hide *;
      if !IsAt(e, CloseBracket) then
        Throw(Rethrow(ExpectFailure(e, CloseBracket), ExpectsClassEnd))
      else
        var span := TokensSpan(p, e);
        if |items| == 0 then Throw(Fail(EmptyCharSet, span))
        else Ok((Some(CharClass(items, unicode, span)), e + 1))
    }

    /** The members of a class from `p` on, after `items`, up to the first
        position where none begins */
    function ItemsFrom(p: nat, items: seq<GroupItem>): (r: Parsed<seq<GroupItem>>)
      requires TokensWellFormed(source, tokens) && p <= |tokens|
      requires forall i :: 0 <= i < |items| ==> ItemWellFormed(items[i], |source|)
      ensures r.Ok? ==> p <= r.value.1 <= |tokens| && |items| <= |r.value.0| && r.value.0[..|items|] == items
      ensures r.Ok? ==> forall i :: 0 <= i < |r.value.0| ==> ItemWellFormed(r.value.0[i], |source|)
      decreases |tokens| - p
    {
      hide *;
      var itemParsed := ItemAt(p);
      if itemParsed.Throw? then Throw(itemParsed.exception) else
      var (item, e) := itemParsed.value;
      if item.None? then Ok((items, p))
      else
        assert (items + item.value)[..|items|] == items;
        ItemsFrom(e, items + item.value)
    }

    /** One member of a class at `p`, possibly negated with `!`: the
        characters or range `CharsOrRangeAt` gives, which a `!` must not
        precede, or else a named class, which a `!` requires */
    function ItemAt(p: nat): (r: Parsed<Option<seq<GroupItem>>>)
      requires TokensWellFormed(source, tokens) && p <= |tokens|
      ensures r.Ok? ==> p <= r.value.1 <= |tokens| && (r.value.0.None? <==> r.value.1 == p)
      ensures r.Ok? && r.value.0.Some? ==> forall i :: 0 <= i < |r.value.0.value| ==> ItemWellFormed(r.value.0.value[i], |source|)
    {
      hide *;
      var negative := IsAt(p, Not);
      var q := if negative then p + 1 else p;
      var cParsed := CharsOrRangeAt(q);
      if cParsed.Throw? then Throw(cParsed.exception) else
      var c := cParsed.value;
      if c.Some? then
        if negative then Throw(Fail(UnallowedNotInCharSet, TokenSpan(p))) else Ok((Some(c.value.0), c.value.1))
      else
        var groupParsed := CharGroupIdentAt(q, negative);
        if groupParsed.Throw? then Throw(groupParsed.exception) else
        var (group, e) := groupParsed.value;
        if group.Some? then Ok((group, e))
        else if negative then Throw(ExpectedTokenError(SpanAt(q), Identifier))
        else Ok((None, p))
    }

    /** A named class at `q`, `name` or `kind:name`, not checked any further */
    function CharGroupIdentAt(q: nat, negative: bool): (r: Parsed<Option<seq<GroupItem>>>)
      requires TokensWellFormed(source, tokens) && q <= |tokens|
      ensures !IsAt(q, Identifier) <==> r == Ok((None, q))
      ensures IsAt(q, Identifier) && !IsAt(q + 1, Colon) ==>
        r == Ok((Some([NamedClass(TokenText(q), negative, None, TokenSpan(q))]), q + 1))
      ensures IsAt(q, Identifier) && IsAt(q + 1, Colon) ==>
        r == if IsAt(q + 2, Identifier)
             then Ok((Some([NamedClass(TokenText(q + 2), negative, Some(TokenText(q)), TokensSpan(q, q + 2))]), q + 3))
             else Throw(ExpectFailure(q + 2, Identifier))
      ensures r.Ok? && r.value.0.Some? ==>
        |r.value.0.value| == 1 && ItemWellFormed(r.value.0.value[0], |source|) && q < r.value.1 <= |tokens|
    {
      hide *;
      if !IsAt(q, Identifier) then Ok((None, q))
      else if !IsAt(q + 1, Colon) then Ok((Some([NamedClass(TokenText(q), negative, None, TokenSpan(q))]), q + 1))
      else if !IsAt(q + 2, Identifier) then Throw(ExpectFailure(q + 2, Identifier))
      else Ok((Some([NamedClass(TokenText(q + 2), negative, Some(TokenText(q)), TokensSpan(q, q + 2))]), q + 3))
    }

    /** Repetition suffixes from `p` on applied to `rule` in order, the
        first innermost, each spanning the rule it repeats and its operator */
    function RepetitionsFrom(p: nat, rule: Rule, lazy: bool): (r: Parsed<Rule>)
      requires TokensWellFormed(source, tokens) && p <= |tokens| && WellFormed(rule, |source|)
      ensures r.Ok? ==> p <= r.value.1 <= |tokens| && WellFormed(r.value.0, |source|)
      decreases |tokens| - p
    {
      hide *;
      var repetitionParsed := RepetitionAt(p, lazy);
      if repetitionParsed.Throw? then Throw(repetitionParsed.exception) else
      var (repetition, e) := repetitionParsed.value;
      if repetition.None? then Ok((rule, p))
      else
        var (kind, quantifier, span) := repetition.value;
        RepeatedWellFormed(rule, kind, quantifier, span, |source|);
        RepetitionsFrom(e, Repetition(rule, kind, quantifier, Join(rule.span, span)), lazy)
    }

    /** A repetition operator at `p`: `+` is `{1,}`, `*` is `{0,}`, `?` is
        `{0,1}`, and braces are what `BracesAt` gives */
    function OperatorAt(p: nat): (r: Parsed<Option<RepetitionKind>>)
      requires TokensWellFormed(source, tokens) && p <= |tokens|
      ensures r.Ok? ==> p <= r.value.1 <= |tokens| && (r.value.0.None? <==> r.value.1 == p)
      ensures r.Ok? && r.value.0.Some? ==> RepetitionWellFormed(r.value.0.value)
    {
      hide *;
      if IsAt(p, Plus) then Ok((Some(RepetitionKind(1, None)), p + 1))
      else if IsAt(p, Star) then Ok((Some(RepetitionKind(0, None)), p + 1))
      else if IsAt(p, QuestionMark) then Ok((Some(RepetitionKind(0, Some(1))), p + 1))
      else if IsAt(p, OpenBrace) then
        var kindParsed := BracesAt(p + 1);
        if kindParsed.Throw? then Throw(kindParsed.exception) else
        var (kind, e) := kindParsed.value;
        Ok((Some(kind), e))
      else Ok((None, p))
    }

    /** The quantifier after an operator ending at `i`: `greedy` or `lazy`
        is read, and without either the laziness flag decides */
    function QuantifierAt(i: nat, lazy: bool): (q: (Quantifier, nat))
      requires TokensWellFormed(source, tokens)
      ensures q.1 == i || (q.1 == i + 1 && i < |tokens|)
    {
      hide *;
      if IsWordAt(i, ReservedName, "greedy") then (Greedy, i + 1)
      else if IsWordAt(i, ReservedName, "lazy") then (Lazy, i + 1)
      else (if lazy then DefaultLazy else DefaultGreedy, i)
    }

    /** A repetition at `p`: an operator, its quantifier, and no second
        operator right after, which would be `MultipleRepetitions` spanning
        that second operator; the repetition spans its operator and
        quantifier */
    function RepetitionAt(p: nat, lazy: bool): (r: Parsed<Option<(RepetitionKind, Quantifier, Span)>>)
      requires TokensWellFormed(source, tokens) && p <= |tokens|
      ensures r.Ok? ==> p <= r.value.1 <= |tokens| && (r.value.0.None? <==> r.value.1 == p)
      ensures r.Ok? && r.value.0.Some? ==> RepetitionWellFormed(r.value.0.value.0) && ValidSpan(r.value.0.value.2, |source|)
    {
      hide *;
      var kindParsed := OperatorAt(p);
      if kindParsed.Throw? then Throw(kindParsed.exception) else
      var (kind, e) := kindParsed.value;
      if kind.None? then Ok((None, p))
      else
        var (quantifier, end) := QuantifierAt(e, lazy);
        if IsAt(end, Plus) || IsAt(end, Star) || IsAt(end, QuestionMark) then
          Throw(Fail(MultipleRepetitions, TokenSpan(end)))
        else if IsAt(end, OpenBrace) then
          var bracesParsed := BracesAt(end + 1);
          if bracesParsed.Throw? then Throw(bracesParsed.exception) else
          var braces := bracesParsed.value;
          Throw(Fail(MultipleRepetitions, TokensSpan(end, braces.1 - 1)))
        else
          Ok((Some((kind.value, quantifier, TokensSpan(p, end - 1))), end))
    }

    // -------------------------------------------------------------------------
    // Where the productions begin and end
    //
    // A production that may be absent gives nothing, and consumes nothing,
    // exactly where no token that could begin it stands; where one stands it
    // gives a value or raises. A repeated production stops only where nothing
    // that could continue it stands.

    /** A group is absent exactly where none of `atomic`, `:` and `(` stands */
    lemma GroupFirst(p: nat, f: Flags)
      requires TokensWellFormed(source, tokens) && p <= |tokens|
      ensures GroupAt(p, f) == Ok((None, p)) <==> !StartsGroup(p)
    {
    }

    /** A keyword atom is absent exactly where none of its tokens stands */
    lemma KeywordAtomFirst(p: nat)
      requires TokensWellFormed(source, tokens) && p <= |tokens|
      ensures KeywordAtomAt(p) == Ok((None, p)) <==> !StartsKeywordAtom(p)
    {
    }

    /** A leaf atom is absent exactly where none of its tokens stands */
    lemma LeafAtomFirst(p: nat, unicode: bool)
      requires TokensWellFormed(source, tokens) && p <= |tokens|
      ensures LeafAtomAt(p, unicode) == Ok((None, p)) <==> !StartsLeafAtom(p)
    {
      hide ItemsFrom, CharSetEndAt, ReferenceTargetAt, TokensSpan, TokenSpan, CodePointAt, RangeAt, RegexAt, OneTokenAtomAt, ParseQuotedText;
      KeywordAtomFirst(p);
    }

    /** An atom is absent exactly where no group and no leaf atom begins */
    lemma AtomFirst(p: nat, f: Flags)
      requires TokensWellFormed(source, tokens) && p <= |tokens|
      ensures AtomAt(p, f) == Ok((None, p)) <==> !StartsAtom(p)
    {
      GroupFirst(p, f);
      LeafAtomFirst(p, f.isUnicodeAware);
    }

    /** A prefixed and suffixed expression is absent exactly where no `!`,
        no lookaround and no atom begins */
    lemma FixFirst(p: nat, f: Flags)
      requires TokensWellFormed(source, tokens) && p <= |tokens|
      ensures FixesAt(p, f) == Ok((None, p)) <==> !StartsFix(p)
    {
      hide RepetitionsFrom, Negated, NotsSpan, ExpectedError, SpanAt, StartsAtom, AtomAt, LookaroundAt, ModifiedAt;
      var n := NotsAt(p);
      assert n == 0 <==> !IsAt(p, Not);
      LookaroundOrAtomFirst(p + n, f);
      var foundParsed := LookaroundOrAtomAt(p + n, f);
      if foundParsed.Ok? && foundParsed.value.0.None? {
        assert FixesAt(p, f) == if n == 0 then Ok((None, p)) else Throw(ExpectedError(SpanAt(p + n), ExpectsExpression));
      }
    }

    /** A lookaround or atom is absent exactly where neither `>>`, `<<` nor
        an atom begins */
    lemma LookaroundOrAtomFirst(p: nat, f: Flags)
      requires TokensWellFormed(source, tokens) && p <= |tokens|
      ensures LookaroundOrAtomAt(p, f) == Ok((None, p)) <==> !IsAt(p, LookAhead) && !IsAt(p, LookBehind) && !StartsAtom(p)
    {
      AtomFirst(p, f);
    }

    /** A sequence is absent exactly where no fix begins */
    lemma SequenceFirst(p: nat, f: Flags)
      requires TokensWellFormed(source, tokens) && p <= |tokens|
      ensures SequenceAt(p, f) == Ok((None, p)) <==> !StartsFix(p)
    {
      FixFirst(p, f);
    }

    /** An intersection is absent exactly where neither `&` nor a fix
        begins */
    lemma AndFirst(p: nat, f: Flags)
      requires TokensWellFormed(source, tokens) && p <= |tokens|
      ensures AndAt(p, f) == Ok((None, p)) <==> !StartsAnd(p)
    {
      SequenceFirst(p, f);
      if IsAt(p, Ampersand) {
        SequenceFirst(p + 1, f);
      }
    }

    /** A repetition is absent exactly where no operator stands */
    lemma RepetitionFirst(p: nat, lazy: bool)
      requires TokensWellFormed(source, tokens) && p <= |tokens|
      ensures RepetitionAt(p, lazy) == Ok((None, p)) <==> !StartsRepetition(p)
    {
    }

    /** Repetition suffixes stop only where no operator follows */
    lemma {:induction false} RepetitionsEnd(p: nat, rule: Rule, lazy: bool)
      requires TokensWellFormed(source, tokens) && p <= |tokens| && WellFormed(rule, |source|)
      ensures var r := RepetitionsFrom(p, rule, lazy); r.Ok? ==> !StartsRepetition(r.value.1)
      decreases |tokens| - p
    {
      RepetitionFirst(p, lazy);
      var repetitionParsed := RepetitionAt(p, lazy);
      if repetitionParsed.Ok? && repetitionParsed.value.0.Some? {
        var (repetition, e) := repetitionParsed.value;
        var (kind, quantifier, span) := repetition.value;
        RepeatedWellFormed(rule, kind, quantifier, span, |source|);
        RepetitionsEnd(e, Repetition(rule, kind, quantifier, Join(rule.span, span)), lazy);
      }
    }

    /** A fix is never followed directly by a repetition operator */
    lemma FixEnd(p: nat, f: Flags)
      requires TokensWellFormed(source, tokens) && p <= |tokens|
      ensures var r := FixesAt(p, f); r.Ok? && r.value.0.Some? ==> !StartsRepetition(r.value.1)
    {
      hide ModifiedAt, StatementsFrom, StatementAt, LetAt, OrAt, AlternativesFrom, AndAt, IntersectionFrom, SequenceAt, SequenceFrom, LookaroundOrAtomAt, LookaroundAt, AtomAt, GroupAt, GroupBodyAt, RepetitionsFrom, Negated, NotsSpan, ExpectedError, SpanAt, StartsRepetition;
      var n := NotsAt(p);
      var foundParsed := LookaroundOrAtomAt(p + n, f);
      if foundParsed.Ok? && foundParsed.value.0.Some? {
        var (found, e) := foundParsed.value;
        NegatedWellFormed(found.value, n, NotsSpan(p, n), |source|);
        RepetitionsEnd(e, Negated(found.value, n, NotsSpan(p, n)), f.isLazy);
      }
    }

    /** A sequence stops only where no fix begins */
    lemma {:induction false} SequenceEnd(p: nat, fixes: seq<Rule>, f: Flags)
      requires TokensWellFormed(source, tokens) && p <= |tokens|
      requires forall i :: 0 <= i < |fixes| ==> WellFormed(fixes[i], |source|)
      ensures var r := SequenceFrom(p, fixes, f); r.Ok? ==> !StartsFix(r.value.1)
      decreases |tokens| - p
    {
      FixFirst(p, f);
      var fixParsed := FixesAt(p, f);
      if fixParsed.Ok? && fixParsed.value.0.Some? {
        SequenceEnd(fixParsed.value.1, fixes + [fixParsed.value.0.value], f);
      }
    }

    /** A sequence stops only where no fix begins */
    lemma SequenceAtEnd(p: nat, f: Flags)
      requires TokensWellFormed(source, tokens) && p <= |tokens|
      ensures var r := SequenceAt(p, f); r.Ok? ==> !StartsFix(r.value.1)
    {
      SequenceEnd(p, [], f);
    }

    /** An intersection whose last sequence ended at `p` stops only where
        neither `&` nor a fix follows */
    lemma {:induction false} IntersectionEnd(p: nat, rules: seq<Rule>, start: Span, f: Flags)
      requires TokensWellFormed(source, tokens) && 0 < p <= |tokens|
      requires |rules| >= 1 && (forall i :: 0 <= i < |rules| ==> WellFormed(rules[i], |source|)) && ValidSpan(start, |source|)
      requires |rules| == 1 ==> IsAt(p, Ampersand)
      requires !StartsFix(p)
      ensures var r := IntersectionFrom(p, rules, start, f); r.Ok? ==> !StartsAnd(r.value.1)
      decreases |tokens| - p
    {
      hide ModifiedAt, StatementsFrom, StatementAt, LetAt, OrAt, AlternativesFrom, AndAt, SequenceAt, SequenceFrom, FixesAt, LookaroundOrAtomAt, LookaroundAt, AtomAt, GroupAt, GroupBodyAt, StartsFix, Join, TokenSpan, ExpectedError, SpanAt;
      if IsAt(p, Ampersand) {
        var nextParsed := SequenceAt(p + 1, f);
        SequenceAtEnd(p + 1, f);
        if nextParsed.Ok? && nextParsed.value.0.Some? {
          IntersectionEnd(nextParsed.value.1, rules + [nextParsed.value.0.value], start, f);
        }
      }
    }

    /** An intersection stops only where neither `&` nor a fix follows */
    lemma AndEnd(p: nat, f: Flags)
      requires TokensWellFormed(source, tokens) && p <= |tokens|
      ensures var r := AndAt(p, f); r.Ok? ==> !StartsAnd(r.value.1)
    {
      hide ModifiedAt, StatementsFrom, StatementAt, LetAt, OrAt, AlternativesFrom, IntersectionFrom, SequenceAt, SequenceFrom, FixesAt, LookaroundOrAtomAt, LookaroundAt, AtomAt, GroupAt, GroupBodyAt, StartsFix, ExpectedError, SpanAt;
      SequenceFirst(p, f);
      var q := if IsAt(p, Ampersand) then p + 1 else p;
      SequenceAtEnd(q, f);
      var firstParsed := SequenceAt(q, f);
      if firstParsed.Ok? && firstParsed.value.0.Some? && IsAt(firstParsed.value.1, Ampersand) {
        IntersectionEnd(firstParsed.value.1, [firstParsed.value.0.value], SpanAt(p), f);
      }
    }

    /** Alternatives whose last one ended at `p` stop only where neither `|`
        nor an intersection follows */
    lemma {:induction false} AlternativesEnd(p: nat, alts: seq<Rule>, span: Span, f: Flags)
      requires TokensWellFormed(source, tokens) && p <= |tokens|
      requires |alts| >= 1 && (forall i :: 0 <= i < |alts| ==> WellFormed(alts[i], |source|)) && ValidSpan(span, |source|)
      requires !StartsAnd(p)
      ensures var r := AlternativesFrom(p, alts, span, f); r.Ok? ==> !IsAt(r.value.1, Pipe) && !StartsAnd(r.value.1)
      decreases |tokens| - p
    {
      hide ModifiedAt, StatementsFrom, StatementAt, LetAt, OrAt, AndAt, IntersectionFrom, SequenceAt, SequenceFrom, FixesAt, LookaroundOrAtomAt, LookaroundAt, AtomAt, GroupAt, GroupBodyAt, StartsAnd, Join, TokenSpan;
      if IsAt(p, Pipe) {
        var nextParsed := AndAt(p + 1, f);
        AndEnd(p + 1, f);
        if nextParsed.Ok? && nextParsed.value.0.Some? {
          var next := nextParsed.value.0.value;
          WellFormedSpan(next, |source|);
          AlternativesEnd(nextParsed.value.1, alts + [next], Join(span, next.span), f);
        }
      }
    }

    /** An alternation stops only where neither `|` nor an intersection
        follows */
    lemma OrEnd(p: nat, f: Flags)
      requires TokensWellFormed(source, tokens) && p <= |tokens|
      ensures var r := OrAt(p, f); r.Ok? ==> !IsAt(r.value.1, Pipe) && !StartsAnd(r.value.1)
    {
      hide ModifiedAt, StatementsFrom, StatementAt, LetAt, AlternativesFrom, AndAt, IntersectionFrom, SequenceAt, SequenceFrom, FixesAt, LookaroundOrAtomAt, LookaroundAt, AtomAt, GroupAt, GroupBodyAt, StartsAnd, TokenSpan, SpanAt;
      var q := if IsAt(p, Pipe) then p + 1 else p;
      AndFirst(q, f);
      AndEnd(q, f);
      var firstParsed := AndAt(q, f);
      if firstParsed.Ok? && firstParsed.value.0.Some? {
        AlternativesEnd(firstParsed.value.1, [firstParsed.value.0.value], SpanAt(p), f);
      }
    }

    /** A `|` with no intersection after it is `LonePipe` at that `|`, at
        the start of an alternation as after an alternative */
    lemma LonePipeAt(p: nat, alts: seq<Rule>, span: Span, f: Flags)
      requires TokensWellFormed(source, tokens) && IsAt(p, Pipe) && !StartsAnd(p + 1)
      requires |alts| >= 1 && (forall i :: 0 <= i < |alts| ==> WellFormed(alts[i], |source|)) && ValidSpan(span, |source|)
      ensures OrAt(p, f) == Throw(Fail(LonePipe, TokenSpan(p)))
      ensures AlternativesFrom(p, alts, span, f) == Throw(Fail(LonePipe, TokenSpan(p)))
    {
      AndFirst(p + 1, f);
    }

    /** A statement is absent exactly where none of `enable`, `disable`,
        `let` and `test` stands; where one stands, the statement is read or
        its error raised */
    lemma StatementFirst(p: nat, f: Flags)
      requires TokensWellFormed(source, tokens) && p <= |tokens|
      ensures StatementAt(p, f) == Ok((None, p)) <==> !StartsStatement(p)
    {
      hide ModifiedAt, StatementsFrom, OrAt, AlternativesFrom, AndAt, IntersectionFrom, SequenceAt, SequenceFrom, FixesAt, LookaroundOrAtomAt, LookaroundAt, AtomAt, GroupAt, GroupBodyAt;
    }

    /** The statements stop only where no statement keyword follows */
    lemma {:induction false} StatementsEnd(p: nat, stmts: seq<(Stmt, Span)>, f: Flags)
      requires TokensWellFormed(source, tokens) && p <= |tokens|
      requires forall i :: 0 <= i < |stmts| ==> StmtWellFormed(stmts[i].0, |source|) && ValidSpan(stmts[i].1, |source|)
      ensures var r := StatementsFrom(p, stmts, f); r.Ok? ==> !StartsStatement(r.value.1)
      decreases |tokens| - p
    {
      hide ModifiedAt, StatementAt, LetAt, OrAt, AlternativesFrom, AndAt, IntersectionFrom, SequenceAt, SequenceFrom, FixesAt, LookaroundOrAtomAt, LookaroundAt, AtomAt, GroupAt, GroupBodyAt;
      StatementFirst(p, FlagsAfter(f, stmts));
      var stmtParsed := StatementAt(p, FlagsAfter(f, stmts));
      if stmtParsed.Ok? && stmtParsed.value.0.Some? {
        var (stmt, e) := stmtParsed.value;
        StatementsEnd(e, stmts + [stmt.value], f);
      }
    }

    /** An expression stops only where neither `|` nor an intersection
        follows */
    lemma ModifiedEnd(p: nat, f: Flags)
      requires TokensWellFormed(source, tokens) && p <= |tokens|
      ensures var r := ModifiedAt(p, f); r.Ok? ==> !IsAt(r.value.1, Pipe) && !StartsAnd(r.value.1)
    {
      hide StatementsFrom, StatementAt, LetAt, OrAt, AlternativesFrom, AndAt, IntersectionFrom, SequenceAt, SequenceFrom, FixesAt, LookaroundOrAtomAt, LookaroundAt, AtomAt, GroupAt, GroupBodyAt;
      var stmtsParsed := StatementsFrom(p, [], f);
      if stmtsParsed.Ok? {
        OrEnd(stmtsParsed.value.1, FlagsAfter(f, stmtsParsed.value.0));
      }
    }

    /** Tokens left over after the expression are reported at the first of
        them, and that token can neither continue an alternation nor begin
        an intersection */
    lemma LeftoverAt()
      requires TokensWellFormed(source, tokens)
      ensures var m := ModifiedAt(0, Flags(false, true));
        m.Ok? && m.value.1 < |tokens| ==>
          Outcome() == Failed([Fail(LeftoverTokens, TokenSpan(m.value.1))]) && !IsAt(m.value.1, Pipe) && !StartsAnd(m.value.1)
    {
      ModifiedEnd(0, Flags(false, true));
    }

    /** A class member is absent exactly where none of `!`, a string, a code
        point and an identifier stands */
    lemma ItemFirst(p: nat)
      requires TokensWellFormed(source, tokens) && p <= |tokens|
      ensures ItemAt(p) == Ok((None, p)) <==> !StartsItem(p)
    {
    }

    /** A member after `!` must be a named class: what `NegationError`
        names is raised, and otherwise the member is that class, negated */
    lemma NegatedItem(p: nat)
      requires TokensWellFormed(source, tokens) && IsAt(p, Not)
      ensures NegationError(p).Some? ==> ItemAt(p) == Throw(NegationError(p).value)
      ensures NegationError(p).None? ==> ItemAt(p) == CharGroupIdentAt(p + 1, true)
      ensures ItemAt(p).Ok? ==> ItemAt(p).value.0.Some? && |ItemAt(p).value.0.value| == 1 && ItemAt(p).value.0.value[0].NamedClass? && ItemAt(p).value.0.value[0].negative
    {
      hide CharsOrRangeAt, StringOrCharAt, CharGroupIdentAt, TokenSpan, SpanAt, ExpectedTokenError;
    }

    /** The members of a class stop only where none can begin */
    lemma {:induction false} ItemsEnd(p: nat, items: seq<GroupItem>)
      requires TokensWellFormed(source, tokens) && p <= |tokens|
      requires forall i :: 0 <= i < |items| ==> ItemWellFormed(items[i], |source|)
      ensures var r := ItemsFrom(p, items); r.Ok? ==> !StartsItem(r.value.1)
      decreases |tokens| - p
    {
      hide ItemAt;
      ItemFirst(p);
      var itemParsed := ItemAt(p);
      if itemParsed.Ok? && itemParsed.value.0.Some? {
        var (item, e) := itemParsed.value;
        ItemsEnd(e, items + item.value);
      }
    }

    /** A class is read up to the first token that cannot begin a member,
        which must be `]` */
    lemma CharSetEnd(p: nat, unicode: bool)
      requires TokensWellFormed(source, tokens) && p <= |tokens|
      ensures var r := CharSetAt(p, unicode); r.Ok? && r.value.0.Some? ==>
        IsAt(r.value.1 - 1, CloseBracket) && !StartsItem(r.value.1 - 1)
    {
      hide ItemsFrom, StartsItem, TokensSpan, Rethrow, ExpectFailure;
      if IsAt(p, OpenBracket) {
        ItemsEnd(p + 1, []);
      }
    }

    /** `[]` is `EmptyCharSet` spanning both brackets */
    lemma EmptyCharSetAt(p: nat, unicode: bool)
      requires TokensWellFormed(source, tokens) && IsAt(p, OpenBracket) && IsAt(p + 1, CloseBracket)
      ensures CharSetAt(p, unicode) == Throw(Fail(EmptyCharSet, TokensSpan(p, p + 1)))
    {
      hide TokensSpan, ItemAt;
      ItemFirst(p + 1);
      assert ItemsFrom(p + 1, []) == Ok(([], p + 1));
    }

    /** The quantifier after an operator: `greedy` and `lazy` are read
        whatever the laziness flag, which decides only when neither is
        written */
    lemma QuantifierChoice(i: nat, lazy: bool)
      requires TokensWellFormed(source, tokens)
      ensures var (q, e) := QuantifierAt(i, lazy);
        (q == Greedy <==> IsWordAt(i, ReservedName, "greedy"))
        && (q == Lazy <==> IsWordAt(i, ReservedName, "lazy"))
        && (q == DefaultLazy <==> lazy && !IsWordAt(i, ReservedName, "greedy") && !IsWordAt(i, ReservedName, "lazy"))
        && (q == DefaultGreedy <==> !lazy && !IsWordAt(i, ReservedName, "greedy") && !IsWordAt(i, ReservedName, "lazy"))
        && (e == i + 1 <==> q == Greedy || q == Lazy)
    {
    }

    /** A repetition is its operator's kind and the quantifier after it,
        spanning both, and no operator follows it */
    lemma RepetitionShape(p: nat, lazy: bool)
      requires TokensWellFormed(source, tokens) && p <= |tokens|
      ensures var r := RepetitionAt(p, lazy); r.Ok? && r.value.0.Some? ==>
        OperatorAt(p).Ok? && OperatorAt(p).value.0 == Some(r.value.0.value.0)
        && QuantifierAt(OperatorAt(p).value.1, lazy) == (r.value.0.value.1, r.value.1)
        && r.value.0.value.2 == TokensSpan(p, r.value.1 - 1)
        && !StartsRepetition(r.value.1)
    {
      hide TokensSpan, BracesAt, TokenSpan, QuantifierAt;
    }

    /** A second operator right after a repetition and its quantifier is
        `MultipleRepetitions`, spanning that second operator (up to its `}`
        for braces) */
    lemma RepeatedOperator(p: nat, lazy: bool)
      requires TokensWellFormed(source, tokens) && p <= |tokens|
      requires OperatorAt(p).Ok? && OperatorAt(p).value.0.Some?
      ensures var end := QuantifierAt(OperatorAt(p).value.1, lazy).1;
        StartsRepetition(end) ==> RepetitionAt(p, lazy).Throw?
      ensures var end := QuantifierAt(OperatorAt(p).value.1, lazy).1;
        IsAt(end, Plus) || IsAt(end, Star) || IsAt(end, QuestionMark) ==>
          RepetitionAt(p, lazy) == Throw(Fail(MultipleRepetitions, TokensSpan(end, end)))
      ensures var end := QuantifierAt(OperatorAt(p).value.1, lazy).1;
        IsAt(end, OpenBrace) && BracesAt(end + 1).Ok? ==>
          RepetitionAt(p, lazy) == Throw(Fail(MultipleRepetitions, TokensSpan(end, BracesAt(end + 1).value.1 - 1)))
    {
      hide BracesAt, QuantifierAt, OperatorAt;
      var end := QuantifierAt(OperatorAt(p).value.1, lazy).1;
      if end < |tokens| {
        assert Join(TokenSpan(end), TokenSpan(end)) == TokenSpan(end);
      }
    }

    /** `x++` is `MultipleRepetitions` at the second `+` */
    lemma DoublePlus(p: nat, lazy: bool)
      requires TokensWellFormed(source, tokens) && IsAt(p, Plus) && IsAt(p + 1, Plus)
      ensures RepetitionAt(p, lazy) == Throw(Fail(MultipleRepetitions, TokenSpan(p + 1)))
    {
      RepeatedOperator(p, lazy);
    }

    /** `x+ lazy` is lazy whatever the laziness flag, and spans `+ lazy` */
    lemma PlusLazy(p: nat, lazy: bool)
      requires TokensWellFormed(source, tokens) && IsAt(p, Plus) && IsWordAt(p + 1, ReservedName, "lazy")
      requires !StartsRepetition(p + 2)
      ensures RepetitionAt(p, lazy) == Ok((Some((RepetitionKind(1, None), Lazy, TokensSpan(p, p + 1))), p + 2))
    {
    }

    /** A `match` case with two strings or more is accepted only with `in`:
        without it, it is `MultipleStringsInTestCase` */
    lemma {:induction false} SeveralStringsNeedIn(p: nat, matches: seq<TestMatch>)
      requires TokensWellFormed(source, tokens) && p <= |tokens|
      requires |matches| >= 2 && forall i :: 0 <= i < |matches| ==> MatchWellFormed(matches[i], |source|)
      ensures var r := MatchesFrom(p, matches); r.Ok? ==> r.value.0.Some? && r.value.0.value.MatchAll?
      decreases |tokens| - p
    {
      hide TestMatchAt, QuotedLiteralAt, ExpectedTokenError, SpanAt, ExpectFailure;
      if IsAt(p, Comma) {
        var next := TestMatchAt(p + 1);
        if next.Ok? {
          SeveralStringsNeedIn(next.value.1, matches + [next.value.0]);
        }
      }
    }

    /** The strings of a `match` case without `in`, closed by `;`, are
        `MultipleStringsInTestCase` when there are several, spanning the
        first to the last */
    lemma MultipleStrings(p: nat, matches: seq<TestMatch>)
      requires TokensWellFormed(source, tokens) && p <= |tokens|
      requires |matches| >= 2 && forall i :: 0 <= i < |matches| ==> MatchWellFormed(matches[i], |source|)
      requires !IsAt(p, Comma) && !IsWordAt(p, Identifier, "in") && IsAt(p, Semicolon)
      ensures MatchesFrom(p, matches) == Throw(Fail(MultipleStringsInTestCase, Join(matches[0].span, matches[|matches| - 1].span)))
    {
    }

    /** A `match` case that reads one string is that string's match, and
        then no comma follows it */
    lemma {:induction false} SingleString(p: nat, matches: seq<TestMatch>)
      requires TokensWellFormed(source, tokens) && p <= |tokens|
      requires |matches| >= 1 && forall i :: 0 <= i < |matches| ==> MatchWellFormed(matches[i], |source|)
      ensures var r := MatchesFrom(p, matches); r.Ok? && r.value.0.Some? && r.value.0.value.Match? ==>
        matches == [r.value.0.value.test] && !IsAt(p, Comma)
    {
      hide TestMatchAt, QuotedLiteralAt, ExpectedTokenError, SpanAt, ExpectFailure;
      if IsAt(p, Comma) {
        var next := TestMatchAt(p + 1);
        if next.Ok? {
          SeveralStringsNeedIn(next.value.1, matches + [next.value.0]);
        }
      }
    }

    /** A `let` binds the name after it to the alternation after `=`, and
        spans from `let` to the `;` that must close it */
    lemma LetShape(p: nat, f: Flags)
      requires TokensWellFormed(source, tokens) && p <= |tokens|
      ensures var r := LetAt(p, f); r.Ok? && r.value.0.Some? ==>
        var rule := OrAt(p + 3, f);
        IsWordAt(p, ReservedName, "let") && IsAt(p + 1, Identifier) && IsAt(p + 2, Equals)
        && rule.Ok? && IsAt(rule.value.1, Semicolon) && r.value.1 == rule.value.1 + 1
        && r.value.0.value == (Let(TokenText(p + 1), TokenSpan(p + 1), rule.value.0), TokensSpan(p, rule.value.1))
    {
      hide ModifiedAt, StatementsFrom, StatementAt, OrAt, AlternativesFrom, AndAt, IntersectionFrom, SequenceAt, SequenceFrom, FixesAt, LookaroundOrAtomAt, LookaroundAt, AtomAt, GroupAt, GroupBodyAt;
    }

    /** A `test` holds the cases read after its `{`, and spans from `test`
        to the `}` that must close it */
    lemma TestShape(p: nat)
      requires TokensWellFormed(source, tokens) && p <= |tokens|
      ensures var r := TestAt(p); r.Ok? && r.value.0.Some? ==>
        var cases := TestCasesFrom(p + 2, []);
        IsWordAt(p, ReservedName, "test") && IsAt(p + 1, OpenBrace)
        && cases.Ok? && IsAt(cases.value.1, CloseBrace) && r.value.1 == cases.value.1 + 1
        && r.value.0.value == (Test(cases.value.0, TokensSpan(p, cases.value.1)), TokensSpan(p, cases.value.1))
    {
      hide ModifiedAt, StatementsFrom, StatementAt, LetAt, OrAt, AlternativesFrom, AndAt, IntersectionFrom, SequenceAt, SequenceFrom, FixesAt, LookaroundOrAtomAt, LookaroundAt, AtomAt, GroupAt, GroupBodyAt;
      hide TestCasesFrom, TokensSpan;
    }

    /** A group holds the expression between its `(` and the `)` that must
        close it, has the kind its prefix gives, and spans from its first
        token to that `)` */
    lemma GroupShape(p: nat, f: Flags)
      requires TokensWellFormed(source, tokens) && p <= |tokens|
      ensures var r := GroupAt(p, f); r.Ok? && r.value.0.Some? ==>
        var kind := GroupKindAt(p);
        kind.Ok? && IsAt(kind.value.1, OpenParen)
        && var rule := ModifiedAt(kind.value.1 + 1, f);
        rule.Ok? && IsAt(rule.value.1, CloseParen) && r.value.1 == rule.value.1 + 1
        && r.value.0.value == Group([rule.value.0], kind.value.0.0, TokensSpan(p, rule.value.1))
    {
      hide ModifiedAt, StatementsFrom, StatementAt, LetAt, OrAt, AlternativesFrom, AndAt, IntersectionFrom, SequenceAt, SequenceFrom, FixesAt, LookaroundOrAtomAt, LookaroundAt, AtomAt;
      hide GroupKindAt, TokensSpan;
    }

    predicate IsEmpty()
      reads this
    {
      offset == |tokens|
    }

    /** The kind and text of the next token, absent at the end */
    function Peek(): (r: Option<(TokenKind, string)>)
      reads this
      requires Valid()
      ensures r.Some? <==> offset < |tokens|
      ensures r.Some? ==> r.value == (tokens[offset].kind, TokenText(offset))
    {
      if offset < |tokens| then Some((tokens[offset].kind, TokenText(offset))) else None
    }

    /** The span of the next token; at the end, the empty span at the end of
        the source */
    function CurrentSpan(): (s: Span)
      reads this
      requires Valid()
      ensures ValidSpan(s, |source|)
      ensures offset < |tokens| ==> s == TokenSpan(offset)
      ensures offset == |tokens| ==> s == Span(|source|, |source|)
      ensures s == SpanAt(offset)
    {
      if offset < |tokens| then TokenSpan(offset) else Span(|source|, |source|)
    }

    /** The value that code-point token `i` denotes; its text is a whole
        `U+hex` lexeme */
    function CodePointAt(i: nat): nat
      requires TokensWellFormed(source, tokens) && IsAt(i, CodePoint)
    {
      assert TokenPlaced(source, tokens, i);
      CodePointValue(TokenText(i))
    }

    /** The span of the token consumed last */
    function LastSpan(): (s: Span)
      reads this
      requires Valid() && offset > 0
      ensures ValidSpan(s, |source|) && s == TokenSpan(offset - 1)
    {
      TokenSpan(offset - 1)
    }

    predicate Is(kind: TokenKind)
      reads this
    {
      IsAt(offset, kind)
    }

    /** The next token has kind `kind` and text `word` */
    predicate IsWord(kind: TokenKind, word: string)
      reads this
      requires Valid()
    {
      IsWordAt(offset, kind, word)
    }

    method Advance()
      requires Valid() && offset < |tokens|
      modifies this`offset
      ensures Valid() && offset == old(offset) + 1
    {
      offset := offset + 1;
    }

    /** Consumes the next token if it has kind `kind` */
    method Consume(kind: TokenKind) returns (b: bool)
      requires Valid()
      modifies this`offset
      ensures Valid()
      ensures b <==> IsAt(old(offset), kind)
      ensures offset == if b then old(offset) + 1 else old(offset)
    {
      b := Is(kind);
      if b {
        offset := offset + 1;
      }
    }

    /** Consumes the next token if it has kind `kind`, giving its text */
    method ConsumeAs(kind: TokenKind) returns (r: Option<string>)
      requires Valid()
      modifies this`offset
      ensures Valid()
      ensures r.Some? <==> IsAt(old(offset), kind)
      ensures r.Some? ==> r.value == TokenText(old(offset))
      ensures offset == if r.Some? then old(offset) + 1 else old(offset)
    {
      if Is(kind) {
        r := Some(TokenText(offset));
        offset := offset + 1;
      } else {
        r := None;
      }
    }

    /** Consumes the reserved word `word` if it comes next */
    method ConsumeReserved(word: string) returns (b: bool)
      requires Valid()
      modifies this`offset
      ensures Valid()
      ensures b <==> IsWordAt(old(offset), ReservedName, word)
      ensures offset == if b then old(offset) + 1 else old(offset)
    {
      b := IsWord(ReservedName, word);
      if b {
        offset := offset + 1;
      }
    }

    /** Consumes the identifier `word`, a keyword only in some places, if it
        comes next */
    method ConsumeContextualKeyword(word: string) returns (b: bool)
      requires Valid()
      modifies this`offset
      ensures Valid()
      ensures b <==> IsWordAt(old(offset), Identifier, word)
      ensures offset == if b then old(offset) + 1 else old(offset)
    {
      b := IsWord(Identifier, word);
      if b {
        offset := offset + 1;
      }
    }

    /** Consumes a number token of value at most `max`. A larger value, or a
        text that is not a number, raises `NumberTooLarge` without consuming
        the token; with no number token next there is nothing to read. */
    method ConsumeNumber(max: nat) returns (r: Result<Option<nat>>)
      requires Valid()
      modifies this`offset
      ensures Valid()
      ensures !IsAt(old(offset), Number) ==> r == Ok(None) && offset == old(offset)
      ensures IsAt(old(offset), Number) ==>
        var v := NumberValue(TokenText(old(offset)));
        if v.Some? && v.value <= max
        then r == Ok(Some(v.value)) && offset == old(offset) + 1
        else r == Throw(Fail(NumberTooLarge, TokenSpan(old(offset)))) && offset == old(offset)
      ensures r.Ok? && r.value.Some? ==> r.value.value <= max
      ensures r == NumberAt(old(offset), max)
    {
      if !Is(Number) {
        return Ok(None);
      }
      var v := NumberValue(TokenText(offset));
      if v.Some? && v.value <= max {
        offset := offset + 1;
        return Ok(Some(v.value));
      }
      return Throw(Fail(NumberTooLarge, TokenSpan(offset)));
    }

    /** Consumes a token of kind `kind`, or fails. At the end of the tokens
        the failure is the runtime type error of reading a missing token. */
    method Expect(kind: TokenKind) returns (r: Result<()>)
      requires Valid()
      modifies this`offset
      ensures Valid()
      ensures r.Ok? <==> IsAt(old(offset), kind)
      ensures offset == if r.Ok? then old(offset) + 1 else old(offset)
      ensures old(offset) == |tokens| ==> r == Throw(TypeError)
      ensures old(offset) < |tokens| && r.Throw? ==> r == Throw(ExpectedTokenError(TokenSpan(old(offset)), kind))
      ensures r.Throw? ==> r == Throw(ExpectFailure(old(offset), kind))
    {
      if Is(kind) {
        offset := offset + 1;
        return Ok(());
      } else if offset == |tokens| {
        return Throw(TypeError);
      }
      return Throw(ExpectedTokenError(TokenSpan(offset), kind));
    }

    /** `Expect`, giving the text of the consumed token */
    method ExpectAs(kind: TokenKind) returns (r: Result<string>)
      requires Valid()
      modifies this`offset
      ensures Valid()
      ensures r.Ok? <==> IsAt(old(offset), kind)
      ensures r.Ok? ==> r.value == TokenText(old(offset))
      ensures offset == if r.Ok? then old(offset) + 1 else old(offset)
      ensures old(offset) == |tokens| ==> r == Throw(TypeError)
      ensures old(offset) < |tokens| && r.Throw? ==> r == Throw(ExpectedTokenError(TokenSpan(old(offset)), kind))
      ensures r.Throw? ==> r == Throw(ExpectFailure(old(offset), kind))
    {
      if Is(kind) {
        r := Ok(TokenText(offset));
        offset := offset + 1;
        return;
      } else if offset == |tokens| {
        return Throw(TypeError);
      }
      return Throw(ExpectedTokenError(TokenSpan(offset), kind));
    }

    /** Consumes a number token whose value is finite as a double; NaN and
        infinity raise `NumberTooLarge` */
    method ExpectNumber() returns (r: Result<nat>)
      requires Valid()
      modifies this`offset
      ensures Valid()
      ensures offset == if r.Ok? then old(offset) + 1 else old(offset)
      ensures old(offset) == |tokens| ==> r == Throw(TypeError)
      ensures old(offset) < |tokens| && !IsAt(old(offset), Number) ==> r == Throw(ExpectedTokenError(TokenSpan(old(offset)), Number))
      ensures IsAt(old(offset), Number) ==>
        var v := NumberValue(TokenText(old(offset)));
        if v.Some? && IsFiniteNumber(v.value) then r == Ok(v.value)
        else r == Throw(Fail(NumberTooLarge, TokenSpan(old(offset))))
      ensures r == FiniteNumberAt(old(offset))
    {
      if Is(Number) {
        var v := NumberValue(TokenText(offset));
        if !(v.Some? && IsFiniteNumber(v.value)) {
          return Throw(Fail(NumberTooLarge, TokenSpan(offset)));
        }
        offset := offset + 1;
        return Ok(v.value);
      } else if offset == |tokens| {
        return Throw(TypeError);
      }
      return Throw(ExpectedTokenError(TokenSpan(offset), Number));
    }

    // -------------------------------------------------------------------------
    // What the productions promise

    /** The cursor is valid and has not moved back */
    twostate predicate Forward()
      reads this
    {
      Valid() && old(offset) <= offset
    }

    /** Both flags have the values they had when the call began */
    twostate predicate FlagsKept()
      reads this
    {
      isLazy == old(isLazy) && isUnicodeAware == old(isUnicodeAware)
    }

    /** An optional production either declines and consumes nothing, or
        succeeds and consumes at least one token */
    twostate predicate Progress<T>(new r: Result<Option<T>>)
      reads this
    {
      r.Ok? ==> (r.value.None? <==> offset == old(offset))
    }

    /** The flags as they stand */
    function CurrentFlags(): Flags
      reads this`isLazy, this`isUnicodeAware
    {
      Flags(isLazy, isUnicodeAware)
    }

    /** The call gave what `spec`, the production at the position where the
        call began, gives: its value with the cursor just after it, or its
        exception */
    predicate Yields<T(==)>(r: Result<T>, spec: Parsed<T>)
      reads this
    {
      match spec
      case Ok((value, end)) => r == Ok(value) && offset == end
      case Throw(e) => r == Throw(e)
    }

    /** What parsing all the tokens gives: the expression from the first
        token under the default flags, not lazy and Unicode-aware, when it
        ends at the last token; a `LeftoverTokens` error at the first token
        it left over; or the exception it raised */
    function Outcome(): (o: ParseOutcome)
      requires TokensWellFormed(source, tokens)
      ensures o.Parsed? ==> WellFormed(o.rule, |source|)
      ensures o.Failed? ==> |o.errors| == 1
    {
      match ModifiedAt(0, Flags(false, true))
      case Throw(e) => Failed([e])
      case Ok((rule, end)) =>
        if end == |tokens| then Parsed(rule) else Failed([Fail(LeftoverTokens, TokenSpan(end))])
    }

    // -------------------------------------------------------------------------
    // Statements

    /** Statements, then an alternation, the statements wrapped around it.
        The flags set by `enable` and `disable` hold for the rest of this
        expression only: they are back to their old values on return. */
    method ParseModified() returns (r: Result<Rule>)
      requires Valid()
      modifies this
      ensures Forward() && Yields(r, ModifiedAt(old(offset), old(CurrentFlags())))
      ensures r.Ok? ==> FlagsKept()
      decreases |tokens| - offset, 13
    {
      hide TokensWellFormed, TokenText, IsWord, Is, TokenSpan, CurrentSpan, LastSpan, IsWordAt, SpanAt, ExpectFailure, NumberAt, IsAt, WellFormed, StmtWellFormed, StartsAnd, Join, StatementsFrom, OrAt;
      var wasLazy := isLazy;
      var wasUnicodeAware := isUnicodeAware;
      var statements :- ParseStatements();
      var rule :- ParseOr();
      isLazy := wasLazy;
      isUnicodeAware := wasUnicodeAware;
      var nested := NestStatements(statements, rule);
      return Ok(nested);
    }

    /** The statements ahead, in order. Each `enable` or `disable` sets its
        flag as soon as it is read, for the statements and the expression
        after it. */
    method ParseStatements() returns (r: Result<seq<(Stmt, Span)>>)
      requires Valid()
      modifies this
      ensures Forward() && Yields(r, StatementsFrom(old(offset), [], old(CurrentFlags())))
      ensures r.Ok? ==> CurrentFlags() == FlagsAfter(old(CurrentFlags()), r.value)
      decreases |tokens| - offset, 12
    {
      hide TokensWellFormed, TokenText, IsWord, Is, TokenSpan, CurrentSpan, LastSpan, IsWordAt, SpanAt, ExpectFailure, NumberAt, IsAt, WellFormed, StmtWellFormed, StatementAt;
      ghost var flags := CurrentFlags();
      var statements: seq<(Stmt, Span)> := [];
      while true
        invariant Valid() && old(offset) <= offset
        invariant forall i :: 0 <= i < |statements| ==> StmtWellFormed(statements[i].0, |source|) && ValidSpan(statements[i].1, |source|)
        invariant CurrentFlags() == FlagsAfter(flags, statements)
        invariant StatementsFrom(offset, statements, flags) == StatementsFrom(old(offset), [], flags)
        decreases |tokens| - offset
      {
        var stmt :- ParseStatement();
        if stmt.None? {
          break;
        }
        match stmt.value.0 {
          case Enable(setting, _) =>
            if setting == Laziness { isLazy := true; } else { isUnicodeAware := true; }
          case Disable(setting, _) =>
            if setting == Laziness { isLazy := false; } else { isUnicodeAware := false; }
          case _ =>
        }
        assert (statements + [stmt.value])[..|statements|] == statements;
        statements := statements + [stmt.value];
      }
      return Ok(statements);
    }

    /** A statement: a mode modifier, a `let` or a `test` block, tried in
        that order */
    method ParseStatement() returns (r: Result<Option<(Stmt, Span)>>)
      requires Valid()
      modifies this
      ensures Forward() && Yields(r, StatementAt(old(offset), old(CurrentFlags())))
      ensures r.Ok? ==> FlagsKept()
      decreases |tokens| - offset, 11
    {
      hide TokensWellFormed, TokenText, IsWord, Is, TokenSpan, CurrentSpan, LastSpan, IsWordAt, SpanAt, ExpectFailure, NumberAt, IsAt, WellFormed, ModeModifierAt, LetAt, TestAt;
      var stmt :- ParseModeModifier();
      if stmt.None? {
        stmt :- ParseLet();
      }
      if stmt.None? {
        stmt :- ParseTest();
      }
      return Ok(stmt);
    }

    /** `enable` or `disable`, then `lazy` or `unicode`, then `;` */
    method ParseModeModifier() returns (r: Result<Option<(Stmt, Span)>>)
      requires Valid()
      modifies this`offset
      ensures Forward() && Yields(r, ModeModifierAt(old(offset)))
    {
      hide TokensWellFormed, TokenText, IsWord, Is, TokenSpan, CurrentSpan, LastSpan, IsWordAt, SpanAt, ExpectFailure, NumberAt, IsAt, WellFormed;
      var mode: bool;
      var b := ConsumeReserved("enable");
      if b {
        mode := true;
      } else {
        b := ConsumeReserved("disable");
        if !b {
          return Ok(None);
        }
        mode := false;
      }
      var spanStart := LastSpan();
      var setting: BooleanSetting;
      b := ConsumeReserved("lazy");
      if b {
        setting := Laziness;
      } else {
        b := ConsumeContextualKeyword("unicode");
        if !b {
          return Throw(ExpectedError(CurrentSpan(), ExpectsMode));
        }
        setting := UnicodeAwareness;
      }
      var _ :- Expect(Semicolon);
      var span := Join(spanStart, LastSpan());
      var stmt := if mode then Enable(setting, span) else Disable(setting, span);
      return Ok(Some((stmt, span)));
    }

    /** `let name = expression;` */
    method ParseLet() returns (r: Result<Option<(Stmt, Span)>>)
      requires Valid()
      modifies this
      ensures Forward() && Yields(r, LetAt(old(offset), old(CurrentFlags())))
      ensures r.Ok? ==> FlagsKept()
      decreases |tokens| - offset, 10
    {
      hide TokensWellFormed, TokenText, IsWord, Is, TokenSpan, CurrentSpan, LastSpan, IsWordAt, SpanAt, ExpectFailure, NumberAt, IsAt, WellFormed;
      var b := ConsumeReserved("let");
      if !b {
        return Ok(None);
      }
      var spanStart := LastSpan();
      var nameSpan := CurrentSpan();
      var name :- ExpectAs(Identifier);
      var _ :- Expect(Equals);
      var rule :- ParseOr();
      var semicolon := Expect(Semicolon);
      if semicolon.Throw? {
        return Throw(Rethrow(semicolon.exception, ExpectsSemicolon));
      }
      var span := Join(spanStart, LastSpan());
      return Ok(Some((Let(name, nameSpan, rule), span)));
    }

    /** `test { cases }` */
    method ParseTest() returns (r: Result<Option<(Stmt, Span)>>)
      requires Valid()
      modifies this`offset
      ensures Forward() && Yields(r, TestAt(old(offset)))
    {
      hide TokensWellFormed, TokenText, IsWord, Is, TokenSpan, CurrentSpan, LastSpan, IsWordAt, SpanAt, ExpectFailure, NumberAt, IsAt, WellFormed, TestCaseAt;
      var b := ConsumeReserved("test");
      if !b {
        return Ok(None);
      }
      var spanStart := LastSpan();
      var _ :- Expect(OpenBrace);
      var cases: seq<TestCase> := [];
      while true
        invariant Valid() && old(offset) < offset
        invariant forall i :: 0 <= i < |cases| ==> TestCaseWellFormed(cases[i], |source|)
        invariant TestCasesFrom(offset, cases) == TestCasesFrom(old(offset) + 2, [])
        decreases |tokens| - offset
      {
        var testCase :- ParseTestCases();
        if testCase.None? {
          break;
        }
        cases := cases + [testCase.value];
      }
      var _ :- Expect(CloseBrace);
      var span := Join(spanStart, LastSpan());
      return Ok(Some((Test(cases, span), span)));
    }

    /** `match strings in string;`, `match string;` or `reject in? string;`.
        A `match` without strings and without `in` has no test case, though
        it consumed its tokens. */
    method ParseTestCases() returns (r: Result<Option<TestCase>>)
      requires Valid()
      modifies this`offset
      ensures Forward() && Yields(r, TestCaseAt(old(offset)))
    {
      hide TokensWellFormed, TokenText, IsWord, Is, TokenSpan, CurrentSpan, LastSpan, IsWordAt, SpanAt, ExpectFailure, NumberAt, IsAt, TestCaseOf, WellFormed, TestCaseWellFormed, ParseQuotedText, ExpectedTokenError, MatchCaseAt, RejectCaseAt;
      var b := ConsumeContextualKeyword("match");
      if b {
        r := ParseMatchCase();
        return;
      }
      b := ConsumeContextualKeyword("reject");
      if !b {
        return Ok(None);
      }
      r := ParseRejectCase();
    }

    /** What follows `match`: strings separated by commas unless `in` comes
        first, then optionally `in` and a string, then `;` */
    method ParseMatchCase() returns (r: Result<Option<TestCase>>)
      requires Valid() && offset > 0
      modifies this`offset
      ensures Forward() && Yields(r, MatchCaseAt(old(offset)))
    {
      hide TokensWellFormed, TokenText, IsWord, Is, TokenSpan, CurrentSpan, LastSpan, IsWordAt, SpanAt, ExpectFailure, NumberAt, IsAt, WellFormed, TestMatchAt;
      var ms: seq<TestMatch> := [];
      var next := Peek();
      if !(next.Some? && next.value.1 == "in") {
        var m :- ParseTestMatch();
        ms := [m];
        while true
          invariant Valid() && old(offset) < offset
          invariant forall i :: 0 <= i < |ms| ==> MatchWellFormed(ms[i], |source|)
          invariant MatchesFrom(offset, ms) == MatchCaseAt(old(offset))
          decreases |tokens| - offset
        {
          var comma := Consume(Comma);
          if !comma {
            break;
          }
          m :- ParseTestMatch();
          ms := ms + [m];
        }
      }
      var lit: Option<QuotedLiteral> := None;
      var b := ConsumeContextualKeyword("in");
      if b {
        lit := ParseLiteral();
        if lit.None? {
          return Throw(ExpectedTokenError(CurrentSpan(), String));
        }
      }
      var _ :- Expect(Semicolon);
      var testCase :- TestCaseOf(ms, lit);
      return Ok(testCase);
    }

    /** What follows `reject`: optionally `in`, then a string and `;` */
    method ParseRejectCase() returns (r: Result<Option<TestCase>>)
      requires Valid() && offset > 0
      modifies this`offset
      ensures Forward() && Yields(r, RejectCaseAt(old(offset)))
    {
      hide TokensWellFormed, TokenText, IsWord, Is, TokenSpan, CurrentSpan, LastSpan, IsWordAt, ExpectFailure, NumberAt, IsAt, WellFormed;
      var asSubstring := ConsumeContextualKeyword("in");
      var rejected := ParseLiteral();
      if rejected.None? {
        return Throw(ExpectedTokenError(CurrentSpan(), String));
      }
      var _ :- Expect(Semicolon);
      return Ok(Some(Reject(rejected.value, asSubstring)));
    }

    /** A string, then optionally `as {` and captures separated by commas.
        The capture list is not closed by an expected `}`. */
    method ParseTestMatch() returns (r: Result<TestMatch>)
      requires Valid()
      modifies this`offset
      ensures Forward() && Yields(r, TestMatchAt(old(offset)))
    {
      hide TokensWellFormed, TokenText, IsWord, Is, TokenSpan, CurrentSpan, LastSpan, IsWordAt, SpanAt, ExpectFailure, NumberAt, IsAt, WellFormed, TestCaptureAt;
      var literal := ParseLiteral();
      if literal.None? {
        return Throw(ExpectedTokenError(CurrentSpan(), String));
      }
      var spanStart := LastSpan();
      var captures: seq<TestCapture> := [];
      var b := ConsumeContextualKeyword("as");
      if b {
        var _ :- Expect(OpenBrace);
        var isFirst := true;
        while true
          invariant Valid() && old(offset) + 3 <= offset
          invariant forall i :: 0 <= i < |captures| ==> CaptureWellFormed(captures[i], |source|)
          invariant CapturesFrom(offset, captures, isFirst) == CapturesFrom(old(offset) + 3, [], true)
          decreases |tokens| - offset
        {
          if !isFirst {
            var comma := Consume(Comma);
            if !comma {
              break;
            }
          }
          var capture :- ParseTestCapture();
          if capture.None? {
            break;
          }
          captures := captures + [capture.value];
          isFirst := false;
        }
      }
      return Ok(TestMatch(literal.value, captures, Join(spanStart, LastSpan())));
    }

    /** `number: string` or `name: string`, the number at most 65536 */
    method ParseTestCapture() returns (r: Result<Option<TestCapture>>)
      requires Valid()
      modifies this`offset
      ensures Forward() && Yields(r, TestCaptureAt(old(offset)))
    {
      hide TokensWellFormed, TokenText, IsWord, Is, TokenSpan, CurrentSpan, LastSpan, IsWordAt, SpanAt, ExpectFailure, NumberAt, IsAt, WellFormed;
      var number :- ConsumeNumber(MaxCaptureNumber);
      var ident: CaptureIdent;
      if number.Some? {
        ident := CaptureNumber(number.value);
      } else {
        var name := ConsumeAs(Identifier);
        if name.None? {
          return Ok(None);
        }
        ident := CaptureName(name.value);
      }
      var identSpan := LastSpan();
      var _ :- Expect(Colon);
      var literal := ParseLiteral();
      if literal.None? {
        return Throw(ExpectedTokenError(CurrentSpan(), String));
      }
      return Ok(Some(TestCapture(ident, identSpan, literal.value)));
    }

    // -------------------------------------------------------------------------
    // Expressions

    /** Alternatives separated by `|`, with an optional leading `|`. Nothing
        at all is the empty literal; a `|` without an alternative after it is
        a `LonePipe` error; a single alternative is returned as it is. */
    method ParseOr() returns (r: Result<Rule>)
      requires Valid()
      modifies this
      ensures Forward() && Yields(r, OrAt(old(offset), old(CurrentFlags())))
      ensures r.Ok? ==> FlagsKept()
      decreases |tokens| - offset, 9
    {
      hide TokensWellFormed, TokenText, IsWord, Is, TokenSpan, CurrentSpan, LastSpan, IsWordAt, SpanAt, ExpectFailure, NumberAt, StartsFix, StartsAnd, IsAt, WellFormed, AndAt, ModifiedAt, StatementsFrom, StatementAt, LetAt, IntersectionFrom, SequenceAt, SequenceFrom, FixesAt, LookaroundOrAtomAt, LookaroundAt, AtomAt, GroupAt, GroupBodyAt;
      var span := CurrentSpan();
      var leadingPipe := Consume(Pipe);
      var firstAlt :- ParseAnd();
      if firstAlt.None? {
        if leadingPipe {
          return Throw(Fail(LonePipe, LastSpan()));
        }
        LiteralRuleWellFormed("", Span(0, 0), |source|);
        return Ok(Literal("", Span(0, 0)));
      }
      var rules := [firstAlt.value];
      while true
        invariant Valid() && old(offset) <= offset && FlagsKept()
        invariant |rules| >= 1 && forall i :: 0 <= i < |rules| ==> WellFormed(rules[i], |source|)
        invariant ValidSpan(span, |source|)
        invariant AlternativesFrom(offset, rules, span, CurrentFlags()) == OrAt(old(offset), CurrentFlags())
        decreases |tokens| - offset
      {
        var pipe := Consume(Pipe);
        if !pipe {
          break;
        }
        var nextAlt :- ParseAnd();
        if nextAlt.None? {
          return Throw(Fail(LonePipe, LastSpan()));
        }
        WellFormedSpan(nextAlt.value, |source|);
        span := Join(span, nextAlt.value.span);
        rules := rules + [nextAlt.value];
      }
      if |rules| == 1 {
        return Ok(rules[0]);
      }
      AlternationWellFormed(rules, span, |source|);
      return Ok(Alternation(rules, span));
    }

    /** Sequences separated by `&`, with an optional leading `&`; a single
        sequence is returned as it is */
    method ParseAnd() returns (r: Result<Option<Rule>>)
      requires Valid()
      modifies this
      ensures Forward() && Yields(r, AndAt(old(offset), old(CurrentFlags())))
      ensures r.Ok? ==> FlagsKept()
      decreases |tokens| - offset, 8
    {
      hide TokensWellFormed, TokenText, IsWord, Is, TokenSpan, CurrentSpan, LastSpan, IsWordAt, SpanAt, ExpectFailure, NumberAt, StartsFix, IsAt, Join, WellFormed, SequenceAt, ModifiedAt, StatementsFrom, StatementAt, LetAt, OrAt, AlternativesFrom, SequenceFrom, FixesAt, LookaroundOrAtomAt, LookaroundAt, AtomAt, GroupAt, GroupBodyAt;
      var spanStart := CurrentSpan();
      var leadingAmpersand := Consume(Ampersand);
      var first :- ParseSequence();
      if first.None? {
        if leadingAmpersand {
          return Throw(ExpectedError(CurrentSpan(), ExpectsExpression));
        }
        return Ok(None);
      }
      if !IsAt(offset, Ampersand) {
        return Ok(first);
      }
      var sequences := [first.value];
      while true
        invariant Valid() && old(offset) < offset && FlagsKept()
        invariant |sequences| >= 1 && forall i :: 0 <= i < |sequences| ==> WellFormed(sequences[i], |source|)
        invariant |sequences| == 1 ==> IsAt(offset, Ampersand)
        invariant ValidSpan(spanStart, |source|)
        invariant IntersectionFrom(offset, sequences, spanStart, CurrentFlags()) == AndAt(old(offset), CurrentFlags())
        decreases |tokens| - offset
      {
        var ampersand := Consume(Ampersand);
        if !ampersand {
          var span := Join(spanStart, LastSpan());
          IntersectionWellFormed(sequences, span, |source|);
          return Ok(Some(Intersection(sequences, span)));
        }
        var next :- ParseSequence();
        if next.None? {
          return Throw(ExpectedError(CurrentSpan(), ExpectsExpression));
        }
        sequences := sequences + [next.value];
      }
    }

    /** Juxtaposed expressions; two or more form an implicit group spanning
        the first to the last */
    method ParseSequence() returns (r: Result<Option<Rule>>)
      requires Valid()
      modifies this
      ensures Forward() && Yields(r, SequenceAt(old(offset), old(CurrentFlags())))
      ensures r.Ok? ==> FlagsKept()
      decreases |tokens| - offset, 7
    {
      hide TokensWellFormed, TokenText, IsWord, Is, TokenSpan, CurrentSpan, LastSpan, IsWordAt, SpanAt, ExpectFailure, NumberAt, StartsFix, IsAt, StartsAtom, Negated, NotsSpan, FixesAt;
      var rules: seq<Rule> := [];
      while true
        invariant Valid() && old(offset) <= offset && FlagsKept()
        invariant forall i :: 0 <= i < |rules| ==> WellFormed(rules[i], |source|)
        invariant SequenceFrom(offset, rules, CurrentFlags()) == SequenceAt(old(offset), CurrentFlags())
        decreases |tokens| - offset
      {
        var fix :- ParseFixes();
        if fix.None? {
          break;
        }
        rules := rules + [fix.value];
      }
      if |rules| == 0 {
        return Ok(None);
      } else if |rules| == 1 {
        return Ok(Some(rules[0]));
      }
      var span := Join(rules[0].span, rules[|rules| - 1].span);
      return Ok(Some(Group(rules, Implicit, span)));
    }

    /** `!` prefixes, an atom or lookaround, then repetition suffixes. Every
        negation carries the span of all the `!`s. */
    method ParseFixes() returns (r: Result<Option<Rule>>)
      requires Valid()
      modifies this
      ensures Forward() && Yields(r, FixesAt(old(offset), old(CurrentFlags())))
      ensures r.Ok? ==> FlagsKept()
      decreases |tokens| - offset, 6
    {
      hide TokensWellFormed, TokenText, IsWord, Is, TokenSpan, CurrentSpan, LastSpan, IsWordAt, SpanAt, ExpectFailure, NumberAt, WellFormed, IsAt, StartsAtom, NotsSpan, StartsRepetition, LookaroundOrAtomAt, RepetitionsFrom, NotsAt;
      var n, notsSpan := ParseNots();
      var found :- ParseLookaroundOrAtom();
      if found.None? {
        if n == 0 {
          return Ok(None);
        }
        return Throw(ExpectedError(CurrentSpan(), ExpectsExpression));
      }
      var rule := found.value;
      ghost var afterAtom := offset;
      for i := 0 to n
        invariant Valid() && offset == afterAtom && FlagsKept()
        invariant WellFormed(rule, |source|) && rule == Negated(found.value, i, notsSpan)
      {
        NegationWellFormed(rule, notsSpan, |source|);
        rule := Negation(rule, notsSpan, Join(rule.span, notsSpan));
      }
      var repeated :- ParseRepetitions(rule);
      return Ok(Some(repeated));
    }

    /** A lookaround, or else an atom */
    method ParseLookaroundOrAtom() returns (r: Result<Option<Rule>>)
      requires Valid()
      modifies this
      ensures Forward() && Yields(r, LookaroundOrAtomAt(old(offset), old(CurrentFlags())))
      ensures r.Ok? ==> FlagsKept()
      decreases |tokens| - offset, 5
    {
      hide TokensWellFormed, TokenText, IsWord, Is, TokenSpan, CurrentSpan, LastSpan, IsWordAt, SpanAt, ExpectFailure, NumberAt, WellFormed, IsAt, StartsAtom, LookaroundAt, AtomAt;
      r := ParseLookaround();
      if r.Ok? && r.value.None? {
        r := ParseAtom();
      }
    }

    /** The `!`s at the current token, how many, and their span */
    method ParseNots() returns (nots: nat, notsSpan: Span)
      requires Valid()
      modifies this`offset
      ensures Valid() && nots == NotsAt(old(offset)) && offset == old(offset) + nots
      ensures notsSpan == NotsSpan(old(offset), nots) && ValidSpan(notsSpan, |source|)
    {
      hide TokensWellFormed, TokenText, IsWord, Is, TokenSpan, CurrentSpan, LastSpan, IsWordAt, SpanAt, ExpectFailure, NumberAt, IsAt, WellFormed;
      notsSpan := CurrentSpan();
      nots := 0;
      while true
        invariant Valid() && offset == old(offset) + nots
        invariant NotsAt(old(offset)) == nots + NotsAt(offset)
        invariant notsSpan == NotsSpan(old(offset), nots) && ValidSpan(notsSpan, |source|)
        decreases |tokens| - offset
      {
        var not := Consume(Not);
        if !not {
          break;
        }
        nots := nots + 1;
        notsSpan := Join(notsSpan, LastSpan());
      }
    }

    /** Repetition suffixes after `rule`, applied in order */
    method ParseRepetitions(rule: Rule) returns (r: Result<Rule>)
      requires Valid() && WellFormed(rule, |source|)
      modifies this`offset
      ensures Forward() && Yields(r, RepetitionsFrom(old(offset), rule, isLazy))
    {
      hide TokensWellFormed, TokenText, IsWord, Is, TokenSpan, CurrentSpan, LastSpan, IsWordAt, SpanAt, ExpectFailure, NumberAt, BracesAt, WellFormed, IsAt, RepetitionAt;
      var repeated := rule;
      while true
        invariant Valid() && old(offset) <= offset && WellFormed(repeated, |source|)
        invariant RepetitionsFrom(offset, repeated, isLazy) == RepetitionsFrom(old(offset), rule, isLazy)
        decreases |tokens| - offset
      {
        var repetition :- ParseRepetition();
        if repetition.None? {
          break;
        }
        var (kind, quantifier, repetitionSpan) := repetition.value;
        RepeatedWellFormed(repeated, kind, quantifier, repetitionSpan, |source|);
        repeated := Repetition(repeated, kind, quantifier, Join(repeated.span, repetitionSpan));
      }
      return Ok(repeated);
    }

    /** `>>` or `<<` and an expression */
    method ParseLookaround() returns (r: Result<Option<Rule>>)
      requires Valid()
      modifies this
      ensures Forward() && Yields(r, LookaroundAt(old(offset), old(CurrentFlags())))
      ensures r.Ok? ==> FlagsKept()
      decreases |tokens| - offset, 4
    {
      hide TokensWellFormed, TokenText, IsWord, Is, TokenSpan, CurrentSpan, LastSpan, IsWordAt, SpanAt, ExpectFailure, NumberAt, IsAt;
      var kind: LookaroundKind;
      var b := Consume(LookAhead);
      if b {
        kind := Ahead;
      } else {
        b := Consume(LookBehind);
        if !b {
          return Ok(None);
        }
        kind := Behind;
      }
      var startSpan := LastSpan();
      var rule :- ParseModified();
      return Ok(Some(Lookaround(rule, kind, Join(startSpan, rule.span))));
    }

    /** A repetition operator with its quantifier: `+` is `{1,}`, `*` is
        `{0,}`, `?` is `{0,1}`, or braces. `greedy` or `lazy` chooses the
        quantifier, which otherwise follows the laziness flag. A second
        operator right after is a `MultipleRepetitions` error. */
    method ParseRepetition() returns (r: Result<Option<(RepetitionKind, Quantifier, Span)>>)
      requires Valid()
      modifies this`offset
      ensures Forward() && Yields(r, RepetitionAt(old(offset), isLazy))
    {
      hide TokensWellFormed, TokenText, IsWord, Is, TokenSpan, CurrentSpan, LastSpan, IsWordAt, SpanAt, ExpectFailure, NumberAt, BracesAt, IsAt, WellFormed, QuantifierAt;
      var start := CurrentSpan();
      var kind :- ParseRepetitionOperator();
      if kind.None? {
        return Ok(None);
      }
      var quantifier := ParseQuantifier();
      var multiSpan := CurrentSpan();
      var again :- ParseRepetitionOperator();
      if again.Some? {
        return Throw(Fail(MultipleRepetitions, Join(multiSpan, LastSpan())));
      }
      return Ok(Some((kind.value, quantifier, Join(start, LastSpan()))));
    }

    /** `+`, `*`, `?` or braces, if one comes next: `+` is `{1,}`, `*` is
        `{0,}` and `?` is `{0,1}` */
    method ParseRepetitionOperator() returns (r: Result<Option<RepetitionKind>>)
      requires Valid()
      modifies this`offset
      ensures Forward() && Yields(r, OperatorAt(old(offset)))
    {
      hide TokensWellFormed, TokenText, IsWord, Is, TokenSpan, CurrentSpan, LastSpan, IsWordAt, SpanAt, ExpectFailure, NumberAt, BracesAt, WellFormed;
      var b := Consume(Plus);
      if b {
        return Ok(Some(RepetitionKind(1, None)));
      }
      b := Consume(Star);
      if b {
        return Ok(Some(RepetitionKind(0, None)));
      }
      b := Consume(QuestionMark);
      if b {
        return Ok(Some(RepetitionKind(0, Some(1))));
      }
      r := ParseRepetitionBraces();
    }

    /** `greedy` or `lazy` after a repetition operator; without either the
        laziness flag decides */
    method ParseQuantifier() returns (q: Quantifier)
      requires Valid()
      modifies this`offset
      ensures Valid() && (q, offset) == QuantifierAt(old(offset), isLazy)
    {
      var b := ConsumeReserved("greedy");
      if b {
        return Greedy;
      }
      b := ConsumeReserved("lazy");
      if b {
        return Lazy;
      }
      return if isLazy then DefaultLazy else DefaultGreedy;
    }

    /** `{lower,upper}`, `{lower,}`, `{,upper}` or `{count}`, each bound at
        most 65535 */
    method ParseRepetitionBraces() returns (r: Result<Option<RepetitionKind>>)
      requires Valid()
      modifies this`offset
      ensures Forward() && Progress(r)
      ensures !IsAt(old(offset), OpenBrace) ==> r == Ok(None) && offset == old(offset)
      ensures IsAt(old(offset), OpenBrace) ==>
        var b := BracesAt(old(offset) + 1);
        if b.Ok? then r == Ok(Some(b.value.0)) && offset == b.value.1 else r == Throw(b.exception)
      ensures r.Ok? && r.value.Some? ==> RepetitionWellFormed(r.value.value)
    {
      hide TokensWellFormed, TokenText, IsWord, Is, TokenSpan, CurrentSpan, LastSpan, IsWordAt, SpanAt, ExpectFailure, NumberAt, IsAt, BracesRepetition, Join, WellFormed;
      var b := Consume(OpenBrace);
      if !b {
        return Ok(None);
      }
      ghost var i := offset;
      var numStart := CurrentSpan();
      var lower := ConsumeNumber(MaxRepetitionBound);
      if lower.Throw? {
        assert BracesAt(i) == Throw(lower.exception);
        return Throw(lower.exception);
      }
      var comma := Consume(Comma);
      var upper := ConsumeNumber(MaxRepetitionBound);
      if upper.Throw? {
        assert BracesAt(i) == Throw(upper.exception);
        return Throw(upper.exception);
      }
      var numEnd := LastSpan();
      var kind := BracesRepetition(lower.value, comma, upper.value, Join(numStart, numEnd), numEnd, CurrentSpan());
      if kind.Throw? {
        assert BracesAt(i) == Throw(kind.exception);
        return Throw(kind.exception);
      }
      var close := Expect(CloseBrace);
      if close.Throw? {
        assert BracesAt(i) == Throw(close.exception);
        return Throw(close.exception);
      }
      assert BracesAt(i) == Ok((kind.value, offset));
      return Ok(Some(kind.value));
    }

    /** The first of the atoms that applies: a group, or else one of the
        atoms that hold no expression */
    method ParseAtom() returns (r: Result<Option<Rule>>)
      requires Valid()
      modifies this
      ensures Forward() && Yields(r, AtomAt(old(offset), old(CurrentFlags())))
      ensures r.Ok? ==> FlagsKept()
      decreases |tokens| - offset, 4
    {
      r := ParseGroup();
      if r.Ok? && r.value.None? {
        r := ParseLeafAtom();
      }
    }

    /** The atoms after groups, in order: a literal, a class, a boundary, a
        reference, a code point, a range, a regex, a variable, `.` and
        `recursion` */
    method ParseLeafAtom() returns (r: Result<Option<Rule>>)
      requires Valid()
      modifies this`offset
      ensures Forward() && Yields(r, LeafAtomAt(old(offset), isUnicodeAware))
    {
      hide TokensWellFormed, TokenText, IsWord, Is, TokenSpan, CurrentSpan, LastSpan, IsWordAt, SpanAt, ExpectFailure, NumberAt, IsAt, StartsBoundary, RangeAt, ReferenceTargetAt, CharsOrRangeAt, StringOrCharAt, NegationError, CodePointAt, IsValidCodePoint, StartsKeywordAtom;
      var literal := ParseLiteral();
      if literal.Some? {
        LiteralRuleWellFormed(literal.value.content, literal.value.span, |source|);
        return Ok(Some(Literal(literal.value.content, literal.value.span)));
      }
      r := ParseCharSet();
      if r.Throw? || r.value.Some? {
        return;
      }
      var boundary := ParseBoundary();
      if boundary.Some? {
        return Ok(boundary);
      }
      r := ParseReference();
      if r.Throw? || r.value.Some? {
        return;
      }
      r := ParseCodePointRule();
      if r.Throw? || r.value.Some? {
        return;
      }
      r := ParseKeywordAtom();
    }

    /** The last leaf atoms, in order: a range, a regex, a variable, `.` and
        `recursion` */
    method ParseKeywordAtom() returns (r: Result<Option<Rule>>)
      requires Valid()
      modifies this`offset
      ensures Forward() && Yields(r, KeywordAtomAt(old(offset)))
    {
      hide TokensWellFormed, TokenText, IsWord, Is, TokenSpan, CurrentSpan, LastSpan, IsWordAt, SpanAt, ExpectFailure, NumberAt, IsAt, RangeAt;
      r := ParseRange();
      if r.Throw? || r.value.Some? {
        return;
      }
      r := ParseRegex();
      if r.Throw? || r.value.Some? {
        return;
      }
      var variable := ParseVariable();
      if variable.Some? {
        return Ok(variable);
      }
      var dot := ParseDot();
      if dot.Some? {
        return Ok(dot);
      }
      var recursion := ParseRecursion();
      return Ok(recursion);
    }

    /** `(expression)`, `atomic (expression)`, `:(expression)` or
        `:name(expression)` */
    method ParseGroup() returns (r: Result<Option<Rule>>)
      requires Valid()
      modifies this
      ensures Forward() && Yields(r, GroupAt(old(offset), old(CurrentFlags())))
      ensures r.Ok? ==> FlagsKept()
      decreases |tokens| - offset, 3
    {
      hide TokensWellFormed, TokenText, IsWord, TokenSpan, CurrentSpan, LastSpan, IsWordAt, SpanAt, ExpectFailure, NumberAt, GroupKindAt, CheckGroupName, WellFormed;
      var groupKind :- ParseGroupKind();
      var (kindOrName, startSpan) := groupKind;
      if kindOrName == Normal && !Is(OpenParen) {
        return Ok(None);
      }
      r := ParseGroupBody(old(offset), kindOrName, startSpan);
    }

    /** The rest of a group whose prefix, starting at `p` with `startSpan`,
        has been read: `(`, an expression and `)` */
    method ParseGroupBody(ghost p: nat, kindOrName: GroupKindOrName, startSpan: Span) returns (r: Result<Option<Rule>>)
      requires Valid() && p <= offset && p < |tokens| && startSpan == TokenSpan(p)
      requires GroupWellFormed([Literal("", Span(0, 0))], kindOrName)
      modifies this
      ensures Forward() && Yields(r, GroupBodyAt(p, kindOrName, old(offset), old(CurrentFlags())))
      ensures r.Ok? ==> FlagsKept()
      decreases |tokens| - offset, 2
    {
      hide TokensWellFormed, TokenText, IsWord, Is, TokenSpan, CurrentSpan, LastSpan, IsWordAt, SpanAt, ExpectFailure, NumberAt, IsAt, GroupKindAt, CheckGroupName, WellFormed;
      var _ :- Expect(OpenParen);
      var rule :- ParseModified();
      var close := Expect(CloseParen);
      if close.Throw? {
        return Throw(Rethrow(close.exception, ExpectsCloseParen));
      }
      var span := Join(startSpan, LastSpan());
      SingleGroupWellFormed(rule, kindOrName, span, |source|);
      return Ok(Some(Group([rule], kindOrName, span)));
    }

    /** What precedes a group's `(`: `atomic`, `:` with an optional name, or
        nothing, which consumes no token */
    method ParseGroupKind() returns (r: Result<(GroupKindOrName, Span)>)
      requires Valid()
      modifies this`offset
      ensures Forward() && Yields(r, GroupKindAt(old(offset)))
    {
      hide TokensWellFormed, TokenText, IsWord, Is, TokenSpan, CurrentSpan, LastSpan, IsWordAt, SpanAt, ExpectFailure, NumberAt, IsAt, WellFormed;
      var b := ConsumeReserved("atomic");
      if b {
        return Ok((Atomic, LastSpan()));
      }
      b := Consume(Colon);
      if b {
        var span := LastSpan();
        var name := ConsumeAs(Identifier);
        if name.Some? {
          var kind :- CheckGroupName(name.value, LastSpan());
          return Ok((kind, span));
        }
        return Ok((Capturing, span));
      }
      return Ok((Normal, CurrentSpan()));
    }

    /** A string token, its text decoded */
    method ParseLiteral() returns (r: Option<QuotedLiteral>)
      requires Valid()
      modifies this`offset
      ensures Valid()
      ensures r.Some? <==> IsAt(old(offset), String)
      ensures r.Some? ==> r.value == QuotedLiteral(ParseQuotedText(TokenText(old(offset))), TokenSpan(old(offset)))
      ensures offset == if r.Some? then old(offset) + 1 else old(offset)
    {
      hide TokensWellFormed, TokenText, IsWord, Is, TokenSpan, CurrentSpan, LastSpan, IsWordAt, SpanAt, ExpectFailure, NumberAt, IsAt, WellFormed;
      var text := ConsumeAs(String);
      if text.None? {
        return None;
      }
      return Some(QuotedLiteral(ParseQuotedText(text.value), LastSpan()));
    }

    // -------------------------------------------------------------------------
    // Character classes

    /** `[items]`. The class must not be empty, and it is Unicode-aware
        exactly when the flag is set. */
    method ParseCharSet() returns (r: Result<Option<Rule>>)
      requires Valid()
      modifies this`offset
      ensures Forward() && Yields(r, CharSetAt(old(offset), isUnicodeAware))
    {
      hide TokensWellFormed, TokenText, IsWord, Is, TokenSpan, CurrentSpan, LastSpan, IsWordAt, SpanAt, ExpectFailure, NumberAt, CharsOrRangeAt, StringOrCharAt, ExpectedTokenError, StartsItem, IsAt, NegationError;
      var b := Consume(OpenBracket);
      if !b {
        return Ok(None);
      }
      var startSpan := LastSpan();
      var inner :- ParseCharSetInner();
      var close := Expect(CloseBracket);
      if close.Throw? {
        return Throw(Rethrow(close.exception, ExpectsClassEnd));
      }
      var span := Join(startSpan, LastSpan());
      if |inner| == 0 {
        return Throw(Fail(EmptyCharSet, span));
      }
      return Ok(Some(CharClass(inner, isUnicodeAware, span)));
    }

    /** The items of a class, each possibly negated with `!`; a `!` before a
        character or range is an `UnallowedNotInCharSet` error */
    method ParseCharSetInner() returns (r: Result<seq<GroupItem>>)
      requires Valid()
      modifies this`offset
      ensures Forward() && Yields(r, ItemsFrom(old(offset), []))
    {
      hide TokensWellFormed, TokenText, IsWord, Is, TokenSpan, CurrentSpan, LastSpan, IsWordAt, SpanAt, ExpectFailure, NumberAt, CharsOrRangeAt, IsAt, StartsItem, ExpectedTokenError, NegationError, WellFormed, ItemAt;
      var items: seq<GroupItem> := [];
      while true
        invariant Valid() && old(offset) <= offset
        invariant forall i :: 0 <= i < |items| ==> ItemWellFormed(items[i], |source|)
        invariant ItemsFrom(offset, items) == ItemsFrom(old(offset), [])
        decreases |tokens| - offset
      {
        var item := ParseCharSetItem();
        if item.Throw? {
          return Throw(item.exception);
        }
        if item.value.None? {
          break;
        }
        items := items + item.value.value;
      }
      return Ok(items);
    }

    /** One item of a class, possibly negated with `!`, or nothing when no
        item starts here */
    method ParseCharSetItem() returns (r: Result<Option<seq<GroupItem>>>)
      requires Valid()
      modifies this`offset
      ensures Forward() && Yields(r, ItemAt(old(offset)))
    {
      hide TokensWellFormed, TokenText, IsWord, Is, TokenSpan, CurrentSpan, LastSpan, IsWordAt, ExpectFailure, NumberAt, CharsOrRangeAt, IsAt, WellFormed;
      var notSpan := CurrentSpan();
      var negative := Consume(Not);
      var charsOrRange :- ParseCharGroupCharsOrRange();
      if charsOrRange.Some? && negative {
        return Throw(Fail(UnallowedNotInCharSet, notSpan));
      }
      var group := charsOrRange;
      if group.None? {
        group :- ParseCharGroupIdent(negative);
      }
      if group.None? && negative {
        return Throw(ExpectedTokenError(CurrentSpan(), Identifier));
      }
      return Ok(group);
    }

    /** A character, a string of characters, or a range `first-last` whose
        ends are single code points in ascending order */
    method ParseCharGroupCharsOrRange() returns (r: Result<Option<seq<GroupItem>>>)
      requires Valid()
      modifies this`offset
      ensures Forward() && Progress(r)
      ensures var c := CharsOrRangeAt(old(offset));
        if c.Throw? then r == Throw(c.exception)
        else if c.value.None? then r == Ok(None) && offset == old(offset)
        else r == Ok(Some(c.value.value.0)) && offset == c.value.value.1
      ensures r.Ok? && r.value.Some? ==> forall i :: 0 <= i < |r.value.value| ==> ItemWellFormed(r.value.value[i], |source|)
    {
      hide TokensWellFormed, TokenText, IsWord, Is, TokenSpan, CurrentSpan, LastSpan, IsWordAt, SpanAt, ExpectFailure, NumberAt, IsAt, StringOrCharAt, StringOrCharToString, WellFormed;
      var span1 := CurrentSpan();
      var first :- ParseStringOrChar();
      if first.None? {
        return Ok(None);
      }
      var dash := Consume(Dash);
      if dash {
        var span2 := CurrentSpan();
        var last :- ParseStringOrChar();
        if last.None? {
          return Throw(ExpectedError(CurrentSpan(), ExpectsCharacter));
        }
        var firstChar :- StringOrCharToString(first.value, span1);
        var lastChar :- StringOrCharToString(last.value, span2);
        if firstChar > lastChar {
          return Throw(Fail(NotAscendingCharRange, CurrentSpan()));
        }
        return Ok(Some([CodeRange(firstChar, lastChar)]));
      }
      match first.value {
        case Quoted(text) =>
          return Ok(Some(QuotedChars(text)));
        case CodePointChar(c, _) =>
          return Ok(Some([Char(c)]));
      }
    }

    /** A string, a `U+` code point or a shorthand such as `n` */
    method ParseStringOrChar() returns (r: Result<Option<StringOrChar>>)
      requires Valid()
      modifies this`offset
      ensures Forward() && Progress(r)
      ensures r == StringOrCharAt(old(offset))
      ensures r.Ok? ==> offset == if r.value.Some? then old(offset) + 1 else old(offset)
    {
      hide TokensWellFormed, TokenText, IsWord, Is, TokenSpan, CurrentSpan, LastSpan, IsWordAt, SpanAt, ExpectFailure, NumberAt, IsAt, WellFormed;
      var text := ConsumeAs(String);
      if text.Some? {
        return Ok(Some(Quoted(text.value)));
      }
      var cp :- ParseCodePoint();
      if cp.Some? {
        return Ok(Some(CodePointChar(cp.value.0, false)));
      }
      var special := ParseSpecialChar();
      if special.Some? {
        return Ok(Some(CodePointChar(special.value, true)));
      }
      return Ok(None);
    }

    /** An identifier naming a shorthand code point */
    method ParseSpecialChar() returns (r: Option<nat>)
      requires Valid()
      modifies this`offset
      ensures Valid()
      ensures r.Some? <==> IsAt(old(offset), Identifier) && SpecialChar(TokenText(old(offset))).Some?
      ensures r.Some? ==> r == SpecialChar(TokenText(old(offset))) && IsValidCodePoint(r.value)
      ensures offset == if r.Some? then old(offset) + 1 else old(offset)
    {
      hide TokensWellFormed, TokenText, IsWord, TokenSpan, CurrentSpan, LastSpan, IsWordAt, SpanAt, ExpectFailure, NumberAt, WellFormed;
      var next := Peek();
      if next.Some? && next.value.0 == Identifier {
        var c := SpecialChar(next.value.1);
        if c.Some? {
          Advance();
          return c;
        }
      }
      return None;
    }

    /** A named class `name` or `kind:name`, not checked any further */
    method ParseCharGroupIdent(negative: bool) returns (r: Result<Option<seq<GroupItem>>>)
      requires Valid()
      modifies this`offset
      ensures Forward() && Yields(r, CharGroupIdentAt(old(offset), negative))
    {
      hide TokensWellFormed, TokenText, IsWord, Is, TokenSpan, CurrentSpan, LastSpan, IsWordAt, SpanAt, ExpectFailure, NumberAt, IsAt, WellFormed;
      var beforeColon := ConsumeAs(Identifier);
      if beforeColon.None? {
        return Ok(None);
      }
      var span := LastSpan();
      var afterColon: Option<string> := None;
      var colon := Consume(Colon);
      if colon {
        var name :- ExpectAs(Identifier);
        afterColon := Some(name);
      }
      span := Join(span, LastSpan());
      var name := if afterColon.Some? then afterColon.value else beforeColon.value;
      var kind := if afterColon.Some? then Some(beforeColon.value) else None;
      return Ok(Some([NamedClass(name, negative, kind, span)]));
    }

    // -------------------------------------------------------------------------
    // Other atoms

    /** `^`, `$`, `%`, `<` or `>`, spanning that token */
    method ParseBoundary() returns (r: Option<Rule>)
      requires Valid()
      modifies this`offset
      ensures Valid()
      ensures offset == if r.Some? then old(offset) + 1 else old(offset)
      ensures r.Some? <==> StartsBoundary(old(offset))
      ensures IsAt(old(offset), Caret) ==> r == Some(Boundary(Start, TokenSpan(old(offset))))
      ensures IsAt(old(offset), Dollar) ==> r == Some(Boundary(End, TokenSpan(old(offset))))
      ensures IsAt(old(offset), Percent) ==> r == Some(Boundary(Word, TokenSpan(old(offset))))
      ensures IsAt(old(offset), AngleLeft) ==> r == Some(Boundary(WordStart, TokenSpan(old(offset))))
      ensures IsAt(old(offset), AngleRight) ==> r == Some(Boundary(WordEnd, TokenSpan(old(offset))))
      ensures r.Some? ==> r.value == Boundary(BoundaryKindAt(old(offset)), TokenSpan(old(offset)))
      ensures r.Some? ==> WellFormed(r.value, |source|)
    {
      hide TokensWellFormed, TokenText, IsWord, Is, TokenSpan, CurrentSpan, LastSpan, IsWordAt, SpanAt, ExpectFailure, NumberAt;
      var span := CurrentSpan();
      var kind: BoundaryKind;
      var b := Consume(Caret);
      if b {
        kind := Start;
      } else {
        b := Consume(Dollar);
        if b {
          kind := End;
        } else {
          b := Consume(Percent);
          if b {
            kind := Word;
          } else {
            b := Consume(AngleLeft);
            if b {
              kind := WordStart;
            } else {
              b := Consume(AngleRight);
              if !b {
                return None;
              }
              kind := WordEnd;
            }
          }
        }
      }
      return Some(Boundary(kind, span));
    }

    /** `::+n`, `::-n`, `::n` (at most 65535) or `::name` */
    method ParseReference() returns (r: Result<Option<Rule>>)
      requires Valid()
      modifies this`offset
      ensures Forward()
      ensures !IsAt(old(offset), DoubleColon) ==> r == Ok(None) && offset == old(offset)
      ensures IsAt(old(offset), DoubleColon) ==> Yields(r, ReferenceAt(old(offset)))
    {
      hide TokensWellFormed, TokenText, IsWord, Is, TokenSpan, CurrentSpan, LastSpan, IsWordAt, SpanAt, ExpectFailure, NumberAt, IsAt, FiniteNumberAt, NumberValue, IsFiniteNumber, Rethrow;
      var b := Consume(DoubleColon);
      if !b {
        return Ok(None);
      }
      var startSpan := LastSpan();
      var target: ReferenceTarget;
      b := Consume(Plus);
      if b {
        var num :- ExpectNumber();
        target := ByRelative(num);
      } else {
        b := Consume(Dash);
        if b {
          var num :- ExpectNumber();
          target := ByRelative(-(num as int));
        } else {
          var number :- ConsumeNumber(MaxReferenceNumber);
          if number.Some? {
            target := ByNumber(number.value);
          } else {
            var name := ExpectAs(Identifier);
            if name.Throw? {
              return Throw(Rethrow(name.exception, ExpectsNumberOrName));
            }
            target := ByName(name.value);
          }
        }
      }
      return Ok(Some(Reference(target, Join(startSpan, LastSpan()))));
    }

    /** A code point as an atom: a class holding that one code point */
    method ParseCodePointRule() returns (r: Result<Option<Rule>>)
      requires Valid()
      modifies this`offset
      ensures Forward()
      ensures !IsAt(old(offset), CodePoint) ==> r == Ok(None) && offset == old(offset)
      ensures IsAt(old(offset), CodePoint) ==> Yields(r, CodePointRuleAt(old(offset), isUnicodeAware))
    {
      hide TokensWellFormed, TokenText, IsWord, Is, TokenSpan, CurrentSpan, LastSpan, IsWordAt, SpanAt, ExpectFailure, NumberAt, IsAt;
      var cp :- ParseCodePoint();
      if cp.None? {
        return Ok(None);
      }
      var (c, span) := cp.value;
      return Ok(Some(CharClass([Char(c)], isUnicodeAware, span)));
    }

    /** A `U+hex` token and its value, which must be a Unicode scalar value:
        a surrogate or a value above U+10FFFF is an `InvalidCodePoint` error */
    method ParseCodePoint() returns (r: Result<Option<(nat, Span)>>)
      requires Valid()
      modifies this`offset
      ensures Valid()
      ensures !IsAt(old(offset), CodePoint) ==> r == Ok(None) && offset == old(offset)
      ensures IsAt(old(offset), CodePoint) ==>
        offset == old(offset) + 1
        && var v := CodePointAt(old(offset));
           var span := TokenSpan(old(offset));
           if IsValidCodePoint(v) then r == Ok(Some((v, span))) else r == Throw(Fail(InvalidCodePoint, span))
    {
      hide TokensWellFormed, TokenText, IsWord, TokenSpan, CurrentSpan, LastSpan, IsWordAt, SpanAt, ExpectFailure, NumberAt, WellFormed;
      var text := ConsumeAs(CodePoint);
      if text.None? {
        return Ok(None);
      }
      var span := LastSpan();
      var num := CodePointAt(offset - 1);
      if (0xD800 <= num <= 0xDFFF) || num > 0x10_FFFF {
        return Throw(Fail(InvalidCodePoint, span));
      }
      return Ok(Some((num, span)));
    }

    /** `range 'first'-'last' base n`, the base 10 when absent */
    method ParseRange() returns (r: Result<Option<Rule>>)
      requires Valid()
      modifies this`offset
      ensures Forward() && Progress(r)
      ensures !IsWordAt(old(offset), ReservedName, "range") ==> r == Ok(None) && offset == old(offset)
      ensures IsWordAt(old(offset), ReservedName, "range") ==>
        var range := RangeAt(old(offset));
        if range.Ok? then r == Ok(Some(range.value.0)) && offset == range.value.1 else r == Throw(range.exception)
      ensures r.Ok? && r.value.Some? ==> WellFormed(r.value.value, |source|)
    {
      hide TokensWellFormed, TokenText, IsWord, Is, TokenSpan, CurrentSpan, LastSpan, IsWordAt, SpanAt, ExpectFailure, NumberAt, IsAt, RangeRadixAt, FiniteNumberAt, StripFirstLast;
      var b := ConsumeReserved("range");
      if !b {
        return Ok(None);
      }
      ghost var i := offset - 1;
      var spanStart := LastSpan();
      var first := ExpectAs(String);
      if first.Throw? {
        assert RangeAt(i) == Throw(first.exception);
        return Throw(first.exception);
      }
      var dash := Expect(Dash);
      if dash.Throw? {
        assert RangeAt(i) == Throw(dash.exception);
        return Throw(dash.exception);
      }
      var second := ExpectAs(String);
      if second.Throw? {
        assert RangeAt(i) == Throw(second.exception);
        return Throw(second.exception);
      }
      var radix := ParseRangeBase();
      if radix.Throw? {
        assert RangeAt(i) == Throw(radix.exception);
        return Throw(radix.exception);
      }
      var span := Join(spanStart, LastSpan());
      var range := Range(StripFirstLast(first.value), StripFirstLast(second.value), radix.value, span);
      assert RangeAt(i) == Ok((range, offset));
      return Ok(Some(range));
    }

    /** The optional `base n` of a range, giving its radix */
    method ParseRangeBase() returns (r: Result<nat>)
      requires Valid() && offset > 0
      modifies this`offset
      ensures Forward()
      ensures var b := RangeRadixAt(old(offset));
        if b.Ok? then r == Ok(b.value.0) && offset == b.value.1 else r == Throw(b.exception)
    {
      hide TokensWellFormed, TokenText, IsWord, Is, TokenSpan, CurrentSpan, LastSpan, IsWordAt, SpanAt, ExpectFailure, NumberAt, FiniteNumberAt, IsAt, WellFormed;
      var b := ConsumeReserved("base");
      if !b {
        return Ok(10);
      }
      var n :- ExpectNumber();
      r := RangeRadix(Some(n), LastSpan());
    }

    /** `regex 'text'`, its text decoded */
    method ParseRegex() returns (r: Result<Option<Rule>>)
      requires Valid()
      modifies this`offset
      ensures Forward()
      ensures !IsWordAt(old(offset), ReservedName, "regex") ==> r == Ok(None) && offset == old(offset)
      ensures IsWordAt(old(offset), ReservedName, "regex") ==> Yields(r, RegexAt(old(offset)))
    {
      hide TokensWellFormed, TokenText, IsWord, Is, TokenSpan, CurrentSpan, LastSpan, IsWordAt, SpanAt, ExpectFailure, NumberAt, IsAt;
      var b := ConsumeReserved("regex");
      if !b {
        return Ok(None);
      }
      var spanStart := LastSpan();
      var text :- ExpectAs(String);
      var spanEnd := LastSpan();
      return Ok(Some(Regex(ParseQuotedText(text), Join(spanStart, spanEnd))));
    }

    /** An identifier naming a variable */
    method ParseVariable() returns (r: Option<Rule>)
      requires Valid()
      modifies this`offset
      ensures Valid()
      ensures r.Some? <==> IsAt(old(offset), Identifier)
      ensures r.Some? ==> r.value == Variable(TokenText(old(offset)), TokenSpan(old(offset)))
      ensures offset == if r.Some? then old(offset) + 1 else old(offset)
    {
      hide TokensWellFormed, TokenText, IsWord, Is, TokenSpan, CurrentSpan, LastSpan, IsWordAt, SpanAt, ExpectFailure, NumberAt, IsAt, WellFormed;
      var name := ConsumeAs(Identifier);
      if name.None? {
        return None;
      }
      return Some(Variable(name.value, LastSpan()));
    }

    /** `.` */
    method ParseDot() returns (r: Option<Rule>)
      requires Valid()
      modifies this`offset
      ensures Valid()
      ensures r.Some? <==> IsAt(old(offset), TokenKind.Dot)
      ensures r.Some? ==> r.value == Rule.Dot(TokenSpan(old(offset)))
      ensures offset == if r.Some? then old(offset) + 1 else old(offset)
    {
      hide TokensWellFormed, TokenText, IsWord, Is, TokenSpan, CurrentSpan, LastSpan, IsWordAt, SpanAt, ExpectFailure, NumberAt, IsAt, WellFormed;
      var b := Consume(TokenKind.Dot);
      if !b {
        return None;
      }
      return Some(Rule.Dot(LastSpan()));
    }

    /** `recursion` */
    method ParseRecursion() returns (r: Option<Rule>)
      requires Valid()
      modifies this`offset
      ensures Valid()
      ensures r.Some? <==> IsWordAt(old(offset), ReservedName, "recursion")
      ensures r.Some? ==> r.value == Recursion(TokenSpan(old(offset)))
      ensures offset == if r.Some? then old(offset) + 1 else old(offset)
    {
      hide TokensWellFormed, TokenText, IsWord, Is, TokenSpan, CurrentSpan, LastSpan, IsWordAt, SpanAt, ExpectFailure, NumberAt, IsAt, WellFormed;
      var b := ConsumeReserved("recursion");
      if !b {
        return None;
      }
      return Some(Recursion(LastSpan()));
    }
  }

  // ---------------------------------------------------------------------------
  // The entry point

  /** A parse gives a rule, or the errors found */
  datatype ParseOutcome = Parsed(rule: Rule) | Failed(errors: seq<Exception>)

  predicate IsErrorToken(tok: Token) {
    tok.kind == ErrorUnclosedString || tok.kind == ErrorUnknown
  }

  /** The error a lexer error token stands for, if it is one */
  function TokenError(tok: Token): (r: seq<Exception>)
    ensures |r| <= 1 && (r != [] <==> IsErrorToken(tok))
    ensures tok.kind == ErrorUnclosedString ==> r == [Fail(UnclosedString, Span(tok.start, tok.end))]
    ensures tok.kind == ErrorUnknown ==> r == [Fail(UnknownToken, Span(tok.start, tok.end))]
  {
    match tok.kind
    case ErrorUnclosedString => [Fail(UnclosedString, Span(tok.start, tok.end))]
    case ErrorUnknown => [Fail(UnknownToken, Span(tok.start, tok.end))]
    case _ => []
  }

  /** One error per lexer error token, in token order */
  function LexErrors(toks: seq<Token>): (r: seq<Exception>)
    ensures |r| <= |toks|
    ensures r == [] <==> forall i :: 0 <= i < |toks| ==> !IsErrorToken(toks[i])
  {
    if |toks| == 0 then []
    else LexErrors(toks[..|toks| - 1]) + TokenError(toks[|toks| - 1])
  }

  /** The errors of a non-empty list are those of all but its last token,
      then the last token's own */
  lemma LexErrorsSnoc(toks: seq<Token>)
    requires |toks| > 0
    ensures LexErrors(toks) == LexErrors(toks[..|toks| - 1]) + TokenError(toks[|toks| - 1])
  {
  }

  /** No tokens, no errors */
  lemma LexErrorsNil()
    ensures LexErrors([]) == []
  {
  }

  /** The errors of a list of tokens are those of its parts, in order */
  lemma {:induction false} LexErrorsAppend(a: seq<Token>, b: seq<Token>)
    ensures LexErrors(a + b) == LexErrors(a) + LexErrors(b)
    decreases |b|
  {
    hide LexErrors, TokenError;
    if |b| > 0 {
      var front := b[..|b| - 1];
      var ab := a + b;
      LexErrorsAppend(a, front);
      assert ab[..|ab| - 1] == a + front && ab[|ab| - 1] == b[|b| - 1];
      LexErrorsSnoc(ab);
      LexErrorsSnoc(b);
    } else {
      assert a + b == a;
      LexErrorsNil();
    }
  }

  /** The errors come in token order: the error of the `i`-th token, when it
      is an error token, is preceded by exactly the errors of the tokens
      before it */
  lemma LexErrorsInOrder(toks: seq<Token>, i: nat)
    requires i < |toks| && IsErrorToken(toks[i])
    ensures |LexErrors(toks[..i])| < |LexErrors(toks)|
    ensures LexErrors(toks)[|LexErrors(toks[..i])|] == TokenError(toks[i])[0]
  {
    assert toks == toks[..i] + [toks[i]] + toks[i + 1..];
    LexErrorsAppend(toks[..i] + [toks[i]], toks[i + 1..]);
    LexErrorsAppend(toks[..i], [toks[i]]);
    assert LexErrors([toks[i]]) == LexErrors([]) + TokenError(toks[i]);
  }

  /** Parses `source`. Lexer errors come first: if the tokens scanned (the
      ones given, or else the source's own) hold any, they are the outcome.
      Otherwise the outcome is what the grammar makes of the source's own
      tokens, parsed from the first under the default flags: `Outcome`.
      `parser` is the parser used, on those tokens. */
  method Parse(t: UnicodeTables, source: string, tokens: Option<seq<Token>>)
    returns (outcome: ParseOutcome, ghost parser: Parser)
    ensures parser.source == source && parser.tokens == Lex(t, source)
    ensures TokensWellFormed(parser.source, parser.tokens)
    ensures var scanned := if tokens.Some? then tokens.value else Lex(t, source);
      LexErrors(scanned) != [] ==> outcome == Failed(LexErrors(scanned))
    ensures var scanned := if tokens.Some? then tokens.value else Lex(t, source);
      LexErrors(scanned) == [] ==> outcome == parser.Outcome()
  {
    hide TokensWellFormed, WellFormed, Lex;
    var p := new Parser(t, source);
    parser := p;
    var scanned := if tokens.Some? then tokens.value else p.tokens;
    var errors: seq<Exception> := [];
    for i := 0 to |scanned|
      invariant errors == LexErrors(scanned[..i])
    {
      assert scanned[..i + 1][..i] == scanned[..i];
      errors := errors + TokenError(scanned[i]);
    }
    assert scanned[..|scanned|] == scanned;
    if |errors| > 0 {
      return Failed(errors), parser;
    }
    var r := p.ParseModified();
    if r.Throw? {
      return Failed([r.exception]), parser;
    }
    if p.IsEmpty() {
      return Parsed(r.value), parser;
    }
    return Failed([Fail(LeftoverTokens, p.CurrentSpan())]), parser;
  }
}
