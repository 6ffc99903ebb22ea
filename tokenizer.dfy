/** The lexer: turns source text into an ordered list of `(kind, start, end)`
    tokens. It never fails; malformed input yields the two error kinds. */
module Tokenizer {
  import opened Options

  datatype TokenKind =
    // assertions
    | Caret | Dollar | Percent | AngleLeft | AngleRight | LookAhead | LookBehind
    // simple repetitions
    | Star | Plus | QuestionMark
    // specific repetitions
    | OpenBrace | CloseBrace | Comma
    // alternation, intersection, negation
    | Pipe | Ampersand | Not
    // groups
    | Colon | OpenParen | CloseParen
    // character sets
    | OpenBracket | CloseBracket
    // range
    | Dash
    // match all
    | Dot
    // statements
    | Semicolon | Equals
    // back-reference
    | DoubleColon
    // other
    | String | CodePoint | Number | Identifier | ReservedName
    // errors
    | ErrorUnknown | ErrorUnclosedString

  datatype Token = Token(kind: TokenKind, start: nat, end: nat)

  /** The Unicode properties `\p{Alpha}`, `\p{M}` and `\p{Nd}` that the
      identifier rule consults; their tables are not part of this model. */
  datatype UnicodeTables = UnicodeTables(
    alphabetic: char -> bool,
    mark: char -> bool,
    decimalNumber: char -> bool)

  /** The tables agree with Unicode on ASCII: letters are alphabetic, digits
      are decimal numbers, and no ASCII character is a mark. */
  ghost predicate StandardOnAscii(t: UnicodeTables) {
    forall c: char {:trigger t.alphabetic(c)} :: c as int < 128 ==>
      (t.alphabetic(c) <==> ('a' <= c <= 'z' || 'A' <= c <= 'Z'))
      && !t.mark(c)
      && (t.decimalNumber(c) <==> '0' <= c <= '9')
  }

  // ---------------------------------------------------------------------------
  // Character classes

  /** ECMAScript `\s`: white space and line terminators */
  predicate IsWhitespace(c: char) {
    var x := c as int;
    9 <= x <= 13 || x == 0x20 || x == 0xA0 || x == 0x1680 || 0x2000 <= x <= 0x200A
    || x == 0x2028 || x == 0x2029 || x == 0x202F || x == 0x205F || x == 0x3000 || x == 0xFEFF
  }

  /** The characters `.` does not match */
  predicate IsLineTerminator(c: char) {
    var x := c as int;
    x == 0x0A || x == 0x0D || x == 0x2028 || x == 0x2029
  }

  predicate NotLineTerminator(c: char) {
    !IsLineTerminator(c)
  }

  predicate IsAsciiDigit(c: char) {
    '0' <= c <= '9'
  }

  predicate IsDigitOrUnderscore(c: char) {
    IsAsciiDigit(c) || c == '_'
  }

  predicate IsHexDigit(c: char) {
    '0' <= c <= '9' || 'a' <= c <= 'f' || 'A' <= c <= 'F'
  }

  /** `[\p{Alpha}_]` */
  predicate IsLetterOrUnderscore(t: UnicodeTables, c: char) {
    t.alphabetic(c) || c == '_'
  }

  /** `[\p{Alpha}\p{M}\p{Nd}_]` */
  predicate IsWordChar(t: UnicodeTables, c: char) {
    t.alphabetic(c) || t.mark(c) || t.decimalNumber(c) || c == '_'
  }

  /** Length of the longest prefix of `s` whose characters all satisfy `p` */
  function Run(s: string, p: char -> bool): (r: nat)
    ensures r <= |s|
    ensures forall k :: 0 <= k < r ==> p(s[k])
    ensures r < |s| ==> !p(s[r])
  {
    if |s| == 0 || !p(s[0]) then 0 else 1 + Run(s[1..], p)
  }

  /** `Run` for the word characters, which depend on the Unicode tables */
  function WordLength(t: UnicodeTables, s: string): (r: nat)
    ensures r <= |s|
    ensures forall k :: 0 <= k < r ==> IsWordChar(t, s[k])
    ensures r < |s| ==> !IsWordChar(t, s[r])
  {
    if |s| == 0 || !IsWordChar(t, s[0]) then 0 else 1 + WordLength(t, s[1..])
  }

  /** `Run` is determined by its contract */
  lemma RunUnique(s: string, p: char -> bool, r: nat)
    requires r <= |s|
    requires forall k :: 0 <= k < r ==> p(s[k])
    requires r < |s| ==> !p(s[r])
    ensures Run(s, p) == r
  {
  }

  /** Cutting the input after the run ends does not change the run */
  lemma RunOfPrefix(s: string, p: char -> bool, m: nat)
    requires Run(s, p) <= m <= |s|
    ensures Run(s[..m], p) == Run(s, p)
  {
    RunUnique(s[..m], p, Run(s, p));
  }

  // ---------------------------------------------------------------------------
  // Whitespace and comments

  /** Position `k` of `s` lies in a `#` comment: looking back from `k`, a
      `#` comes before any line terminator. */
  predicate InComment(s: string, k: nat)
    requires k < |s|
  {
    !IsLineTerminator(s[k]) && (s[k] == '#' || (k > 0 && InComment(s, k - 1)))
  }

  /** Dropping the first `c` characters does not change which later
      positions lie in a comment, when the cut is not inside one or falls
      just before a line terminator */
  lemma {:induction false} InCommentShift(s: string, c: nat, k: nat)
    requires c + k < |s|
    requires c == 0 || IsLineTerminator(s[c]) || !InComment(s, c - 1)
    ensures InComment(s[c..], k) == InComment(s, c + k)
    decreases k
  {
    if k > 0 {
      InCommentShift(s, c, k - 1);
    }
  }

  lemma InCommentShiftAll(s: string, c: nat)
    requires c <= |s|
    requires c == 0 || c == |s| || IsLineTerminator(s[c]) || !InComment(s, c - 1)
    ensures forall k :: c <= k < |s| ==> InComment(s[c..], k - c) == InComment(s, k)
  {
    forall k | c <= k < |s|
      ensures InComment(s[c..], k - c) == InComment(s, k)
    {
      InCommentShift(s, c, k - c);
    }
  }

  /** A `#` and the characters after it up to a line terminator are a comment */
  lemma {:induction false} CommentRun(s: string, k: nat)
    requires k < |s| && s[0] == '#'
    requires forall i :: 0 < i <= k ==> NotLineTerminator(s[i])
    ensures InComment(s, k)
    decreases k
  {
    if k > 0 {
      CommentRun(s, k - 1);
    }
  }

  /** Length of the maximal prefix made of whitespace and `#` comments that
      run to the end of their line: the prefix the lexer discards before each
      token. Every character in it is whitespace or part of a comment, and
      the character after it is neither. */
  function TriviaLength(s: string): (r: nat)
    ensures r <= |s|
    ensures forall k :: 0 <= k < r ==> IsWhitespace(s[k]) || InComment(s, k)
    ensures r < |s| ==> !IsWhitespace(s[r]) && !InComment(s, r)
    ensures r < |s| ==> s[r] != '#'
    decreases |s|
  {
    if |s| == 0 then 0
    else if IsWhitespace(s[0]) then
      InCommentShiftAll(s, 1);
      1 + TriviaLength(s[1..])
    else if s[0] == '#' then
      var c := 1 + Run(s[1..], NotLineTerminator);
      InCommentShiftAll(s, c);
      forall k | 0 <= k < c ensures InComment(s, k) {
        CommentRun(s, k);
      }
      c + TriviaLength(s[c..])
    else 0
  }

  // ---------------------------------------------------------------------------
  // The fixed tables

  /** The one-character operators; none of them is a lexeme kind of its own */
  function SingleToken(c: char): (r: Option<TokenKind>)
    ensures r.Some? ==> r.value !in {String, CodePoint, Number, Identifier, ReservedName, ErrorUnknown, ErrorUnclosedString}
  {
    match c
    case '$' => Some(Dollar)
    case '^' => Some(Caret)
    case '%' => Some(Percent)
    case '<' => Some(AngleLeft)
    case '>' => Some(AngleRight)
    case '*' => Some(Star)
    case '+' => Some(Plus)
    case '?' => Some(QuestionMark)
    case '{' => Some(OpenBrace)
    case '}' => Some(CloseBrace)
    case ',' => Some(Comma)
    case '|' => Some(Pipe)
    case '&' => Some(Ampersand)
    case '!' => Some(Not)
    case ':' => Some(Colon)
    case '(' => Some(OpenParen)
    case ')' => Some(CloseParen)
    case '[' => Some(OpenBracket)
    case ']' => Some(CloseBracket)
    case '-' => Some(Dash)
    case '.' => Some(Dot)
    case ';' => Some(Semicolon)
    case '=' => Some(Equals)
    case _ => None
  }

  const Reserved: set<string> := {
    "U", "let", "lazy", "greedy", "range", "base", "atomic", "enable", "disable",
    "if", "else", "recursion", "regex", "test", "call"
  }

  /** The properties every plain object inherits. The reserved-word table is
      such an object and is consulted with `in`, so these names count as
      reserved as well. */
  const InheritedKeys: set<string> := {
    "constructor", "hasOwnProperty", "isPrototypeOf", "propertyIsEnumerable",
    "toLocaleString", "toString", "valueOf", "__proto__", "__defineGetter__",
    "__defineSetter__", "__lookupGetter__", "__lookupSetter__"
  }

  /** `word in reserved`: a reserved word or an inherited key */
  predicate IsReservedKey(word: string) {
    word in Reserved || word in InheritedKeys
  }

  // ---------------------------------------------------------------------------
  // Lexeme lengths

  function IndexOf(s: string, c: char, from: nat): (r: Option<nat>)
    ensures r.Some? ==> from <= r.value < |s| && s[r.value] == c
    ensures r.Some? ==> forall k :: from <= k < r.value ==> s[k] != c
    ensures r.None? ==> forall k :: from <= k < |s| ==> s[k] != c
    decreases |s| - from
  {
    if from >= |s| then None
    else if s[from] == c then Some(from)
    else IndexOf(s, c, from + 1)
  }

  /** `(?:\\[\s\S]|[^\\"])*`: characters other than `\` and `"`, and pairs
      of a `\` and any character */
  predicate IsQuotedBody(s: string)
    decreases |s|
  {
    |s| == 0
    || (s[0] == '\\' && |s| >= 2 && IsQuotedBody(s[2..]))
    || (s[0] != '\\' && s[0] != '"' && IsQuotedBody(s[1..]))
  }

  /** Length of the longest body of a double-quoted string at the start of
      `s`: it stops at the end of `s`, at a `"`, or at a `\` that is the last
      character. */
  function QuotedBodyLength(s: string): (r: nat)
    ensures r <= |s| && IsQuotedBody(s[..r])
    ensures r == |s| || s[r] == '"' || (s[r] == '\\' && r == |s| - 1)
    decreases |s|
  {
    if |s| == 0 || s[0] == '"' then 0
    else if s[0] == '\\' then
      if |s| >= 2 then
        var r := 2 + QuotedBodyLength(s[2..]);
        assert s[..r][2..] == s[2..][..r - 2];
        r
      else 0
    else
      var r := 1 + QuotedBodyLength(s[1..]);
      assert s[..r][1..] == s[1..][..r - 1];
      r
  }

  /** Two bodies that start together: where the shorter one ends, the longer
      one goes on with a whole unit, not with a `"` nor with half of an
      escape. */
  lemma {:induction false} QuotedBodyStep(s: string, a: nat, b: nat)
    requires a < b <= |s| && IsQuotedBody(s[..a]) && IsQuotedBody(s[..b])
    ensures s[a] != '"' && (s[a] == '\\' ==> a + 2 <= b)
    decreases a
  {
    if a > 0 {
      var u := if s[0] == '\\' then 2 else 1;
      assert s[..a][u..] == s[u..][..a - u];
      assert s[..b][u..] == s[u..][..b - u];
      QuotedBodyStep(s[u..], a - u, b - u);
    } else {
      assert s[..b][0] == s[0];
    }
  }

  /** `n` is the length of the match of `^"(?:\\[\s\S]|[^\\"])*"?` in
      `input`: a `"`, a body, and the closing `"` exactly when one follows the
      longest body. */
  predicate IsDoubleQuotedMatch(input: string, n: nat) {
    0 < n <= |input| && input[0] == '"'
    && ((2 <= n && input[n - 1] == '"' && IsQuotedBody(input[1..n - 1]))
        || (IsQuotedBody(input[1..n]) && (n == |input| || (input[n] == '\\' && n == |input| - 1))))
  }

  /** The match is determined: no two lengths fit it */
  lemma DoubleQuotedMatchUnique(input: string, n: nat, m: nat)
    requires IsDoubleQuotedMatch(input, n) && IsDoubleQuotedMatch(input, m)
    ensures n == m
  {
    hide IsQuotedBody;
    if n != m {
      var (p, q) := if n < m then (n, m) else (m, n);
      var s := input[1..];
      var e1 := if 2 <= p && input[p - 1] == '"' && IsQuotedBody(input[1..p - 1]) then p - 1 else p;
      var e2 := if 2 <= q && input[q - 1] == '"' && IsQuotedBody(input[1..q - 1]) then q - 1 else q;
      assert input[1..e1] == s[..e1 - 1];
      assert input[1..e2] == s[..e2 - 1];
      if e1 < e2 {
        QuotedBodyStep(s, e1 - 1, e2 - 1);
      }
    }
  }

  /** The match of `^"(?:\\[\s\S]|[^\\"])*"?`. The closing quote is
      optional, so any input starting with `"` has a match. */
  function FindLengthOfDoubleQuotedString(input: string): (r: Option<nat>)
    ensures r.Some? <==> |input| > 0 && input[0] == '"'
    ensures r.Some? ==> IsDoubleQuotedMatch(input, r.value)
  {
    if |input| == 0 || input[0] != '"' then None
    else
      var b := 1 + QuotedBodyLength(input[1..]);
      assert input[1..][..b - 1] == input[1..b];
      Some(if b < |input| && input[b] == '"' then b + 1 else b)
  }

  /** Shape of a code-point lexeme: `U`, whitespace, `+`, whitespace, then
      one or more hex digits, all of them. */
  predicate IsCodePointLexeme(s: string) {
    |s| > 0 && s[0] == 'U'
    && var plus := 1 + Run(s[1..], IsWhitespace);
       plus < |s| && s[plus] == '+'
       && var digits := plus + 1 + Run(s[plus + 1..], IsWhitespace);
          digits < |s| && forall k :: digits <= k < |s| ==> IsHexDigit(s[k])
  }

  /** The match of `^U\s*\+\s*[0-9a-fA-F]+` */
  function CodePointLexemeLength(input: string): (r: Option<nat>)
    ensures r.Some? ==> 3 <= r.value <= |input|
  {
    if |input| == 0 || input[0] != 'U' then None
    else
      var plus := 1 + Run(input[1..], IsWhitespace);
      if plus >= |input| || input[plus] != '+' then None
      else
        var digits := plus + 1 + Run(input[plus + 1..], IsWhitespace);
        var h := Run(input[digits..], IsHexDigit);
        if h == 0 then None else Some(digits + h)
  }

  /** A run that ends before `n` is the same in the text cut at `n` */
  lemma RunInPrefix(s: string, p: char -> bool, from: nat, n: nat)
    requires from <= n <= |s| && from + Run(s[from..], p) <= n
    ensures Run(s[..n][from..], p) == Run(s[from..], p)
  {
    assert s[..n][from..] == s[from..][..n - from];
    RunOfPrefix(s[from..], p, n - from);
  }

  /** The offsets of the `+` and of the first hex digit in a code-point
      match, and the number of hex digits */
  lemma CodePointLexemeParts(input: string) returns (plus: nat, digits: nat, h: nat)
    requires CodePointLexemeLength(input).Some?
    ensures input[0] == 'U' && plus == 1 + Run(input[1..], IsWhitespace) && plus < |input| && input[plus] == '+'
    ensures digits == plus + 1 + Run(input[plus + 1..], IsWhitespace) && digits <= |input|
    ensures h == Run(input[digits..], IsHexDigit) && h > 0
    ensures CodePointLexemeLength(input).value == digits + h
  {
    plus := 1 + Run(input[1..], IsWhitespace);
    digits := plus + 1 + Run(input[plus + 1..], IsWhitespace);
    h := Run(input[digits..], IsHexDigit);
  }

  /** The matched text is a whole code-point lexeme, and the hex digits run
      as far as they can. */
  lemma CodePointLexemeShape(input: string)
    requires CodePointLexemeLength(input).Some?
    ensures var n := CodePointLexemeLength(input).value;
      IsCodePointLexeme(input[..n]) && (n == |input| || !IsHexDigit(input[n]))
  {
    var plus, digits, h := CodePointLexemeParts(input);
    var n := CodePointLexemeLength(input).value;
    hide CodePointLexemeLength, IsCodePointLexeme, Run;
    var s := input[..n];
    RunInPrefix(input, IsWhitespace, 1, n);
    RunInPrefix(input, IsWhitespace, plus + 1, n);
    forall k | digits <= k < n ensures IsHexDigit(s[k]) {
      assert s[k] == input[digits..][k - digits];
    }
    CodePointLexemeIntro(s, plus, digits);
    if n < |input| {
      assert input[n] == input[digits..][h];
    }
  }

  /** The parts of a code-point lexeme, at the offsets of its `+` and its
      first hex digit, make a whole one */
  lemma CodePointLexemeIntro(s: string, plus: nat, digits: nat)
    requires |s| > 0 && s[0] == 'U'
    requires plus == 1 + Run(s[1..], IsWhitespace) && plus < |s| && s[plus] == '+'
    requires digits == plus + 1 + Run(s[plus + 1..], IsWhitespace) && digits < |s|
    requires forall k :: digits <= k < |s| ==> IsHexDigit(s[k])
    ensures IsCodePointLexeme(s)
  {
  }

  /** The offsets of the `+` and of the first hex digit in a code-point
      lexeme */
  lemma CodePointLexemeElim(s: string) returns (plus: nat, digits: nat)
    requires IsCodePointLexeme(s)
    ensures |s| > 0 && s[0] == 'U'
    ensures plus == 1 + Run(s[1..], IsWhitespace) && plus < |s| && s[plus] == '+'
    ensures digits == plus + 1 + Run(s[plus + 1..], IsWhitespace) && digits < |s|
    ensures forall k :: digits <= k < |s| ==> IsHexDigit(s[k])
  {
    plus := 1 + Run(s[1..], IsWhitespace);
    digits := plus + 1 + Run(s[plus + 1..], IsWhitespace);
  }

  /** A run that ends before `n` in the text cut at `n` is the same run in
      the whole text */
  lemma RunFromPrefix(s: string, p: char -> bool, from: nat, n: nat)
    requires from <= n <= |s| && from + Run(s[..n][from..], p) < n
    ensures Run(s[from..], p) == Run(s[..n][from..], p)
  {
    var r := Run(s[..n][from..], p);
    assert forall k :: 0 <= k <= r ==> s[from..][k] == s[..n][from..][k];
    RunUnique(s[from..], p, r);
  }

  /** A code-point lexeme at the start of the input is matched, up to its
      last hex digit at least */
  lemma CodePointLexemeComplete(input: string, n: nat)
    requires n <= |input| && IsCodePointLexeme(input[..n])
    ensures CodePointLexemeLength(input).Some? && CodePointLexemeLength(input).value >= n
  {
    hide IsCodePointLexeme, Run;
    var s := input[..n];
    var plus, digits := CodePointLexemeElim(s);
    assert input[0] == s[0] && input[plus] == s[plus];
    RunFromPrefix(input, IsWhitespace, 1, n);
    RunFromPrefix(input, IsWhitespace, plus + 1, n);
    var hex := input[digits..];
    forall k | 0 <= k < n - digits ensures IsHexDigit(hex[k]) {
      assert hex[k] == s[digits + k];
    }
    assert Run(hex, IsHexDigit) >= n - digits;
  }

  // ---------------------------------------------------------------------------
  // Classifying one lexeme

  /** Length and kind of the lexeme at the start of `input`, by fixed
      priority: two-character operators, one-character operators, quoted
      strings, code points, numbers, identifiers and reserved words, and
      otherwise a one-character unknown token. */
  function ConsumeChain(t: UnicodeTables, input: string): (r: (nat, TokenKind))
    requires |input| > 0
    ensures 0 < r.0 <= |input|
  {
    var c := input[0];
    if |input| >= 2 && c == '>' && input[1] == '>' then (2, LookAhead)
    else if |input| >= 2 && c == '<' && input[1] == '<' then (2, LookBehind)
    else if |input| >= 2 && c == ':' && input[1] == ':' then (2, DoubleColon)
    else if SingleToken(c).Some? then (1, SingleToken(c).value)
    else if c == '\'' then
      match IndexOf(input, '\'', 1)
      case None => (|input|, ErrorUnclosedString)
      case Some(i) => (i + 1, String)
    else if c == '"' then
      // the closing quote is optional, so there is always a match and the
      // source's fallback to an unclosed string is never taken
      (FindLengthOfDoubleQuotedString(input).value, String)
    else if CodePointLexemeLength(input).Some? then (CodePointLexemeLength(input).value, CodePoint)
    else if IsAsciiDigit(c) then (Run(input, IsDigitOrUnderscore), Number)
    else if IsLetterOrUnderscore(t, c) then
      var n := WordLength(t, input);
      (n, if IsReservedKey(input[..n]) then ReservedName else Identifier)
    else (1, ErrorUnknown)
  }

  /** The two-character operators `>>`, `<<` and `::` take priority over
      their one-character prefixes. */
  lemma TwoCharOperatorsFirst(t: UnicodeTables, input: string)
    requires |input| >= 2
    ensures input[..2] == ">>" ==> ConsumeChain(t, input) == (2, LookAhead)
    ensures input[..2] == "<<" ==> ConsumeChain(t, input) == (2, LookBehind)
    ensures input[..2] == "::" ==> ConsumeChain(t, input) == (2, DoubleColon)
  {
    if input[..2] == ">>" || input[..2] == "<<" || input[..2] == "::" {
      assert input[0] == input[..2][0] && input[1] == input[..2][1];
    }
  }

  /** Any other operator character is a one-character token of its kind,
      whatever follows it. */
  lemma OneCharOperators(t: UnicodeTables, input: string)
    requires |input| > 0 && SingleToken(input[0]).Some?
    requires |input| >= 2 ==> input[..2] != ">>" && input[..2] != "<<" && input[..2] != "::"
    ensures ConsumeChain(t, input) == (1, SingleToken(input[0]).value)
  {
    if |input| >= 2 {
      assert input[..2] == [input[0], input[1]];
    }
  }

  /** A single quote starts a string that ends at the next single quote, with
      no escapes; without one the rest of the input is an unclosed string. A
      double quote always starts a string. */
  lemma QuotedLexemes(t: UnicodeTables, input: string)
    requires |input| > 0
    ensures var r := ConsumeChain(t, input);
      && (input[0] == '"' ==> r.1 == String && IsDoubleQuotedMatch(input, r.0))
      && (input[0] == '\'' ==> r.1 == String || r.1 == ErrorUnclosedString)
      && (input[0] == '\'' && r.1 == String ==>
            2 <= r.0 && input[r.0 - 1] == '\'' && forall k :: 1 <= k < r.0 - 1 ==> input[k] != '\'')
      && (r.1 == ErrorUnclosedString ==>
            input[0] == '\'' && r.0 == |input| && forall k :: 1 <= k < |input| ==> input[k] != '\'')
      && (r.1 == String ==> input[0] == '\'' || input[0] == '"')
  {
  }

  /** A code-point token is a whole `U+hex` lexeme; a number is a maximal run
      of digits and underscores starting with a digit; a word is a maximal run
      of word characters, reserved exactly when it is a key of the table; anything
      else is one unknown character. */
  lemma WordLikeLexemes(t: UnicodeTables, input: string)
    requires |input| > 0
    ensures var r := ConsumeChain(t, input);
      && (r.1 == CodePoint ==> IsCodePointLexeme(input[..r.0]))
      && (r.1 == Number ==>
            IsAsciiDigit(input[0]) && (forall k :: 0 <= k < r.0 ==> IsDigitOrUnderscore(input[k]))
            && (r.0 == |input| || !IsDigitOrUnderscore(input[r.0])))
      && (r.1 == Identifier || r.1 == ReservedName ==>
            IsLetterOrUnderscore(t, input[0]) && (forall k :: 0 <= k < r.0 ==> IsWordChar(t, input[k]))
            && (r.0 == |input| || !IsWordChar(t, input[r.0]))
            && (r.1 == ReservedName <==> IsReservedKey(input[..r.0])))
      && (r.1 == ErrorUnknown ==> r.0 == 1)
  {
    hide SingleToken;
    var c := input[0];
    if |input| >= 2 && (c == '>' || c == '<' || c == ':') && input[1] == c {
    } else if SingleToken(c).Some? || c == '\'' || c == '"' {
    } else if CodePointLexemeLength(input).Some? {
      CodePointLexemeShape(input);
    }
  }

  /** The characters that can begin a lexeme: an operator, a quote, a digit,
      or a letter or `_` */
  predicate StartsLexeme(t: UnicodeTables, c: char) {
    SingleToken(c).Some? || c == '\'' || c == '"' || IsAsciiDigit(c) || IsLetterOrUnderscore(t, c)
  }

  /** A code-point lexeme at the start of the input gives a code-point token
      that covers it */
  lemma CodePointFirst(t: UnicodeTables, input: string, n: nat)
    requires 0 < n <= |input| && IsCodePointLexeme(input[..n])
    ensures ConsumeChain(t, input).1 == CodePoint && ConsumeChain(t, input).0 >= n
  {
    CodePointLexemeComplete(input, n);
    assert input[0] == input[..n][0];
  }

  /** A digit gives the number that runs over the digits and underscores
      after it */
  lemma DigitStartsNumber(t: UnicodeTables, input: string)
    requires |input| > 0 && IsAsciiDigit(input[0])
    ensures ConsumeChain(t, input) == (Run(input, IsDigitOrUnderscore), Number)
  {
  }

  /** A letter or `_` that does not begin a code-point lexeme gives the word
      of all the word characters after it, reserved exactly when it is a key
      of the reserved table */
  lemma LetterStartsWord(t: UnicodeTables, input: string)
    requires |input| > 0 && StandardOnAscii(t) && IsLetterOrUnderscore(t, input[0])
    requires forall n :: 0 < n <= |input| ==> !IsCodePointLexeme(input[..n])
    ensures var n := WordLength(t, input);
      ConsumeChain(t, input) == (n, if IsReservedKey(input[..n]) then ReservedName else Identifier)
  {
    if CodePointLexemeLength(input).Some? {
      CodePointLexemeShape(input);
    }
  }

  /** An unknown-character token comes exactly from a character that can
      begin no lexeme */
  lemma UnknownExactly(t: UnicodeTables, input: string)
    requires |input| > 0 && StandardOnAscii(t)
    ensures ConsumeChain(t, input).1 == ErrorUnknown <==> !StartsLexeme(t, input[0])
  {
    assert t.alphabetic('U');
  }

  // ---------------------------------------------------------------------------
  // The whole token stream

  /** The tokens of `src` from offset `pos` on: skip whitespace and comments,
      stop at the end, otherwise classify one lexeme and continue after it. */
  function LexFrom(t: UnicodeTables, src: string, pos: nat): seq<Token>
    requires pos <= |src|
    decreases |src| - pos
  {
    var start := pos + TriviaLength(src[pos..]);
    if start == |src| then []
    else
      var lexeme := ConsumeChain(t, src[start..]);
      [Token(lexeme.1, start, start + lexeme.0)] + LexFrom(t, src, start + lexeme.0)
  }

  function Lex(t: UnicodeTables, src: string): seq<Token> {
    LexFrom(t, src, 0)
  }

  /** One step of `LexFrom`, with the lexeme's classification left abstract */
  lemma LexFromUnfold(t: UnicodeTables, src: string, pos: nat)
    requires pos <= |src|
    ensures var start := pos + TriviaLength(src[pos..]);
      && (start == |src| ==> LexFrom(t, src, pos) == [])
      && (start < |src| ==>
            var lexeme := ConsumeChain(t, src[start..]);
            LexFrom(t, src, pos) == [Token(lexeme.1, start, start + lexeme.0)] + LexFrom(t, src, start + lexeme.0))
  {
    hide ConsumeChain, TriviaLength;
  }

  /** The lexer loop: strip whitespace and comments, stop at the end of the
      input, otherwise consume one lexeme and record its token. */
  method Tokenize(t: UnicodeTables, src: string) returns (result: seq<Token>)
    ensures result == Lex(t, src)
  {
    hide ConsumeChain, LexFrom, TriviaLength;
    var input := src;
    result := [];
    var offset: nat := 0;

    while true
      invariant offset <= |src| && input == src[offset..]
      invariant result + LexFrom(t, src, offset) == Lex(t, src)
      decreases |input|
    {
      LexFromUnfold(t, src, offset);
      var inputLen := |input|;
      input := input[TriviaLength(input)..];
      offset := offset + (inputLen - |input|);
      assert input == src[offset..];

      if |input| == 0 {
        break;
      }

      var (len, token) := ConsumeChain(t, input);

      var start := offset;
      offset := offset + len;
      input := input[len..];
      result := result + [Token(token, start, offset)];
    }
  }

  // ---------------------------------------------------------------------------
  // Properties of the token stream

  /** Every token is nonempty, lies in `[from, n]`, and starts at or after the
      end of the one before it. */
  ghost predicate InOrder(toks: seq<Token>, from: nat, n: nat) {
    (forall i :: 0 <= i < |toks| ==> from <= toks[i].start < toks[i].end <= n)
    && (forall i :: 0 <= i < |toks| - 1 ==> toks[i].end <= toks[i + 1].start)
  }

  /** The text before the first token, between consecutive tokens, and after
      the last one is exactly the maximal run of whitespace and comments at
      that point. */
  ghost predicate GapsAreTrivia(src: string, toks: seq<Token>, from: nat)
    requires from <= |src| && InOrder(toks, from, |src|)
  {
    (|toks| == 0 ==> from + TriviaLength(src[from..]) == |src|)
    && (|toks| > 0 ==>
          from + TriviaLength(src[from..]) == toks[0].start
          && (forall i :: 0 <= i < |toks| - 1 ==>
                toks[i].end + TriviaLength(src[toks[i].end..]) == toks[i + 1].start)
          && toks[|toks| - 1].end + TriviaLength(src[toks[|toks| - 1].end..]) == |src|)
  }

  /** Each token is what the classifier makes of the text at its start */
  ghost predicate Classified(t: UnicodeTables, src: string, toks: seq<Token>) {
    forall i :: 0 <= i < |toks| ==>
      toks[i].start < |src|
      && ConsumeChain(t, src[toks[i].start..]) == (toks[i].end - toks[i].start, toks[i].kind)
  }

  /** A token in front of an ordered list that starts after it keeps it ordered */
  lemma InOrderCons(tok: Token, rest: seq<Token>, from: nat, n: nat)
    requires from <= tok.start < tok.end <= n && InOrder(rest, tok.end, n)
    ensures InOrder([tok] + rest, from, n)
  {
    var toks := [tok] + rest;
    forall i | 0 <= i < |toks| - 1
      ensures toks[i].end <= toks[i + 1].start
    {
      assert toks[i + 1] == rest[i];
      if i > 0 { assert toks[i] == rest[i - 1]; }
    }
  }

  /** A token in front of a list whose gaps are trivia, reached from `from`
      by skipping trivia, keeps the gaps trivia */
  lemma GapsCons(src: string, tok: Token, rest: seq<Token>, from: nat)
    requires from <= tok.start < tok.end <= |src| && InOrder(rest, tok.end, |src|)
    requires from + TriviaLength(src[from..]) == tok.start
    requires GapsAreTrivia(src, rest, tok.end)
    ensures InOrder([tok] + rest, from, |src|)
    ensures GapsAreTrivia(src, [tok] + rest, from)
  {
    InOrderCons(tok, rest, from, |src|);
    var toks := [tok] + rest;
    if |rest| > 0 {
      forall i | 0 <= i < |toks| - 1
        ensures toks[i].end + TriviaLength(src[toks[i].end..]) == toks[i + 1].start
      {
        assert toks[i + 1] == rest[i];
        if i > 0 { assert toks[i] == rest[i - 1]; }
      }
      assert toks[|toks| - 1] == rest[|rest| - 1];
    }
  }

  /** The tokens lexed from `pos` are ordered and lie in `[pos, |src|]` */
  lemma {:induction false} LexFromInOrder(t: UnicodeTables, src: string, pos: nat)
    requires pos <= |src|
    ensures InOrder(LexFrom(t, src, pos), pos, |src|)
    decreases |src| - pos
  {
    hide ConsumeChain, LexFrom, TriviaLength;
    var start := pos + TriviaLength(src[pos..]);
    LexFromUnfold(t, src, pos);
    if start < |src| {
      var lexeme := ConsumeChain(t, src[start..]);
      LexFromInOrder(t, src, start + lexeme.0);
      InOrderCons(Token(lexeme.1, start, start + lexeme.0), LexFrom(t, src, start + lexeme.0), pos, |src|);
    }
  }

  /** No tokens: the whole rest of the text is whitespace and comments */
  lemma GapsNil(src: string, from: nat)
    requires from <= |src| && from + TriviaLength(src[from..]) == |src|
    ensures InOrder([], from, |src|) && GapsAreTrivia(src, [], from)
  {
  }

  /** Between the tokens lexed from `pos` lie exactly the trivia runs */
  lemma {:induction false} LexFromGaps(t: UnicodeTables, src: string, pos: nat)
    requires pos <= |src|
    ensures InOrder(LexFrom(t, src, pos), pos, |src|)
    ensures GapsAreTrivia(src, LexFrom(t, src, pos), pos)
    decreases |src| - pos
  {
    hide ConsumeChain, LexFrom, TriviaLength, InOrder, GapsAreTrivia;
    var start := pos + TriviaLength(src[pos..]);
    LexFromUnfold(t, src, pos);
    if start < |src| {
      var lexeme := ConsumeChain(t, src[start..]);
      LexFromGaps(t, src, start + lexeme.0);
      GapsCons(src, Token(lexeme.1, start, start + lexeme.0), LexFrom(t, src, start + lexeme.0), pos);
    } else {
      GapsNil(src, pos);
    }
  }

  /** Each token lexed from `pos` is the classification of the text at its start */
  lemma {:induction false} LexFromClassified(t: UnicodeTables, src: string, pos: nat)
    requires pos <= |src|
    ensures Classified(t, src, LexFrom(t, src, pos))
    decreases |src| - pos
  {
    hide ConsumeChain, LexFrom, TriviaLength;
    var start := pos + TriviaLength(src[pos..]);
    LexFromUnfold(t, src, pos);
    if start < |src| {
      var lexeme := ConsumeChain(t, src[start..]);
      var next := start + lexeme.0;
      LexFromClassified(t, src, next);
      var rest := LexFrom(t, src, next);
      var toks := [Token(lexeme.1, start, next)] + rest;
      forall i | 1 <= i < |toks|
        ensures toks[i].start < |src|
          && ConsumeChain(t, src[toks[i].start..]) == (toks[i].end - toks[i].start, toks[i].kind)
      {
        assert toks[i] == rest[i - 1];
      }
    }
  }

  /** Tokens come out in source order, nonempty and within the source; only
      whitespace and comments lie between them; each is what `ConsumeChain`
      makes of the text at its start. */
  lemma LexProperties(t: UnicodeTables, src: string)
    ensures InOrder(Lex(t, src), 0, |src|)
    ensures GapsAreTrivia(src, Lex(t, src), 0)
    ensures Classified(t, src, Lex(t, src))
  {
    LexFromGaps(t, src, 0);
    LexFromClassified(t, src, 0);
  }

  /** What the parser relies on: every token is placed as `TokenPlaced`
      says. The quantifier fires only on `TokenPlaced` terms, so a proof
      about the tokens asks for the facts of the token it needs. */
  ghost predicate TokensWellFormed(src: string, toks: seq<Token>) {
    forall i {:trigger TokenPlaced(src, toks, i)} :: 0 <= i < |toks| ==> TokenPlaced(src, toks, i)
  }

  /** Token `i` is nonempty, lies within the source and ends at or before
      the next one starts; a code-point token spans a whole `U+hex` lexeme */
  ghost predicate TokenPlaced(src: string, toks: seq<Token>, i: int)
    requires 0 <= i < |toks|
  {
    toks[i].start < toks[i].end <= |src|
    && (i + 1 < |toks| ==> toks[i].end <= toks[i + 1].start)
    && (toks[i].kind == CodePoint ==> IsCodePointLexeme(src[toks[i].start..toks[i].end]))
  }

  /** The lexer's output meets what the parser relies on */
  lemma LexWellFormed(t: UnicodeTables, src: string)
    ensures TokensWellFormed(src, Lex(t, src))
  {
    hide ConsumeChain, LexFrom, TriviaLength, IsCodePointLexeme, GapsAreTrivia;
    var toks := Lex(t, src);
    LexFromInOrder(t, src, 0);
    LexFromClassified(t, src, 0);
    forall i | 0 <= i < |toks|
      ensures TokenPlaced(src, toks, i)
    {
      var tok := toks[i];
      if tok.kind == CodePoint {
        var input := src[tok.start..];
        WordLikeLexemes(t, input);
        assert input[..tok.end - tok.start] == src[tok.start..tok.end];
      }
    }
  }
}
