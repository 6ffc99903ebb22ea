/** The abstract syntax tree built by the parser: rules, statements and test
    cases, each node carrying the source span it was built from. */
module Rules {
  import opened Options

  /** A `[start, end)` offset range into the source text. A span whose end is 0
      counts as absent when spans are joined. */
  datatype Span = Span(start: nat, end: nat)

  predicate ValidSpan(s: Span, n: nat) {
    s.start <= s.end <= n
  }

  /** `outer` covers `inner` */
  predicate Covers(outer: Span, inner: Span) {
    outer.start <= inner.start && inner.end <= outer.end
  }

  datatype Rule =
    | Literal(content: string, span: Span)
    | CharClass(inner: seq<GroupItem>, isUnicodeAware: bool, span: Span)
    | Group(rules: seq<Rule>, kindOrName: GroupKindOrName, span: Span)
    | Alternation(rules: seq<Rule>, span: Span)
    | Intersection(rules: seq<Rule>, span: Span)
    | Repetition(rule: Rule, repetition: RepetitionKind, quantifier: Quantifier, span: Span)
    | Boundary(boundary: BoundaryKind, span: Span)
    | Lookaround(rule: Rule, lookaround: LookaroundKind, span: Span)
    | Variable(name: string, span: Span)
    | Reference(target: ReferenceTarget, span: Span)
    | Range(start: string, end: string, radix: nat, span: Span)
    | StmtExpr(stmt: Stmt, rule: Rule, span: Span)
    | Negation(rule: Rule, notSpan: Span, span: Span)
    | Regex(content: string, span: Span)
    | Recursion(span: Span)
    | Dot(span: Span)

  /** One member of a character class: a code point, a code-point range, or a
      named class such as `w` or `kind:name`, possibly negated. */
  datatype GroupItem =
    | Char(codePoint: nat)
    | CodeRange(first: nat, last: nat)
    | NamedClass(name: string, negative: bool, kind: Option<string>, span: Span)

  datatype GroupKindOrName = Capturing | Atomic | Normal | Implicit | GroupName(name: string)

  datatype RepetitionKind = RepetitionKind(lower: nat, upper: Option<nat>)

  datatype Quantifier = Greedy | Lazy | DefaultGreedy | DefaultLazy

  datatype BoundaryKind = Start | End | Word | NotWord | WordStart | WordEnd

  datatype LookaroundKind = Ahead | Behind | AheadNegative | BehindNegative

  datatype ReferenceTarget = ByName(name: string) | ByNumber(number: nat) | ByRelative(relative: int)

  datatype BooleanSetting = Laziness | UnicodeAwareness

  datatype Stmt =
    | Enable(setting: BooleanSetting, span: Span)
    | Disable(setting: BooleanSetting, span: Span)
    | Let(name: string, nameSpan: Span, rule: Rule)
    | Test(cases: seq<TestCase>, span: Span)

  /** A string literal as it appears in a test case */
  datatype QuotedLiteral = QuotedLiteral(content: string, span: Span)

  datatype TestMatch = TestMatch(literal: QuotedLiteral, captures: seq<TestCapture>, span: Span)

  datatype TestCase =
    | Match(test: TestMatch)
    | MatchAll(literal: QuotedLiteral, matches: seq<TestMatch>)
    | Reject(literal: QuotedLiteral, asSubstring: bool)

  datatype CaptureIdent = CaptureNumber(number: nat) | CaptureName(name: string)

  datatype TestCapture = TestCapture(ident: CaptureIdent, identSpan: Span, literal: QuotedLiteral)

  // ---------------------------------------------------------------------------
  // What the parser guarantees about every tree it returns

  const MaxRepetitionBound: nat := 65_535
  const MaxReferenceNumber: nat := 65_535
  const MaxCaptureNumber: nat := 65_536
  const MaxGroupNameLength: nat := 128

  /** A Unicode scalar value: at most U+10FFFF and not a surrogate */
  predicate IsValidCodePoint(c: int) {
    0 <= c <= 0x10_FFFF && !(0xD800 <= c <= 0xDFFF)
  }

  predicate IsAsciiAlphanumeric(c: char) {
    'a' <= c <= 'z' || 'A' <= c <= 'Z' || '0' <= c <= '9'
  }

  /** A capture name matching `[a-zA-Z0-9]*` of at most 128 characters */
  predicate IsValidGroupName(name: string) {
    |name| <= MaxGroupNameLength && forall i :: 0 <= i < |name| ==> IsAsciiAlphanumeric(name[i])
  }

  predicate ItemWellFormed(item: GroupItem, n: nat) {
    match item
    case Char(c) => IsValidCodePoint(c)
    case CodeRange(first, last) => IsValidCodePoint(first) && IsValidCodePoint(last) && first <= last
    case NamedClass(_, _, _, span) => ValidSpan(span, n)
  }

  /** Bounds of at most 65535; `lower <= upper` whenever the upper bound is
      present and nonzero (an upper bound of 0 is not checked). */
  predicate RepetitionWellFormed(k: RepetitionKind) {
    k.lower <= MaxRepetitionBound
    && (k.upper.Some? ==> k.upper.value <= MaxRepetitionBound)
    && (k.upper.Some? && k.upper.value != 0 ==> k.lower <= k.upper.value)
  }

  predicate GroupWellFormed(rules: seq<Rule>, kind: GroupKindOrName) {
    (kind.Implicit? ==> |rules| >= 2)
    && (!kind.Implicit? ==> |rules| == 1)
    && (kind.GroupName? ==> IsValidGroupName(kind.name))
  }

  predicate LiteralWellFormed(lit: QuotedLiteral, n: nat) {
    ValidSpan(lit.span, n)
  }

  predicate MatchWellFormed(m: TestMatch, n: nat) {
    LiteralWellFormed(m.literal, n) && ValidSpan(m.span, n)
    && forall i :: 0 <= i < |m.captures| ==> CaptureWellFormed(m.captures[i], n)
  }

  predicate CaptureWellFormed(c: TestCapture, n: nat) {
    ValidSpan(c.identSpan, n) && LiteralWellFormed(c.literal, n)
    && (c.ident.CaptureNumber? ==> c.ident.number <= MaxCaptureNumber)
  }

  predicate TestCaseWellFormed(t: TestCase, n: nat) {
    match t
    case Match(m) => MatchWellFormed(m, n)
    case MatchAll(lit, ms) => LiteralWellFormed(lit, n) && forall i :: 0 <= i < |ms| ==> MatchWellFormed(ms[i], n)
    case Reject(lit, _) => LiteralWellFormed(lit, n)
  }

  /** The invariants of a parsed tree over a source of length `n`: every span
      lies within the source, character classes are nonempty and hold valid,
      ascending code points, group names are valid, numeric bounds are
      checked, range radixes lie in 2..36, and wrapper nodes have the number
      of operands the parser gives them. */
  predicate WellFormed(r: Rule, n: nat)
    decreases r, 1
  {
    ValidSpan(r.span, n) && NodeWellFormed(r, n)
    && var operands := match r
         case Group(rules, _, _) => rules
         case Alternation(rules, _) => rules
         case Intersection(rules, _) => rules
         case Repetition(rule, _, _, _) => [rule]
         case Lookaround(rule, _, _) => [rule]
         case StmtExpr(stmt, rule, _) => if stmt.Let? then [stmt.rule, rule] else [rule]
         case Negation(rule, _, _) => [rule]
         case _ => [];
       forall i :: 0 <= i < |operands| ==> WellFormed(operands[i], n)
  }

  predicate NodeWellFormed(r: Rule, n: nat) {
    match r
    case CharClass(items, _, _) => |items| > 0 && forall i :: 0 <= i < |items| ==> ItemWellFormed(items[i], n)
    case Group(rules, kind, _) => GroupWellFormed(rules, kind)
    case Alternation(rules, _) => |rules| >= 2
    case Intersection(rules, _) => |rules| >= 2
    case Repetition(_, kind, _, _) => RepetitionWellFormed(kind)
    case Boundary(kind, _) => kind != NotWord
    case Lookaround(_, kind, _) => kind == Ahead || kind == Behind
    case Reference(target, _) => target.ByNumber? ==> target.number <= MaxReferenceNumber
    case Range(_, _, radix, _) => 2 <= radix <= 36
    case StmtExpr(stmt, _, _) => StmtNodeWellFormed(stmt, n)
    case Negation(_, notSpan, _) => ValidSpan(notSpan, n)
    case _ => true
  }

  predicate StmtNodeWellFormed(s: Stmt, n: nat) {
    match s
    case Enable(_, span) => ValidSpan(span, n)
    case Disable(_, span) => ValidSpan(span, n)
    case Let(_, nameSpan, _) => ValidSpan(nameSpan, n)
    case Test(cases, span) => ValidSpan(span, n) && forall i :: 0 <= i < |cases| ==> TestCaseWellFormed(cases[i], n)
  }

  predicate StmtWellFormed(s: Stmt, n: nat)
    decreases s, 0
  {
    match s
    case Enable(_, span) => ValidSpan(span, n)
    case Disable(_, span) => ValidSpan(span, n)
    case Let(_, nameSpan, rule) => ValidSpan(nameSpan, n) && WellFormed(rule, n)
    case Test(cases, span) => ValidSpan(span, n) && forall i :: 0 <= i < |cases| ==> TestCaseWellFormed(cases[i], n)
  }
}
