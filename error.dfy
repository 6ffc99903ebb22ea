/** The parser's error values, and the exception-carrying result its
    productions return in place of throwing. */
module Errors {
  import opened Options
  import opened Rules
  import opened Tokenizer

  datatype ParseErrorKind =
    | UnclosedString
    | UnknownToken
    | LeftoverTokens
    | ExpectedToken
    | NumberTooLarge
    | Expected
    | LonePipe
    | MultipleRepetitions
    | NotAscendingRepetition
    | InvalidCharsInGroupName
    | GroupNameTooLong
    | InvalidCodePoint
    | EmptyCharSet
    | UnallowedNotInCharSet
    | EmptyStringInCharSetRange
    | StringTooLongInCharSetRange
    | NotAscendingCharRange
    | InvalidRangeBase
    | MultipleStringsInTestCase

  /** What an error says was expected: a description or a token kind */
  datatype Expectation = Description(text: string) | TokenOfKind(kind: TokenKind)

  /** An error of the grammar. Its span is absent only when it was rebuilt
      from a failure that had none (see `Rethrow`). */
  datatype ParseError = ParseError(kind: ParseErrorKind, span: Option<Span>, expected: Option<Expectation>)

  /** What a production can throw: a `ParseError`, or the runtime type error
      raised when a token is read past the end of the token list */
  datatype Exception = Error(error: ParseError) | TypeError

  function Fail(kind: ParseErrorKind, span: Span): (e: Exception)
    ensures e.Error? && e.error.kind == kind && e.error.span == Some(span) && e.error.expected.None?
  {
    Error(ParseError(kind, Some(span), None))
  }

  /** An `Expected` error with a description */
  function ExpectedError(span: Span, text: string): (e: Exception)
    ensures e.Error? && e.error.kind == Expected && e.error.span == Some(span)
    ensures e.error.expected == Some(Description(text))
  {
    Error(ParseError(Expected, Some(span), Some(Description(text))))
  }

  /** An `ExpectedToken` error naming the kind of token that was expected */
  function ExpectedTokenError(span: Span, kind: TokenKind): (e: Exception)
    ensures e.Error? && e.error.kind == ExpectedToken && e.error.span == Some(span)
    ensures e.error.expected == Some(TokenOfKind(kind))
  {
    Error(ParseError(ExpectedToken, Some(span), Some(TokenOfKind(kind))))
  }

  /** A failed `expect` replaced by an `Expected` error with a better
      description, at the span of the failure; a type error has no span, so
      the new error has none either. */
  function Rethrow(e: Exception, text: string): (r: Exception)
    ensures r.Error? && r.error.kind == Expected && r.error.expected == Some(Description(text))
    ensures e.Error? ==> r.error.span == e.error.span
    ensures e.TypeError? ==> r.error.span.None?
  {
    var span := if e.Error? then e.error.span else None;
    Error(ParseError(Expected, span, Some(Description(text))))
  }

  datatype Result<+T> = Ok(value: T) | Throw(exception: Exception) {
    predicate IsFailure() {
      Throw?
    }

    function PropagateFailure<U>(): Result<U>
      requires Throw?
    {
      Throw(exception)
    }

    function Extract(): T
      requires Ok?
    {
      value
    }
  }
}
