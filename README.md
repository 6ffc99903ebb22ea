# pomsky-parser in Dafny

A model of the parser of the Pomsky regular-expression language, written
in TypeScript. It has three parts:

- **The lexer.** It turns source text into `(kind, start, end)` tokens and never fails. Malformed input becomes one of two error token kinds.
- **The recursive-descent parser.** It walks the token list with a cursor and two ambient flags: laziness, and Unicode awareness of character classes. It builds a `Rule` tree of literals, classes, groups, alternations, intersections, repetitions, boundaries, lookarounds, variables, references, ranges, statements, negations, regexes, recursion and `.`.
- **The helpers.** They join spans and decode quoted strings.

Files and modules:

- `option.dfy` (`Options`): the `Option` type.
- `rule.dfy` (`Rules`):
  - the syntax tree;
  - `WellFormed`, which states what every tree the parser returns satisfies: spans inside the source, nonempty classes of valid and ascending code points, valid group names, checked numeric bounds, radixes in 2..36, and operand counts.
- `error.dfy` (`Errors`):
  - the error kinds and `ParseError`;
  - `Exception`: a `ParseError`, or the runtime `TypeError` the code raises when it reads a token past the end of the list;
  - the `Result` type that stands in for `throw`.
- `helper.dfy` (`Helper`): span joining, quoted-text decoding, and range endpoints.
- `tokenizer.dfy` (`Tokenizer`):
  - the lexer as a specification function `Lex`;
  - the lexer loop `Tokenize`, proved equal to `Lex`;
  - the properties of the token stream.
- `parser.dfy` (`Parsing`):
  - the `Parser` class: fields `tokens` and `source` (constant), and `offset`, `isLazy` and `isUnicodeAware` (updated in place);
  - one method per production;
  - the `Parse` entry point.

Each production returns `Result<...>`. The first failure aborts the
parse, as an uncaught exception does in the source.

Every production is stated in two parts.

- **A function of token positions.** `ModifiedAt`, `OrAt`, `FixesAt`, `CharSetAt`, `RepetitionAt` and their kin each take the position a production starts at, and the flags where it reads them. Each gives what the source builds and the position after it, or the exception the source raises. These functions read the token list, never the cursor. Their contracts bound the positions and state that every rule they give is well formed.
- **A parsing method.** Each method of the `Parser` class changes the cursor and the flags in place, like the source. Its contract says it gives exactly what its function gives from where the call began: the same value with the cursor just after it, or the same exception (`Yields`). On success, the methods that can change the flags leave them as they found them (`FlagsKept`).

Lemmas about the functions state what the productions promise:

- where each one begins (`GroupFirst` … `StatementFirst`): an optional production gives nothing, and consumes nothing, exactly where no token that can begin it stands;
- where each one ends (`RepetitionsEnd` … `ModifiedEnd`): a repeated production stops only where nothing could continue it. So tokens left over after the whole expression never begin with `|` or with the start of an intersection (`LeftoverAt`);
- what they build (`LetShape`, `TestShape`, `GroupShape`, `RepetitionShape`) and the errors they raise (`LonePipeAt`, `RepeatedOperator`, `DoublePlus`, `MultipleStrings`, `NegatedItem`, `EmptyCharSetAt`).

`Parse` returns the lexer's errors when there are any. Otherwise it returns `Outcome()`: the expression `ModifiedAt` gives from position 0 under the initial flags, if every token was consumed, and the error raised or `LeftoverTokens` at the first token left over otherwise.

Two behaviours of the code are worth noting:

- `parse(source, tokens)` uses supplied tokens only when it scans for lexer errors. The parser always parses the tokens of `source`.
- `parseModified` restores the two flags on normal return only. When an exception passes through it, the flags keep the values the statements gave them.

Helpers that the functions share say what the tokens from a position denote: `NumberAt`, `FiniteNumberAt`, `ReferenceTargetAt`, `RangeAt`, `RangeRadixAt`, `BracesAt`, `StringOrCharAt`, `CharsOrRangeAt`, `CharRangeAt`, `NegationError`, `GroupKindAt` and `QuantifierAt`. `StartsGroup`, `StartsAtom`, `StartsFix`, `StartsAnd`, `StartsRepetition`, `StartsItem` and `StartsStatement` say which tokens can begin each production. `Nest`, `Negated` and `SequenceOf` build the trees the expression productions return, and `FlagsAfter` gives the flags after a list of statements.

## Model

| member | source | states |
|---|---|---|
| Helper.Join | src/helper.ts:4-14 | a span ending at 0 counts as absent; otherwise the result covers both spans, and each of its ends is an end of one of them |
| Helper.JoinCommutative | src/helper.ts:4-14 | for two present spans, the order of the arguments does not matter |
| Helper.JoinAssociative | src/helper.ts:4-14 | the order in which a chain of spans is joined does not matter |
| Helper.JoinValid | src/helper.ts:4-14 | joining spans that lie inside the source gives a span inside the source |
| Helper.StripFirstLast | src/helper.ts:25-27 | the result is the input shifted by one character and two characters shorter; it is empty for inputs shorter than two characters |
| Helper.ParseQuotedText | src/helper.ts:17-23 | a text that does not start with `"` is only stripped of its first and last characters; a double-quoted text never gets longer than its contents; a text shorter than two characters decodes to nothing |
| Helper.UnescapeCases | src/helper.ts:19 | `\\` and `\"` become the character after the backslash; a backslash before any other character, or at the very end, is kept together with what follows it; every other character is kept |
| Helper.UnescapeKeepsOtherEscapes | src/helper.ts:17-19 | a double-quoted literal keeps a backslash before any character other than `\` and `"`: `"\n"` decodes to the two characters `\` and `n` |
| Helper.UnescapeEscape | src/helper.ts:17-23 | resolving escapes undoes escaping, for every string |
| Helper.QuotedRoundTrip | src/helper.ts:17-23 | a double-quoted literal built by escaping any text decodes back to that text; a single-quoted literal decodes to its contents |
| Helper.UnescapePlain | src/helper.ts:19 | text without a backslash is left unchanged |
| Helper.StringOrCharToString | src/helper.ts:29-44 | a code point is returned as it is; a string must decode to exactly one character: an empty one is `EmptyStringInCharSetRange`, a longer one `StringTooLongInCharSetRange`, and otherwise the result is that character, a valid code point |
| Errors.Rethrow | src/parser.ts:279-283 | the caught error's span is kept and its description replaced; a type error has no span, so the new error has none |
| Tokenizer.Run | src/tokenizer.ts:177-178 | the length of the longest prefix whose characters all satisfy the predicate: all characters before it do, and the one at it does not |
| Tokenizer.WordLength | src/tokenizer.ts:181-184 | the length of the longest prefix of word characters (`\p{Alpha}`, `\p{M}`, `\p{Nd}`, `_`) |
| Tokenizer.TriviaLength | src/tokenizer.ts:74 | every character of the discarded prefix is whitespace or lies in a `#` comment with no line terminator between the `#` and it; the character after the prefix is neither whitespace, nor in a comment, nor a `#` |
| Tokenizer.SingleToken | src/tokenizer.ts:92-124 | the one-character operators; none of them has a kind of its own lexemes (string, number, word, code point, error) |
| Tokenizer.IndexOf | src/tokenizer.ts:155 | the first position at or after `from` holding the character, or none if there is no such position |
| Tokenizer.QuotedBodyLength | src/tokenizer.ts:6 | the longest prefix made of `\`-and-any-character pairs and characters other than `\` and `"`: it is such a body, and it stops at the end, at a `"`, or at a `\` that is the last character |
| Tokenizer.DoubleQuotedMatchUnique | src/tokenizer.ts:6 | at most one length fits the match of `^"(?:\\[\s\S]|[^\\"])*"?`, so the match is determined by the input |
| Tokenizer.FindLengthOfDoubleQuotedString | src/tokenizer.ts:192-197 | there is a match exactly when the input starts with `"`; it is `"`, the longest body, and the closing `"` exactly when one follows the body |
| Tokenizer.CodePointLexemeLength | src/tokenizer.ts:1 | a match of `^U\s*\+\s*[0-9a-fA-F]+` is at least three characters long and lies within the input |
| Tokenizer.CodePointLexemeShape | src/tokenizer.ts:1 | the matched text is a whole code-point lexeme, and the hex digits run as far as they can |
| Tokenizer.CodePointLexemeComplete | src/tokenizer.ts:1 | a code-point lexeme at the start of the input is matched, up to its last hex digit at least |
| Tokenizer.ConsumeChain | src/tokenizer.ts:145-190 | every lexeme is nonempty and lies within the input; which token each kind of text gives is stated case by case by the lemmas below it |
| Tokenizer.TwoCharOperatorsFirst | src/tokenizer.ts:148-150 | `>>`, `<<` and `::` win over their one-character prefixes |
| Tokenizer.OneCharOperators | src/tokenizer.ts:145-152 | an operator character not starting `>>`, `<<` or `::` is a one-character token of its kind, whatever follows it |
| Tokenizer.QuotedLexemes | src/tokenizer.ts:154-170 | a single-quoted string ends at the next single quote, and without one it is an unclosed string running to the end of the input; a double quote always starts a string whose length is the double-quoted match |
| Tokenizer.WordLikeLexemes | src/tokenizer.ts:172-189 | a code point is a whole `U+hex` lexeme; a number is a maximal run of digits and underscores that starts with a digit; a word is a maximal run of word characters, reserved exactly when it is a key of the reserved table (inherited keys included); an unknown token is one character |
| Tokenizer.CodePointFirst | src/tokenizer.ts:172-175 | a `U+hex` lexeme at the start of the input gives a code-point token covering it |
| Tokenizer.DigitStartsNumber | src/tokenizer.ts:177-180 | a digit gives a number token over the run of digits and underscores from it |
| Tokenizer.LetterStartsWord | src/tokenizer.ts:182-187 | a letter or `_` that starts no code-point lexeme gives the word over all the word characters from it, reserved exactly when the word is a key of the reserved table |
| Tokenizer.UnknownExactly | src/tokenizer.ts:145-189 | the one-character unknown token comes exactly from a character that can begin no operator, string, number or word |
| Tokenizer.Tokenize | src/tokenizer.ts:67-90 | the lexer loop returns exactly `Lex`, the token list the lexing rules define |
| Tokenizer.LexFromGaps | src/tokenizer.ts:72-87 | tokens are ordered, and each gap between tokens is exactly the maximal whitespace-and-comment run at that point |
| Tokenizer.LexFromClassified | src/tokenizer.ts:81-86 | each token is the classification of the text at its start |
| Tokenizer.LexProperties | src/tokenizer.ts:67-90 | tokens come out in source order, nonempty and within the source; only whitespace and comments lie between them; each is what the classifier makes of the text at its start |
| Tokenizer.LexWellFormed | src/tokenizer.ts:172-175 | the token list is ordered, and the text of every code-point token is a whole `U+hex` lexeme |
| Parsing.NumberValue | src/parser.ts:159-170 | `+text` on a number token: a value exactly when the text is all digits, and then its decimal value; a text holding `_` is NaN |
| Parsing.StripCodePointPrefix | src/parser.ts:839 | removing the `U`, the whitespace and the optional `+` never makes the text longer |
| Parsing.CodePointDigits | src/parser.ts:839-840 | what is left of a code-point lexeme after its prefix is removed is a nonempty string of hex digits, so `parseInt` reads all of it |
| Parsing.SpecialChar | src/parser.ts:907-914 | exactly `n`, `r`, `t`, `a`, `e` and `f` have a value, and each value is a valid control character below 0x20 |
| Parsing.BracesRepetition | src/parser.ts:578-591 | with a comma, a missing lower bound is 0, and a present nonzero upper bound below the lower one is `NotAscendingRepetition`; without a comma, exactly the lower bound must be present; checked bounds give a well-formed repetition |
| Parsing.CheckGroupName | src/parser.ts:640-646 | the name is accepted exactly when it is a valid group name; invalid characters are reported before excess length |
| Parsing.RangeRadix | src/parser.ts:858-864 | without `base` the radix is 10; a given base is accepted exactly when it lies in 2..36, and otherwise it is `InvalidRangeBase` |
| Parsing.QuotedChars | src/parser.ts:730-732 | one valid code point per character of the decoded string, in order |
| Parsing.TestCaseOf | src/parser.ts:331-338 | with `in`, all the strings are matched against the literal; otherwise more than one string is `MultipleStringsInTestCase` across their spans, one string is a plain match, and none gives no test case |
| Parsing.NestStatements | src/parser.ts:235-239 | the loop builds `Nest`, the statements wrapped around the rule with the first statement outermost |
| Parsing.NestFirstOutermost | src/parser.ts:235-239 | the first statement is the outermost wrapper, around the nesting of the others |
| Parsing.NestWellFormed | src/parser.ts:235-239 | wrapping well-formed statements around a well-formed rule gives a well-formed rule |
| Parsing.NegationWellFormed | src/parser.ts:494-496 | a negation of a well-formed rule is well formed |
| Parsing.NegatedDepth | src/parser.ts:494-496 | `n` leading `!`s wrap exactly `n` negations around an atom, the outermost carrying the span of the `!`s |
| Parsing.NegatedWellFormed | src/parser.ts:494-496 | any number of negations of a well-formed rule is well formed |
| Parsing.RepeatedWellFormed | src/parser.ts:498-504 | a repetition with checked bounds of a well-formed rule is well formed |
| Parsing.SequenceOf | src/parser.ts:461-474 | no fixes give nothing; one fix is itself; more form an implicit group spanning the first fix to the last |
| Parsing.SequenceOfWellFormed | src/parser.ts:461-474 | the sequence of well-formed fixes is well formed |
| Parsing.Parser.constructor | src/parser.ts:60-70 | the parser holds the tokens `Lex` gives for the source; the cursor is at 0, laziness is off and Unicode awareness is on |
| Parsing.Parser.TokenSpan | src/parser.ts:94-100 | a token's span is nonempty and within the source |
| Parsing.Parser.NotsSpanCovers | src/parser.ts:478-483 | the span built over a run of `!`s runs from the first one's start to the last one's end |
| Parsing.Parser.Peek | src/parser.ts:86-92 | the kind and text of the next token; none exactly at the end |
| Parsing.Parser.CurrentSpan | src/parser.ts:94-100 | the next token's span, or the empty span at the end of the source |
| Parsing.Parser.LastSpan | src/parser.ts:102-105 | the span of the token consumed last, within the source |
| Parsing.Parser.Advance | src/parser.ts:107-109 | moves the cursor one token forward |
| Parsing.Parser.Consume | src/parser.ts:116-123 | consumes a token exactly when the next one has the kind, and moves one token forward exactly then |
| Parsing.Parser.ConsumeAs | src/parser.ts:125-131 | as `Consume`, also giving the consumed token's text |
| Parsing.Parser.ConsumeReserved | src/parser.ts:133-144 | consumes exactly when the next token is the reserved word |
| Parsing.Parser.ConsumeContextualKeyword | src/parser.ts:146-157 | consumes exactly when the next token is an identifier with that text |
| Parsing.Parser.ConsumeNumber | src/parser.ts:159-170 | no number token next gives nothing and no move; a value up to `max` is consumed; a larger value or NaN is `NumberTooLarge` at the token, without a move |
| Parsing.Parser.Expect | src/parser.ts:172-179 | succeeds and advances exactly when the next token has the kind; at the end of the tokens the failure is the type error; otherwise it is `ExpectedToken` at the next token, naming the kind |
| Parsing.Parser.ExpectAs | src/parser.ts:181-189 | as `Expect`, giving the consumed token's text |
| Parsing.Parser.ExpectNumber | src/parser.ts:191-203 | a number below 2^1024 − 2^970, the least value that rounds to an infinite double, is consumed; NaN or a larger value is `NumberTooLarge`; another token is `ExpectedToken` for `Number`; at the end, the type error |
| Parsing.Parser.TokensSpan | src/parser.ts:94-105 | the span from one token to another, joined as the source joins a start span with `lastSpan()`, lies within the source |
| Parsing.Parser.IsAt | src/parser.ts:111-114 | a token of the kind stands at the position only when the position is inside the token list |
| Parsing.Parser.NumberAt | src/parser.ts:159-170 | what `consumeNumber(max)` reads: a value is at most `max`, and nothing is read exactly when no number token stands there |
| Parsing.Parser.ReferenceTargetAt | src/parser.ts:793-815 | the target takes at least one token and ends within the tokens; an absolute number is at most 65535 |
| Parsing.Parser.RangeAt | src/parser.ts:847-873 | a range ends at least four tokens after `range`, within the tokens, and is well formed |
| Parsing.Parser.RangeOf | src/parser.ts:847-873 | the range built from the two strings and the radix is well formed |
| Parsing.Parser.RangeRadixAt | src/parser.ts:856-862 | the radix lies in 2..36 and the position after it does not go back |
| Parsing.Parser.StringOrCharAt | src/parser.ts:738-747 | nothing is read exactly when no string, code point or shorthand stands there; a code point read is a Unicode scalar value |
| Parsing.Parser.CharsOrRangeAt | src/parser.ts:712-736 | nothing is read exactly when `StringOrCharAt` reads nothing; what is read is well formed and ends within the tokens |
| Parsing.Parser.CharRangeAt | src/parser.ts:718-735 | a range ends three tokens after its first end, and its members are well formed |
| Parsing.Parser.NegationError | src/parser.ts:693-707 | no error for a `!` only when an identifier follows it |
| Parsing.Parser.GroupKindAt | src/parser.ts:633-652 | the prefix is consumed exactly when `atomic` or `:` stands there; the kind is `Normal` exactly when nothing is consumed; a consumed prefix gives the span of its first token; an error is raised exactly for `:` followed by an identifier that is not a valid group name |
| Parsing.Parser.NotsSpan | src/parser.ts:478-483 | the span built over a run of `!`s lies within the source |
| Parsing.Parser.BracesAt | src/parser.ts:568-596 | the braces end with `}` and give a checked repetition |
| Parsing.Parser.QuotedLiteralAt | src/parser.ts:654-660 | the decoded string of a token is a well-formed literal |
| Parsing.Parser.ModifiedAt | src/parser.ts:207-242 | an expression with its statements: the position after it is within the tokens, and the rule is well formed |
| Parsing.Parser.StatementsFrom | src/parser.ts:212-228 | the statements read extend those before them, each well formed with a valid span |
| Parsing.Parser.StatementAt | src/parser.ts:213 | a statement is read exactly when the position moves, and it is well formed |
| Parsing.Parser.ModeModifierAt | src/parser.ts:244-267 | a mode modifier is read exactly when the position moves, and it is well formed |
| Parsing.Parser.LetAt | src/parser.ts:269-289 | a `let` is read exactly when the position moves, and it is well formed |
| Parsing.Parser.LetEndAt | src/parser.ts:279-288 | a `let` closed by `;` ends right after it |
| Parsing.Parser.TestAt | src/parser.ts:291-309 | a `test` is read exactly when the position moves, and it is well formed |
| Parsing.Parser.TestEndAt | src/parser.ts:302-308 | a `test` closed by `}` ends right after it |
| Parsing.Parser.TestCasesFrom | src/parser.ts:296-300 | the cases read extend those before them, each well formed |
| Parsing.Parser.TestCaseAt | src/parser.ts:311-348 | a case read moves the position and is well formed |
| Parsing.Parser.MatchCaseAt | src/parser.ts:312-338 | a `match` case always moves the position, and a case it gives is well formed |
| Parsing.Parser.MatchesFrom | src/parser.ts:316-338 | the strings after a comma and the tail always move the position, and a case given is well formed |
| Parsing.Parser.MatchTailAt | src/parser.ts:322-338 | the tail of a `match` case always moves the position, and a case given is well formed |
| Parsing.Parser.RejectCaseAt | src/parser.ts:339-347 | a `reject` case that succeeds gives a well-formed case and moves the position |
| Parsing.Parser.TestMatchAt | src/parser.ts:350-381 | a match string that succeeds moves the position and is well formed |
| Parsing.Parser.CapturesFrom | src/parser.ts:360-370 | the captures read extend those before them, each well formed |
| Parsing.Parser.TestCaptureAt | src/parser.ts:383-395 | a capture is read exactly when the position moves, and it is well formed |
| Parsing.Parser.OrAt | src/parser.ts:397-422 | an alternation ends within the tokens and is well formed |
| Parsing.Parser.AlternativesFrom | src/parser.ts:410-421 | the alternatives after a `|` end within the tokens and form a well-formed rule |
| Parsing.Parser.AndAt | src/parser.ts:424-450 | an intersection is read exactly when the position moves, and it is well formed |
| Parsing.Parser.IntersectionFrom | src/parser.ts:435-449 | the sequences after a `&` form a well-formed intersection |
| Parsing.Parser.SequenceAt | src/parser.ts:452-475 | a sequence is read exactly when the position moves, and it is well formed |
| Parsing.Parser.SequenceFrom | src/parser.ts:453-475 | the result is absent, with no move, exactly when there were no fixes before and none is read; otherwise it is well formed |
| Parsing.Parser.NotsAt | src/parser.ts:478-483 | the number of `!`s from a position: all the tokens it counts are `!`, and the one after them is not |
| Parsing.Parser.FixesAt | src/parser.ts:477-507 | a fix is read exactly when the position moves, and it is well formed |
| Parsing.Parser.LookaroundOrAtomAt | src/parser.ts:486 | a lookaround or atom is read exactly when the position moves, and it is well formed |
| Parsing.Parser.LookaroundAt | src/parser.ts:509-526 | a lookaround is read exactly when the position moves, and it is well formed |
| Parsing.Parser.LookaroundOf | src/parser.ts:518-525 | the lookaround around a well-formed rule is well formed |
| Parsing.Parser.AtomAt | src/parser.ts:598-612 | an atom is read exactly when the position moves, and it is well formed |
| Parsing.Parser.GroupAt | src/parser.ts:614-631 | a group is read exactly when the position moves, and it is well formed |
| Parsing.Parser.GroupBodyAt | src/parser.ts:619-630 | a group body that succeeds moves past the `(` and gives a well-formed group |
| Parsing.Parser.GroupEndAt | src/parser.ts:625-630 | a group closed by `)` ends right after it and is well formed |
| Parsing.Parser.LeafAtomAt | src/parser.ts:600-611 | a leaf atom is read exactly when the position moves, and it is well formed |
| Parsing.Parser.ReferenceAt | src/parser.ts:793-820 | a reference moves past the `::` and is well formed |
| Parsing.Parser.CodePointRuleAt | src/parser.ts:822-832 | a code point that succeeds is one token and gives a well-formed class |
| Parsing.Parser.BoundaryKindAt | src/parser.ts:774-791 | a boundary token never denotes the non-word boundary |
| Parsing.Parser.KeywordAtomAt | src/parser.ts:606-610 | a keyword atom is read exactly when the position moves, and it is well formed |
| Parsing.Parser.OneTokenAtomAt | src/parser.ts:887-904 | a variable, `.` or `recursion` comes out exactly when an identifier, a dot or `recursion` stands there, spanning that token |
| Parsing.Parser.RegexAt | src/parser.ts:875-885 | a regex that succeeds spans two tokens and is well formed |
| Parsing.Parser.CharSetAt | src/parser.ts:662-688 | a class is read exactly when the position moves, and it is well formed |
| Parsing.Parser.CharSetEndAt | src/parser.ts:675-687 | a class closed by `]` ends right after it and is well formed |
| Parsing.Parser.ItemsFrom | src/parser.ts:690-710 | the members read extend those before them, each well formed |
| Parsing.Parser.ItemAt | src/parser.ts:693-707 | a member is read exactly when the position moves, and each item is well formed |
| Parsing.Parser.CharGroupIdentAt | src/parser.ts:761-772 | no identifier gives nothing; `name` gives a named class; `kind:name` gives the name with its kind spanning the three tokens, and a missing name after `:` is the failure of expecting an identifier |
| Parsing.Parser.RepetitionsFrom | src/parser.ts:498-504 | the repetitions applied to a well-formed rule give a well-formed rule |
| Parsing.Parser.OperatorAt | src/parser.ts:531-541 | an operator is read exactly when the position moves, and its bounds are checked |
| Parsing.Parser.QuantifierAt | src/parser.ts:543-552 | the quantifier takes one token or none |
| Parsing.Parser.RepetitionAt | src/parser.ts:528-566 | a repetition is read exactly when the position moves; its bounds are checked and its span is valid |
| Parsing.Parser.Outcome | src/parser.ts:48-57 | the result of parsing all the tokens: a well-formed rule, or exactly one error |
| Parsing.Parser.GroupFirst | src/parser.ts:614-622 | a group is absent, with no move, exactly where none of `atomic`, `:` and `(` stands |
| Parsing.Parser.KeywordAtomFirst | src/parser.ts:606-610 | a keyword atom is absent exactly where none of `range`, `regex`, an identifier, `.` and `recursion` stands |
| Parsing.Parser.LeafAtomFirst | src/parser.ts:600-611 | a leaf atom is absent exactly where none of its first tokens stands |
| Parsing.Parser.AtomFirst | src/parser.ts:598-612 | an atom is absent exactly where no group and no leaf atom can begin |
| Parsing.Parser.LookaroundOrAtomFirst | src/parser.ts:486 | a lookaround or atom is absent exactly where neither `>>`, `<<` nor an atom can begin |
| Parsing.Parser.FixFirst | src/parser.ts:477-492 | a fix is absent exactly where no `!`, lookaround or atom can begin; `!`s before nothing raise instead |
| Parsing.Parser.SequenceFirst | src/parser.ts:452-462 | a sequence is absent exactly where no fix can begin |
| Parsing.Parser.AndFirst | src/parser.ts:424-432 | an intersection is absent exactly where neither `&` nor a fix can begin; a `&` before nothing raises instead |
| Parsing.Parser.RepetitionFirst | src/parser.ts:528-541 | a repetition is absent exactly where no `+`, `*`, `?` or `{` stands |
| Parsing.Parser.RepetitionsEnd | src/parser.ts:498-504 | the repetition suffixes stop only where no operator follows |
| Parsing.Parser.FixEnd | src/parser.ts:477-507 | a fix is never followed directly by a repetition operator |
| Parsing.Parser.SequenceEnd | src/parser.ts:453-458 | the fixes of a sequence stop only where no fix can begin |
| Parsing.Parser.SequenceAtEnd | src/parser.ts:452-458 | a sequence stops only where no fix can begin |
| Parsing.Parser.IntersectionEnd | src/parser.ts:435-449 | an intersection stops only where neither `&` nor a fix follows |
| Parsing.Parser.AndEnd | src/parser.ts:424-450 | an intersection, or a lone sequence, stops only where neither `&` nor a fix follows |
| Parsing.Parser.AlternativesEnd | src/parser.ts:410-416 | the alternatives stop only where neither `|` nor an intersection follows |
| Parsing.Parser.OrEnd | src/parser.ts:397-422 | an alternation stops only where neither `|` nor an intersection follows |
| Parsing.Parser.LonePipeAt | src/parser.ts:403-413 | a `|` with no intersection after it is `LonePipe` at that `|`, leading or after an alternative |
| Parsing.Parser.StatementFirst | src/parser.ts:213-214 | a statement is absent exactly where none of `enable`, `disable`, `let` and `test` stands; where one stands, a statement is read or an error raised |
| Parsing.Parser.StatementsEnd | src/parser.ts:212-228 | the statements stop only where no statement keyword follows |
| Parsing.Parser.ModifiedEnd | src/parser.ts:207-231 | an expression stops only where neither `|` nor an intersection follows |
| Parsing.Parser.LeftoverAt | src/parser.ts:48-54 | tokens left over after the expression give `LeftoverTokens` at the first of them, and that token is neither `|` nor the start of an intersection |
| Parsing.Parser.ItemFirst | src/parser.ts:690-710 | a class member is absent exactly where none of `!`, a string, a code point and an identifier stands |
| Parsing.Parser.NegatedItem | src/parser.ts:693-707 | after `!` the error `NegationError` names is raised; otherwise the member is the named class that follows, and a member read is one negated named class |
| Parsing.Parser.ItemsEnd | src/parser.ts:690-710 | the members stop only where none can begin |
| Parsing.Parser.CharSetEnd | src/parser.ts:662-674 | a class ends with `]`, at the first token after `[` that cannot begin a member |
| Parsing.Parser.EmptyCharSetAt | src/parser.ts:675-679 | `[]` is `EmptyCharSet` spanning both brackets |
| Parsing.Parser.QuantifierChoice | src/parser.ts:543-552 | `greedy` and `lazy` give their quantifier whatever the flag; without either, the laziness flag chooses the default; the quantifier takes a token exactly when it is written |
| Parsing.Parser.RepetitionShape | src/parser.ts:528-566 | a repetition is its operator's bounds and the quantifier after them, spans from the operator to the quantifier, and is followed by no operator |
| Parsing.Parser.RepeatedOperator | src/parser.ts:554-562 | an operator right after a repetition and its quantifier is `MultipleRepetitions`, spanning that operator, up to its `}` for braces |
| Parsing.Parser.DoublePlus | src/parser.ts:554-562 | `x++` is `MultipleRepetitions` at the second `+` |
| Parsing.Parser.PlusLazy | src/parser.ts:530-565 | `x+ lazy` is the lazy repetition `{1,}` spanning `+ lazy`, whatever the laziness flag |
| Parsing.Parser.SeveralStringsNeedIn | src/parser.ts:314-336 | a `match` case with two strings or more succeeds only with `in`, as a case that matches them all |
| Parsing.Parser.MultipleStrings | src/parser.ts:331-334 | two strings or more without `in`, closed by `;`, are `MultipleStringsInTestCase` spanning the first string to the last |
| Parsing.Parser.SingleString | src/parser.ts:314-337 | a `match` case giving a single match holds the one string read, and no comma followed it |
| Parsing.Parser.LetShape | src/parser.ts:269-289 | a `let` binds the name after it to the alternation after `=` and spans from `let` to the closing `;` |
| Parsing.Parser.TestShape | src/parser.ts:291-309 | a `test` holds the cases read after `{` and spans from `test` to the closing `}` |
| Parsing.Parser.GroupShape | src/parser.ts:614-631 | a group holds the expression between its `(` and the closing `)`, has the kind its prefix gives, and spans from its first token to the `)` |
| Parsing.Parser.ParseModified | src/parser.ts:207-242 | gives exactly what `ModifiedAt` gives from where the call began: the same value with the cursor just after it, or the same exception; on success both flags are back to their values at the start |
| Parsing.Parser.ParseStatements | src/parser.ts:212-228 | gives exactly what `StatementsFrom` gives from where the call began: the same value with the cursor just after it, or the same exception from no statements; on success each flag has the value the statements leave (`FlagsAfter`) |
| Parsing.Parser.ParseStatement | src/parser.ts:213 | gives exactly what `StatementAt` gives from where the call began: the same value with the cursor just after it, or the same exception; the flags are kept on success |
| Parsing.Parser.ParseModeModifier | src/parser.ts:244-267 | gives exactly what `ModeModifierAt` gives from where the call began: the same value with the cursor just after it, or the same exception |
| Parsing.Parser.ParseLet | src/parser.ts:269-289 | gives exactly what `LetAt` gives from where the call began: the same value with the cursor just after it, or the same exception; the flags are kept on success |
| Parsing.Parser.ParseTest | src/parser.ts:291-309 | gives exactly what `TestAt` gives from where the call began: the same value with the cursor just after it, or the same exception |
| Parsing.Parser.ParseTestCases | src/parser.ts:311-348 | gives exactly what `TestCaseAt` gives from where the call began: the same value with the cursor just after it, or the same exception |
| Parsing.Parser.ParseMatchCase | src/parser.ts:312-338 | gives exactly what `MatchCaseAt` gives from where the call began: the same value with the cursor just after it, or the same exception |
| Parsing.Parser.ParseRejectCase | src/parser.ts:339-347 | gives exactly what `RejectCaseAt` gives from where the call began: the same value with the cursor just after it, or the same exception |
| Parsing.Parser.ParseTestMatch | src/parser.ts:350-381 | gives exactly what `TestMatchAt` gives from where the call began: the same value with the cursor just after it, or the same exception |
| Parsing.Parser.ParseTestCapture | src/parser.ts:383-395 | gives exactly what `TestCaptureAt` gives from where the call began: the same value with the cursor just after it, or the same exception |
| Parsing.Parser.ParseOr | src/parser.ts:397-422 | gives exactly what `OrAt` gives from where the call began: the same value with the cursor just after it, or the same exception; the flags are kept on success |
| Parsing.Parser.ParseAnd | src/parser.ts:424-450 | gives exactly what `AndAt` gives from where the call began: the same value with the cursor just after it, or the same exception; the flags are kept on success |
| Parsing.Parser.ParseSequence | src/parser.ts:452-475 | gives exactly what `SequenceAt` gives from where the call began: the same value with the cursor just after it, or the same exception; the flags are kept on success |
| Parsing.Parser.ParseFixes | src/parser.ts:477-507 | gives exactly what `FixesAt` gives from where the call began: the same value with the cursor just after it, or the same exception; the flags are kept on success |
| Parsing.Parser.ParseNots | src/parser.ts:478-483 | consumes exactly the `NotsAt` run of `!`s, giving their number and the span built over them |
| Parsing.Parser.ParseRepetitions | src/parser.ts:498-504 | gives exactly what `RepetitionsFrom` gives from where the call began: the same value with the cursor just after it, or the same exception |
| Parsing.Parser.ParseLookaroundOrAtom | src/parser.ts:486 | gives exactly what `LookaroundOrAtomAt` gives from where the call began: the same value with the cursor just after it, or the same exception; the flags are kept on success |
| Parsing.Parser.ParseLookaround | src/parser.ts:509-526 | gives exactly what `LookaroundAt` gives from where the call began: the same value with the cursor just after it, or the same exception; the flags are kept on success |
| Parsing.Parser.ParseRepetition | src/parser.ts:528-566 | gives exactly what `RepetitionAt` gives from where the call began: the same value with the cursor just after it, or the same exception |
| Parsing.Parser.ParseRepetitionOperator | src/parser.ts:531-541 | gives exactly what `OperatorAt` gives from where the call began: the same value with the cursor just after it, or the same exception |
| Parsing.Parser.ParseQuantifier | src/parser.ts:543-552 | gives the quantifier `QuantifierAt` gives and moves the cursor past it |
| Parsing.Parser.ParseRepetitionBraces | src/parser.ts:568-596 | no `{` next gives nothing and no move; otherwise the result and the error are those of `BracesAt` |
| Parsing.Parser.ParseAtom | src/parser.ts:598-612 | gives exactly what `AtomAt` gives from where the call began: the same value with the cursor just after it, or the same exception; the flags are kept on success |
| Parsing.Parser.ParseLeafAtom | src/parser.ts:600-611 | gives exactly what `LeafAtomAt` gives from where the call began: the same value with the cursor just after it, or the same exception |
| Parsing.Parser.ParseKeywordAtom | src/parser.ts:606-610 | gives exactly what `KeywordAtomAt` gives from where the call began: the same value with the cursor just after it, or the same exception |
| Parsing.Parser.ParseGroup | src/parser.ts:614-631 | gives exactly what `GroupAt` gives from where the call began: the same value with the cursor just after it, or the same exception; the flags are kept on success |
| Parsing.Parser.ParseGroupBody | src/parser.ts:619-630 | gives exactly what `GroupBodyAt` gives from where the call began: the same value with the cursor just after it, or the same exception; the flags are kept on success |
| Parsing.Parser.ParseGroupKind | src/parser.ts:633-652 | gives exactly what `GroupKindAt` gives from where the call began: the same value with the cursor just after it, or the same exception |
| Parsing.Parser.ParseLiteral | src/parser.ts:654-660 | a literal exactly when the next token is a string: its decoded text and its span |
| Parsing.Parser.ParseCharSet | src/parser.ts:662-688 | gives exactly what `CharSetAt` gives from where the call began: the same value with the cursor just after it, or the same exception |
| Parsing.Parser.ParseCharSetInner | src/parser.ts:690-710 | gives exactly what `ItemsFrom` gives from where the call began: the same value with the cursor just after it, or the same exception from no members |
| Parsing.Parser.ParseCharSetItem | src/parser.ts:693-707 | gives exactly what `ItemAt` gives from where the call began: the same value with the cursor just after it, or the same exception |
| Parsing.Parser.ParseCharGroupCharsOrRange | src/parser.ts:712-736 | exactly what `CharsOrRangeAt` gives: a string's characters one code point each, a code point or shorthand as itself, or `a-b` as one range whose ends must each be one character, in ascending order (`NotAscendingCharRange`), with `Expected` "code point or character" when the second end is missing |
| Parsing.Parser.ParseStringOrChar | src/parser.ts:738-747 | exactly what `StringOrCharAt` gives: a string token's raw text, a code point that must be a scalar value (`InvalidCodePoint` otherwise), or a shorthand's code point; anything else gives nothing and no move |
| Parsing.Parser.ParseSpecialChar | src/parser.ts:749-758 | consumes exactly when the next token is an identifier naming a shorthand, and gives its code point |
| Parsing.Parser.ParseCharGroupIdent | src/parser.ts:761-772 | gives exactly what `CharGroupIdentAt` gives from where the call began: the same value with the cursor just after it, or the same exception |
| Parsing.Parser.ParseBoundary | src/parser.ts:774-791 | `^`, `$`, `%`, `<` and `>` give the start, end, word, word-start and word-end boundaries spanning the token; any other token gives nothing and no move |
| Parsing.Parser.ParseReference | src/parser.ts:793-820 | no `::` next gives nothing; otherwise the target `ReferenceTargetAt` gives: `+n` and `-n` relative, a number up to 65535 absolute (a larger one is `NumberTooLarge`), an identifier a name, and otherwise `Expected` "number or group name"; the reference spans from `::` to the last token consumed |
| Parsing.Parser.ParseCodePointRule | src/parser.ts:822-832 | a class of exactly the token's code point, Unicode-aware exactly when the flag is on; a surrogate or a value above U+10FFFF is `InvalidCodePoint` |
| Parsing.Parser.ParseCodePoint | src/parser.ts:834-845 | the hex value of the token; a surrogate or a value above U+10FFFF is `InvalidCodePoint` at the token, after consuming it |
| Parsing.Parser.ParseRange | src/parser.ts:847-873 | no `range` next gives nothing; otherwise what `RangeAt` gives: a string, `-` and a string are required in turn, the ends are the strings without their quotes, the radix is that of `RangeRadixAt` (10 without `base`, a `base` number checked by `RangeRadix`), and the span runs from `range` to the last token consumed |
| Parsing.Parser.ParseRangeBase | src/parser.ts:856-862 | exactly what `RangeRadixAt` gives: 10 with no move without `base`, and otherwise the finite number after it, accepted when it lies in 2..36 |
| Parsing.Parser.ParseRegex | src/parser.ts:875-885 | no `regex` next gives nothing; a string after it gives a regex of the decoded string spanning both tokens; otherwise the failure of expecting a string |
| Parsing.Parser.ParseVariable | src/parser.ts:887-892 | a variable exactly when the next token is an identifier: its text and its span |
| Parsing.Parser.ParseDot | src/parser.ts:894-898 | `.` exactly when the next token is a dot, with its span |
| Parsing.Parser.ParseRecursion | src/parser.ts:900-904 | `recursion` exactly when the next token is that reserved word, with its span |
| Parsing.TokenError | src/parser.ts:35-42 | an unclosed-string token gives `UnclosedString` and an unknown token `UnknownToken`, each at the token's span; other tokens give no error |
| Parsing.LexErrors | src/parser.ts:33-43 | there are no errors exactly when no token is an error token, and never more errors than tokens |
| Parsing.LexErrorsAppend | src/parser.ts:34-43 | the errors of a list of tokens are those of its parts, in order |
| Parsing.LexErrorsInOrder | src/parser.ts:34-43 | each error token contributes its own error, placed right after the errors of the tokens before it |
| Parsing.Parse | src/parser.ts:30-58 | the parser holds the tokens of the source; when the scanned tokens hold lexer errors they alone are the outcome; otherwise the outcome is `Outcome()`, what `ModifiedAt` gives from the first token under the initial flags, with `LeftoverTokens` when tokens remain |

## Left out

- Unicode tables: `\p{Alpha}`, `\p{M}` and `\p{Nd}` are a parameter of the lexer, `UnicodeTables`. The model does not include Unicode's tables themselves.
- UTF-16: strings are sequences of Unicode scalar values. The lexer's per-UTF-16-unit view of a character outside the BMP is not modelled, and neither are lone surrogates. Likewise, the length check in `stringOrCharToString` that allows two units for such a character is not modelled.
- Floating point: number tokens are exact integers.
  - `NumberValue` is exact for digit-only texts.
  - `IsFiniteNumber` places the overflow to infinity at 2^1024 − 2^970, the least decimal value that rounds to an infinite double.
  - Rounding of large finite values is not modelled.
  - The sign of `-0` in `::-0` is not modelled: `ByRelative(0)` stands for it.
- Parsing.Parser.ParseSpecialChar: the shorthand table is consulted with `in`, which also sees inherited object keys. Every inherited key is lexed as a reserved name and never as an identifier, so the shorthand lookup never reaches one. The model therefore leaves inherited keys out of `SpecialChar`.
- Parsing.Parser.ParseTestMatch: `as {` opens a capture list that is never closed by an expected `}`. The model keeps this.
- Parsing.Parser.ParseModified: on an exception the flags are not restored, since the source does not restore them. The contract speaks of the flags only on success.
- Parsing.Parser.ParseLeafAtom: this is `parseAtom`'s chain after `parseGroup`, split into its own method. Its last five alternatives are split again into ParseKeywordAtom. These splits make no difference to behaviour.
- Parsing.Parser.ParseKeywordAtom: split out of `parseAtom`, as for ParseLeafAtom.
- Parsing.Parser.ParseStatement: the body of `parseModified`'s statement loop, given its own method; ParseStatements is that loop.
- Parsing.Parser.ParseLookaroundOrAtom: the `parseLookaround() ?? parseAtom()` step of `parseFixes`, given its own method.
- Parsing.Parser.ParseGroupBody: the part of `parseGroup` after the prefix, given its own method.
- Parsing.Parser.ParseMatchCase: the `match` branch of `parseTestCases`, given its own method; ParseRejectCase is the `reject` branch.
- Parsing.Parser.ParseCharSetItem: one round of `parseCharSetInner`'s loop, given its own method.
- Parsing.Parse: the tokens supplied by a caller are used only to collect lexer errors, as in the code.
- `getTokens` and `sourceAt` are folded into the cursor functions and have no rows of their own.
