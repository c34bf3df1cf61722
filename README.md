# Lexer: a verified model of a tokenisation engine

This project models the tokenisation engine of the Swift package `Lexer`. The engine has
four layers:

- **Cursor.** `Scanner<Element>` moves forward over an immutable array. Here it is the class
  `Scanning.Scanner`, a `seq` plus a `nat` index with `idx <= |elements|`.
- **Byte cursor that tracks position.** `ByteScanner` keeps a 1-based `(line, column)`
  pair. A newline pop starts the next line at column 1; any other pop moves one column on.
- **Generic lexer.** `Lexer<Token>` in `Sources/Lexer.swift` has:
  - a first-in first-out lookahead buffer of `(token, location)` pairs;
  - `lastLocation`;
  - an injected tokenizing strategy;
  - the consume helpers;
  - the skipper for whitespace, line comments and nested block comments;
  - a `pop()` that tracks position.
- **Byte tokenizer.** `Lexer<Token>` in `Sources/BetterLexer.swift` has the same buffering
  over `ByteScanner` and a fixed `next()` dispatch. The dispatch covers:
  - identifiers, keywords and `_`;
  - operators and `=`;
  - digit runs and string literals;
  - single-byte punctuation and `#` directives;
  - the invalid-token default.

Each Swift struct that the source changes in place is a Dafny `class`. Its methods carry
`modifies` clauses and are proved against pure specification functions:

- `Locations.Walk` says where a run of pops leaves the position.
- `Skipping.SkipEnd` and `Skipping.BlockEnd` say where the skipper stops. `Skipping.Trivia`
  says independently what it may pass: blanks, line comments and closed block comments.
- `Stream.Pull`, `Stream.Lookahead`, `Stream.Consume` and `Stream.Drain` say what the buffer
  and the cursor become.
- `BetterLexer.NextSpec` says what one call of the byte tokenizer's `next()` does.

The byte tokenizer keeps a ghost function `tokenize` of the cursor and `lastLocation`. Its
invariant `Tokenizes()` says that `tokenize` equals `NextSpec` on the input, so `Next`,
`Peek` and `Pop` are stated over `tokenize` and hence over `NextSpec`.

Properties that relate several calls are lemmas about those functions:

- lookahead is transparent to later consumes;
- the buffer is first-in first-out;
- nesting depth closes comments as expected;
- the tokenizer takes the maximal run (maximal munch) and classifies tokens as stated;
- worked inputs.

A call of `next()` is a `Stream.Step`. It is one of:

- `Produced(out, rest)`: a token, and the cursor left after it;
- `Exhausted(rest)`: nil;
- `Failed(error, rest)`: a thrown error, and the cursor at the throw;
- `Hangs`: a call that never returns.

Modules, in dependency order:

- `Wrappers`;
- `Locations`;
- `Scanning` (Scanner.swift);
- `ByteScanning` (ByteScanner.swift);
- `Skipping`, the skipper as functions, shared by both lexers;
- `Stream`, the lookahead buffer as functions of an abstract step;
- `Lexer` (Lexer.swift);
- `BetterLexer` (BetterLexer.swift), with `BetterLexerLaws` and `BetterLexerExamples`.

## Model

| member | source | states |
|---|---|---|
| Scanning.Scanner.constructor | Sources/Scanner.swift:11-16 | the cursor starts at index 0 over the given elements, with the index invariant established |
| Scanning.Scanner.Peek | Sources/Scanner.swift:20-23 | the result is the element n places ahead exactly when one exists, otherwise nil; nothing moves |
| Scanning.Scanner.Pop | Sources/Scanner.swift:25-31 | requires an element; returns the first remaining element and drops exactly that one |
| Scanning.Scanner.AttemptPop | Sources/Scanner.swift:33-39 | at the end it fails with `endOfStream` and leaves the cursor unchanged; otherwise it acts as `pop()` |
| Scanning.Scanner.PopN | Sources/Scanner.swift:41-44 | requires n elements; the remaining input loses exactly its first n elements |
| Scanning.Scanner.HasPrefix | Sources/Scanner.swift:51-59 | true iff every `p[i]` equals the element i places ahead; the cursor does not move |
| Scanning.PeeksSpellPrefix | Sources/Scanner.swift:51-59 | the `hasPrefix` condition holds iff `p` fits in the remaining input and is its prefix: true for empty `p`, false once the input runs out |
| Scanning.Scanner.Prefix | Sources/Scanner.swift:61-73 | the next `min(n, remaining)` elements, in order, without moving |
| Scanning.Scanner.IsEmpty | Sources/Scanner.swift:75-77 | true iff no element remains |
| ByteScanning.ByteScanner.constructor | Sources/ByteScanner.swift:17-20 | a fresh cursor at index 0 and position (1,1) |
| ByteScanning.ByteScanner.Peek | Sources/ByteScanner.swift:22-24 | forwards to the cursor: the byte n ahead, or nil past the end |
| ByteScanning.ByteScanner.Pop | Sources/ByteScanner.swift:26-38 | returns the next byte and moves on by one; a newline gives `(line+1, 1)`, any other byte gives `(line, column+1)` |
| ByteScanning.ByteScanner.PopN | Sources/ByteScanner.swift:40-45 | moves on by n; the position is the walk of the n popped bytes, so every newline in the run is counted |
| ByteScanning.ByteScanner.HasPrefix | Sources/ByteScanner.swift:50-58 | true iff every byte of `p` equals the byte that many places ahead; nothing moves |
| ByteScanning.ByteScanner.Prefix | Sources/ByteScanner.swift:60-73 | up to n upcoming bytes, one per byte, without moving |
| Locations.Advance | Sources/ByteScanner.swift:30-35 | one pop moves the position strictly forward in reading order; the line changes exactly on a newline, which restarts the column at 1, and any other element moves one column right |
| Locations.Walk | Sources/ByteScanner.swift:27-45 | popping a non-empty run moves the position strictly forward, and the column stays 1-based |
| ByteScanning.LocationAt | Sources/ByteScanner.swift:17-45 | the coordinate of byte k, reached by popping every earlier byte from (1,1); line and column are 1-based |
| ByteScanning.LocationMonotone | Sources/ByteScanner.swift:27-38 | a later byte has a strictly later coordinate, so no two bytes share one |
| Locations.WalkAppend | Sources/ByteScanner.swift:40-45 | walking `a + b` is walking `a` and then `b`, so `pop(n)` equals n single pops |
| Locations.WalkLines | Sources/ByteScanner.swift:27-38 | after a run of pops the line equals the start line plus the number of newlines popped, so it never decreases |
| Locations.WalkWithinLine | Sources/ByteScanner.swift:27-38 | within a line the column grows by one per byte, and the line stays the same |
| Locations.WalkAfterNewline | Sources/ByteScanner.swift:27-38 | after the last newline of a run the position is the next line, at column one plus the bytes after that newline |
| Skipping.RunEnd | Sources/Lexer.swift:67-105 | the maximal run from i whose elements all pass the test; the element after it is absent or fails the test |
| Skipping.LineEnd | Sources/Lexer.swift:152-156 | the index of the first newline from i, or the end, with no newline before it |
| Skipping.BlockEnd | Sources/Lexer.swift:135-149 | a closed comment ends just past a star-slash pair, inside the input |
| Skipping.BlockStep | Sources/Lexer.swift:142-147 | one iteration of the depth counter never drives the depth below zero; when the new depth is 0 the comment closes just past the star-slash pair, otherwise it goes on from the next element at the new depth |
| Skipping.BlockDeeper | Sources/Lexer.swift:135-148 | one more level of nesting needs one more close: an unclosed comment stays unclosed, and a closed one needs a further close after its end |
| Skipping.BlockEndLocal | Sources/Lexer.swift:135-149 | where a comment closes does not depend on input after the close |
| Skipping.SkipEnd | Sources/Lexer.swift:110-128 | where skipping stops lies within the input, at the end or on an element that is neither whitespace nor a slash; `Skipping.SkipEndTrivia` relates it to the independent definition `Trivia` of what may be passed |
| Skipping.PieceSkips | Sources/Lexer.swift:110-128 | passing one blank, one line comment or one closed block comment does not change where skipping stops |
| Skipping.TriviaSkips | Sources/Lexer.swift:110-128 | passing any succession of such pieces does not change where skipping stops |
| Skipping.SkipEndTrivia | Sources/Lexer.swift:110-156 | skipping from i stops at j exactly when `s[i..j]` is a succession of blanks, line comments up to their newline and closed block comments, and j is the end or holds neither a blank nor a slash; so skipping passes nothing else and stops at the first token |
| Skipping.SkipIdempotent | Sources/Lexer.swift:110-128 | skipping again from where skipping stopped stops at the same place |
| Stream.Pull | Sources/Lexer.swift:30-38 | at most m calls of `next()`; the run is complete iff it produced exactly m entries |
| Stream.PullSnoc | Sources/Lexer.swift:33-36 | m + 1 calls are m calls and then one call at the cursor they leave |
| Stream.PullStable | Sources/Lexer.swift:33-36 | once `next()` returns nil, throws or hangs, asking for more calls changes nothing |
| Stream.Lookahead | Sources/Lexer.swift:30-38 | a buffered entry is returned unchanged; otherwise the old buffer is a prefix of the new one, which holds at most n+1 entries; the result is found iff the buffer reaches n+1 entries, and is then its last |
| Stream.LookaheadLoopStep | Sources/Lexer.swift:33-36 | one loop iteration of `lookahead`: the call returns, and it either appends its token or decides the result (nil or the thrown error) |
| Stream.LookaheadLoopDone | Sources/Lexer.swift:33-37 | when the loop runs to completion the result is the last entry, `buffer[n]` |
| Stream.Consume | Sources/Lexer.swift:41-51 | with a non-empty buffer: returns the front and keeps the rest in order, without calling `next()`; with an empty buffer: returns what one `next()` call returns (a token or its error) and moves the cursor where that call leaves it |
| Stream.Drain | Sources/Lexer.swift:41-51 | k `consume()` calls deliver at most k entries |
| Stream.DrainBuffered | Sources/Lexer.swift:46-49 | the first k `consume()` calls deliver the first k buffered entries, in order |
| Stream.PullThenDrain | Sources/Lexer.swift:30-51 | if `next()` keeps returning nil once it has, then consuming what a run of `next()` calls buffered (a run that did not throw or hang), and then going on, delivers the same as consuming directly |
| Stream.BufferedThenPulled | Sources/Lexer.swift:30-51 | the same, under the same two conditions, with entries already buffered in front |
| Stream.LookaheadTransparent | Sources/Lexer.swift:26-51 | if `next` depends only on the cursor and keeps returning nil once it has, and the lookahead does not throw, then `lookahead(n)` followed by k `consume()` calls delivers exactly what k `consume()` calls deliver alone |
| Stream.ThrowingLookaheadNotTransparent | Sources/Lexer.swift:33-49 | the no-throw condition is needed: when `next()` moves past a bad token and throws, a lookahead throws and leaves the cursor after it, so a later `consume()` delivers the next token, whereas `consume()` alone throws |
| Stream.LookaheadIdempotent | Sources/Lexer.swift:30-38 | repeating a lookahead that found an entry returns the same entry and changes nothing |
| Lexer.Lexer.constructor | Sources/Lexer.swift:16-24 | the cursor is at 0, position (1,1), `lastLocation` equals the position, the buffer is empty, and the strategy is the one given |
| Lexer.Lexer.Next | Sources/Lexer.swift:26-28 | returns what the strategy yields at the cursor and moves the cursor where the strategy leaves it |
| Lexer.Lexer.Lookahead | Sources/Lexer.swift:30-38 | the result, buffer and cursor are those of `Stream.Lookahead`; position and `lastLocation` do not change |
| Lexer.Lexer.Consume | Sources/Lexer.swift:40-51 | the result, buffer and cursor are those of `Stream.Consume`: the buffer front, or a fresh `next()` result when the buffer is empty; `lastLocation` becomes the returned token's location |
| Lexer.Lexer.ConsumeCount | Sources/Lexer.swift:53-65 | pops exactly n elements and returns them |
| Lexer.Lexer.ConsumeRun | Sources/Lexer.swift:67-105 | the loop shared by the `consume` helpers: pops the maximal run from the cursor whose elements satisfy the test and returns it; position does not move |
| Lexer.Lexer.ConsumeWith | Sources/Lexer.swift:67-79 | returns the maximal run of elements from the set; the next element is absent or outside it; position does not move |
| Lexer.Lexer.ConsumeWhile | Sources/Lexer.swift:81-92 | returns the maximal run that satisfies the predicate; the next element is absent or fails it |
| Lexer.Lexer.ConsumeUpTo | Sources/Lexer.swift:94-105 | stops before the first `target`, or at the end; the text does not contain `target` |
| Lexer.Lexer.SkipWhitespace | Sources/Lexer.swift:110-128 | the cursor ends where `SkipEnd` stops; an unclosed block comment throws "Unmatched block comment" with `lastLocation`, after the input is used up; position does not move |
| Lexer.Lexer.SkipBlockComment | Sources/Lexer.swift:130-150 | from slash-star, with the depth counter at 1 and one pop per step, the cursor ends where `BlockEnd` closes; if the input ends first, it throws "Unmatched block comment" with `lastLocation` |
| Lexer.Lexer.StepDepth | Sources/Lexer.swift:142-143 | the new depth is one less exactly when a star-slash pair is at the cursor, one more when a slash-star pair is there instead, and unchanged otherwise; nothing moves |
| Lexer.Lexer.SkipLineComment | Sources/Lexer.swift:152-156 | from two slashes, the cursor stops on the next newline (not consumed) or at the end |
| Lexer.Lexer.LookaheadChar | Sources/Lexer.swift:159-161 | the element n ahead of the cursor, or nil past the end |
| Lexer.Lexer.Pop | Sources/Lexer.swift:163-175 | pops one element and applies the newline/column rule to `position`; the buffer and `lastLocation` do not change |
| BetterLexer.NextSpec | Sources/BetterLexer.swift:39-120 | one call of `next()` never moves the cursor backwards and never leaves the input |
| BetterLexer.Dispatch | Sources/BetterLexer.swift:46-119 | the case switch on the first byte of a token: it always returns a token or an error, never nil; a token consumes at least one byte; both carry the coordinate of that byte; the cursor stays within the input |
| BetterLexer.Lexer.constructor | Sources/BetterLexer.swift:9-13 | the byte cursor is fresh, and `lastLocation` equals its position (1,1) |
| BetterLexer.Lexer.Peek | Sources/BetterLexer.swift:15-23 | the result, buffer and cursor are those of `Stream.Lookahead` over `NextSpec`: a buffered entry is returned unchanged, otherwise `next()` results are appended until n+1 entries or nil; `lastLocation` does not change |
| BetterLexer.Lexer.Pop | Sources/BetterLexer.swift:25-37 | the result, buffer and cursor are those of `Stream.Consume`; `lastLocation` becomes the returned token's location |
| BetterLexer.Lexer.Next | Sources/BetterLexer.swift:39-44 | skips whitespace and comments, then yields exactly what `NextSpec` gives at the old cursor and `lastLocation`, and leaves the cursor at its `rest` |
| BetterLexer.Lexer.SkipWhitespace | Sources/BetterLexer.swift:40 | the cursor ends where `SkipEnd` stops, popping through the byte cursor; an unclosed block comment throws the unmatched-comment error with `lastLocation`, after the input is used up |
| BetterLexer.Lexer.NextToken | Sources/BetterLexer.swift:46-119 | the dispatch on the first byte after skipping: its result and the cursor it leaves are those of `Dispatch` |
| BetterLexer.Lexer.ConsumeWhile | Sources/BetterLexer.swift:147-155 | returns the maximal run of bytes that satisfy the predicate, popped through the byte cursor that tracks position |
| BetterLexer.Lexer.ConsumeWith | Sources/BetterLexer.swift:122-145 | returns the maximal run of bytes from the set; the next byte is absent or outside it |
| BetterLexer.Lexer.ConsumeUpTo | Sources/BetterLexer.swift:157-166 | stops before the first `target`, or at the end; the text does not contain it |
| BetterLexerLaws.TokenStartByte | Sources/Lexer.swift:110-128 | skipping passes only whitespace and comments and stops on a byte that is neither whitespace nor a slash, at or after the cursor |
| BetterLexerLaws.NextLocation | Sources/BetterLexer.swift:40-44 | every token and dispatch error carries the position after skipping and before any byte of the token, i.e. the walk of all earlier bytes; a token consumes at least one byte |
| BetterLexerLaws.NextIdentifier | Sources/BetterLexer.swift:47-51 | an identifier-start byte takes the maximal run of identifier or digit bytes; a keyword-table hit gives `.keyword`, else `_` gives `.underscore`, else `.identifier(text)` |
| BetterLexerLaws.NextOperator | Sources/BetterLexer.swift:53-57 | an operator byte takes the maximal operator run; a keyword hit gives `.keyword`, else `=` gives `.equals`, else `.operator(text)` |
| BetterLexerLaws.NextInteger | Sources/BetterLexer.swift:59-62 | a digit takes the maximal digit run, kept verbatim as `.integer` |
| BetterLexerLaws.NextString | Sources/BetterLexer.swift:64-69 | a quote takes the text up to the next quote, without either quote, and consumes both; with no closing quote it throws `unterminatedString` at the opening quote, at the end of the input |
| BetterLexerLaws.NextPunctuation | Sources/BetterLexer.swift:71-105 | each of `( ) [ ] { } : , .` consumes exactly one byte and yields its own punctuation token |
| BetterLexerLaws.NameEnd | Sources/BetterLexer.swift:107-109 | the maximal run of non-whitespace bytes after the `#` |
| BetterLexerLaws.NextDirective | Sources/BetterLexer.swift:107-113 | `#` and its non-whitespace run, looked up in the directive table: a hit is `.directive`, a miss throws `unknownDirective`; either way the run is consumed |
| BetterLexerLaws.NextInvalid | Sources/BetterLexer.swift:116-119 | any other byte throws `invalidToken` with the whitespace run at the cursor, which is empty there, and the cursor does not move |
| BetterLexerLaws.NextExhausted | Sources/BetterLexer.swift:40-42 | `next()` returns nil exactly when everything from the cursor is a succession of whitespace, line comments and closed block comments; the cursor is then at the end |
| BetterLexerLaws.NextUnmatched | Sources/Lexer.swift:138-140 | an unclosed block comment throws the unmatched-comment error with `lastLocation`, at the end of the input |
| BetterLexerExamples.LinesAndColumns | Sources/ByteScanner.swift:27-38 | on the input `ab`, newline, `cd`: `ab` is at (1,1), `cd` is at (2,1), and then nil |
| BetterLexerExamples.KeywordThenIdentifier | Sources/BetterLexer.swift:47-51 | `if x` gives the keyword `if` at (1,1), then the identifier `x` at (1,4) |
| BetterLexerExamples.StringLiterals | Sources/BetterLexer.swift:64-69 | a quoted `abc` is the string `abc`; `abc` without its closing quote throws `unterminatedString` at (1,1) |
| BetterLexerExamples.KnownDirective | Sources/BetterLexer.swift:107-113 | `#define` is the `define` directive at (1,1), and all seven bytes are consumed |
| BetterLexerExamples.UnknownDirectiveFails | Sources/BetterLexer.swift:107-113 | `#bogus` throws `unknownDirective` at (1,1), after its six bytes are consumed |
| BetterLexerExamples.InnerCommentCloses | Sources/Lexer.swift:142-148 | inside a nested comment, at depth 2, the first closer lowers the depth to 1 and the second closes the comment |
| BetterLexerExamples.NestedCommentCloses | Sources/Lexer.swift:135-148 | the inner opener raises the depth to 2, so the outer comment closes only at the second closer |
| BetterLexerExamples.NestedCommentSkipped | Sources/Lexer.swift:110-128 | the skipper passes the whole nested comment and the blank after it, stopping on `x` |
| BetterLexerExamples.NestedCommentColumn | Sources/ByteScanner.swift:27-38 | after 18 bytes with no newline, the position is (1,19) |
| BetterLexerExamples.NestedComment | Sources/Lexer.swift:130-150 | a block comment with a nested block comment inside, then ` x`, gives only `x`, at (1,19) |
| BetterLexerExamples.UnterminatedComment | Sources/Lexer.swift:138-140 | an opened comment that never closes throws the unmatched-comment error at `lastLocation`, here (1,1) |
| BetterLexerExamples.OverlapCloses | Sources/Lexer.swift:142-145 | because the loop pops one element per step, a star that ends an inner opener also starts a closer, so the comment closes at the end of the input shown |

## Left out

- **Pointers and text conversion.** The unsafe-pointer representation, `endAddress`, the
  `_Swift3Pls` cast and the Unicode-scalar and UTF-8 conversions of Swift `String` values
  are not modelled. The cursor is an index into a `seq`. Text is the `seq` of the elements
  themselves, and string-literal arguments are byte or character sequences.
- **Shared skipper.** `skipWhitespace` over `ByteScanner` is called in
  Sources/BetterLexer.swift but defined in none of the files. It is modelled on the skipper
  of Sources/Lexer.swift, applied to bytes. Its pops go through the byte cursor, so they move
  the position.
- **Error helper.** `error(...)` of Sources/BetterLexer.swift is not defined in the files.
  Its errors carry the location taken at the start of the token. The vocabulary is a
  parameter: `Token.Keyword`, `Token.Directive`, `opChars`, `identChars` and `digits`.
- `Lexer.Lexer.Next`: the injected strategy of Sources/Lexer.swift receives the whole lexer
  `inout`. It is modelled as a pure function of the input and the cursor. That function may
  only move the cursor, and only forwards. It cannot touch `position`, `lastLocation` or
  the buffer.
- `Lexer.Lexer.SkipWhitespace`: a slash followed by neither a star nor a slash makes the
  source recurse without progress. The model takes as a precondition that this case is not
  reached. The same precondition is on `BetterLexer.Lexer.Next`, and `NextSpec` reports
  this case as `Hangs`.
- **Force-unwrap and asserts.** The force-unwrap of `next()` in `consume()`/`pop()`, and the
  asserts in `pop()`, `pop(_:)`, `skipBlockComment` and `skipLineComment`, are
  preconditions here, not traps.
- **Counts are natural numbers.** The source takes its counts as Swift `Int`. The model
  takes them as `nat` in `Scanning.Scanner.Peek`, `Scanning.Scanner.PopN`,
  `ByteScanning.ByteScanner.Peek`, `ByteScanning.ByteScanner.PopN`,
  `Lexer.Lexer.ConsumeCount` and `Lexer.Lexer.LookaheadChar`. So it does not capture what a
  negative count does: `peek(aheadBy:)` and `pop(_:)` of Sources/Scanner.swift read behind
  the cursor or move it backwards, and the byte cursor's `pop(_:)` and the lexer's
  `consume(_:)` trap on the range `0..<n`. No call site passes a negative count.
- **Cursor at a throw.** A Swift `throw` does not roll the cursor back. The model's
  `Failed(error, rest)` records where the cursor stands at the throw.
- `Stream.LookaheadTransparent`: proved for the generic lexer's step, which is a function
  of the cursor alone. The byte tokenizer's step also reads `lastLocation`, which `pop()`
  changes, for the location of an unmatched-comment error. Transparency is therefore not
  proved for `BetterLexer.Lexer.Peek`/`Pop`.
- **Not modelled.**
  - Sources/main.swift is a demonstration driver with `print`; only its character sets
    appear, as the example vocabulary.
  - Sources/Helpers.swift and the `ExpressibleByStringLiteral` extension are literal-syntax
    support with no behaviour.
  - `ScannerError` of Sources/Scanner.swift is never constructed by the source (its position is never set); the checked pop throws only the reason, `Scanning.Reason`.

Three behaviours of the code that the model keeps as written:

- The block-comment loop pops one element per step, so a star can both finish an opener and
  start a closer (`BetterLexerExamples.OverlapCloses`).
- The unmatched-comment error carries `lastLocation`, not the location of the opener.
- The invalid-token default consumes the whitespace run at the cursor. That run is empty, so
  the suspect text is empty and the cursor stays on the offending byte
  (`BetterLexerLaws.NextInvalid`).
