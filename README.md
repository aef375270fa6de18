# csub lexical front end, in Dafny

A model of the lexical front end of the `csub` compiler, a compiler for a small subset of C, with proofs about it. It covers three pieces.

- **Positions and source files** (`source_map.dfy`, module `SourceMap`).
  - `BytePos` byte offsets with their addition and subtraction.
  - `Span`, `DUMMY_SPAN` and `Loc`.
  - `SourceFile`: text stored as bytes, and a line table built by one pass over them.
  - Span slicing, and translation of a byte position into a line index and a 1-based line with a byte column.
- **Diagnostics** (`errors.dfy`, module `Errors`).
  - The one diagnostic kind, `UnknownCharacter`.
  - The `DiagBag` class, whose `push` and `extend` append in place.
- **The character cursor and the scanner** (`scanner.dfy`, module `Scanner`; properties in `scanner_lemmas.dfy`, module `ScannerProperties`).
  - `CharBumper`, a cursor with one character of lookahead. It keeps the UTF-8 byte offset of the next character.
  - `CSubScanner::scan_next_word`, which turns characters into words.
    - Punctuation and operators, with maximal munch for `<=`, `>=`, `==` and `!=`.
    - Identifiers: maximal runs of ASCII letters and digits.
    - Whitespace and non-nesting `/* */` comments, which are skipped.
    - An end-of-input word carrying the dummy span.

The scanner is written twice over.

- What it computes is given by two pure functions of the characters not yet consumed:
  - `Analyse`, one call of `analyse_category_and_bump_chars`;
  - `NextWord`, one call of `scan_next_word`, at a given byte position.
- The classes `CharBumper` and `CSubScanner` hold the imperative code: a stream field that the methods reassign, loops, and `bump_if` guards that consume.
- Each method is proved against those functions.
- `CharBumper.Valid()` is the cursor's invariant, kept by every method: the position is the UTF-8 length of the consumed prefix of the input.
- The properties the tests pin down are lemmas about `NextWord`:
  - the word table, including the crosswise bracket names (`[` is `OpenCurly`, `{` is `OpenBracket`);
  - maximal munch and maximal identifier runs;
  - skipped text;
  - comments do not nest, and an unterminated comment fails;
  - the shape of every outcome: the span is non-empty and ends where the remaining characters begin, measured in bytes.

Where the Rust code reaches `todo!()` and panics, the model returns an explicit failure value `Err(Panic)`. The two cases are:

- `NotTested(c)`: a character no arm accepts. This covers digits and a `!` not followed by `=`.
- `UnterminatedBlockComment`: end of input inside a comment.

Text is taken as already-decoded Unicode scalar values (`seq<char>`). `Utf8Len` gives each scalar's UTF-8 length from its code-point range. Source files are byte sequences, with newline being 10.

The Rust code declares the `Kw` and `Number` categories but never produces them. It has no keyword table and no number scanning. It has no diagnostic kind besides `UnknownCharacter`, and no handler for diagnostics. Digits reach the final `todo!()`.

## Model

| member | source | states |
|---|---|---|
| Errors.DiagBag.constructor | src/errors.rs:18-20 | A new bag holds no diagnostics. |
| Errors.DiagBag.Push | src/errors.rs:22-24 | The diagnostic goes to the end. The bag grows by one and the earlier diagnostics are unchanged and in order. |
| Errors.DiagBag.Extend | src/errors.rs:26-28 | The bag becomes its old diagnostics followed by the other bag's, in order. Extending with an empty bag changes nothing. |
| SourceMap.BytePos.ToUsize | src/source_map.rs:36-38 | `to_usize` returns the offset the position wraps: rewrapping it gives back the position. |
| SourceMap.BytePos.Add | src/source_map.rs:41-47 | The sum of two positions lies at or beyond both. |
| SourceMap.BytePos.Sub | src/source_map.rs:49-55 | Defined only when the subtrahend is no larger, as Rust's `usize` subtraction demands. The difference plus the subtrahend gives back the minuend. |
| SourceMap.AddSubInverse | src/source_map.rs:41-55 | Subtracting either summand from a sum gives the other: `(a + b) - b == a` and `(a + b) - a == b`. |
| SourceMap.FromUsize | src/source_map.rs:31-39 | `from_usize` followed by `to_usize` gives back the number. |
| SourceMap.PosRoundTrip | src/source_map.rs:31-39 | `to_usize` followed by `from_usize` gives back the position. |
| SourceMap.DummySpanIsEmptyAtZero | src/source_map.rs:25-29 | `DUMMY_SPAN` starts and ends at byte 0. |
| SourceMap.NewlineEnds | src/source_map.rs:86-90 | The entries the loop pushes for the first `k` bytes. Each lies in `1..k` and follows a newline byte, and they strictly increase. |
| SourceMap.LineTable | src/source_map.rs:83-99 | The table `new` stores has at least two entries. It starts at 0, ends at the text's length, and no entry exceeds that length. |
| SourceMap.NewlineEndsComplete | src/source_map.rs:86-90 | Every newline among the first `k` bytes has its successor position in the table. |
| SourceMap.NewlineEndsCount | src/source_map.rs:86-90 | Exactly one entry is pushed per newline byte. |
| SourceMap.NewlineEndsPrefix | src/source_map.rs:86-90 | The entries pushed for a shorter prefix are a prefix of those for a longer one. The later entries all lie beyond the shorter prefix. |
| SourceMap.LineTableSorted | src/source_map.rs:84-92 | Line-table entries never decrease. |
| SourceMap.InnerEntriesFollowNewlines | src/source_map.rs:86-90 | Every line-table entry between the first and the sentinel is the position just after a newline byte. |
| SourceMap.LineTableShape | src/source_map.rs:83-99 | The line table has two more entries than the text has newlines. It starts at 0, ends at the length, and is sorted and bounded by the length. Its inner entries are exactly the positions after each newline. |
| SourceMap.LineStart | src/source_map.rs:121-128 | Reference definition of the start of a position's line: the largest position at or before it that is 0 or follows a newline, with no newline in between. |
| SourceMap.LastNewlineEndIsLineStart | src/source_map.rs:121-128 | The last table entry pushed before a position is the start of that position's line, as `LineStart` defines it. |
| SourceMap.FirstAbove | src/source_map.rs:109-116 | Reference definition of the loop's exit: the first index whose entry lies beyond the position, with every entry before it at or below the position. |
| SourceMap.SourceFile.constructor | src/source_map.rs:83-99 | The `for` loop over the bytes builds exactly `LineTable(src)`, and the text is stored unchanged. |
| SourceMap.SourceFile.SpanToSnippet | src/source_map.rs:102-104 | For a span inside the text, the snippet is exactly the covered bytes: its length is the span's length and byte `k` is `src[start + k]`. |
| SourceMap.SourceFile.LineIndex | src/source_map.rs:107-117 | There is no line exactly when the position is at or beyond the text's length, the final sentinel. Otherwise the index `i` satisfies `lines[k] <= pos` for every `k <= i`, and `pos < lines[i + 1]`. |
| SourceMap.SourceFile.LookupLineIndex | src/source_map.rs:107-117 | The linear search with early return computes `LineIndex`. The `i - 1` never underflows. |
| SourceMap.SourceFile.LookupSourceLocation | src/source_map.rs:121-128 | None exactly when `lookup_line_index` finds no line. Otherwise the line is that index plus 1, so at least 1, and the line's start plus the column is the position. |
| SourceMap.SnippetsConcatenate | src/source_map.rs:102-104 | The snippets of adjacent spans concatenate to the snippet of the joined span. |
| SourceMap.LineIndexIs | src/source_map.rs:107-117 | The line index is determined by the table entries around the position. |
| SourceMap.LocationIsLineAndColumn | src/source_map.rs:121-128 | Inside the text, the line is one more than the number of newlines before the position. The column is the distance from the start of its line. |
| Scanner.EndOfInput | src/scanner.rs:52-57 | The end-of-input word has category `Eof` and the dummy span, empty at byte 0. `NextWordShape` proves it is produced only when nothing is left. |
| Scanner.Utf8Len | src/scanner.rs:84 | `len_utf8` is 1 to 4 bytes, and 1 exactly for ASCII. |
| Scanner.Utf8Prefix | src/scanner.rs:81-88 | The byte offset of the `n`th character lies between `n` and `4n`. |
| Scanner.Utf8Length | src/scanner.rs:81-88 | The UTF-8 length of a text, the offset `bump` reaches after consuming all of it: between one and four bytes per character. |
| Scanner.Utf8PrefixSplit | src/scanner.rs:81-88 | The byte offset after `n + m` characters is the offset after `n` plus the bytes of the `m` characters in between. |
| Scanner.Utf8LengthSplit | src/scanner.rs:81-88 | The bytes of a text are those before a character plus those from it on. |
| Scanner.Utf8PrefixAgree | src/scanner.rs:81-88 | A byte offset depends only on the characters before it. |
| Scanner.AsciiUtf8Prefix | src/scanner.rs:81-88 | ASCII text occupies one byte per character. |
| Scanner.CharBumper.constructor | src/scanner.rs:66-71 | A new cursor is at byte 0, with the whole input unconsumed. |
| Scanner.CharBumper.Peek | src/scanner.rs:73-75 | The next unconsumed character, or None exactly at the end. As a function it changes nothing, so repeated peeks agree. |
| Scanner.CharBumper.PeekIs | src/scanner.rs:77-79 | Holds exactly when the next character is `ch`. |
| Scanner.CharBumper.Bump | src/scanner.rs:81-88 | Returns and consumes the next character, advancing the position by its UTF-8 length. At the end it returns None and nothing changes. It keeps the invariant that the position is the UTF-8 length of the consumed prefix. |
| Scanner.CharBumper.BumpIf | src/scanner.rs:90-97 | Consumes one character and returns true exactly when the next character is `ch`. Otherwise the stream and position are unchanged. |
| Scanner.IdentRunLength | src/scanner.rs:203-207 | What `bump_ident` consumes is at most the whole stream. |
| Scanner.IdentRunIsMaximal | src/scanner.rs:203-207 | That run consists of ASCII letters and digits, and the character after it, if any, is neither. |
| Scanner.CommentEndFrom | src/scanner.rs:190-201 | The comment loop, when it stops, stops past at least two more characters and inside the stream. |
| Scanner.CommentEnd | src/scanner.rs:190-201 | Where `skip_block_comment` stops, counted from the character after the opening slash-star: past at least the closing star-slash and within the stream. `SkipBlockComment`'s contract is stated with it. |
| Scanner.CommentEndIsFirstClose | src/scanner.rs:190-201 | It stops just after the first star-slash, with none earlier. When it never stops, there is no star-slash at all. |
| Scanner.LeadOf | src/scanner.rs:154-184 | The grouping of the match arms sends exactly the ASCII letters to identifier scanning, and exactly space, newline and tab to skipping. |
| Scanner.AnalyseLead | src/scanner.rs:153-188 | A word or skip decided after the first character consumes between 1 and all of the characters, and is never end of input. |
| Scanner.Analyse | src/scanner.rs:153-188 | One round reports end of input exactly on an empty stream. Any other successful round consumes at least one character and no more than the stream. |
| Scanner.LeadCategories | src/scanner.rs:155-177 | The categories the first character decides are never a keyword, a number or `Eof`. |
| Scanner.AnalyseFindsNoKeyword | src/scanner.rs:153-188 | A category found by one round is never a keyword, a number or `Eof`. |
| Scanner.SkipKeepsShape | src/scanner.rs:147 | Scanning past a skipped stretch keeps the outcome well shaped with respect to the earlier position. |
| Scanner.NextWord | src/scanner.rs:135-151 | One call of `scan_next_word` on the unconsumed characters at byte `pos`. After a skip it continues on the rest, at the byte offset past the skip. A found category becomes the word from `pos` to the byte after the consumed characters. It has no contract of its own; `NextWordShape` and the `ScannerProperties` lemmas state its properties. |
| Scanner.NextWordShape | src/scanner.rs:135-151 | Every outcome of `scan_next_word` is well shaped. The remaining characters are a suffix of the input. A word is never a keyword or a number. The end-of-input word has the dummy span and leaves nothing. Any other word has a non-empty span at or after the start, ending, in bytes, where the remaining characters begin. |
| Scanner.NextWordSkips | src/scanner.rs:147 | Unfolds the skip case of `NextWord`, a step of `RoundDecides`. After a skipped stretch, `scan_next_word` restarts after it, at the byte offset past it. |
| Scanner.NextWordSkipsTo | src/scanner.rs:147 | The same, stated for the stream and position the cursor is left at. |
| Scanner.NextWordFinds | src/scanner.rs:139-146 | Unfolds the found-category case of `NextWord`, a step of `RoundDecides`. A found category becomes the word spanning from the starting byte to the byte after the consumed characters. |
| Scanner.NextWordEnds | src/scanner.rs:148 | Unfolds the end-of-input case of `NextWord`, a step of `RoundDecides`. End of input happens only on an empty stream, and gives the end-of-input word. |
| Scanner.NextWordPanics | src/scanner.rs:184 | Unfolds the failure case of `NextWord`, a step of `RoundDecides`. A failed round is the outcome of `scan_next_word`. |
| Scanner.RoundDecides | src/scanner.rs:135-151 | One round of `scan_next_word` on the stream settles its outcome. A skip shrinks the stream and leaves the outcome to the rest. A category, end of input or failure decides it. |
| Scanner.RoundOutcome | src/scanner.rs:135-151 | The same round, seen from the cursor's whole input and character offsets. |
| Scanner.CSubScanner.WithChars | src/scanner.rs:113-117 | A new scanner's cursor is at byte 0 over the whole input. |
| Scanner.CSubScanner.ScanNextWord | src/scanner.rs:135-151 | Returns the word `NextWord` gives for the unconsumed stream at the current position, and leaves exactly its remaining characters; or returns its failure. The re-entry after a skip is a loop over a shrinking stream. A word other than `Eof` ends at the cursor's new position, so consecutive words have adjacent spans when nothing lies between them. |
| Scanner.CSubScanner.AnalyseCategoryAndBumpChars | src/scanner.rs:153-188 | The outcome is what `Analyse` says. The cursor has consumed exactly the characters it counts: none at end of input. |
| Scanner.CSubScanner.AnalyseLeadAndBumpChars | src/scanner.rs:154-187 | The arms after the first character do what `AnalyseLead` says, with the guards' `bump_if` consuming what they match. |
| Scanner.CSubScanner.SlashOrCommentAndBumpChars | src/scanner.rs:158-162 | After a `/`: a following star is consumed and the comment is skipped, giving a skip or the unterminated-comment failure. Otherwise the slash is a one-character word. In every case the cursor consumes exactly what `AnalyseLead` counts. |
| Scanner.CSubScanner.IdentAndBumpChars | src/scanner.rs:178-181 | After an ASCII letter: the identifier word, with the cursor past the maximal run of letters and digits. |
| Scanner.CSubScanner.SkipBlockComment | src/scanner.rs:190-201 | Terminates normally exactly when the comment ends. It then has consumed up to and including the first star-slash. |
| Scanner.CSubScanner.BumpIdent | src/scanner.rs:203-207 | Consumes exactly the maximal run of ASCII letters and digits. |
| ScannerProperties.PunctuationWord | src/scanner.rs:155-177 | Each of `+ - * ; , ( ) [ ] { }` is a one-byte word of its fixed category, whatever follows. The brackets are named crosswise. |
| ScannerProperties.TwoCharOperatorWord | src/scanner.rs:163-169 | `<=`, `>=`, `==` and `!=` are single two-byte words, leaving what follows. |
| ScannerProperties.OneCharPrefixWord | src/scanner.rs:158-168 | `<`, `>` and `=` not followed by `=`, and `/` not followed by `*`, are one-byte words. |
| ScannerProperties.LoneExclamaPanics | src/scanner.rs:169-184 | A `!` not followed by `=` reaches the final `todo!()`. |
| ScannerProperties.UnknownCharacterPanics | src/scanner.rs:184 | Any character that is not punctuation, one of `< > = / !`, an ASCII letter or whitespace reaches the final `todo!()`. |
| ScannerProperties.DigitsPanic | src/scanner.rs:184 | A digit reaches the final `todo!()`: there are no number literals. |
| ScannerProperties.IdentWord | src/scanner.rs:178-181 | An ASCII letter starts an `Ident` spanning the maximal run of ASCII letters and digits, one byte each. The character ending the run is left unconsumed. |
| ScannerProperties.HelloStopsAtNonIdentChar | src/scanner.rs:437-466 | `hello` followed by any character that is not an ASCII letter or digit gives `Ident` spanning bytes 0 to 5. |
| ScannerProperties.WhitespaceSkipped | src/scanner.rs:182 | A space, newline or tab produces no word. Scanning goes on one byte further. |
| ScannerProperties.CommentEndAfterBody | src/scanner.rs:190-201 | A comment whose text holds no star-slash ends just after the star-slash that follows its text. |
| ScannerProperties.BlockCommentAnalysed | src/scanner.rs:158-161 | A complete block comment is one skipped stretch up to and including its first star-slash. |
| ScannerProperties.BlockCommentBytes | src/scanner.rs:158-161 | A block comment occupies four bytes for its delimiters plus the UTF-8 length of its text. |
| ScannerProperties.BlockCommentSkipped | src/scanner.rs:158-161 | A complete block comment produces no word. Scanning goes on after its star-slash, at the byte offset past it. |
| ScannerProperties.CommentNeverEnds | src/scanner.rs:190-201 | Without a star-slash, the comment loop never stops normally. |
| ScannerProperties.UnterminatedCommentPanics | src/scanner.rs:197 | End of input inside a block comment is the comment loop's `todo!()`, not a word. |
| ScannerProperties.BlankInputIsEof | src/scanner.rs:469-479 | Input made only of spaces, newlines and tabs gives the end-of-input word with the dummy span. |
| ScannerProperties.WordStartsAtPosition | src/scanner.rs:136-145 | A word found with nothing skipped before it starts exactly at the current byte. |
| ScannerProperties.PlusMinusSpans | src/scanner.rs:300-308 | `+-` gives `Plus` at `[p, p+1)` and then `Minus` at `[p+1, p+2)`: adjacent spans. |
| ScannerProperties.EmptyCommentIsEof | src/scanner.rs:482-487 | The empty comment gives the end-of-input word. |
| ScannerProperties.NestedOpenerIsCommentText | src/scanner.rs:500-512 | The comment text `+/*-` holds no star-slash. |
| ScannerProperties.CommentsDoNotNest | src/scanner.rs:500-512 | In `/*+/*-*/=*/` the first star-slash closes the comment. Then comes `Equal` at byte 8, leaving the star-slash. |
| ScannerProperties.EqualBeforeStarSlash | src/scanner.rs:500-506 | `=` followed by a star-slash is a one-byte `Equal`. |
| ScannerProperties.LeftoverStarSlash | src/scanner.rs:506-511 | The leftover star-slash scans as `Star` and then `Slash`. |
| ScannerProperties.MissingEndOfBlockComment | src/scanner.rs:514-519 | A lone slash-star fails as an unterminated comment. |

`Errors.PushAddsToTheEnd` and `Errors.ExtendKeepsOrder` replay the two `DiagBag` tests (src/errors.rs:42-78) with assertions. They have no contract of their own.

## Left out

- Keyword recognition, number literals, the `InvalidDigit` and `MissingCommentTerminator` diagnostics and the `Handler`: the code has none of them. `Keyword` is declared and never produced.
- The `Err(_) => todo!` arm of `scan_next_word` (src/scanner.rs:149): it cannot be reached, because `analyse_category_and_bump_chars` never returns an `Err(Diag)`. The model's `Err` results carry the two `todo!()` panics instead.
- `todo!()` panics: they are modelled as `Err(Panic)` values, not as aborting the process. After a panic the cursor's state is whatever it was; the contracts say nothing about it.
- `Rc<String>` sharing and the `name` field of `SourceFile`: these are ownership details with no behaviour.
- The internals of `Peekable<Chars>` and UTF-8 decoding of the `String`: the input is an already-decoded `seq<char>`, and only the byte-length accounting is modelled.
- `CSubScanner::peek`, `peek_is`, `bump` and `bump_if` (src/scanner.rs:119-133): these forwarding wrappers only call the cursor, and the modelled methods call the cursor directly.
- `usize` overflow: `BytePos` arithmetic is on unbounded naturals. A text long enough to overflow the Rust sum is not modelled.
- SourceMap.SourceFile.SpanToSnippet: slices bytes. It does not model the panic Rust raises when a span boundary falls inside a multi-byte character, nor the panic on a reversed span or one running past the text, which the requires excludes.
- The loops over all letters and over the 128 ASCII characters in the identifier tests (src/scanner.rs:406-466): these are stated as universal lemmas (`IdentWord`, `HelloStopsAtNonIdentChar`) rather than enumerated.
- The literal inputs `H3ll0W0r1d`, the full letters-and-digits run and the multi-line comment of `skip_everything_inside_comment_blocks` are not evaluated one by one. They are instances of `IdentWord` and `BlockCommentSkipped`.
