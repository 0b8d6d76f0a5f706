# akhamoth lexer and source map in Dafny

This project models the lexical front end of the akhamoth compiler: the lexer of
`akhamoth/src/lexer.rs` and the source map of `akhamoth/src/source.rs`.

**The lexer.** A `Cursor` walks over the unconsumed characters of a text. It keeps a byte count of what
was left when the current token started, and `next_token` emits one token per call. The token kinds are:

- whitespace runs;
- identifiers;
- integer literals with an optional `0b`/`0o`/`0x` radix prefix;
- string literals with `\\` and `\"` escapes, and recovery when a literal is unclosed;
- `//` comments;
- punctuation;
- operators, including `->` and `=>`;
- runs of unrecognised characters.

`tokenize` drops whitespace and flags the token after it as preceded by whitespace.

The model works on several levels:

- Text is a `seq<char>`, and module `Utf8` gives each character its UTF-8 width. Token lengths and the
  slices that make up token payloads are therefore counted in bytes, as in Rust. A slice that Rust would
  panic on is an explicit outcome.
- `Lexer.Lex` states what one `next_token` call does to the unconsumed text. `Lexer.TokenStream` states
  what `tokenize` yields.
- The class `Lexer.Cursor` has the source's fields and loops. Each of its methods is proved to do what
  those functions say.
- Module `LexerProofs` proves the lexer's properties about the functions:
  - maximal runs;
  - greedy lookahead;
  - radix and value of literals;
  - escapes and recovery of strings;
  - the token lengths adding up to the input;
  - whitespace handling in `tokenize`.

**The source map.** `load_file` lays files out one after another in a single 32-bit address space,
with a one-byte gap after each file. Each `SourceFile` keeps the offsets of its newlines. Module
`Partition` models `slice::partition_point` as the binary search it is. The source map's lookups find a
file by global position, slice a span's text, or compute a line and a column.

Module `SourceProofs` proves what the lookups return on any map that `load_file` built. It also proves
what `span_to_location` computes as written, and the intended location that `Source.SourceMap.Locate`
computes.

Where the code and the crate's own description of it differ, the model follows the code:

- A decimal literal is seeded with its first digit and then folds all of its digits, that one included.
  So `5` has the value 55 and `1` has the value 11 (`LexerProofs.DecimalValue`,
  `LexerProofs.DecimalFiveIsFiftyFive`).
- No code path builds `ParseIntError::Empty` or `Overflow`, and the fold is unchecked.
- String literals carry no "unclosed" flag.
- An unclosed literal at the end of the text slices past the end and panics, so lexing is not total.
  An unclosed literal that ends at a newline takes that newline into its text.
- `span_to_location` panics on line 1, and its column is measured from the global position rather than
  from the start of the line (see Findings).

Rust panics, and a `lookup_source_file_idx` on an empty map (which underflows), are `None`, `Panicked` or
`OutOfBounds` results.

## Model

| member | source | states |
|---|---|---|
| Lexer.Cursor.constructor | akhamoth/src/lexer.rs:65-70 | a new cursor has the whole input unconsumed and its byte count is the input's UTF-8 length |
| Lexer.Cursor.Bump | akhamoth/src/lexer.rs:80-82 | returns the first unconsumed character and consumes it, or returns `None` and changes nothing at the end of the text |
| Lexer.Cursor.EatWhile | akhamoth/src/lexer.rs:88-92 | consumes exactly the maximal prefix whose characters satisfy the predicate, stopping at the first one that fails or at the end |
| Lexer.RunLen | akhamoth/src/lexer.rs:88-92 | the run length never exceeds the text, and the character just after the run fails the predicate |
| LexerProofs.RunLenAll | akhamoth/src/lexer.rs:88-92 | every character inside the run satisfies the predicate, so the run is maximal |
| LexerProofs.RunLenAfterPrefix | akhamoth/src/lexer.rs:88-92 | a prefix known to satisfy the predicate is part of the run, and the run continues after it |
| Lexer.Cursor.TokenLength | akhamoth/src/lexer.rs:95-97 | `len_remaining - as_str().len()` is the UTF-8 byte length of the characters consumed since the token started |
| Lexer.Cursor.ResetToken | akhamoth/src/lexer.rs:100-102 | the next token starts at the current position, and the byte count is re-based to what is left |
| Lexer.Cursor.SliceFrom | akhamoth/src/lexer.rs:115-116 | slicing the token's text from byte `lo` up to `token_length` gives the consumed characters after the first `lo` (ASCII) ones |
| Lexer.LexWhitespace | akhamoth/src/lexer.rs:109-112 | the whitespace arm yields `Whitespace`, consuming its first character and at most the rest of the text |
| Lexer.LexIdentifier | akhamoth/src/lexer.rs:113-117 | the identifier arm consumes at least its first character, and its text is exactly the characters consumed |
| Lexer.LexSlash | akhamoth/src/lexer.rs:120-127 | `/` starts a comment if and only if another `/` follows; otherwise it is the division operator, one character long |
| Lexer.LexOther | akhamoth/src/lexer.rs:128-160 | a punctuation character gives a token of at most two characters; any other gives an unrecognised token whose text is what it consumes |
| Lexer.LexUnrecognized | akhamoth/src/lexer.rs:156-160 | the fallback arm consumes at least its first character, and its text is exactly the characters consumed |
| Lexer.LexNumber | akhamoth/src/lexer.rs:166-212 | `number` always yields an integer literal, valid or not, consuming at least its first digit |
| Lexer.LexString | akhamoth/src/lexer.rs:214-236 | `string_literal` yields a string literal consuming at least its opening quote, or panics; it never ends the stream |
| Lexer.Lex | akhamoth/src/lexer.rs:104-164 | `next_token` returns `None` exactly on empty text; otherwise a token consumes between one character and all of the text, or the call panics |
| Lexer.Cursor.NextToken | akhamoth/src/lexer.rs:104-164 | the cursor returns the token `Lex` gives for its unconsumed text, consumes exactly the characters `Lex` counts and starts a new token there; it returns `End` at the end and panics where `Lex` does |
| Lexer.Cursor.ScanToken | akhamoth/src/lexer.rs:108-161 | after the first character is consumed, the `match` produces `Lex`'s token and consumption, or the panic |
| Lexer.Cursor.ScanLeading | akhamoth/src/lexer.rs:109-118 | the whitespace, identifier and number arms produce `Lex`'s token and consumption |
| Lexer.Cursor.ScanRest | akhamoth/src/lexer.rs:119-160 | the string, slash and remaining arms never end the stream, and produce `Lex`'s token, or panic exactly where `Lex` does |
| Lexer.Cursor.WhitespaceToken | akhamoth/src/lexer.rs:109-112 | the whitespace arm consumes the maximal whitespace run after the first character |
| Lexer.Cursor.IdentifierToken | akhamoth/src/lexer.rs:113-117 | the identifier arm consumes the XID_Continue run and carries the consumed text |
| Lexer.Cursor.SlashToken | akhamoth/src/lexer.rs:120-127 | `/` is a comment when another `/` follows and the division operator otherwise, as `LexSlash` says |
| Lexer.Cursor.CommentToken | akhamoth/src/lexer.rs:121-125 | a comment consumes up to, not including, the next newline, and its text leaves out the leading `//` |
| Lexer.Punctuation | akhamoth/src/lexer.rs:128-155 | a punctuation token takes one character, or two only when the next character is `>` |
| Lexer.Cursor.PunctuationToken | akhamoth/src/lexer.rs:128-155 | the punctuation arms return `Punctuation`'s token and consume its second character only for `->` and `=>`; other characters match no arm and nothing is consumed |
| Lexer.Cursor.OtherToken | akhamoth/src/lexer.rs:128-160 | a punctuation token, or else the fallback arm, as `LexOther` says |
| Lexer.Cursor.UnrecognizedToken | akhamoth/src/lexer.rs:156-160 | the fallback arm consumes the `is_unknown` run after the first character and carries the consumed text |
| LexerProofs.IdentifierMaximal | akhamoth/src/lexer.rs:113-117 | an identifier starts with `_` or XID_Start, covers the maximal XID_Continue run after it, and its text is exactly what it consumes |
| LexerProofs.UnrecognizedMaximal | akhamoth/src/lexer.rs:156-160 | an unrecognised token is its first character plus the maximal `is_unknown` run, and its text is exactly what it consumes |
| LexerProofs.LexLookahead | akhamoth/src/lexer.rs:120-153 | `->` and `=>` take two characters; `-` or `=` not followed by `>`, and `/` not followed by `/`, take one |
| LexerProofs.LexComment | akhamoth/src/lexer.rs:120-125 | `//` starts a comment that runs up to the next newline or the end, excludes the newline, and whose text omits the `//` |
| Lexer.Radix | akhamoth/src/lexer.rs:167-176 | the prefix is absent and the base 10, or the prefix is two characters `0b`/`0o`/`0x` and the base 2, 8 or 16 |
| Lexer.Cursor.ScanRadix | akhamoth/src/lexer.rs:167-180 | picks `Radix`'s base and consumes the prefix exactly when there is one |
| LexerProofs.NumberRadix | akhamoth/src/lexer.rs:167-180 | `0b`, `0o` and `0x` select base 2, 8 and 16, each if and only if written; every other literal is decimal; a literal consumes at least its prefix |
| Lexer.Cursor.EatDigits | akhamoth/src/lexer.rs:182-185 | the digit loop consumes exactly the maximal run of `_` and digits of the base |
| Lexer.Cursor.Number | akhamoth/src/lexer.rs:166-212 | `number` returns the literal `LexNumber` gives and consumes exactly its characters |
| Lexer.Cursor.NumberEnd | akhamoth/src/lexer.rs:182-211 | after the digit run: an identifier character makes an invalid-digit error, and otherwise the fold's value is returned |
| Lexer.Cursor.EatIdContinueFrom | akhamoth/src/lexer.rs:186-188 | after an invalid digit, the rest of the XID_Continue run is consumed |
| Lexer.Cursor.NumberValue | akhamoth/src/lexer.rs:194-211 | the literal's value is the fold, seeded with the first digit's value, over the text from the prefix's end to the current position |
| Lexer.LexNumberAt | akhamoth/src/lexer.rs:182-211 | where the digit run ends decides between the error, which names the character there and consumes the identifier run, and the folded value |
| LexerProofs.DigitRun | akhamoth/src/lexer.rs:182-189 | the digit run stops at a character that is neither `_` nor a digit of the base, and lies inside the XID_Continue run |
| LexerProofs.NumberExtent | akhamoth/src/lexer.rs:182-189 | a literal, valid or not, consumes exactly the maximal XID_Continue run after its prefix |
| LexerProofs.NumberInvalidDigit | akhamoth/src/lexer.rs:182-189 | a literal is an error exactly when an identifier character follows its digits, and the error names that character and the base |
| LexerProofs.OnlyInvalidDigitErrors | akhamoth/src/lexer.rs:43-50 | `Empty` and `Overflow` are never produced; every literal error is `InvalidDigit` |
| Lexer.ToDigit | akhamoth/src/lexer.rs:184 | a digit's value is below the base, and a decimal digit below the base has its usual value |
| Lexer.Fold | akhamoth/src/lexer.rs:199-209 | separators `_` contribute nothing: folding only separators leaves the seed |
| Lexer.FoldDigits | akhamoth/src/lexer.rs:199-209 | the byte loop computes the fold over the digits, skipping `_` |
| LexerProofs.DigitByteIsDigitValue | akhamoth/src/lexer.rs:204-208 | the byte arithmetic (`a-f`/`A-F` as 10-15) gives each accepted digit its `to_digit` value |
| LexerProofs.PositionalSnoc | akhamoth/src/lexer.rs:199-209 | appending a digit multiplies the positional value by the base and adds the digit; `_` changes nothing |
| LexerProofs.FoldIsPositional | akhamoth/src/lexer.rs:194-209 | the fold from a seed is the positional value of the digits plus the seed shifted one place per digit |
| LexerProofs.DigitsAccepted | akhamoth/src/lexer.rs:182-197 | the text folded consists of `_` and digits of the base |
| LexerProofs.PrefixedValue | akhamoth/src/lexer.rs:194-211 | a valid prefixed literal's value is the positional value of the digits after the prefix |
| LexerProofs.DecimalValue | akhamoth/src/lexer.rs:194-211 | a valid decimal literal's value is the positional value of all its text plus its first digit shifted past every digit |
| LexerProofs.DecimalFiveIsFiftyFive | akhamoth/src/lexer.rs:194-197 | the literal `5` lexes to the value 55 |
| LexerProofs.BarePrefix | akhamoth/src/lexer.rs:178-211 | a prefix with no digits after it is the value 0 and consumes two characters |
| Lexer.CloseQuote | akhamoth/src/lexer.rs:217-228 | the quote found closing a literal is a `"` at or after the scan's start |
| Lexer.Cursor.StringLiteral | akhamoth/src/lexer.rs:214-236 | `string_literal` returns `LexString`'s token and consumption, or panics exactly where `LexString` does |
| Lexer.Cursor.SeekCloseQuote | akhamoth/src/lexer.rs:217-228 | the `while let` loop consumes the text through the closing quote, stepping over `\\` and `\"`, or all of it when there is none |
| Lexer.Cursor.ClosedToken | akhamoth/src/lexer.rs:219-222 | at the closing quote, the token carries the text between the quotes |
| Lexer.ClosedLiteral | akhamoth/src/lexer.rs:219-222 | `token_length() - 2` is the byte length of the text between the quotes, and slicing it yields exactly that text |
| Lexer.Cursor.UnclosedRecovery | akhamoth/src/lexer.rs:230-235 | the cursor rewinds to just after the quote, runs to the next newline and returns the slice `LexString` gives, or panics |
| Lexer.UnclosedLiteral | akhamoth/src/lexer.rs:232-235 | the recovery slice's byte length counts the opening quote, so it takes the newline too, or runs past the end and panics |
| LexerProofs.CloseQuoteSkipsEscaped | akhamoth/src/lexer.rs:217-228 | every quote the scan passes before the closing one is preceded by a backslash |
| LexerProofs.CloseQuoteFromScanPoint | akhamoth/src/lexer.rs:217-228 | from any point the loop can stand on, it stops at the first quote after an even run of backslashes, or finds none when there is no such quote |
| LexerProofs.CloseQuoteIsFirstUnescaped | akhamoth/src/lexer.rs:217-228 | the loop closes the literal at `j` if and only if `j` is the first quote preceded by an even number of backslashes, and runs to the end if and only if there is no such quote |
| LexerProofs.EscapedQuoteSkipped | akhamoth/src/lexer.rs:223-225 | after `\"` the scan continues in the rest of the text, so an escaped quote never closes the literal |
| LexerProofs.EscapedBackslashThenQuote | akhamoth/src/lexer.rs:219-225 | `\\"` closes at its quote: an escaped backslash does not escape the quote after it |
| LexerProofs.CloseQuoteShifted | akhamoth/src/lexer.rs:217-228 | scanning text after a prefix finds what scanning the text alone finds, moved past the prefix |
| LexerProofs.NoQuoteNoClose | akhamoth/src/lexer.rs:217-228 | text without a quote has no closing quote |
| LexerProofs.LexClosedString | akhamoth/src/lexer.rs:214-228 | a closed literal consumes through its closing quote, its text is exactly what lies between the quotes with escapes kept, and the closing quote is the first one not escaped by an odd run of backslashes |
| LexerProofs.LexUnclosedString | akhamoth/src/lexer.rs:230-235 | an unclosed literal's text runs through the first newline while the next token starts at it; with no newline the slice panics |
| LexerProofs.LexUnterminatedAtEnd | akhamoth/src/lexer.rs:230-235 | a literal with no further quote and no newline panics, whatever backslashes it contains |
| LexerProofs.PiecesCoverInput | akhamoth/src/lexer.rs:95-102 | unless lexing panics, the tokens' texts follow each other and make up the input, and their `token_length`s sum to its byte length |
| Lexer.NextItem | akhamoth/src/lexer.rs:243-250 | each item `tokenize` yields consumes some of the text |
| Lexer.Cursor.Pull | akhamoth/src/lexer.rs:243-250 | the closure returns `NextItem`'s item and leaves its remaining text, or stops (and panics where `next_token` does) |
| Lexer.Tokenize | akhamoth/src/lexer.rs:241-251 | running `tokenize` to the end yields exactly `TokenStream` |
| Lexer.TokenStream | akhamoth/src/lexer.rs:241-251 | `tokenize` yields at most one item per character of the input, and nothing on empty input |
| LexerProofs.TokenStreamAttaches | akhamoth/src/lexer.rs:241-251 | the stream is the raw tokens with each whitespace dropped and the token after it flagged; trailing whitespace ends it |
| LexerProofs.RawAtStop | akhamoth/src/lexer.rs:243-246 | where the closure returns `None`, no raw tokens remain to attach |
| LexerProofs.RawAtYield | akhamoth/src/lexer.rs:243-248 | the item the closure yields is the first item attached from the raw tokens |
| LexerProofs.WhitespaceMaximal | akhamoth/src/lexer.rs:109-112 | the token after a whitespace token is never whitespace |
| LexerProofs.YieldNotWhitespace | akhamoth/src/lexer.rs:243-248 | no item the closure yields is whitespace |
| LexerProofs.NoWhitespaceInStream | akhamoth/src/lexer.rs:241-251 | `tokenize` never yields whitespace |
| LexerProofs.OnlyWhitespace | akhamoth/src/lexer.rs:241-251 | text that is all whitespace yields no tokens |
| Utf8.ByteLenAppend | akhamoth/src/lexer.rs:95-97 | the byte length of two texts joined is the sum of their byte lengths |
| Utf8.ByteSlice | akhamoth/src/lexer.rs:116 | `&s[lo..hi]` succeeds exactly when `lo <= hi` and both are character boundaries |
| Utf8.ByteSliceChars | akhamoth/src/lexer.rs:116 | slicing at the byte offsets of two character positions yields the characters between them |
| Utf8.ByteSlicePastEnd | akhamoth/src/lexer.rs:235 | slicing past the end of the text panics |
| Source.NewSourceFile | akhamoth/src/source.rs:20-37 | `SourceFile::new` keeps the path, text and start, and for a text shorter than 2^32 its line table is increasing and lists exactly the newline offsets |
| Source.NewlineOffsets | akhamoth/src/source.rs:24-29 | the line table has at most one entry per byte |
| Source.LinesAreNewlines | akhamoth/src/source.rs:24-29 | the line table is strictly increasing and lists exactly the offsets of the newline bytes |
| Source.LinesIncreasing | akhamoth/src/source.rs:24-29 | every entry is the offset of a newline, and the entries increase |
| Source.LinesComplete | akhamoth/src/source.rs:24-29 | every newline of the text is in the line table |
| Source.LineNumber | akhamoth/src/source.rs:39-41 | `line_number` lies in `[1, lines.len() + 1]` |
| Source.CountBelow | akhamoth/src/source.rs:39-41 | the number of line-table entries before an offset is at most the table's length |
| Source.IncreasingSplits | akhamoth/src/source.rs:39-41 | an increasing line table is partitioned at the offset, after the entries below it |
| Source.LineNumberCounts | akhamoth/src/source.rs:39-41 | `line_number(off)` is one more than the number of newlines strictly before `off`; the newline before is below `off`, the one after is not |
| Source.LineNumberMonotone | akhamoth/src/source.rs:39-41 | `line_number` never decreases as the offset grows |
| Partition.Search | akhamoth/src/source.rs:40 | the binary search stays within its window |
| Partition.PartitionPointSplits | akhamoth/src/source.rs:40 | on a partitioned slice, `partition_point` is where it splits: everything before satisfies the predicate, nothing from there on does |
| Partition.SearchSplits | akhamoth/src/source.rs:40 | inside a window whose outside is known, the binary search finds the split |
| Partition.SplitUnique | akhamoth/src/source.rs:40 | a slice splits in one place at most |
| Partition.PartitionPointIsSplit | akhamoth/src/source.rs:90 | wherever a slice splits, `partition_point` returns that index |
| Source.EndPosition | akhamoth/src/source.rs:43-45 | `end_position` is the start position plus the text's byte length, when that does not overflow |
| Source.AsU32 | akhamoth/src/source.rs:28 | `as u32` keeps values below 2^32 unchanged |
| Source.Cmp | akhamoth/src/source.rs:127-131 | the derived comparison of two spans is `Equal` exactly when they are equal |
| Source.CmpIsTotalOrder | akhamoth/src/source.rs:127-131 | the derived order of `Span` is lexicographic on `(lo, len)`, total, and agrees with equality |
| Source.NextStart | akhamoth/src/source.rs:66-72 | the first file starts at 0; each later file starts at the previous end plus one, or `checked_add` fails exactly when that reaches 2^32 |
| Source.LaidGapped | akhamoth/src/source.rs:66-78 | in a map `load_file` built, each file ends before every later file starts |
| Source.SourceMap.constructor | akhamoth/src/source.rs:56-59 | the default map is empty and laid out |
| Source.SourceMap.LoadFile | akhamoth/src/source.rs:62-79 | start overflow gives `OffsetOverflowError`, and a failed read gives `Io`, both with the map unchanged; otherwise exactly one new file is appended at the next start, and the layout invariant is kept |
| Source.SourceMap.LookupSourceFileIdx | akhamoth/src/source.rs:89-91 | a found index is in range |
| Source.SourceMap.LookupSourceFile | akhamoth/src/source.rs:84-87 | a found file is one of the map's files |
| SourceProofs.StartsPartitioned | akhamoth/src/source.rs:89-91 | start positions increase, so the files that start at or before `pos` form a prefix |
| SourceProofs.LookupFindsOwner | akhamoth/src/source.rs:89-91 | the lookup fails exactly on an empty map; otherwise it finds a file starting at or before `pos`, followed by none that does |
| SourceProofs.LookupIsOwner | akhamoth/src/source.rs:89-91 | conversely, the last file that starts at or before `pos` is the one found |
| SourceProofs.LookupTwoFiles | akhamoth/src/source.rs:89-91 | with files of 10 and 20 bytes, the second starts at 11; position 10 resolves to file 0 and position 11 to file 1 |
| SourceProofs.LookupWithinFile | akhamoth/src/source.rs:84-91 | every position from a file's start to one past its end resolves to that file |
| SourceProofs.LoadedFileFound | akhamoth/src/source.rs:74-91 | the file just loaded is found at its start position |
| Source.IsCharBoundary | akhamoth/src/source.rs:100 | an index past the end, or at a UTF-8 continuation byte other than 0, is not a character boundary |
| Source.SourceMap.SpanToString | akhamoth/src/source.rs:93-101 | a returned text has exactly the span's length and lies in the file found for the span's start |
| SourceProofs.SpanToStringInFile | akhamoth/src/source.rs:93-101 | a span inside one file gives that file's bytes from the local offset for the span's length, unless an end falls inside a character |
| SourceProofs.SpanToStringWholeFile | akhamoth/src/source.rs:93-101 | the span of a whole file gives back its whole text |
| SourceProofs.LaidLines | akhamoth/src/source.rs:24-29 | in a map `load_file` built, each file's line table is increasing and lists exactly its newlines |
| SourceProofs.LaidIncreasing | akhamoth/src/source.rs:24-29 | in a map `load_file` built, each file's line table is increasing |
| SourceProofs.LineStartBeforeOffset | akhamoth/src/source.rs:39-41 | the line of an offset starts just after a newline, or at the file's start, and no newline lies between that start and the offset |
| Source.SourceMap.SpanToLocation | akhamoth/src/source.rs:103-111 | a location, when there is one, is in the file the lookup found |
| Source.LocationIn | akhamoth/src/source.rs:104-110 | a location computed as written is in the given file and never on line 1 |
| SourceProofs.SpanToLocationAsWritten | akhamoth/src/source.rs:103-111 | as written, the call panics exactly on line 1; otherwise the line is one plus the newlines before the offset, and the column is the file's start plus the 1-based column |
| SourceProofs.GlobalColumn | akhamoth/src/source.rs:105-108 | subtracting the newline's local offset from the global position gives the 1-based column shifted by the file's start |
| SourceProofs.SpanToLocationPanicsOnLineOne | akhamoth/src/source.rs:108 | in a one-line file, position 0 panics as written, while the intended location is line 1, column 1 |
| SourceProofs.SpanToLocationShiftsColumn | akhamoth/src/source.rs:108 | for the `b` of a second file `"\nb"` starting at 2, the call gives column 3 instead of 1 |
| Source.SourceMap.Locate | akhamoth/src/source.rs:103-111 | an intended location, when there is one, is in the file the lookup found |
| Source.IntendedLocationIn | akhamoth/src/source.rs:103-111 | the intended location exists exactly when the position is at or after the file's start, and it is in that file |
| SourceProofs.LocateFindsLineStart | akhamoth/src/source.rs:103-111 | on a map `load_file` built, the intended location always exists; its line counts the newlines before the position, and its 1-based column counts from the line's start, just after a newline or at the file's start |
| SourceProofs.LineColumn | akhamoth/src/source.rs:105-108 | an offset's line is one plus the newlines before it, and its column is at least 1 and counts from just after the previous newline |
| SourceProofs.LocateMonotone | akhamoth/src/source.rs:103-111 | within one file, a later position is on the same or a later line, and on the same line in a later column |

## Left out

- Reading files (`fs::read_to_string`) is I/O. `LoadFile` takes the text read, or `None` for a failed read, which includes text that is not valid UTF-8.
- Source.IsCharBoundary: agrees with `str::is_char_boundary` only on valid UTF-8. The model does not require loaded text to be valid UTF-8, which Rust's `String` guarantees. On other bytes `SpanToString` may return slices Rust could never produce.
- `Rc` sharing of source files is modelled as a sequence of immutable `SourceFile` values.
- The `Display` formatting of `Location` is presentation only.
- The Unicode XID_Start and XID_Continue tables are a parameter `Xid`. The proofs use only their ASCII facts. `char::is_whitespace` is written out as the White_Space code points.
- Lexer.FoldDigits: does not model i64 overflow in the digit fold. Values are unbounded integers, because the source's `*=`/`+=` either panic or wrap depending on the build, and no caller can observe `Overflow`.
- Source.SourceMap.LoadFile: requires the last file's end to fit in 32 bits. It does not model the debug panic or release wrap-around of `end_position`'s unchecked add.
- The line-table lemmas require a file of at most 2^32 bytes. Beyond that, `i as u32` truncates offsets (`AsU32` models the truncation).
- The laziness of `iter::from_fn` in `tokenize` is modelled by a step function (`NextItem`, `Cursor.Pull`) and a loop that runs it to the end.
- `Cursor::as_str`, `peek` and `is_eof` are the `chars` field, `Peek` and `IsEof`. `is_id_start`, `is_id_continue`, `is_unknown` and `unescape` are the predicates and the identity function of module `Lexer`. Their contracts are their bodies.
- akhamoth/src/diagnostics.rs, akhamoth/src/parser.rs, akhamoth/src/lib.rs and akhc/src/main.rs are not part of this model. They are plumbing, a parser written against another lexer, session glue and a command line.

## Findings

| source | as written | input that shows it | evidently intended | confidence | as-written member | corrected member |
|---|---|---|---|---|---|---|
| akhamoth/src/source.rs:108 | `col = lo - lines[line - 2]` subtracts a file-local newline offset from the global position `lo` | files `a` at 0 and `"\nb"` at 2: position 3 (`b`, line 2) gives column 3 | the 1-based column within the line: the local offset minus the start of the line, plus 1 | high; not executed | SourceProofs.SpanToLocationShiftsColumn | Source.SourceMap.Locate |
| akhamoth/src/source.rs:108 | `lines[line - 2]` is out of range on line 1 and panics | file `a` at 0: position 0 panics | line 1, column counted from the file's start (column 1 here) | high; not executed | SourceProofs.SpanToLocationPanicsOnLineOne | Source.SourceMap.Locate |
