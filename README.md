# A verified model of the JSON-like reader in `src/json_reader.rs`

The reader turns a text such as `{ "key" : 5, "other" : '["a", 6.7]' }` into a
map from keys to `JsonValue`s. It works in two stages.

1. `split_preserving_quotes` cuts the text into words at whitespace. Whitespace
   inside a region opened by `'` or `"` and closed by the same character does
   not cut.
2. `read` moves a cursor over the words. At each `{` or `,` it reads a key, skips
   the separator, and reads a value.
   - A trailing `,` or `}` of the value word is split off and inserted into the
     word vector after the value.
   - The value is classified in a fixed order: `is_int`, `is_float`, `is_bool`,
     `is_json_object`, `is_json_arr`, and finally string.
   - A nested object `'{...}'` is read by calling `read` again on its inner text.
   - A nested array `'[...]'` is cut into items by
     `split_on_commas_preserving_quotes` and read item by item.
   - The loop stops at the end of the words, at `{}`, or at any other word.
     `read` returns `None` when nothing was stored, and also the cursor position.

The project has five modules:

| file | module | contents |
|---|---|---|
| `json_values.dfy` | `JsonValues` | `JsonValue`, the `i32`/`i64` bounds, and `Result`, which records a Rust panic as a value |
| `lexemes.dfy` | `Lexemes` | the five lexeme tests, the classification chain, `str::trim` and `str::replace("\"", "")` |
| `splitter.dfy` | `Splitter` | both splitters as loops over the characters, proved equal to the functions `Words` and `Items` |
| `reader.dfy` | `Reader` | `read` and `read_helper` as loops over the words, proved equal to the function `ReadSpec` |
| `reader_properties.dfy` | `ReaderProperties` | what `read` makes of single values, of arrays, of pairs and of a few whole inputs |

The two splitters share one specification, `Pieces`. It is the input cut at
every cut character outside quotes, with the cut characters dropped and empty
pieces kept:
- the words are the non-empty pieces;
- the items are the non-empty pieces, each trimmed.

`read` is specified by three mutually recursive functions:
- `ReadFrom` is the loop, from a given cursor and map;
- `ValueOf` is what one value word contributes;
- `ItemOf` is what one array item contributes.

Recursion into nested objects is on a strictly shorter text, which proves
termination. The loop bound `size` is the number of words before any insertion,
as in the source, and it never changes. A panic is a result value with its cause:
- reading `words[index]` past the end, at lines 27 and 29;
- `parse::<i32>().unwrap()` on an `i64` outside the `i32` range, at lines 42 and 74.

### Where the reader departs from JSON (section 4 of RFC 8259)

- `{}` reads as `None`, not as an empty object.
- A key is any word; it does not have to be a string.
- A pair without a value does not always fail. In `{ "key" : }` the `}` is read
  as the value word: its brace is split off and the empty text that remains is
  stored as the string `""` (`ReaderProperties.MissingValue`). The read panics
  on an index out of bounds only when fewer than four words start at the `{`
  or `,`, as in `{ "key" :}` (`ReaderProperties.MissingValuePanics`).
- There is no `null`, no escape handling and no depth limit.
- `is_float("5")` holds, because every integer text parses as an `f64`.
  Integers come out as integers only because `is_int` is tried first
  (`Lexemes.IntIsFloat`).

`is_float` is modelled by the grammar that Rust documents for `f64::from_str`:
- a sign, then `inf`, `infinity`, `nan` or a decimal number with an optional
  exponent;
- letters match in either case.

It is not left uninterpreted. `char::is_whitespace` is modelled by the code
points of the Unicode `White_Space` property.

## Model

| member | source | states |
|---|---|---|
| Lexemes.RenderThenParse | src/json_reader.rs:134-136 | the decimal text of every integer parses back to it, so every `i64`'s text passes `is_int` |
| Lexemes.IsJsonObject | src/json_reader.rs:146-148 | a lexeme that passes has at least four characters and starts with `'{`, so `value[1..len-1]` at line 56 is a valid slice |
| Lexemes.IsJsonArr | src/json_reader.rs:150-152 | a lexeme that passes has at least four characters and starts with `'[`, so `value[2..len-2]` at line 69 is a valid slice |
| Lexemes.FloatAlphabet | src/json_reader.rs:138-140 | every character of an `is_float` lexeme is a digit, a sign, a dot, or a letter of `e`/`inf`/`infinity`/`nan` in either case |
| Lexemes.FloatHasNoQuote | src/json_reader.rs:138-140 | an `is_float` lexeme holds no `"` and no `'` |
| Lexemes.IntIsFloat | src/json_reader.rs:134-140 | every `is_int` lexeme also passes `is_float`, which is why the order of the tests matters |
| Lexemes.BoolIsNotFloat | src/json_reader.rs:138-144 | `true` and `false` do not pass `is_float` |
| Lexemes.QuotedIsNotFloat | src/json_reader.rs:138-140 | a lexeme that starts with a quote does not pass `is_float` |
| Lexemes.KindsDisjoint | src/json_reader.rs:134-152 | the five tests overlap only where an integer is also a float |
| Lexemes.Classify | src/json_reader.rs:39-114 | the chosen kind's test accepts the lexeme, and the string fallback is chosen only when all five tests reject it |
| Lexemes.ClassifyIsForced | src/json_reader.rs:39-114 | the order of the chain decides only integer versus float: any other kind that accepts a lexeme is the chosen one or the string fallback |
| Lexemes.ClassifyInteger | src/json_reader.rs:280-286 | `5` is classified as an integer |
| Lexemes.ClassifyFloat | src/json_reader.rs:289-295 | `5.0` is classified as a float |
| Lexemes.ClassifyBool | src/json_reader.rs:298-305 | `true` and `false` are classified as booleans |
| Lexemes.ClassifyQuoted | src/json_reader.rs:109-114 | any lexeme that starts with `"` falls through to the string case |
| Lexemes.ClassifyArray | src/json_reader.rs:67 | a lexeme wrapped in `'[` and `]'` reaches the array case: no earlier test accepts it |
| Lexemes.TrimStartDrops | src/json_reader.rs:210 | `trim_start` drops only whitespace and keeps a suffix that does not start with whitespace |
| Lexemes.TrimEndDrops | src/json_reader.rs:210 | `trim_end` drops only whitespace and keeps a prefix that does not end with whitespace |
| Lexemes.TrimMargins | src/json_reader.rs:210 | `trim` returns the slice of the input between two all-whitespace margins, and the slice neither starts nor ends with whitespace |
| Lexemes.TrimKeeps | src/json_reader.rs:221 | a text without whitespace at either end is its own trim |
| Lexemes.TrimBlank | src/json_reader.rs:210 | a text of whitespace only trims to the empty text |
| Lexemes.TrimIdempotent | src/json_reader.rs:210 | trimming twice gives the same as trimming once |
| Lexemes.RemoveQuotes | src/json_reader.rs:41 | `replace("\"", "")` leaves no `"`, keeps every other character as often as it occurred, and leaves a quote-free text unchanged |
| Lexemes.RemoveQuotesConcat | src/json_reader.rs:112 | removing quotes distributes over concatenation, so the other characters keep their order |
| Lexemes.Unquote | src/json_reader.rs:110-113 | a text in double quotes without inner quotes loses exactly its two quotes |
| Splitter.Pieces | src/json_reader.rs:154-189 | there is always at least one piece, and none is longer than the input |
| Splitter.Words | src/json_reader.rs:154-189 | every word is non-empty and no longer than the input |
| Splitter.Items | src/json_reader.rs:191-225 | no item is longer than the input |
| Splitter.CutsAreSeparators | src/json_reader.rs:162-181 | the cut positions increase strictly and are exactly the positions that hold a cut character outside quotes |
| Splitter.AppendStep | src/json_reader.rs:162-181 | reading one more character either closes the open piece and starts an empty one, at a cut character outside quotes, or appends the character to the open piece |
| Splitter.PiecesBetweenCuts | src/json_reader.rs:172-177 | there is one more piece than cut positions, and piece `k` is the stretch of the input between cut `k-1` and cut `k` |
| Splitter.NoSeparatorInsidePiece | src/json_reader.rs:172-177 | no position inside a piece is a cut, so the pieces are maximal runs |
| Splitter.WordsConcat | src/json_reader.rs:154-189 | concatenating the words gives the input with exactly the whitespace outside quotes removed |
| Splitter.QuotedRegion | src/json_reader.rs:164-171 | after a quote opened outside quotes, no character other than the same quote cuts, and the whole region joins the open piece |
| Splitter.QuoteCloses | src/json_reader.rs:169-171 | the same quote character closes the region, and the piece goes on |
| Splitter.UnclosedQuoteEndsInOneWord | src/json_reader.rs:184-186 | an unclosed quote makes the rest of the input part of the last word |
| Splitter.PlainRun | src/json_reader.rs:178-180 | a run of characters that are neither quotes nor cut characters joins the open piece |
| Splitter.SeparatorOutside | src/json_reader.rs:172-177 | a cut character outside quotes closes the open piece and starts an empty one |
| Splitter.WordsOfQuotedText | src/json_reader.rs:252-256 | `{ "key" : "value is value" }` splits into the five words `{`, `"key"`, `:`, `"value is value"`, `}` |
| Splitter.WordsOfBraces | src/json_reader.rs:235-239 | `{}` is a single word |
| Splitter.PiecesWithBlank | src/json_reader.rs:208-213 | `a, ,b` is cut at both commas, and the space stays in the middle piece |
| Splitter.ItemsWithBlank | src/json_reader.rs:198-224 | the items of `a, ,b` are `a`, the empty item and `b` |
| Splitter.NonEmptyKeeps | src/json_reader.rs:173-176 | when no piece is empty, every piece is kept |
| Splitter.TrimAllIs | src/json_reader.rs:210 | item `k` is piece `k` trimmed, in order |
| Splitter.ScanJoins | src/json_reader.rs:164-171 | a character that does not cut keeps the loop state consistent with `Pieces`, and sets `token_start` only if it was unset |
| Splitter.ScanCuts | src/json_reader.rs:172-177 | a cut character pushes the open token if there is one and clears `token_start` |
| Splitter.ScanEnds | src/json_reader.rs:184-186 | after the loop, pushing the open token gives exactly the non-empty pieces |
| Splitter.SplitPreservingQuotes | src/json_reader.rs:154-189 | the loop returns exactly `Words(input)` |
| Splitter.SplitOnCommasPreservingQuotes | src/json_reader.rs:191-225 | the loop returns exactly `Items(input)` |
| Reader.Finish | src/json_reader.rs:121-126 | the map is `None` exactly when nothing was stored, and otherwise it is the stored map; the cursor is returned unchanged |
| Reader.Insert | src/json_reader.rs:34 | inserting words adds exactly their number to the length of the vector |
| Reader.DetachTrailing | src/json_reader.rs:31-37 | a trailing `,` is split off first and then a trailing `}`; the value and the inserted words spell the original word, and `}` comes before `,` |
| Reader.InsertBounded | src/json_reader.rs:34 | inserting one-character words keeps every word non-empty and within the bound |
| Reader.Scalar | src/json_reader.rs:39-53 | an int, float or bool lexeme panics exactly when it is an integer outside `i32`, and otherwise yields a quote-free value |
| Reader.ReadSpec | src/json_reader.rs:13-127 | a returned map is non-empty, and no key or text in it holds a `"` |
| Reader.ReadFrom | src/json_reader.rs:21-119 | the cursor never moves back; `None` means nothing was stored; a returned map keeps every key stored before and stays quote-free |
| Reader.Pair | src/json_reader.rs:24-37 | one pair keeps the same guarantees as the loop |
| Reader.Continue | src/json_reader.rs:39-118 | storing or skipping a value keeps the same guarantees as the loop |
| Reader.ValueOf | src/json_reader.rs:39-114 | a stored value is quote-free |
| Reader.ObjectEntry | src/json_reader.rs:54-66 | a stored nested object is quote-free |
| Reader.ArrayEntry | src/json_reader.rs:67-107 | a stored array is quote-free |
| Reader.Elements | src/json_reader.rs:69-100 | an array has no more elements than items, and every element is quote-free |
| Reader.ItemOf | src/json_reader.rs:71-99 | a pushed item is quote-free |
| Reader.InsertTwice | src/json_reader.rs:31-37 | inserting `,` and then `}` at the same place gives `}` before `,` |
| Reader.PairStep | src/json_reader.rs:24-37 | a pair reads its key two words on and its value three words on, after the trailing characters are inserted |
| Reader.PairPanics | src/json_reader.rs:26-29 | a `{` or `,` too close to the end panics at the key index when that is past the end, and otherwise at the value index |
| Reader.LoopStep | src/json_reader.rs:56-64 | after a stored value the loop goes on four words further plus the nested cursor, with the value under its key; after a skipped object it goes on four words further with the map unchanged |
| Reader.SplitOffTrailing | src/json_reader.rs:29-37 | the two `ends_with` checks yield the value and the vector that `DetachTrailing` describes |
| Reader.Read | src/json_reader.rs:13-127 | `read` returns exactly `ReadSpec(json)` |
| Reader.ReadWords | src/json_reader.rs:16-126 | the loop, with `size` fixed before any insertion, returns exactly `ReadFrom` from the first word with an empty map |
| Reader.Starts | src/json_reader.rs:14-18 | `read` starts the loop at word 0 with an empty map over the split words |
| Reader.Stops | src/json_reader.rs:21-24 | the loop ends, storing nothing more, at the end of the words, on `{}`, or on any word other than `{` and `,` |
| Reader.ReadPair | src/json_reader.rs:24-115 | one iteration either panics as the loop does or leaves the cursor, vector and map from which the loop goes on |
| Reader.ReadEntry | src/json_reader.rs:29-114 | the value word is split and classified as the loop does |
| Reader.StoreValue | src/json_reader.rs:39-118 | the classified value is stored under its key, with the cursor advanced past a nested object |
| Reader.ReadValue | src/json_reader.rs:39-114 | the classification chain on a value word returns exactly `ValueOf` |
| Reader.ReadArray | src/json_reader.rs:69-106 | the loop over the items returns exactly `Elements` |
| Reader.ReadItem | src/json_reader.rs:71-99 | the classification chain on an array item returns exactly `ItemOf` |
| Reader.ElementsStep | src/json_reader.rs:71-100 | an item either panics, ending the array, or pushes what it contributes onto the elements read so far |
| Reader.ReadHelper | src/json_reader.rs:129-132 | `read_helper` returns the map of `read` without the cursor, or the same panic |
| ReaderProperties.IntRoundTrip | src/json_reader.rs:39-43 | the text of every `i32` is stored, or pushed, as that integer |
| ReaderProperties.WideIntPanics | src/json_reader.rs:42 | the text of an `i64` outside the `i32` range panics with an overflow, both as a value and as an array item |
| ReaderProperties.QuotedValue | src/json_reader.rs:109-114 | a text in double quotes is stored as a string without its quotes, whatever it holds |
| ReaderProperties.BoolValues | src/json_reader.rs:49-53 | `true` and `false` are stored as the booleans |
| ReaderProperties.NestedArrayItem | src/json_reader.rs:92-94 | an array item that is itself an array adds nothing |
| ReaderProperties.EmptyNestedObject | src/json_reader.rs:56-58 | a nested object that reads as `None` is not stored as a value and adds nothing as an array item |
| ReaderProperties.Present | src/json_reader.rs:72-98 | the values present among the items are no more than the items |
| ReaderProperties.ElementsArePresent | src/json_reader.rs:69-100 | when no item panics, the array holds the values of the items that have one, in item order |
| ReaderProperties.ElementsPanic | src/json_reader.rs:71-99 | the first item that panics ends the whole read with its panic |
| ReaderProperties.ElementsAfterHead | src/json_reader.rs:71-99 | the first item's contribution comes before the rest of the array |
| ReaderProperties.ElementsSkip | src/json_reader.rs:84-94 | an item that adds nothing leaves the array of the remaining items unchanged |
| ReaderProperties.SkipMiddle | src/json_reader.rs:92-94 | an item that adds nothing between two values leaves exactly those two, in order |
| ReaderProperties.ArrayWithNestedArray | src/json_reader.rs:71-98 | two quoted items around a nested array give exactly the two strings, in order |
| ReaderProperties.StorePair | src/json_reader.rs:31-43 | a pair stores its value under the key with quotes removed, replacing the key's earlier value, and the loop goes on four words further over the vector with the trailing characters inserted |
| ReaderProperties.StorePlainPair | src/json_reader.rs:39-43 | a value with nothing trailing leaves the vector unchanged |
| ReaderProperties.StoreCommaPair | src/json_reader.rs:31-37 | a value ending in `,` puts the comma right after the value, where the next iteration reads it as a separator; the other words shift by one |
| ReaderProperties.SameKeyOverwrites | src/json_reader.rs:110-113 | in `{ "k" : "a", "k" : "b" }` the second pair overwrites the first, reached through the split-off comma |
| ReaderProperties.IntWordDetached | src/json_reader.rs:31-37 | an integer word is never split except for a comma after it |
| ReaderProperties.ReadEmptyObject | src/json_reader.rs:235-239 | `{}` reads as `None` at cursor 0 |
| ReaderProperties.ReadQuotedText | src/json_reader.rs:251-257 | `{ "key" : "value is value" }` reads as the one-pair map, with the loop stopping at the final `}` |
| ReaderProperties.ReadOneStringText | src/json_reader.rs:242-248 | any text whose words are `{`, a quoted key, `:`, a quoted text and `}` reads as that one pair |
| ReaderProperties.QuotedPair | src/json_reader.rs:109-114 | a quoted key with a quoted text value stores the text under the key, both without quotes |
| ReaderProperties.QuotedCommaPair | src/json_reader.rs:31-37 | a quoted text followed by a comma is stored, and the comma becomes the next word |
| ReaderProperties.MissingValue | src/json_reader.rs:24-43 | in `{ "key" : }` the `}` is the value word; the brace is split off and the key is stored with the empty string, without a panic |
| ReaderProperties.EmptyValue | src/json_reader.rs:31-37 | the word `}` detaches to the empty text, which is stored as the empty string |
| ReaderProperties.MissingValuePanics | src/json_reader.rs:26-29 | in `{ "key" :}` only three words start at `{`, so reading the value word panics on an index out of bounds |

## Left out

- The `println!` calls at lines 15 and 35 are debug output with no effect on the result.
- The decimal-to-binary conversion of `f64` at lines 47 and 77 is not modelled. `JsonFloat` keeps the lexeme it was read from.
- Positions are indices into the character sequence, not UTF-8 byte offsets. Every position the splitters slice at comes from `char_indices`, so it is a character boundary, and the reader's own slices cut beside an ASCII character; so both count the same pieces.
- A Rust panic unwinds the thread. The model records it as the result `Panic(cause)` instead.
- Iteration order of `HashMap` is not modelled: an object is a `map`, so its keys are unique and unordered, as in the source.
- The test module (lines 229-385) is not modelled as code.
  - Its expectations for the two-pair, boolean and mixed-type objects (lines 260-318) have no whole-input lemma. Their steps are covered by `ReaderProperties.StorePair`, `ReaderProperties.StoreCommaPair` and `ReaderProperties.SameKeyOverwrites`.
  - The same holds for the nested-object and array tests (lines 320-367). Their steps are covered by `Reader.LoopStep`, `ReaderProperties.ElementsArePresent` and `ReaderProperties.ArrayWithNestedArray`.
  - The test at lines 370-384 cannot pass as written: the `'` after `[` closes the quoted region. No property is drawn from it.
