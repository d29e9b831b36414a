# daw_json_link v3: a Dafny model of the schema-driven decoder

This project models the core of the v3 decoder of daw_json_link and proves
properties of it. daw_json_link maps JSON objects straight onto C++ classes
through a compile-time description of their members. The core has three parts:

- **The schema-driven object decoder** (`include/daw/json/daw_json_link_v3.h`).
  - A cursor (a string view) moves forward over the raw text.
  - `parse_name` reads a quoted member name. The skippers `skip_string`,
    `skip_other`, `skip_class`, `skip_array` and `skip_value` return the raw
    span of one value and move the cursor past it.
  - `get_locations` fills one slot per declared member with the span of that
    member's value. Unknown members are skipped.
  - `parse_json_class` checks the leading `{`, requires every slot to be
    present (nullable, or a non-empty span), and builds the object from
    `parse_value` applied to each slot in declaration order.
- **The signed-integer parser** (`include/daw/json/impl/daw_signed_int.h`). It
  is a table of 256 handlers indexed by byte, and each handler tail-recurses
  through the table.
- **The construction customisation points and mapping predicates**
  (`include/daw/json/impl/daw_json_traits.h`). These are `construction_result`,
  the `default_constructor` family (generic, `std::array`, `std::vector`),
  `construct_array_cleanup`, `nullable_constructor`, and the
  exact-mapping, ignore-unknown-members and nullability-compatibility
  predicates.

How the model represents the source:

- **Text.** A byte is `Bytes.Byte`, a `char` below 256. The buffer is a
  `Text`, a sequence of bytes.
- **Cursor.** A cursor is an index into the buffer. A scanner that moves the
  cursor returns a `Token`: the span it read and the new cursor.
- **Straight-line code.** `parse_name`, `skip_string`, `skip_other` and the
  value decoders are functions.
- **Loops.** The source's loops are methods with loop invariants, and each is
  proved equal to a specification function:
  - the bracket scan of `skip_class`/`skip_array` (`Scanner.SkipBracketed`);
  - the member-location loop (`JsonParser.GetLocations`), which writes its
    slots into an array as the source writes its `std::array`;
  - the element loop of `construct_array` (`Traits.ConstructArray`).
- **Errors.** A failure the source signals (an exception or a failed
  precondition check) is an `Err` result. Where the source reads `front()`
  of an empty view without a guard, the model also gives an `Err` result,
  `UnexpectedEnd` (see "Left out").
  The four skippers are `noexcept`, so their failed precondition check ends
  the program instead of reaching a caller. Their `Err(InvalidClass)` and
  `Err(InvalidArray)` results stand for that termination: no caller in the
  model handles an error, so it becomes the result of the whole decode. The
  explicit `std::terminate` of `find_name` is `None`. A handler that never
  returns is `Diverges`.
- **Type-level code.** Compile-time choices over types become functions of
  the properties they test. Examples: whether a constructor is invocable with
  some arguments, and whether a class mapping carries a trait.

Files:

- `bytes.dfy`: bytes, and the string-view library routines `trim_left`,
  `find_first_of` and `pop_front`, with their behaviour stated by contract.
- `scanner.dfy`: `parse_name` and the value skippers.
- `scanner_props.dfy`: properties of the bracket scan and of `parse_name`.
- `nesting.dfy`: bracket trees. It proves that the bracket skippers return
  exactly a well-formed object or array.
- `json_parser.dfy`: the member table, `get_locations`, `parse_value` and
  `parse_json_class`.
- `json_props.dfy`: the decode as a fold over the key/value pairs. It covers
  last-occurrence-wins, missing members, and worked objects with nested
  unknown members.
- `signed_int.dfy`: the dispatch-table integer parser.
- `traits.dfy`: the construction strategies and mapping predicates.

Where the code does something other than a JSON reader would be expected to
do, the model follows the code:

- **Bracket skippers stop early.** A reader would be expected to leave the
  cursor past the separator that follows the value, as `skip_string` and
  `skip_other` do. `skip_class` and `skip_array` only check that some
  separator remains, then drop a single byte before trimming
  (`Scanner.BracketedTokenSpec`).
- **Backslash inside strings.** The bracket scan honours a backslash only
  outside quotes. So inside a string, `\"` still ends the string
  (`ScannerProps.EscapedQuoteEndsString`).
- **Empty required string.** An empty string for a required member is
  indistinguishable from a missing member, and fails the decode
  (`JsonParserProps.EmptyRequiredStringMissing`).

## Model

| member | source | states |
|---|---|---|
| Bytes.TrimLeft | include/daw/json/daw_json_link_v3.h:107 | `trim_left` moves the view forward, only within the buffer, to a byte that is not white space, or to the end |
| Bytes.TrimLeftSpaces | include/daw/json/daw_json_link_v3.h:107 | every byte `trim_left` skips is white space |
| Bytes.TrimLeftIdempotent | include/daw/json/daw_json_link_v3.h:106-108 | trimming a trimmed view changes nothing, which is why `parse_name` may skip the trim when the front is already '"' |
| Bytes.FindFirstOf | include/daw/json/daw_json_link_v3.h:148 | `find_first_of` finds, if anything, a position at or after the view's start that holds one of the bytes sought |
| Bytes.FindFirstOfFirst | include/daw/json/daw_json_link_v3.h:148 | no byte before the position found, or no byte at all when nothing is found, is one of the bytes sought |
| Bytes.PopFront | include/daw/json/daw_json_link_v3.h:134 | `pop_front(delim)` returns a prefix of the view; the view then continues just past the delimiter, or is empty when there is none |
| Bytes.PopFrontSpan | include/daw/json/daw_json_link_v3.h:134 | the prefix is the view's own bytes and holds no delimiter |
| Scanner.KeyError | include/daw/json/daw_json_link_v3.h:109-131 | a lower-case letter, a digit, newline, space, ':', tab and ',' each have their own diagnostic, exactly for those bytes, and every other byte is "no quote" |
| Scanner.ParseName | include/daw/json/daw_json_link_v3.h:105-139 | a name read by `parse_name` leaves the cursor strictly further on, within the buffer |
| Scanner.ParseNameSpec | include/daw/json/daw_json_link_v3.h:105-139 | an empty view fails; a front other than '"' fails with that byte's diagnostic; otherwise the name is the bytes after the quote up to the next '"', the closing quote follows it, and the cursor ends just past the first ':' after that quote and its white space, then trimmed; with no ':' left it is at the end |
| ScannerProps.ParseNameWellFormed | include/daw/json/daw_json_link_v3.h:105-139 | every key written as white space, a quoted name, white space, ':', white space is read as exactly that name, with the cursor at what follows |
| ScannerProps.ParseNameAt | include/daw/json/daw_json_link_v3.h:105-139 | on a key laid out at known offsets, `parse_name` returns the name between the quotes and the cursor after the white space that follows the ':' |
| ScannerProps.ParseNameNoWhitespaceDiagnostic | include/daw/json/daw_json_link_v3.h:122-127 | the "newline", "space" and "tab" diagnostics can never be raised, because the view was trimmed just before |
| ScannerProps.ParseNameUnquotedKey | include/daw/json/daw_json_link_v3.h:109-132 | a key starting with a lower-case letter, a digit, ':' or ',' fails with the matching diagnostic |
| Scanner.AfterColon | include/daw/json/daw_json_link_v3.h:135-137 | after the name the cursor never moves back, stays in the buffer, and ends on a non-space or at the end |
| Scanner.AfterColonSpec | include/daw/json/daw_json_link_v3.h:135-137 | the cursor ends just past the first ':' found after the white space, then trimmed; with no ':' left it is at the end of the buffer |
| Scanner.SkipString | include/daw/json/daw_json_link_v3.h:141-154 | a string skip that succeeds leaves the cursor further on, trimmed |
| Scanner.SkipStringSpec | include/daw/json/daw_json_link_v3.h:141-154 | the span is the bytes after the quote up to the next '"'; the skip fails with "Invalid class" exactly when no separator follows; otherwise the cursor ends just past the first separator after that quote, then trimmed |
| Scanner.SkipOther | include/daw/json/daw_json_link_v3.h:156-163 | a bare-value skip that succeeds leaves the cursor further on, trimmed |
| Scanner.SkipOtherSpec | include/daw/json/daw_json_link_v3.h:156-163 | the span is exactly the prefix before the first separator, which is consumed; without a separator the skip fails |
| Scanner.ScanEnd | include/daw/json/daw_json_link_v3.h:171-199 | the bracket scan stops within the buffer, at or after where it started |
| Scanner.Step | include/daw/json/daw_json_link_v3.h:172-198 | one byte of the bracket scan moves the count by at most one, and only a backslash leaves the escape flag set |
| Scanner.Fold | include/daw/json/daw_json_link_v3.h:171-199 | scanning `k` bytes moves the count by at most `k` |
| Scanner.BracketedToken | include/daw/json/daw_json_link_v3.h:165-206 | a bracket skip that succeeds leaves the cursor beyond the bracket and trimmed (its exact position is `BracketedTokenSpec`) |
| Scanner.BracketedTokenSpec | include/daw/json/daw_json_link_v3.h:200-205 | the span runs from the bracket to where the scan stopped; the skip fails exactly when no separator remains; otherwise one byte is dropped and the view trimmed |
| Scanner.SkipBracketed | include/daw/json/daw_json_link_v3.h:165-249 | the shared loop of `skip_class`/`skip_array` computes the bracket token |
| Scanner.ClassToken | include/daw/json/daw_json_link_v3.h:165-206 | `skip_class` fails only with "Invalid class", and a span it returns is a non-empty slice of the buffer starting at the '{' |
| Scanner.ArrayToken | include/daw/json/daw_json_link_v3.h:208-249 | `skip_array` fails only with "Invalid array", and a span it returns is a non-empty slice of the buffer starting at the '[' |
| Scanner.SkipClass | include/daw/json/daw_json_link_v3.h:165-206 | `skip_class` is the bracket skip with '{' and '}' |
| Scanner.SkipArray | include/daw/json/daw_json_link_v3.h:208-249 | `skip_array` is the bracket skip with '[' and ']' |
| Scanner.ValueToken | include/daw/json/daw_json_link_v3.h:251-263 | a value skip that succeeds moves the cursor forward to a trimmed position (what the span is, per skipper, is the three `Spec` lemmas) |
| Scanner.SkipValue | include/daw/json/daw_json_link_v3.h:251-263 | `skip_value` dispatches on the trimmed front: '"' string, '[' array, '{' object, anything else a bare value |
| ScannerProps.FoldSnoc | include/daw/json/daw_json_link_v3.h:171-199 | scanning `s + [c]` is scanning `s`, then one step over `c` |
| ScannerProps.ScanEndFirstZero | include/daw/json/daw_json_link_v3.h:171 | the scan stops at the first zero count: the count is positive after every proper prefix, and zero at the stop unless the buffer ran out |
| ScannerProps.StepLowersOnlyOnClose | include/daw/json/daw_json_link_v3.h:192-196 | only a closing bracket outside quotes and not escaped lowers the count |
| ScannerProps.StepInQuotes | include/daw/json/daw_json_link_v3.h:173-196 | inside quotes, any byte but '"' changes neither the count nor the quote flag |
| ScannerProps.StepEscapes | include/daw/json/daw_json_link_v3.h:173-179 | '\' sets the escape flag only outside quotes and when not already escaped; every other byte clears it |
| ScannerProps.StepQuote | include/daw/json/daw_json_link_v3.h:180-186 | an unescaped '"' toggles the quote flag and nothing else |
| ScannerProps.QuotedRunKeepsDepth | include/daw/json/daw_json_link_v3.h:173-196 | a quoted run without '"' leaves the count alone, brackets included |
| ScannerProps.BracketedSpan | include/daw/json/daw_json_link_v3.h:165-206 | a successful skip's span starts with the opening bracket, ends with the closing bracket that brought the count to zero, and keeps the count positive in between |
| ScannerProps.UnterminatedFails | include/daw/json/daw_json_link_v3.h:171-202 | an object or array whose count never returns to zero fails with the skipper's error |
| ScannerProps.NoSeparatorFails | include/daw/json/daw_json_link_v3.h:148-150 | every skipper fails when no separator follows where it stopped |
| ScannerProps.EscapedQuoteEndsString | include/daw/json/daw_json_link_v3.h:173-186 | in `{"a":"x\"}"}` the object is taken to end at the first '}', which sits inside the string value |
| Nesting.PlainRun | include/daw/json/daw_json_link_v3.h:171-199 | outside quotes at a positive depth, a run of inert bytes leaves the scan state unchanged |
| Nesting.QuotedRun | include/daw/json/daw_json_link_v3.h:171-199 | inside quotes, a run of bytes without '"' keeps the count |
| Nesting.ValueScan | include/daw/json/daw_json_link_v3.h:171-199 | a well-formed value, scanned at a positive depth, returns to that depth without reaching zero on the way |
| Nesting.GroupScan | include/daw/json/daw_json_link_v3.h:171-199 | a nested group raises the count by one and restores it at its closing bracket |
| Nesting.GroupEnd | include/daw/json/daw_json_link_v3.h:171-199 | the scan of a well-formed group stops right after its matching closing bracket |
| Nesting.BracketedTokenOfGroup | include/daw/json/daw_json_link_v3.h:165-249 | for a well-formed object or array followed by a separator, the skipper returns exactly its text and leaves the cursor one byte past it, trimmed |
| Nesting.ArrayExample | include/daw/json/daw_json_link_v3.h:208-249 | `[1,"a,b}c",2]` followed by a comma is skipped as one array, whatever is quoted inside it |
| JsonParser.ToLower | include/daw/json/daw_json_link_v3.h:46-48 | `to_lower` maps 'A'..'Z' to 'a'..'z', keeps lower-case letters, and otherwise adds 32 or nothing |
| JsonParser.ToLowerIsOr | include/daw/json/daw_json_link_v3.h:46-48 | the arithmetic is the bitwise `c \| 0x20` for every byte |
| JsonParser.ToLowerIsT | include/daw/json/daw_json_link_v3.h:282-283 | exactly 't' and 'T' lower to 't' |
| JsonParser.GetItem | include/daw/json/daw_json_link_v3.h:319-323 | entry `N` holds member `N`'s name, parse type and nullability, at position `N` |
| JsonParser.MakeMap | include/daw/json/daw_json_link_v3.h:325-332 | the table has one entry per member, in declaration order |
| JsonParser.FindIf | include/daw/json/daw_json_link_v3.h:335-337 | `find_if` gives the first entry with the key, or the end |
| JsonParser.HasName | include/daw/json/daw_json_link_v3.h:334-339 | `has_name` holds exactly when some entry has the key |
| JsonParser.FindName | include/daw/json/daw_json_link_v3.h:341-350 | `find_name` finds an index exactly when `has_name` holds, and it is the first entry with the key |
| JsonParser.FindNameInMap | include/daw/json/daw_json_link_v3.h:325-350 | on a schema's table, `find_name` gives the position of the first member with that name |
| JsonParser.ValuePos.Present | include/daw/json/daw_json_link_v3.h:91-93 | a nullable member is always present; a required one exactly when its span is not empty |
| JsonParser.Initial | include/daw/json/daw_json_link_v3.h:362-363 | each slot starts with an empty span and its member's nullability |
| JsonParser.Locations | include/daw/json/daw_json_link_v3.h:361-376 | the location loop keeps one slot per member, and never changes a slot's nullability |
| JsonParser.GetLocations | include/daw/json/daw_json_link_v3.h:361-376 | the array loop of `get_locations` computes `Locations` from the initial slots |
| JsonParser.DecodeValue | include/daw/json/daw_json_link_v3.h:265-308 | integers go through the integer parser, floats give the stub value, a bool on an empty span (where the source reads `front()` of an empty view) fails in the model, and is otherwise true exactly for 't'/'T', a string is its raw span, and every result has its member's shape |
| JsonParser.DecodeMembers | include/daw/json/daw_json_link_v3.h:352-359 | the member values are one per member, in order, each of its member's shape |
| JsonParser.ClassStart | include/daw/json/daw_json_link_v3.h:387-390 | an empty trimmed view fails, a front other than '{' fails, otherwise the members start past '{' and white space |
| JsonParser.AllPresent | include/daw/json/daw_json_link_v3.h:395-398 | the check passes exactly when no required member has an empty span |
| JsonParser.Construct | include/daw/json/daw_json_link_v3.h:394-400 | a slot not present fails with the missing-member error; a built object has its schema's shape |
| JsonParser.DecodeClass | include/daw/json/daw_json_link_v3.h:378-401 | a bad start fails with its error, and a decoded object has its schema's shape |
| JsonParser.ParseJsonClass | include/daw/json/daw_json_link_v3.h:378-401 | `parse_json_class` with the location loop computes `DecodeClass` |
| JsonParserProps.Apply | include/daw/json/daw_json_link_v3.h:366-373 | binding the pairs keeps one slot per member |
| JsonParserProps.LocationsIsApply | include/daw/json/daw_json_link_v3.h:361-376 | the location loop is the key/value pairs it reads, bound in order, and it fails exactly when reading them fails |
| JsonParserProps.ApplyUntouched | include/daw/json/daw_json_link_v3.h:367-372 | a slot no key resolves to keeps its initial contents |
| JsonParserProps.ApplyLast | include/daw/json/daw_json_link_v3.h:371-372 | the last pair whose key resolves to a slot decides its span |
| JsonParserProps.AbsentRequiredMemberFails | include/daw/json/daw_json_link_v3.h:394-398 | a non-nullable member whose key never occurs fails the decode with the missing-member error |
| JsonParserProps.LastOccurrenceDecoded | include/daw/json/daw_json_link_v3.h:371-400 | a member whose key occurs is decoded from the span of its last occurrence |
| JsonParserProps.ConstructField | include/daw/json/daw_json_link_v3.h:400 | field `n` of a built object is the value decoder applied to slot `n` |
| JsonParserProps.MembersAt | include/daw/json/daw_json_link_v3.h:352-359 | value `n` of the member values is the decoder applied to slot `n` |
| JsonParserProps.DecodeClassByPairs | include/daw/json/daw_json_link_v3.h:378-401 | once the start and the pairs are known, the decode is construction from the pairs bound in order |
| JsonParserProps.UnknownMemberIgnored | include/daw/json/daw_json_link_v3.h:366-370 | `{"a":1,"zzz":{"nested":[1,2,[3]]},"b":2}` decodes against a schema of `a` and `b` from the spans "1" and "2" |
| JsonParserProps.UnknownMemberValue | include/daw/json/daw_json_link_v3.h:165-206 | the unknown member's nested object is skipped as one value |
| JsonParserProps.RequiredMemberMissing | include/daw/json/daw_json_link_v3.h:394-398 | a required member missing from `{"y":1}` fails the decode |
| JsonParserProps.NullableMemberMissing | include/daw/json/daw_json_link_v3.h:91-93 | the same member, marked nullable, decodes with the parser seeing the empty span |
| JsonParserProps.NullableBoolMissingFails | include/daw/json/daw_json_link_v3.h:278-284 | a missing nullable bool is not given a default: the source's bool decoder reads `front()` of the empty span, and the model fails there with `UnexpectedEnd` |
| JsonParserProps.EmptyRequiredStringMissing | include/daw/json/daw_json_link_v3.h:91-93 | an empty string for a required string member counts as missing and fails |
| SignedInt.Table | include/daw/json/impl/daw_signed_int.h:88-108 | the 256-entry table holds `dig` exactly for '0'..'9', `neg` exactly for '-', `pos` exactly for '+', and `ret` for every other byte |
| SignedInt.Parse | include/daw/json/impl/daw_signed_int.h:114-117 | the call operator dispatches on the caller's index with sign true; a parse that returns leaves the pointer where it was or further on, within the buffer and its terminator |
| SignedInt.Handle | include/daw/json/impl/daw_signed_int.h:64-117 | a call through the table that returns leaves the pointer where it was, or further on within the buffer and its terminator |
| SignedInt.RetHandler | include/daw/json/impl/daw_signed_int.h:64-67 | `ret` returns without moving the pointer |
| SignedInt.DigHandler | include/daw/json/impl/daw_signed_int.h:69-75 | `dig` always advances the pointer |
| SignedInt.NegHandler | include/daw/json/impl/daw_signed_int.h:77-81 | `neg` always advances the pointer |
| SignedInt.PosHandler | include/daw/json/impl/daw_signed_int.h:83-86 | `pos` on a '+' never returns |
| SignedInt.DecimalValue | include/daw/json/impl/daw_signed_int.h:69-75 | a run of `k` digits has a value below 10^k |
| SignedInt.AccumulateValue | include/daw/json/impl/daw_signed_int.h:69-75 | folding a digit run as `dig` does, `n*10 + d` per digit, gives `n * 10^k` plus the run's decimal value |
| SignedInt.DigitFold | include/daw/json/impl/daw_signed_int.h:69-75 | dispatching on a digit run folds the whole run into the accumulator, then dispatches on the byte after it, with the sign unchanged |
| SignedInt.ParseDigits | include/daw/json/impl/daw_signed_int.h:64-75 | on a digit run ended by a `ret` byte, the parser returns the caller's accumulator shifted by the run's length plus the run's decimal value, with the pointer just past the run |
| SignedInt.ParseNegative | include/daw/json/impl/daw_signed_int.h:77-81 | dispatched on '-', the parser discards the accumulator and returns the negated value of the digit run after it |
| SignedInt.ParseStops | include/daw/json/impl/daw_signed_int.h:64-67 | an index whose handler is `ret` returns the caller's accumulator and consumes nothing |
| SignedInt.ParsePlus | include/daw/json/impl/daw_signed_int.h:83-86 | dispatched on '+' with a '+' under the pointer, the parser never returns |
| SignedInt.DigitsThenPlus | include/daw/json/impl/daw_signed_int.h:69-86 | a '+' after a digit run makes the parse diverge as well |
| SignedInt.DecimalFitsIntmax | include/daw/json/impl/daw_signed_int.h:69-75 | a run of at most 18 digits stays below 2^63 |
| SignedInt.NegativeExampleValue | include/daw/json/impl/daw_signed_int.h:122 | "-12345" dispatched on '-' gives -12345 |
| SignedInt.SignInsideExampleValue | include/daw/json/impl/daw_signed_int.h:77-81 | "12-3" gives -3, because `neg` discards the digits already read |
| SignedInt.SignedCharIndex | include/daw/json/impl/daw_signed_int.h:74 | where `char` is signed, `static_cast<size_t>(*c)` keeps bytes below 0x80 and sends a byte `b` of 0x80 or more to 2^64 - (256 - `b`) |
| SignedInt.HighByteIndexOutsideTable | include/daw/json/impl/daw_signed_int.h:74 | as written, the lead byte 0xC3 of 'é' gives the index 0xFFFFFFFFFFFFFFC3, and every byte of 0x80 or more gives an index past the 256 entries |
| SignedInt.HighByteEndsNumber | include/daw/json/impl/daw_signed_int.h:69-75 | read as an unsigned byte, a byte of 0x80 or more after a digit run is `ret`: the parse returns the run's value and stops on it |
| Traits.SelectConstructionResult | include/daw/json/impl/daw_json_traits.h:79-97 | a type is selected exactly when the constructor accepts the arguments, and, for a nullable member, no arguments too; it is the zero-argument result when nullable and the result with the arguments otherwise; each failure carries the marker of its kind, with the arguments it was tried with: none for a nullable member whose constructor accepts the arguments but not an empty call, the arguments themselves otherwise |
| Traits.SelectDefaultConstruction | include/daw/json/impl/daw_json_traits.h:193-223 | no arguments value-initialise; otherwise parentheses exactly when constructible, and braces exactly when not constructible but list-constructible; at most one overload is viable |
| Traits.CleanupAdvance | include/daw/json/impl/daw_json_traits.h:245-263 | the cleanup moves the iterator by at most one, and moves it exactly when evaluated at compile time or when no exception is in flight |
| Traits.ArrayOf | include/daw/json/impl/daw_json_traits.h:278-297 | the array built for `Sz` slots has `Sz` elements |
| Traits.ArrayOfElements | include/daw/json/impl/daw_json_traits.h:278-297 | element `i` of the `Sz`-element array is source element `i` while there is one, and `T{}` after |
| Traits.ArrayOfPrefix | include/daw/json/impl/daw_json_traits.h:278-297 | a source of at least `Sz` elements gives its first `Sz`; a shorter one is padded with `T{}` |
| Traits.ConstructArray | include/daw/json/impl/daw_json_traits.h:278-297 | `construct_array` builds that array and consumes `min(Sz, last - first)` source elements, in order, on the move and on the copy path |
| Traits.ConstructVector | include/daw/json/impl/daw_json_traits.h:320-337 | both branches hold exactly the elements of `[first, last)` in order; only the input-iterator, `std::allocator` branch reserves, `4096 / (sizeof(T) * 8)` elements |
| Traits.VectorBranchesAgree | include/daw/json/impl/daw_json_traits.h:324-336 | the direct and the reserve-then-assign branches give the same elements, element `i` being source element `first + i` |
| Traits.ReserveAmount | include/daw/json/impl/daw_json_traits.h:330 | the reservation `4096 / (sizeof(T) * 8)` is at most 512 elements |
| Traits.ReserveAmountBounds | include/daw/json/impl/daw_json_traits.h:330 | the reservation fits in 4096 bytes, and it is empty exactly for elements larger than 512 bytes |
| Traits.ReserveAmountExamples | include/daw/json/impl/daw_json_traits.h:330 | 1-, 4- and 8-byte elements reserve 512, 128 and 64 slots |
| Traits.NullableConstruct | include/daw/json/impl/daw_json_traits.h:357-378 | the call with no arguments (a JSON null) builds the empty state, exactly then, and a call with arguments builds a value from exactly those arguments |
| Traits.IgnoreUnknownMembers | include/daw/json/impl/daw_json_traits.h:560-564 | unknown members are ignored when the trait is specialised or the contract names `ignore_unknown_members`, and only then |
| Traits.IsExactClassMapping | include/daw/json/impl/daw_json_traits.h:566-575 | a mapping is exact when the variable is specialised to true for the class, or, with no specialisation, when its contract names `exact_class_mapping`, and in no other case |
| Traits.AllMembersMustExist | include/daw/json/impl/daw_json_traits.h:578-582 | ignoring unknown members, by either route, rules out an exact mapping; otherwise the mapping is exact when the class asks for it, by either route, or the policy defaults to it |
| Traits.IsNullabilityCompatible | include/daw/json/impl/daw_json_traits.h:584-588 | the only incompatible pairs are a must-exist class with a member that may be null |

## Left out

- Floating-point numbers: the float branch of `parse_value` is a stub returning `0.12345` (`daw_json_link_v3.h:269-271`). It is modelled as a constant, and no float is parsed.
- Dates: the date branch returns `T{}` (`daw_json_link_v3.h:296-300`). It is modelled as a default value.
- Integer members: `parser::parse_int`, the library integer parser that integer members of the decoder call, is not part of this model. It is a parameter `parseInt`. The table-driven parser of `daw_signed_int.h` is modelled on its own.
- `construct_a`: it is not part of this model. An object is modelled as the list of its member values in declaration order.
- `trim_left`, `find_first_of`, `pop_front` and `find_if`/`all_of`: these library routines are not part of this model. Each is given the behaviour its name promises. The white-space set of `trim_left` is taken as the six ASCII white-space bytes.
- `static_assert(can_construct_a_v<...>)` in `parse_json_class`: this compile-time check has no runtime behaviour.
- `std::terminate` in `find_name` is the `None` result. The caller only reaches it after `has_name` holds, so the model never takes it.
- SignedInt.Handle: does not model `intmax_t` overflow in `dig` (undefined behaviour in C++). The accumulator is an unbounded integer, and `DecimalFitsIntmax` gives the digit count up to which no overflow occurs.
- SignedInt.Handle: the index is a byte (0 to 255). An index of 256 or more is not modelled. It can come from the caller's `size_t` argument, or from `dig`, `neg` and `pos` re-dispatching on a byte of 0x80 or more where `char` is signed (see Findings). What `daw::function_table_t` does with such an index is not part of this model.
- SignedInt.DigHandler: reads every byte as unsigned, so after a digit or a sign a byte of 0x80 or more is `ret` and the parse stops there. Where `char` is signed the source instead computes an index near 2^64 for that byte (`SignedInt.SignedCharIndex`).
- SignedInt.PosHandler: the non-terminating recursion of `pos` on a '+' is the `Diverges` outcome, not a consumed sign.
- Scanner.SkipString: the source's `noexcept` turns its failed "Invalid class" check into program termination; the model reports it as `Err(InvalidClass)`, which every caller passes up unchanged but does not mark as termination.
- Scanner.SkipOther: likewise `noexcept`; its "Invalid class" termination is reported as `Err(InvalidClass)`.
- Scanner.BracketedToken: `skip_class` and `skip_array` are likewise `noexcept`; their "Invalid class" / "Invalid array" termination is reported as `Err(InvalidClass)` / `Err(InvalidArray)`.
- `front()` of an empty view (`daw_json_link_v3.h:106`, 253, 282, 387): the source reads it with no guard, and what it does belongs to `daw::string_view`, which is not part of this model. The model reports `Err(UnexpectedEnd)` there.
- JsonParserProps.NullableBoolMissingFails: the failure it states is the model's `Err(UnexpectedEnd)` for the source's `front()` of an empty `value_str` (`daw_json_link_v3.h:282`). What the source does there is library behaviour that is not shown.
- Reading past the end of the `signed_parser` buffer: it is modelled as reading the NUL terminator of a C string.
- Exceptions thrown while copying elements in `construct_array` or `std::vector` construction are not modelled. The cleanup function states the `uncaught_exceptions` rule on its own.
- Traits.ConstructVector: the capacity after `assign` is library-defined, so only the amount reserved before it is stated.
- Allocators and iterator categories: these are booleans (random access, `std::allocator`) and an element size, not types.
- The `sv_orig` argument of `parse_item` is unused by the source and is not modelled.
- Type-level detectors (`has_op_*`, `is_string_view_like_v`, `tuple_elements_pack`, `copy_name_when`, the policy-option aliases, `is_zero_terminated_string_v`, `can_single_allocation_string_v`, `is_pointer_like_v`, `json_data_contract` lookup): these are pure metaprogramming with no runtime behaviour.
- Argument evaluation order in `construct_a`: the model decodes members in declaration order. With no errors the results are the same, but if several members fail, the error reported is that of the first in the model.
- Test programs, the fuzz harness, and the macro-only headers `daw_json_defs.h` and `version.h`: they are not part of this model.

## Findings

| source | as written | input that shows it | evidently intended | confidence | as-written member | corrected member |
|---|---|---|---|---|---|---|
| include/daw/json/impl/daw_signed_int.h:74 | `dig`, `neg` and `pos` index the 256-entry table with `static_cast<size_t>(*c)` of a plain `char`; where `char` is signed, a byte of 0x80 or more becomes an index near 2^64 | `"12é"`: after the '2', the byte 0xC3 gives the index 0xFFFFFFFFFFFFFFC3 | index by the unsigned byte value, so that such a byte is `ret` and the parse stops with 12 | medium, not executed; depends on the platform's `char` signedness and on how `daw::function_table_t` treats an index past 255 | SignedInt.HighByteIndexOutsideTable | SignedInt.HighByteEndsNumber |
