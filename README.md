# packet_repackage, modelled in Dafny

packet_repackage is a bridge-mode packet rewriter. Packets diverted to an
NFQUEUE are parsed. The values of configured *fields* (byte ranges at fixed
offsets, or built-in header fields) are extracted. The *rules* are then tried
in priority order: each has a match condition over the field values, a list
of actions that rewrite them, and output options. The first rule whose
condition holds is executed. The packet is reassembled from the original
bytes and the new field values and handed back to the kernel with an accept
verdict. Beside the engine the server configures VLAN interfaces, builds
`nft` commands from low-level firewall rules and parses the queue list. The
web front end has an HTTP client table and a route table.

This project models that core, one Dafny module per source file:

- `Parser` (`server/engine/parser.go`): the packet context, field
  extraction, `bytesToDecimal`, value formatting and comparison, and the
  hex dump.
- `Evaluator` (`server/engine/evaluator.go`): the condition language, with
  `||`, `&&`, `!`, parentheses, and `==`/`!=` comparisons against quoted
  literals.
- `Executor` (`server/engine/executor.go`): `set`, the int64 arithmetic
  operations and `shell` actions.
- `Repackager` (`server/engine/repackager.go`): field segments, value
  encoding, reassembly and output options.
- `Handler` (`server/nfqueue/handler.go`): what one queued packet turns into.
  That is the verdicts issued, the log entry written, and whether the code
  panics.
- `Bridge` (`server/network/bridge.go`) and `LegacyBridge`
  (`doc/code/vlan/bridge.go`): trunk-list parsing, interface-list merging,
  and the effect of adding and removing VLAN interfaces on the `vlan_config`
  table. `combineAndSortStrings` in `doc/code/vlan/bridge.go` (lines
  252-278) is the same code as the server's (`server/network/bridge.go`
  lines 360-379), so `LegacyBridge` reuses `Bridge.Combined` through
  `Bridge.Merged` and its lemmas cover both files.
- `NftManager` (`server/network/nftmanager.go`): the `nft add rule` command
  of a rule, the rule summary, and applying the enabled rules.
- `QueueDefs` (`server/main.go`): `parseQueueDefs`.
- `Api` (`web/src/api/index.js` with the routes of `server/main.go`): the
  request each client call issues, and the server route that serves it.
- `Router` (`web/src/router/index.js`): the view each path shows.

The helper modules `GoText`, `Values`, `GoSort` and `Wrappers` model the Go
library behaviour the core relies on. `GoText` covers `strings.TrimSpace`,
`Split`, `Join`, strconv parsing and formatting, and hex encoding. `Values`
covers `interface{}` values and int64 wrap-around. `GoSort` covers
`sort.Strings`. `Wrappers` holds `Option` and `Result`.

Loops of the source are methods. Each is proved to compute a specification
function, and the properties are proved as lemmas about that function.
State that the source changes in place is a class. These are
`Parser.PacketContext` (the field map that actions rewrite) and
`Bridge.VlanTable` (the VLAN table rows). Go strings are sequences of
characters, one per byte.

Two front-end behaviours follow the code as written. First, a path outside
the route table shows no view, because the table has no catch-all route
(`Router.OnlyDeclaredPathsResolve`). Second, the model of `clear logs`
always sends a `days` parameter, carrying the value it is given; axios
leaves out a `days` that is undefined, which the model does not capture
(see `Api.ApplyAndClear` under "Left out").

Field offsets and lengths are 64-bit Go `int`s and may be negative. Go's
run-time panics that the engine can reach are error values: `SliceOutOfRange`
for a slice whose bounds are out of order or out of range, and
`LenOutOfRange` for `make` with a negative length. The packet handler has no
`recover`, so such a panic ends the packet callback (`panicked` in
`Handler.Outcome`).

## Model

| member | source | states |
|---|---|---|
| Parser.PacketContext.constructor | server/engine/parser.go:61-64 | a fresh context holds the packet and an empty field map |
| Parser.ParsePacket | server/engine/parser.go:56-77 | an empty packet is the error "empty packet"; otherwise the decoder is IPv4 exactly when the first byte's high nibble is 4 and IPv6 exactly when it is 6, else Ethernet, and the layers are that decoder's |
| Parser.TupleText | server/engine/parser.go:52 | the 5-tuple text starts with the source address and a colon and ends with the bracketed protocol |
| Parser.TupleTextWords | server/engine/parser.go:52 | for addresses and a protocol without blanks, the text splits at blanks into exactly "src:port", "->", "dst:port" and "[proto]" |
| Parser.TupleTextAddress | server/engine/parser.go:52 | for an address without a colon and a port up to 65535, "ip:port" splits at the colon into the address and the port's text, which parses back to the port |
| Parser.Get5Tuple | server/engine/parser.go:27-53 | "Non-IP Packet" without an IPv4 layer; with a source address, the text starts with it and ends with the protocol, TCP or UDP taking precedence over the IPv4 protocol name |
| Parser.BigEndianBound | server/engine/parser.go:162-180 | the big-endian value of n bytes is below 256^n |
| Parser.DecimalOf | server/engine/parser.go:162-180 | `bytesToDecimal`: the big-endian value wrapped into int64, for every length |
| Parser.DecimalExact | server/engine/parser.go:162-180 | for at most 7 bytes nothing wraps: the result is exactly the big-endian value |
| Parser.Wrap64Shift | server/engine/parser.go:176 | shifting the wrapped accumulator and or-ing a byte agrees, modulo 2^64, with doing it on the unbounded value |
| Parser.BytesToDecimal | server/engine/parser.go:162-180 | the length switch and the shift-or loop both compute `DecimalOf` |
| Parser.ExtractBuiltinField | server/engine/parser.go:130-160 | a builtin field is a non-nil value or the error "builtin field not available" |
| Parser.ExtractField | server/engine/parser.go:102-128 | a non-builtin field gets the "invalid offset/length" error exactly when offset < 0 or the int64-wrapped offset + length exceeds the packet; past that check it panics exactly when the wrapped end lies below the offset; a success has a non-negative length inside the packet and is never nil |
| Parser.NegativeLengthPanics | server/engine/parser.go:112-116 | a negative length whose end still passes the bounds check makes the slice `raw[offset:offset+length]` panic |
| Parser.WrappedEndPanics | server/engine/parser.go:112-116 | an offset + length above the largest int64 wraps negative, passes the bounds check and makes the slice panic |
| Parser.ExtractionPanicsSnoc | server/engine/parser.go:184-192 | one more field makes the loop panic exactly when that field panics or an earlier one did |
| Parser.ExtractFieldReadsOnlyItsSlice | server/engine/parser.go:116-127 | two packets that agree on a field's bytes give that field the same value |
| Parser.HexFieldDecodes | server/engine/parser.go:118-127 | a "hex" or unknown-type field is the hex encoding of its bytes: decoding it gives the bytes back |
| Parser.StringFieldTrimsNul | server/engine/parser.go:123-124 | a "string" field is its bytes with the trailing NUL bytes, and only those, removed |
| Parser.DecimalFieldExact | server/engine/parser.go:121-122 | a "decimal" field of at most 7 bytes is the int64 of its big-endian value |
| Parser.ExtractedFieldsKeys | server/engine/parser.go:183-193 | after `ExtractAllFields` every defined name has an entry and no other key is added |
| Parser.ExtractedFieldsUntouched | server/engine/parser.go:184-192 | a key no definition names keeps its value |
| Parser.ExtractedFieldsLastWins | server/engine/parser.go:185-191 | a name holds the value of its last definition, or nil when that extraction failed |
| Parser.ExtractAllFields | server/engine/parser.go:183-194 | the loop panics exactly when some field's slice panics, and then stops at the first such field with the fields before it written; otherwise it leaves the context's field map as `ExtractedFields` of the old map |
| Parser.CompareFieldValueRules | server/engine/parser.go:215-253 | nil never matches; hex compares lower-cased, space-free strings; decimal needs an int64 and a parseable literal; string strips surrounding quotes from the literal |
| Parser.HexCompareIgnoresCaseAndSpaces | server/engine/parser.go:221-229 | a hex comparison gives the same answer on the normalised texts |
| Parser.LowerRemoveIdempotent | server/engine/parser.go:227-228 | normalising a hex text twice is normalising it once |
| Parser.DecimalMatchesItsText | server/engine/parser.go:231-240 | an int64 matches its own decimal text |
| Parser.FormattedNumberCompares | server/engine/parser.go:197-253 | a hex string or an int64 matches the text `FormatFieldValue` shows for it |
| Parser.FormattedStringCompares | server/engine/parser.go:207-249 | a string of printable runes in any script, without double quotes or backslashes, matches its `%q` text |
| Parser.DecodeRune | server/engine/parser.go:207-208 | `utf8.DecodeRuneInString`: a valid rune and a width of 1 to 4 bytes; width 1 only for an ASCII byte or the error rune U+FFFD |
| Parser.EncodeRune | server/engine/parser.go:207-208 | the UTF-8 encoding of a valid rune is 1 to 4 bytes long |
| Parser.DecodeEncodeRune | server/engine/parser.go:207-208 | decoding the encoding of any valid rune, whatever follows it, gives the rune and consumes exactly its bytes |
| Parser.LowHex | server/engine/parser.go:207-208 | `\x`, `\u` and `\U` escapes use exactly the requested number of hex digits |
| Parser.FormatNilAndDefault | server/engine/parser.go:196-212 | nil formats as "<not available>" for every field type; a type other than hex, decimal and string formats with `%v` |
| Parser.FormatHexValue | server/engine/parser.go:203-204 | `%s`: a string shows as itself, an integer as the bad-verb text "%!s(int64=n)" or "%!s(int=n)" |
| Parser.FormatDecimalValue | server/engine/parser.go:205-206 | `%d`: an int64 shows as decimal text that parses back to it, a string as "%!d(string=s)" |
| Parser.FormatStringValue | server/engine/parser.go:207-208 | `%q`: a string is shown between double quotes, an integer between single quotes, and a printable rune other than the quote and the backslash as its own UTF-8 |
| Parser.QuoteBodyPrintable | server/engine/parser.go:207-208 | `strconv.Quote` writes printable runes other than the double quote and the backslash unchanged |
| Parser.EncodeRunesNoQuote | server/engine/parser.go:207-208 | encoded runes other than the double quote contain no double-quote byte |
| Parser.QuoteKeepsAccent | server/engine/parser.go:207-208 | `%q` of "é" (C3 A9) is "é" between quotes, not an escape |
| Parser.QuoteEscapesStrayByte | server/engine/parser.go:207-208 | `%q` of the lone byte FF is `"\xff"` |
| Parser.QuoteRunePrintable | server/engine/parser.go:207-208 | `%q` of the integer 200 is 'È' (C3 88) |
| Parser.QuoteRuneControl | server/engine/parser.go:207-208 | `%q` of the integer 128, a control character, is `'\u0080'` |
| Parser.QuoteRuneInvalid | server/engine/parser.go:207-208 | `%q` of -1, not a rune, is U+FFFD between single quotes |
| Parser.TrimQuotes | server/engine/parser.go:248 | stripping the surrounding quotes gives back a quote-free literal |
| Parser.NatToHexShort | server/engine/parser.go:261 | an offset below 0x10000 has at most four hex digits, so `%04x` pads it to exactly four |
| Parser.Hex4 | server/engine/parser.go:261 | `%04x`: at least four characters |
| Parser.HexCell | server/engine/parser.go:265-269 | a hex cell is always three characters |
| Parser.HexColumn | server/engine/parser.go:264-273 | j cells take 3·j characters plus the extra space once past the eighth |
| Parser.AsciiColumn | server/engine/parser.go:279-291 | the ASCII column has one character per position |
| Parser.DumpLines | server/engine/parser.go:259-293 | one line per started block of 16 bytes, the k-th for offset 16·k |
| Parser.HexColumnNoNewline | server/engine/parser.go:264-273 | the hex column holds no newline |
| Parser.AsciiColumnNoNewline | server/engine/parser.go:279-291 | the ASCII column holds no newline: bytes outside 32..126 show as `.` |
| Parser.DumpLineNewlines | server/engine/parser.go:260-292 | each line holds exactly one newline |
| Parser.ConcatNewlines | server/engine/parser.go:259-294 | the lines together hold one newline each |
| Parser.DumpNewlines | server/engine/parser.go:257-295 | the dump of n bytes holds exactly ceil(n/16) newlines |
| Parser.AsciiColumnAt | server/engine/parser.go:279-291 | position k of the ASCII column shows byte i + k, or a space past the end |
| Parser.DumpLineLayout | server/engine/parser.go:260-292 | a line is 74 characters, starts with the 4-digit offset, and shows byte i + j at column 57 + j |
| Parser.HexColumnSnoc | server/engine/parser.go:264-273 | one more cell extends the hex column by that cell and, after the eighth, a space |
| Parser.AppendHexCell | server/engine/parser.go:265-272 | one pass writes the cell and, after the eighth, the extra space |
| Parser.AppendHexColumn | server/engine/parser.go:264-273 | the inner loop appends exactly the 16-cell hex column |
| Parser.HexColumnAppend | server/engine/parser.go:264-273 | appending one pass's output keeps the loop's text equal to the column so far |
| Parser.AppendAsciiColumn | server/engine/parser.go:279-291 | the inner loop appends exactly the ASCII column |
| Parser.AppendLine | server/engine/parser.go:260-292 | one outer pass appends exactly one dump line |
| Parser.HexDump | server/engine/parser.go:257-295 | the builder ends holding the concatenation of `DumpLines` |
| Evaluator.Segments | server/engine/evaluator.go:116-143 | the pieces the splitter's scan produces, at least one |
| Evaluator.JoinSegments | server/engine/evaluator.go:122-139 | joining the scanned pieces with the operator gives back the scanned text exactly |
| Evaluator.SegmentsShorter | server/engine/evaluator.go:122-139 | no piece is longer than the text, and when there are several each is shorter by at least the operator's length |
| Evaluator.SplitByOperatorSpec | server/engine/evaluator.go:116-150 | the parts `splitByOperator` returns: never empty, and when there are several each is strictly shorter than the input, so the recursive evaluation terminates |
| Evaluator.SplitJoinsBack | server/engine/evaluator.go:122-143 | joining the parts with the operator gives the input back, or the input minus a trailing operator whose empty last part was dropped |
| Evaluator.NoTopLevelNoSplit | server/engine/evaluator.go:122-139 | with no operator occurrence at parenthesis depth 0 the scan yields a single piece |
| Evaluator.TopLevelSplits | server/engine/evaluator.go:131-134 | an operator occurrence at depth 0 always cuts the text |
| Evaluator.SingleSegmentIsText | server/engine/evaluator.go:141-147 | a single piece is the whole text |
| Evaluator.SplitSingleIffNoTopLevel | server/engine/evaluator.go:116-150 | no depth-0 occurrence gives exactly `[expr]`; a depth-0 occurrence with text after it gives more than one part |
| Evaluator.SegmentsSingleSplit | server/engine/evaluator.go:131-143 | a cut whose second piece is empty lies at the very end of the text |
| Evaluator.SplitFinish | server/engine/evaluator.go:141-149 | after the scan, keeping a non-empty last piece and falling back to `[expr]` gives `splitByOperator`'s result |
| Evaluator.SplitByOperator | server/engine/evaluator.go:116-150 | the loop with its depth counter, builder and part list returns exactly `SplitByOperatorSpec` |
| Evaluator.WordEnd | server/engine/evaluator.go:82-83 | the end of the maximal run of `\w` characters from a position |
| Evaluator.SpaceEnd | server/engine/evaluator.go:82-83 | the end of the maximal run of `\s` characters from a position |
| Evaluator.QuoteEnd | server/engine/evaluator.go:82-83 | the first quote at or after a position (the end of `[^"]*`), or the end of the text |
| Evaluator.MatchAt | server/engine/evaluator.go:82-95 | a match of `(\w+)\s*op\s*"([^"]*)"` starting at one position: a non-empty word-character field name and a quote-free value |
| Evaluator.FindMatch | server/engine/evaluator.go:85-95 | the leftmost match anywhere in the text (the search is not anchored) |
| Evaluator.FindMatchLeftmost | server/engine/evaluator.go:85-95 | the search returns the match at the first position where one starts |
| Evaluator.FindMatchNone | server/engine/evaluator.go:85-97 | the search finds nothing exactly when no position starts a match |
| Evaluator.NoOperatorNoMatch | server/engine/evaluator.go:82-95 | text without the operator matches nowhere |
| Evaluator.FieldMap | server/engine/evaluator.go:17-21 | the names of the field map are exactly the names of the field list |
| Evaluator.BuildFieldMap | server/engine/evaluator.go:18-21 | the loop builds exactly `FieldMap`, later definitions of a name overriding earlier ones |
| Evaluator.CompareField | server/engine/evaluator.go:100-113 | an error exactly when the field is not defined; otherwise `CompareFieldValue` of the field's current value, negated for `!=` |
| Evaluator.WrappedLength | server/engine/evaluator.go:70-71 | a text starting with `(` and ending with `)` has at least two characters, so the interior is well defined |
| Evaluator.PartResults | server/engine/evaluator.go:33-34 | the results of evaluating each part, in order |
| Evaluator.Condition | server/engine/evaluator.go:12-25 | a blank condition is true |
| Evaluator.EvaluateCondition | server/engine/evaluator.go:12-25 | the method returns `Condition` of the context's fields |
| Evaluator.BlankConditionMatches | server/engine/evaluator.go:13-15 | a blank or whitespace-only condition is true whatever the field values |
| Evaluator.CombineNoneDecides | server/engine/evaluator.go:33-42 | the loop over part results yields the non-deciding value exactly when every part yields it |
| Evaluator.CombineFirstDecides | server/engine/evaluator.go:33-42 | the loop stops at the first part that errs or decides and returns its result |
| Evaluator.OrNone | server/engine/evaluator.go:31-43 | an OR is false exactly when every part is false |
| Evaluator.OrFirst | server/engine/evaluator.go:33-41 | an OR returns the result of its first part that is true or errs |
| Evaluator.AndNone | server/engine/evaluator.go:46-58 | an AND without a top-level `||` is true exactly when every part is true |
| Evaluator.AndFirst | server/engine/evaluator.go:48-56 | an AND returns the result of its first part that is false or errs |
| Evaluator.NotNegates | server/engine/evaluator.go:60-67 | without a top-level `||` or `&&`, a leading `!` negates the rest and passes its error through |
| Evaluator.ParensEvaluateInterior | server/engine/evaluator.go:69-72 | otherwise `(`…`)` evaluates as its interior |
| Evaluator.MatchComparisonText | server/engine/evaluator.go:82-88 | the comparison `name op "value"` is found with that name and value |
| Evaluator.ComparisonTextScan | server/engine/evaluator.go:82-83 | the pattern's field, space and value runs end where the comparison text puts them |
| Evaluator.QuoteEndAfter | server/engine/evaluator.go:82-83 | `[^"]*` stops at the closing quote of a quote-free value |
| Evaluator.NoEqualsInNotEqual | server/engine/evaluator.go:85-95 | an `!=` comparison is not misread by the `==` pattern |
| Evaluator.ComparisonTextUnsplit | server/engine/evaluator.go:31-58 | a plain comparison is not split by `||` or `&&` |
| Evaluator.NoOperatorNoSplit | server/engine/evaluator.go:145-147 | text without the operator's first character stays whole |
| Evaluator.ComparisonTextEvaluates | server/engine/evaluator.go:27-95 | a plain comparison evaluates as `compareField` of its name and value |
| Evaluator.NotEqualNegatesEqual | server/engine/evaluator.go:85-112 | for a defined field, `f != "v"` is exactly the negation of `f == "v"` |
| Evaluator.UndefinedFieldIsError | server/engine/evaluator.go:101-104 | a comparison on an undefined field is the error "field not found" |
| Evaluator.UnmatchedTextIsError | server/engine/evaluator.go:74-97 | text that matches neither comparison form is the error "invalid comparison expression" |
| Executor.TruncDivRemainder | server/engine/executor.go:107 | Go's integer division truncates toward zero: the remainder is smaller than the divisor in magnitude and is zero or has the dividend's sign |
| Executor.CurrentNumber | server/engine/executor.go:72-87 | the current value converts exactly when it is an int64, an int, or a string that parses as a base-10 int64; the number is then that value, and otherwise the error says whether a string failed to parse or the type is unsupported |
| Executor.PerformArithmetic | server/engine/executor.go:71-111 | succeeds exactly when the current value converts, the operand parses, the operation is one of add, sub, mul and div, and a division is not by zero; the result is then an int64, and each failure reports the first check that fails |
| Executor.ArithmeticValue | server/engine/executor.go:95-107 | a successful add, sub, mul or div stores the exact sum, difference, product or truncated quotient of the two int64s when it fits in an int64, and otherwise the int64 congruent to it modulo 2^64 |
| Executor.ComputeWraps | server/engine/executor.go:95-107 | every operation that does not fail is Go's int64 wrap-around of the exact result |
| Executor.AddThenSub | server/engine/executor.go:96-100 | adding an operand and then subtracting it restores any int64, wrap-around included |
| Executor.DivisionTruncates | server/engine/executor.go:103-107 | division by a non-zero operand succeeds, and where the quotient fits an int64 it leaves a remainder that truncating division allows |
| Executor.ActionResult | server/engine/executor.go:40-69 | a successful action writes only its own field: the field names are the old ones plus that field, and every other field keeps its value |
| Executor.ActionStores | server/engine/executor.go:44-54 | "set" stores the value text as it is; a successful arithmetic action stores an int64 |
| Executor.UnknownOperationFails | server/engine/executor.go:43-66 | an action fails with "unknown operation" exactly when its operation is none of set, add, sub, mul, div and shell |
| Executor.DivisionByZeroFails | server/engine/executor.go:103-105 | dividing a numeric field by "0" fails with division by zero |
| Executor.ExecuteAction | server/engine/executor.go:40-69 | when ActionResult succeeds the context's fields become its map; when it fails they are unchanged and the error is returned |
| Executor.RunActionsAppend | server/engine/executor.go:30-35 | running a list and then another is running their concatenation, unless the first already failed |
| Executor.RunStopsAtFirstFailure | server/engine/executor.go:30-35 | the first failing action stops the run: the fields are those before it, and the error names its field and wraps its error |
| Executor.RunTouchesOnlyNamedFields | server/engine/executor.go:30-69 | a field that no action names keeps its value through the whole run |
| Executor.BlankActionsNoOp | server/engine/executor.go:20-22 | an actions text that is only white space changes nothing and reports no error |
| Executor.RunErrSticks | server/engine/executor.go:30-35 | once a prefix of the actions fails, the whole run ends with that prefix's fields and error |
| Executor.ExecuteAll | server/engine/executor.go:30-37 | the loop over the decoded actions leaves exactly the fields and error of RunActions |
| Executor.ExecuteActions | server/engine/executor.go:19-38 | blank text is a no-op, undecodable JSON is a parse error with the fields untouched, otherwise the actions run in order; exactly Executed |
| Repackager.ZeroBytes | server/engine/repackager.go:149-151 | a nil value becomes a zero-filled buffer of exactly the field's length |
| Repackager.PadOrTruncate | server/engine/repackager.go:196-207 | the result has exactly the requested length; each position holds the input byte where one exists and zero past the input's end |
| Repackager.IntBytes | server/engine/repackager.go:209-216 | the byte string always has the requested length |
| Repackager.IntToBytes | server/engine/repackager.go:209-216 | the loop from the last byte down, masking the low eight bits and shifting right by eight, yields exactly IntBytes |
| Repackager.BigEndianIntBytes | server/engine/repackager.go:209-216 | read back big-endian, the bytes are the value modulo 256^length: intToBytes keeps the low-order bytes, two's complement for negative values |
| Repackager.DecimalIntBytes | server/engine/repackager.go:166-181 | an int64 that fits in the field (any int64 when the field has 8 or more bytes) reads back as itself through the decimal field decoding |
| Repackager.IntBytesDecimal | server/engine/repackager.go:209-216 | for up to 8 bytes, encoding the decoded decimal value gives back the same bytes |
| Repackager.BigEndianInjective | server/engine/parser.go:162-180 | two byte strings of equal length with the same big-endian value are equal |
| Repackager.SkipScanSpace | server/engine/repackager.go:177 | the scan skips a prefix of leading blanks and stops at the first one that is not a blank |
| Repackager.DigitsEnd | server/engine/repackager.go:177 | the digit run starting at p is maximal: every character in it is a digit and the one after it is not |
| Repackager.ScanInt | server/engine/repackager.go:175-177 | the "%d" scan of a string always yields an int64, and zero when nothing parses |
| Repackager.ScanIntItoa | server/engine/repackager.go:175-177 | scanning the decimal text of any int64 gives back that number |
| Repackager.ItoaShape | server/engine/repackager.go:175-177 | the decimal text of a number starts with a minus exactly when it is negative, never with a blank or plus, and is digits after the sign |
| Repackager.DecimalInput | server/engine/repackager.go:167-180 | the integer a decimal field takes from its value is always an int64 |
| Repackager.ValueToBytes | server/engine/repackager.go:148-194 | nil gives zeros of the field length; every success has exactly the field length; it returns an error exactly for a non-nil value of an unknown type, or a hex field whose value is not a string or not valid hex; otherwise a negative length panics (`make` for nil and decimal, the slice in `padOrTruncate` for hex and string) |
| Repackager.EncodeDecodedSlice | server/engine/repackager.go:148-194 | a field's bytes decoded as its type and encoded again give back the same bytes, for hex, string and decimal fields of up to 8 bytes |
| Repackager.DecimalFieldRoundTrip | server/engine/repackager.go:166-181 | encoding a decimal value that fits the field succeeds and decodes back to the same integer |
| Repackager.InsertByOffset | server/engine/repackager.go:52-54 | inserting into a list sorted by offset keeps it sorted and adds exactly that field |
| Repackager.SortByOffset | server/engine/repackager.go:49-54 | the result is sorted by offset and a permutation of the input fields |
| Repackager.SortSorted | server/engine/repackager.go:49-54 | a list already sorted by offset comes back unchanged |
| Repackager.UserFieldsAppend | server/engine/repackager.go:69-77 | the user fields of two segment lists joined are the user fields of each, in order |
| Repackager.Gap | server/engine/repackager.go:60-67 | a gap segment is emitted only when the next field starts after the current offset, and then covers exactly the bytes between them |
| Repackager.SegmentsGapsNonEmpty | server/engine/repackager.go:59-89 | every built-in segment the scan emits covers at least one byte |
| Repackager.SegmentsUserFields | server/engine/repackager.go:59-80 | the user segments, in order, are exactly the sorted fields: none is dropped, added or reordered |
| Repackager.ExtractFieldSegments | server/engine/repackager.go:46-92 | the loop over the sorted fields with the trailing gap yields exactly the segment list FieldSegments |
| Repackager.ScanSegments | server/engine/repackager.go:56-89 | the walk over offset-sorted fields, a gap before each field that starts past the cursor and a trailing gap up to the packet length, yields exactly SegmentsFrom from offset 0 |
| Repackager.SegmentsFromStep | server/engine/repackager.go:59-80 | one loop iteration appends the gap and the user segment and advances the offset past the field, matching the recursive scan |
| Repackager.SegmentsFromEnd | server/engine/repackager.go:82-89 | after the last field, a trailing segment is added only if bytes remain |
| Repackager.TilesCons | server/engine/repackager.go:59-89 | a segment followed by a tiling of the rest from its end tiles the whole range |
| Repackager.SegmentsFromTile | server/engine/repackager.go:59-89 | when the sorted fields lie in the packet without overlapping, the segments cover the packet contiguously from its first byte to its last |
| Repackager.SegmentsTile | server/engine/repackager.go:46-92 | for non-overlapping fields inside the packet, the segments tile the whole packet, their user fields are the sorted fields, and no gap is empty |
| Repackager.Slice | server/engine/repackager.go:103-114 | a slice succeeds exactly when its bounds lie within the packet, and is then those bytes |
| Repackager.ReassembledErrSticks | server/engine/repackager.go:95-118 | once a prefix of the segments fails, the whole reassembly fails with the same error |
| Repackager.ReassemblePacket | server/engine/repackager.go:95-119 | the loop over the segments yields exactly Reassembled: encoded user values, original bytes on encoding errors, original bytes of in-range built-in segments |
| Repackager.Encoded | server/engine/repackager.go:98-115 | for a segment inside the packet, its output piece always succeeds and has exactly the segment's length |
| Repackager.TilesBounds | server/engine/repackager.go:59-89 | every segment of a tiling lies within the tiled range |
| Repackager.ReassembledSnoc | server/engine/repackager.go:98-116 | reassembling one more in-range segment appends its encoded piece to the output so far |
| Repackager.LaidOutSnoc | server/engine/repackager.go:98-116 | appending a segment's piece at the output's end keeps every earlier piece at its segment's offset and places the new one at its own |
| Repackager.ReassembledLayout | server/engine/repackager.go:95-118 | over a tiling, each prefix of segments reassembles to an output as long as the bytes those segments cover, with every piece at its segment's offset |
| Repackager.ReassembledLength | server/engine/repackager.go:95-118 | reassembling a tiling of the packet succeeds and keeps the packet's length |
| Repackager.ReassembledVerbatim | server/engine/repackager.go:95-118 | if every user field re-encodes to its original bytes, each prefix of the tiling reassembles to the packet's bytes up to that point |
| Repackager.VerbatimEncoded | server/engine/repackager.go:99-115 | a built-in segment, or a user segment whose value re-encodes verbatim, contributes exactly its original bytes |
| Repackager.ReassembledIdentity | server/engine/repackager.go:95-118 | if every user field re-encodes to its original bytes, reassembly returns the original packet |
| Repackager.ApplyOptionsCounts | server/engine/repackager.go:134-145 | applying a list of options equals recalculating the checksums once per "compute_checksum" entry; other names have no effect |
| Repackager.UnknownOptionsIgnored | server/engine/repackager.go:135-143 | two option lists with the same number of "compute_checksum" entries give the same result |
| Repackager.InertOptionsUnchanged | server/engine/repackager.go:122-145 | an empty options string, one that is not a JSON list, or a list without "compute_checksum" returns the data unchanged |
| Repackager.ApplyOptionsErrors | server/engine/repackager.go:137-141 | applying the options can fail only with a checksum failure, and only when "compute_checksum" is requested |
| Repackager.ApplyOptionsErrSticks | server/engine/repackager.go:138-141 | once a prefix of the options fails, the whole list fails with the same error |
| Repackager.ApplyOutputOptions | server/engine/repackager.go:122-146 | the method with its loop over the decoded options yields exactly OutputOptions |
| Repackager.RepackagePacket | server/engine/repackager.go:24-43 | with no fields the raw packet is returned; otherwise it is segmented, reassembled from the context's field values and passed through the output options, an options error wrapped; exactly Repackaged |
| Repackager.RepackagedLength | server/engine/repackager.go:24-43 | non-overlapping fields inside the packet and options that ask for no checksum give a packet of the original length |
| Repackager.UserFieldsHas | server/engine/repackager.go:69-77 | the field of any user segment is among the segment list's user fields |
| Repackager.StoredValueVerbatim | server/engine/repackager.go:148-194 | a field whose stored value is the one extraction gave it re-encodes to its original bytes |
| Repackager.RepackagedIdentity | server/engine/repackager.go:24-43 | repackaging with the field values just extracted from the packet, non-overlapping uniquely named fields and no checksum option returns the packet byte for byte |
| Handler.FirstMatchFrom | server/nfqueue/handler.go:189-202 | the index found is the first rule from i on whose condition evaluates to true, every earlier one evaluating to false or an error; none is found exactly when no rule's condition holds |
| Handler.ChosenHasTopPriority | server/nfqueue/handler.go:44 | with the cache holding enabled rules in descending priority, the rule chosen is enabled and no rule whose condition holds has a higher priority |
| Handler.BaseLog | server/nfqueue/handler.go:206-229 | the log names the rule, its original-packet text decodes back to the raw packet, and TCP ports take precedence over UDP ports with the protocol named after the layer |
| Handler.Comparison | server/nfqueue/handler.go:263-270 | the comparison has one entry per field after the actions, pairing the value before them, nil if absent, with the value after |
| Handler.SelectRule | server/nfqueue/handler.go:187-202 | the loop returns exactly the first rule whose condition evaluates to true, passing over rules whose evaluation fails |
| Handler.ProcessMatched | server/nfqueue/handler.go:227-295 | given stages that run the engine's actions and repackager, running the matched rule's actions and repackaging yields exactly MatchedOutcome: verdicts, log entry and whether the slice panicked |
| Handler.RecordRepackaged | server/nfqueue/handler.go:250-294 | after the actions ran, a repackaging panic ends the callback, an error logs it and accepts the original, and a success logs the before/after comparison and the new bytes and sets the modified verdict, exactly as MatchedOutcome says |
| Handler.HandlePacket | server/nfqueue/handler.go:132-300 | the whole packet handler yields exactly Handled over the engine's own parse, extract, evaluate, execute and repackage stages, a panic in extraction or repackaging ending the callback |
| Handler.ExtractionPanicEndsCallback | server/nfqueue/handler.go:185 | a field definition whose slice panics ends the callback for every parsed packet, before any verdict or log |
| Handler.NilPacketIdNoVerdict | server/nfqueue/handler.go:136-145 | a packet without a packet id gets no verdict and no log entry |
| Handler.AlwaysAccepts | server/nfqueue/handler.go:147-298 | every verdict issued is accept for the packet's own id, and a packet with an id that does not panic gets at least one verdict |
| Handler.NoMatchPassesThrough | server/nfqueue/handler.go:297-299 | when no rule's condition holds, the packet gets one plain accept verdict and no log entry |
| Handler.LogNamesFirstMatch | server/nfqueue/handler.go:187-229 | a log entry is written only for a parsed packet, and it names the first rule whose condition holds |
| Handler.ActionFailureLogsError | server/nfqueue/handler.go:238-248 | a failing action run gives one plain accept verdict and an error log carrying the action error |
| Handler.RepackageFailureLogsError | server/nfqueue/handler.go:251-261 | a repackaging error gives one plain accept verdict and an error log carrying that error |
| Handler.SuccessCarriesModifiedPacket | server/nfqueue/handler.go:263-292 | a success log means the actions and the repackaging succeeded, the first verdict carries the repackaged packet, the log's modified-packet text decodes back to it, and the field comparison pairs the old and new values of every field |
| Handler.NoActionsForwardsOriginal | server/nfqueue/handler.go:238-277 | a matched rule with no actions and no checksum option over well-laid fields forwards the original packet bytes in its modified-packet verdict |
| Bridge.RangeIds | server/network/bridge.go:260-262 | a range lists every id from start to end in increasing order, as decimal text, and is empty when start exceeds end |
| Bridge.RangeIdsSnoc | server/network/bridge.go:260-262 | a range up to last is the range up to last minus one followed by last |
| Bridge.ParseId | server/network/bridge.go:250-266 | a trunk entry reads as a number exactly when strconv accepts it as a 64-bit integer, with that value |
| Bridge.EntryResults | server/network/bridge.go:242-270 | one result per comma-separated entry, in order |
| Bridge.GatheredErrSticks | server/network/bridge.go:242-270 | once a prefix of the entries fails, the whole list fails with the same error |
| Bridge.GatheredFailsIff | server/network/bridge.go:242-270 | the expansion fails exactly when some entry's result is an error |
| Bridge.ExpandedFailsIffBadEntry | server/network/bridge.go:241-270 | SplitAndAddList's expansion fails exactly when some entry is malformed |
| Bridge.AppendRange | server/network/bridge.go:260-262 | the loop appends exactly the ids of the range |
| Bridge.ExpandEntry | server/network/bridge.go:243-269 | one loop iteration yields exactly the entry's ids or its error: a range of two numbers, one number, or the format or number error |
| Bridge.GatheredSnoc | server/network/bridge.go:242-270 | a further good entry appends its ids to those gathered so far |
| Bridge.ExpandEntries | server/network/bridge.go:241-270 | the loop over the entries yields exactly Expanded, stopping at the first bad entry |
| Bridge.AddDefault | server/network/bridge.go:272-282 | the default id is appended exactly when the list does not hold it |
| Bridge.SplitAndAddList | server/network/bridge.go:238-285 | the function yields exactly TrunkIds: the expanded list with the default id added, or the first error |
| Bridge.EntryTrims | server/network/bridge.go:243 | surrounding blanks do not change what an entry means |
| Bridge.ManyDashesRejected | server/network/bridge.go:244-248 | an entry with two or more dashes is the format error |
| Bridge.EmptyEntryRejected | server/network/bridge.go:264-267 | a blank entry, and so an empty trunk list, is strconv's syntax error |
| Bridge.RangeEntry | server/network/bridge.go:244-262 | "a-b" for two non-negative int64s expands to the ids from a to b, and to nothing when a exceeds b |
| Bridge.SingleEntryNormalised | server/network/bridge.go:264-268 | every dash-free entry that parses as an int64 is written back as that number's canonical decimal text, which parses back to the same number |
| Bridge.LeadingZerosDropped | server/network/bridge.go:264-268 | for instance "007" becomes "7" |
| Bridge.DefaultIdAppended | server/network/bridge.go:272-284 | the result holds the default id, starts with the expanded ids, and is one longer exactly when the default id was missing |
| Bridge.Merge | server/network/bridge.go:364-375 | merging keeps the first list as a prefix |
| Bridge.Contains | server/network/bridge.go:365-371 | the inner loop finds the entry exactly when the list holds it once both are trimmed |
| Bridge.CombineAndSortStrings | server/network/bridge.go:360-379 | the loops, the sort and the join yield exactly Combined |
| Bridge.MergeSnoc | server/network/bridge.go:364-375 | one outer iteration appends the next entry exactly when the list built so far does not cover it |
| Bridge.CoversExtended | server/network/bridge.go:365-371 | appending to a list keeps every entry it covered covered |
| Bridge.CoversPermuted | server/network/bridge.go:377 | reordering a list keeps what it covers |
| Bridge.MergeCovers | server/network/bridge.go:364-375 | after merging, every entry of the second list is covered |
| Bridge.MergeFrom | server/network/bridge.go:364-375 | every merged entry comes from one of the two lists |
| Bridge.MergeAllCovered | server/network/bridge.go:364-375 | merging entries that are all covered already leaves the first list unchanged |
| Bridge.PiecesNoComma | server/network/bridge.go:361-362 | no piece of a split list holds a comma |
| Bridge.SplitCombined | server/network/bridge.go:377-378 | splitting the joined result gives back the sorted merged list |
| Bridge.CombinedSorted | server/network/bridge.go:377 | the combined list is sorted |
| Bridge.CombinedKeepsFirst | server/network/bridge.go:361-378 | every entry of the first list survives, with its multiplicity |
| Bridge.CombinedCoversSecond | server/network/bridge.go:364-375 | every entry of the second list is in the result once trimmed |
| Bridge.CombinedFromInputs | server/network/bridge.go:360-379 | the result holds only entries of the two inputs |
| Bridge.CombinedIdempotent | server/network/bridge.go:360-379 | combining the result with the same second list again changes nothing |
| Bridge.VlanTable.constructor | server/network/bridge.go:288 | a fresh table has no rows and no deleted keys |
| Bridge.VlanTable.Create | server/network/bridge.go:341-344 | the insert succeeds exactly when the key is neither live nor soft-deleted, and then adds just that row |
| Bridge.VlanTable.UpdatePhysical | server/network/bridge.go:353 | the update changes only the interface list of the row, if it exists |
| Bridge.VlanTable.SoftDelete | server/network/bridge.go:463 | the row leaves the live rows and its key stays taken |
| Bridge.AddVlanIfAdd | server/network/bridge.go:330-349 | the insert of the new row with type "2", status up and the parsed VLAN id, failing when the key is taken; exactly Added |
| Bridge.AddVlanIfUpdate | server/network/bridge.go:351-358 | the row's interface list becomes the combined list; exactly Merged |
| Bridge.TrunkAddedErrSticks | server/network/bridge.go:315-325 | once a trunk id fails, the later ones are not handled |
| Bridge.TrunkAddedSnoc | server/network/bridge.go:315-325 | one more trunk id is handled against the snapshot unless an earlier one failed |
| Bridge.AddTrunkId | server/network/bridge.go:316-321 | one trunk id: an update for a key in the snapshot, an insert otherwise; exactly TrunkStep |
| Bridge.AddTrunkIds | server/network/bridge.go:315-325 | the loop over the trunk ids yields exactly TrunkAdded |
| Bridge.AddVlanIf | server/network/bridge.go:288-328 | the access, trunk and other link types yield exactly the table and error of AddedVlanIf |
| Bridge.Prune | server/network/bridge.go:440-446 | the loop keeps every trimmed interface other than the removed one; exactly Kept |
| Bridge.RemoveVlanIf | server/network/bridge.go:420-485 | the loop over the VLAN ids leaves exactly the table of Removed |
| Bridge.ListsItself | server/network/bridge.go:364-375 | an interface list covers each of its own entries |
| Bridge.KeysSnoc | server/network/bridge.go:315-316 | the VLAN interfaces of a list grow by the last id's interface |
| Bridge.TrunkAddedFrame | server/network/bridge.go:315-325 | the trunk loop deletes nothing, keeps every row, and touches only the rows of the listed ids |
| Bridge.TrunkAddedCreates | server/network/bridge.go:315-325 | every row the trunk loop creates is a new row for the physical interface |
| Bridge.TrunkStepLists | server/network/bridge.go:316-321 | after a successful step the id's row exists and lists the interface, and no other row changes |
| Bridge.TrunkAddedLists | server/network/bridge.go:315-325 | after a successful trunk loop, every listed id has a row whose interface list holds the interface |
| Bridge.AddVlanIfFrame | server/network/bridge.go:288-328 | AddVlanIf deletes nothing and changes only the rows of the ids it works on; with none the table is unchanged |
| Bridge.AddVlanIfCreates | server/network/bridge.go:288-328 | every row AddVlanIf creates is a new VLAN row for the configured interface |
| Bridge.AddVlanIfLists | server/network/bridge.go:288-328 | on success, every VLAN id it works on has a row listing the interface |
| Bridge.AccessAddFails | server/network/bridge.go:289-297 | an access VLAN fails exactly when its key is soft-deleted and not live, and then nothing changes |
| Bridge.AddVlanIfAborts | server/network/bridge.go:298-312 | a bad trunk list aborts with its error before any change; another link type does nothing |
| Bridge.TrimSpaceKeepsOut | server/network/bridge.go:443-444 | trimming does not introduce a character absent from the text |
| Bridge.KeptHas | server/network/bridge.go:442-446 | every interface other than the removed one is kept, trimmed |
| Bridge.KeptFrom | server/network/bridge.go:442-446 | every kept interface is a trimmed entry of the list and not the removed one |
| Bridge.KeptMembers | server/network/bridge.go:440-446 | the kept interfaces are exactly the trimmed entries other than the removed one |
| Bridge.KeptTrimmed | server/network/bridge.go:442-446 | kept interfaces are trimmed and hold no comma |
| Bridge.KeptEmpty | server/network/bridge.go:449 | nothing is kept exactly when every entry is the removed interface |
| Bridge.KeptList | server/network/bridge.go:471-472 | the joined list lacks the removed interface and holds exactly the other trimmed entries |
| Bridge.RemoveVlanIfFrame | server/network/bridge.go:425-482 | removal creates no row, only adds to the soft-deleted keys, and leaves the rows of unlisted ids unchanged |
| Bridge.RemoveStepLacks | server/network/bridge.go:439-481 | after one id is handled, its row, if still live, does not list the removed interface |
| Bridge.RemoveVlanIfDrops | server/network/bridge.go:425-482 | after the loop, no live row of a listed id lists the removed interface |
| Bridge.RemoveStepOthers | server/network/bridge.go:425-482 | handling one id leaves every other row's presence and content unchanged |
| Bridge.RemoveVlanIfDeletesEmptied | server/network/bridge.go:429-469 | a missing row is skipped; a row is deleted exactly when every entry of its list is the removed interface, and a deleted key stays taken |
| Bridge.RemoveStepDeletesEmptied | server/network/bridge.go:440-469 | one id: the row goes exactly when all its entries are the removed interface, and soft-deleted |
| Bridge.RemoveVlanIfKeepsOthers | server/network/bridge.go:470-480 | a row that stays lists exactly the other trimmed interfaces |
| Bridge.AddAfterRemoveFails | server/network/bridge.go:288-297 | once a VLAN row is deleted, adding the same access VLAN again fails, since the soft-deleted key stays taken |
| Bridge.VlanTable.HardDelete | doc/code/vlan/bridge.go:225 | the unscoped delete removes the row and leaves the soft-deleted keys as they were |
| LegacyBridge.RawEntryResults | doc/code/vlan/bridge.go:284-311 | one result per untrimmed comma-separated entry, in order |
| LegacyBridge.ExpandRawEntry | doc/code/vlan/bridge.go:285-310 | one loop iteration yields exactly the untrimmed entry's ids or its error |
| LegacyBridge.SplitAndAddList | doc/code/vlan/bridge.go:280-325 | the function yields exactly RawTrunkIds: the entries read without trimming, then the default id added when missing |
| LegacyBridge.JoinTwo | doc/code/vlan/bridge.go:337 | joining two pieces puts one separator between them |
| LegacyBridge.RawEntryNoSpace | doc/code/vlan/bridge.go:285-310 | an entry the untrimmed parser accepts holds no blank at all |
| LegacyBridge.SpacedEntryRejected | doc/code/vlan/bridge.go:291-309 | an entry with a blank anywhere in it, as in "10, 20", is rejected |
| LegacyBridge.NoSpaceTrimmed | doc/code/vlan/bridge.go:285 | trimming a text without blanks leaves it unchanged |
| LegacyBridge.RawEntryAgrees | doc/code/vlan/bridge.go:285-310 | where the untrimmed parser accepts an entry, the trimming parser of the newer bridge gives the same ids |
| LegacyBridge.RawTrunkIdsAgree | doc/code/vlan/bridge.go:280-325 | where the untrimmed list parses, both versions of SplitAndAddList give the same ids |
| LegacyBridge.WithoutCounts | doc/code/vlan/bridge.go:330-335 | every copy of the removed entry goes and every other entry keeps its multiplicity |
| LegacyBridge.WithoutAbsent | doc/code/vlan/bridge.go:330-335 | removing an entry that is not there changes nothing |
| LegacyBridge.WithoutNoSeparator | doc/code/vlan/bridge.go:330-335 | removal introduces no separator into any entry |
| LegacyBridge.RemoveStringFromSlice | doc/code/vlan/bridge.go:327-338 | the loop and the join yield exactly RemovedString |
| LegacyBridge.RemovedStringEntries | doc/code/vlan/bridge.go:327-338 | the result is empty when nothing is left; otherwise splitting it gives the other entries, untrimmed, with their multiplicities and without the removed one |
| LegacyBridge.RemovedStringAbsent | doc/code/vlan/bridge.go:327-338 | removing an absent entry gives back the input text |
| LegacyBridge.AddVlanIf | doc/code/vlan/bridge.go:132-170 | the access, trunk and other link types yield exactly RawAddedVlanIf: access mode always inserts, because its lookup finds no row, and the trunk list's error is discarded |
| LegacyBridge.BadTrunkIgnored | doc/code/vlan/bridge.go:152 | a trunk list that does not parse leaves the table unchanged and reports no error |
| LegacyBridge.RawAddedVlanIfAgrees | doc/code/vlan/bridge.go:132-170 | where the trunk list parses and an access VLAN has no live row, the older AddVlanIf has the same effect and error as the newer one |
| LegacyBridge.LiveAccessKeyInsertFails | doc/code/vlan/bridge.go:133-138 | for an access VLAN whose row is live, the older version's insert fails and changes nothing, while the newer one merges the interface into the row |
| LegacyBridge.Interfaces | doc/code/vlan/bridge.go:215-218 | one VLAN interface name per id, in order |
| LegacyBridge.DeletedErrSticks | doc/code/vlan/bridge.go:220-248 | once an interface fails, the later ones are not handled |
| LegacyBridge.DelInterfaces | doc/code/vlan/bridge.go:220-249 | the loop over the VLAN interfaces yields exactly Deleted |
| LegacyBridge.VlanNames | doc/code/vlan/bridge.go:215-218 | the loop names the interface "vlan_" + id of every id, in order |
| LegacyBridge.DelVlanIf | doc/code/vlan/bridge.go:201-250 | the ids are the access VLAN or else the parsed trunk list, and the loop over their interfaces yields exactly DelVlanIfResult |
| LegacyBridge.ZeroConfigVisitsNothing | doc/code/vlan/bridge.go:206-213 | for an interface with no stored configuration no VLAN row is visited |
| LegacyBridge.DeletedFrame | doc/code/vlan/bridge.go:220-248 | the loop creates no row, keeps the soft-deleted keys, and leaves the rows of unlisted interfaces unchanged |
| LegacyBridge.DelStepFails | doc/code/vlan/bridge.go:221-228 | a step fails exactly when the interface name is empty and the row is missing, the zero row being deleted without a condition; nothing changes then |
| LegacyBridge.DelStepRule | doc/code/vlan/bridge.go:223-246 | a row listing only the interface is hard-deleted, so its key becomes free unless soft-deleted before; any other non-empty list loses every copy of the interface and keeps the rest |
| LegacyBridge.PaddedEntryKept | doc/code/vlan/bridge.go:332 | removal compares untrimmed text: " eth0" is not removed by "eth0" |
| NftManager.RenderAll | server/network/nftmanager.go:100-159 | one command word group per term, in order, each the term's own text |
| NftManager.RenderAllAppend | server/network/nftmanager.go:100-159 | rendering two runs of terms is rendering each and joining the lists |
| NftManager.AppendAddrs | server/network/nftmanager.go:105-112 | the source address filter, then the destination address filter, each only when set, are appended to the parts |
| NftManager.AppendProtocol | server/network/nftmanager.go:114-132 | nothing for an empty or "any" protocol; for tcp and udp the set port filters, or the bare protocol without ports; the bare protocol for any other |
| NftManager.AppendLog | server/network/nftmanager.go:134-143 | a log prefix term, only when logging is on |
| NftManager.AppendAction | server/network/nftmanager.go:145-159 | accept, drop, or a queue term with the default range "0-3"; nothing for any other action |
| NftManager.BuildNFTCommand | server/network/nftmanager.go:99-162 | the whole builder yields exactly Command: the terms rendered and joined with single spaces |
| NftManager.CommandStartsWithBase | server/network/nftmanager.go:103 | every command starts with the add-rule command for the bridge table's base chain |
| NftManager.RankedConcat | server/network/nftmanager.go:100-161 | joining two ascending runs with the second above the first keeps the order |
| NftManager.AddrOrdered | server/network/nftmanager.go:102-112 | the base command and the address filters come first, in that order |
| NftManager.ProtocolOrdered | server/network/nftmanager.go:114-132 | the protocol and port filters are ordered, source port before destination port |
| NftManager.LogOrdered | server/network/nftmanager.go:134-143 | at most one log term |
| NftManager.ActionOrdered | server/network/nftmanager.go:145-159 | at most one action term |
| NftManager.TermsOrdered | server/network/nftmanager.go:99-162 | every command lists its parts in the fixed order base, addresses, protocol and ports, log, action, each at most once |
| NftManager.PartsOrdered | server/network/nftmanager.go:99-162 | four runs in their rank bands join into one ascending run |
| NftManager.LogTermIff | server/network/nftmanager.go:134-143 | a log term appears exactly when logging is on, carrying the rule's prefix or, when that is empty, its name |
| NftManager.ProtocolTermIff | server/network/nftmanager.go:114-132 | a protocol part appears exactly when the protocol is set and not "any"; for tcp and udp each port filter appears exactly when its port is set; other protocols appear bare |
| NftManager.ActionTermIff | server/network/nftmanager.go:145-159 | exactly one action term for accept, drop and queue and none otherwise; a queue without a number queues to "0-3" |
| NftManager.ShownPlaceholders | server/network/nftmanager.go:165-189 | each field is shown as its placeholder exactly when it is empty or already the placeholder, and no shown field is empty |
| NftManager.SplitThree | server/network/nftmanager.go:191 | text built from three pieces around two separators splits back into them |
| NftManager.SplitTwo | server/network/nftmanager.go:191 | text built from two pieces around a separator splits back into them |
| NftManager.FormatRoundTrip | server/network/nftmanager.go:191 | a summary of fields without colons or spaces parses back into the same fields |
| NftManager.SummaryRoundTrip | server/network/nftmanager.go:165-192 | the summary of a rule whose fields hold no colon or space reads back as its shown fields |
| NftManager.InsertRule | server/network/nftmanager.go:32 | inserting adds exactly that rule |
| NftManager.InsertRuleSorted | server/network/nftmanager.go:32 | inserting into a list ordered by priority then id keeps it ordered |
| NftManager.SortRules | server/network/nftmanager.go:32 | sorting is a permutation |
| NftManager.SortRulesSorted | server/network/nftmanager.go:32 | the sorted list is in ascending priority then id order |
| NftManager.Enabled | server/network/nftmanager.go:32 | the selection holds exactly the enabled rules |
| NftManager.LoadedRules | server/network/nftmanager.go:30-35 | the loaded rules are exactly the enabled rows, each as often as it occurs, in priority then id order |
| NftManager.Commands | server/network/nftmanager.go:41-42 | one command per rule, in order |
| NftManager.Successes | server/network/nftmanager.go:40-55 | the success count never exceeds the number of commands |
| NftManager.CommandsSnoc | server/network/nftmanager.go:41-42 | one more rule appends its command |
| NftManager.IssueAll | server/network/nftmanager.go:39-55 | the loop issues every loaded rule's command in order and counts the ones the shell accepts, going on after a failure |
| NftManager.ApplyNFTRules | server/network/nftmanager.go:15-62 | a failed flush aborts with nothing issued; otherwise every enabled rule in order is issued; exactly Applied |
| NftManager.AppliedCases | server/network/nftmanager.go:24-61 | the result is an error exactly when the flush fails, and then nothing is issued; otherwise one command per enabled rule in priority order, and the success count never exceeds the count issued |
| NftManager.AllApplied | server/network/nftmanager.go:47-54 | every rule counts as applied exactly when the shell accepts every command |
| QueueDefs.ParseQueue | server/main.go:202-221 | a queue number that parses fits in 16 bits |
| QueueDefs.Span | server/main.go:216-218 | the queues from start to end, in increasing order, none when start exceeds end |
| QueueDefs.PartResults | server/main.go:188-227 | one result per comma-separated part, in order |
| QueueDefs.CollectedErrSticks | server/main.go:189-227 | once a part fails, the whole definition fails with that part's error |
| QueueDefs.SpanLoop | server/main.go:216-218 | the loop appends exactly the queues from start to end |
| QueueDefs.ExpandRange | server/main.go:202-218 | an unparsable start or end, or a start after the end, is its own error; otherwise exactly the span |
| QueueDefs.ExpandPart | server/main.go:190-226 | one loop iteration yields exactly the part's queues: none for a blank part, a range, one number, or the part's error |
| QueueDefs.ParseQueueDefs | server/main.go:184-234 | the whole function yields exactly QueueList: the parts' queues in order, the first error, or "no valid queues" when none is listed |
| QueueDefs.CollectedBounded | server/main.go:189-227 | gathering parts whose queues fit in 16 bits gives queues that fit in 16 bits |
| QueueDefs.QueueListBounded | server/main.go:184-234 | a successful result is non-empty and every queue fits in 16 bits |
| QueueDefs.CollectedBlank | server/main.go:191-193 | blank parts contribute no queues |
| QueueDefs.AllBlankNoQueues | server/main.go:229-231 | a definition made only of blank parts is the "no valid queues" error |
| QueueDefs.RangePartText | server/main.go:190-196 | a range of two digit runs needs no trimming, holds a dash, and splits at it into exactly the two runs |
| QueueDefs.RangePart | server/main.go:196-197 | "a-b" in decimal splits into the two numbers' texts |
| QueueDefs.RangeExpands | server/main.go:196-218 | "a-b" with a <= b within 16 bits expands to the queues from a to b |
| QueueDefs.BackwardRangeRejected | server/main.go:212-214 | "a-b" with a > b is the start-after-end error |
| QueueDefs.ManyDashesRejected | server/main.go:197-200 | a part with two or more dashes is the range-format error |
| QueueDefs.LargeQueueRejected | server/main.go:221-224 | a single number above 65535 is the invalid-queue error |
| QueueDefs.DigitsTrimmed | server/main.go:190 | text of digits and dashes needs no trimming and holds no comma |
| QueueDefs.ParseUintFolds | server/main.go:202-221 | a digit string that parses has the decimal value of its digits |
| QueueDefs.ScanDigitsValue | server/main.go:202-221 | the digit scan accumulates the decimal value of the digits |
| QueueDefs.Written | server/main.go:188 | one decimal text per queue, in order |
| QueueDefs.CollectedSingles | server/main.go:219-226 | parts that each give one queue gather to those queues in order |
| QueueDefs.QueueListRoundTrip | server/main.go:184-234 | writing a non-empty list of 16-bit queues in decimal, comma-separated, and parsing it gives back the list |
| Api.Config | web/src/api/index.js:3-6 | the timeout is 10 seconds and the base URL is the environment's when it is set and non-empty, else "/api"; it is never empty |
| Api.DropLeadingSlashes | web/src/api/index.js:3-6 | axios drops every leading slash of the relative URL and keeps the rest |
| Api.PathSegments | server/main.go:127-168 | a path built from slash-free segments splits back into those segments |
| Api.MatchesIffFills | server/main.go:127-168 | splitting a path at its slashes and matching segment by segment agrees with the path being built from segments that fill the pattern |
| Api.PathShape | web/src/api/index.js:9-59 | every client path starts with one slash followed by a non-slash |
| Api.DefaultBaseReachesGroup | web/src/api/index.js:3-6 | with the default base URL every call's URL is the server's /api group followed by the call's path |
| Api.KindMethods | web/src/api/index.js:20-47 | list and read calls are GETs without a body, creates are POSTs with one, updates PUTs with one, deletes DELETEs without one, and toggles body-less POSTs ending in /toggle |
| Api.FieldPathsAgree | web/src/api/index.js:21-25 | reading, updating and deleting a field use the list path followed by the id |
| Api.RulePathsAgree | web/src/api/index.js:30-34 | reading, updating and deleting a rule use the list path followed by the id |
| Api.NftRulePathsAgree | web/src/api/index.js:40-44 | reading, updating and deleting an nft rule use the list path followed by the id |
| Api.TogglePathsBelowRecords | web/src/api/index.js:35-45 | a toggle path is the record's path followed by /toggle |
| Api.LogPathsAgree | web/src/api/index.js:56-57 | reading one log uses the log list path followed by the id |
| Api.ApplyAndClear | web/src/api/index.js:46-58 | apply is a body-less POST to /nftrules/apply; clear is a DELETE of the log list path with the days as its only parameter |
| Api.SplitAtFirstSlash | server/main.go:127-168 | two paths split at their first slash agree only when both halves agree |
| Api.FirstChar | server/main.go:127-168 | the first character of a slash-joined path is its first segment's, or the slash |
| Api.SlashedArgNotServed | server/main.go:140 | an id holding a slash does not fill a one-parameter record route |
| Api.ListInterfacesServed | web/src/api/index.js:10 | the request reaches the server route GET /api/interfaces registered at server/main.go line 130, which runs api.ListInterfaces |
| Api.GetInterfaceServed | web/src/api/index.js:11 | for a non-empty slash-free argument, the request reaches the server route GET /api/interfaces/:name registered at server/main.go line 131, which runs api.GetInterface |
| Api.ConfigureVlanServed | web/src/api/index.js:12 | the request reaches the server route POST /api/vlan registered at server/main.go line 132, which runs api.ConfigureVLAN |
| Api.GetVlanConfigServed | web/src/api/index.js:13 | for a non-empty slash-free argument, the request reaches the server route GET /api/vlan/:interface registered at server/main.go line 133, which runs api.GetVLANConfig |
| Api.AddVlanIpServed | web/src/api/index.js:14 | the request reaches the server route POST /api/vlan/ip registered at server/main.go line 134, which runs api.AddVLANIP |
| Api.RemoveVlanIpServed | web/src/api/index.js:15 | for a non-empty slash-free argument, the request reaches the server route DELETE /api/vlan/ip/:interface registered at server/main.go line 135, which runs api.RemoveVLANIP |
| Api.SetInterfaceStatusServed | web/src/api/index.js:16 | the request reaches the server route POST /api/interface/status registered at server/main.go line 136, which runs api.SetInterfaceStatus |
| Api.ListFieldsServed | web/src/api/index.js:21 | the request reaches the server route GET /api/fields registered at server/main.go line 139, which runs api.ListFields |
| Api.GetFieldServed | web/src/api/index.js:22 | for a non-empty slash-free argument, the request reaches the server route GET /api/fields/:id registered at server/main.go line 140, which runs api.GetField |
| Api.CreateFieldServed | web/src/api/index.js:23 | the request reaches the server route POST /api/fields registered at server/main.go line 141, which runs api.CreateField |
| Api.UpdateFieldServed | web/src/api/index.js:24 | for a non-empty slash-free argument, the request reaches the server route PUT /api/fields/:id registered at server/main.go line 142, which runs api.UpdateField |
| Api.DeleteFieldServed | web/src/api/index.js:25 | for a non-empty slash-free argument, the request reaches the server route DELETE /api/fields/:id registered at server/main.go line 143, which runs api.DeleteField |
| Api.ListRulesServed | web/src/api/index.js:30 | the request reaches the server route GET /api/rules registered at server/main.go line 146, which runs api.ListRules |
| Api.GetRuleServed | web/src/api/index.js:31 | for a non-empty slash-free argument, the request reaches the server route GET /api/rules/:id registered at server/main.go line 147, which runs api.GetRule |
| Api.CreateRuleServed | web/src/api/index.js:32 | the request reaches the server route POST /api/rules registered at server/main.go line 148, which runs api.CreateRule |
| Api.UpdateRuleServed | web/src/api/index.js:33 | for a non-empty slash-free argument, the request reaches the server route PUT /api/rules/:id registered at server/main.go line 149, which runs api.UpdateRule |
| Api.DeleteRuleServed | web/src/api/index.js:34 | for a non-empty slash-free argument, the request reaches the server route DELETE /api/rules/:id registered at server/main.go line 150, which runs api.DeleteRule |
| Api.ToggleRuleServed | web/src/api/index.js:35 | for a non-empty slash-free argument, the request reaches the server route POST /api/rules/:id/toggle registered at server/main.go line 151, which runs api.ToggleRule |
| Api.ListNftRulesServed | web/src/api/index.js:40 | the request reaches the server route GET /api/nftrules registered at server/main.go line 154, which runs api.ListNFTRules |
| Api.GetNftRuleServed | web/src/api/index.js:41 | for a non-empty slash-free argument, the request reaches the server route GET /api/nftrules/:id registered at server/main.go line 155, which runs api.GetNFTRule |
| Api.CreateNftRuleServed | web/src/api/index.js:42 | the request reaches the server route POST /api/nftrules registered at server/main.go line 156, which runs api.CreateNFTRule |
| Api.UpdateNftRuleServed | web/src/api/index.js:43 | for a non-empty slash-free argument, the request reaches the server route PUT /api/nftrules/:id registered at server/main.go line 157, which runs api.UpdateNFTRule |
| Api.DeleteNftRuleServed | web/src/api/index.js:44 | for a non-empty slash-free argument, the request reaches the server route DELETE /api/nftrules/:id registered at server/main.go line 158, which runs api.DeleteNFTRule |
| Api.ToggleNftRuleServed | web/src/api/index.js:45 | for a non-empty slash-free argument, the request reaches the server route POST /api/nftrules/:id/toggle registered at server/main.go line 159, which runs api.ToggleNFTRule |
| Api.ApplyNftRulesServed | web/src/api/index.js:46 | the request reaches the server route POST /api/nftrules/apply registered at server/main.go line 160, which runs api.ApplyNFTRulesAPI |
| Api.TestRuleServed | web/src/api/index.js:51 | the request reaches the server route POST /api/test registered at server/main.go line 163, which runs api.TestRule |
| Api.ListLogsServed | web/src/api/index.js:56 | the request reaches the server route GET /api/logs registered at server/main.go line 166, which runs api.ListLogs |
| Api.GetLogServed | web/src/api/index.js:57 | for a non-empty slash-free argument, the request reaches the server route GET /api/logs/:id registered at server/main.go line 167, which runs api.GetLog |
| Api.ClearLogsServed | web/src/api/index.js:58 | the request reaches the server route DELETE /api/logs registered at server/main.go line 168, which runs api.ClearLogs |
| Api.EveryCallServed | web/src/api/index.js:9-59 | every client call whose argument is non-empty and slash-free is served by a registered route running its own handler |
| Router.Match | web/src/router/index.js:8-38 | the record found is one of the table's with that path, and none is found exactly when no record has the path |
| Router.ByName | web/src/router/index.js:8-38 | the record found is a named record of the table with that name, and none is found exactly when no named record has it |
| Router.RootShowsNetwork | web/src/router/index.js:9-12 | the root path is the redirect to /network, and so shows the network configuration view |
| Router.NamedRoutesShowTheirViews | web/src/router/index.js:13-37 | /network, /nftrules, /rules, /test and /logs show the network, nft rules, rules, test and logs views |
| Router.PathsAndNamesDistinct | web/src/router/index.js:8-38 | no two records share a path and no two named routes share a name |
| Router.RedirectsLandOnNamedRoutes | web/src/router/index.js:9-12 | every redirect's target is the path of a named route, so at most one redirect is followed |
| Router.MatchDeclared | web/src/router/index.js:8-38 | looking up any declared path finds exactly the record that declares it |
| Router.DeclaredResolves | web/src/router/index.js:8-38 | every declared path, the root redirect included, shows a view |
| Router.OnlyDeclaredPathsResolve | web/src/router/index.js:8-38 | a path shows a view exactly when the table declares it: there is no catch-all |
| Router.NamesResolve | web/src/router/index.js:13-37 | navigating by a route's name reaches that route's record, which shows its view |
| GoText.TrimSpace | server/network/bridge.go:243 | trimming never lengthens the text and leaves no blank at either end |
| GoText.BlankIffAllSpace | server/engine/executor.go:20 | a text trims to nothing exactly when every character is white space |
| GoText.Split | server/network/bridge.go:241 | splitting gives at least one piece, none holding the separator, and the whole text when it has no separator |
| GoText.SplitCount | server/network/bridge.go:245-246 | there is one more piece than separators, so a part with two dashes splits into three |
| GoText.JoinSplit | server/network/bridge.go:472 | joining the pieces of a split with the same separator gives back the text |
| GoText.SplitJoin | server/network/bridge.go:378 | splitting pieces joined with a separator none of them holds gives back the pieces |
| GoText.ParseInt64 | server/engine/executor.go:80-93 | a successful strconv parse is an int64 |
| GoText.ParseInt64NoSpace | server/engine/executor.go:80 | text that parses as a number holds no blank |
| GoText.ParseUintNatToString | server/main.go:202-221 | the decimal text of a number within the bound parses back to it |
| GoText.ParseItoa | server/network/bridge.go:264-268 | the decimal text of an int64 parses back to it |
| GoText.HexEncode | server/nfqueue/handler.go:208 | hex text has two characters per byte |
| GoText.HexRoundTrip | server/nfqueue/handler.go:273 | decoding the hex text of bytes gives back the bytes |
| Values.Lookup | server/engine/executor.go:41 | a missing field reads as nil, a present one as its value |
| Values.Wrap64 | server/engine/executor.go:96-102 | int64 arithmetic wraps: the result is an int64 congruent to the exact value modulo 2^64, and equal to it when it fits |
| Values.BytesStringRoundTrip | server/engine/repackager.go:183-189 | converting bytes to a string and back gives the same bytes |
| GoSort.SortStrings | server/network/bridge.go:377 | sorting keeps exactly the same strings |
| GoSort.SortStringsSorted | server/network/bridge.go:377 | the sorted list is in ascending byte-wise order |
| GoSort.SortStringsOfSorted | server/network/bridge.go:377 | a list already in order comes back unchanged |

## Left out

- Kernel I/O. Setting up go-nfqueue, the queue goroutines and their shutdown
  are not modelled; `Handler` starts from one queued packet's attributes.
- Concurrency. The configuration cache's lock and `ReloadConfig`'s database
  reads are left out. The rule list is a parameter, assumed to be in
  `ReloadConfig`'s order (`Handler.CacheOrdered`).
- Packet decoding. gopacket's layer decoding is a function parameter of
  `Parser.ParsePacket`. The model does not decode headers itself.
- Checksums. `recalculateChecksums` is a function parameter, because its
  result comes from gopacket's serialisation.
- JSON. Decoding the actions and the output options is a function
  parameter; only its success or failure and the decoded list matter.
  `json.Marshal` of the field comparison is kept as the map it encodes.
- Regular expressions. The two comparison patterns of `evaluateComparison`
  are a hand-written leftmost matcher for exactly those patterns, not a
  general matcher.
- Repackager.ValueToBytes: the `float64` case of a decimal value is not
  modelled. JSON numbers in the field map do not arise from the engine's
  own extraction, and float truncation is outside the model.
- Repackager.SortByOffset: `sort.Slice` is not stable; the model uses a
  stable insertion sort. Fields with equal offsets therefore keep their
  input order in the model, where the source leaves that order unspecified.
- Shell commands. The `shell` action and the VLAN and nft shell calls are
  outside the model. The action's result and `nft`'s success are function
  parameters. The `ip link` calls of the VLAN functions change nothing in
  the table, and their errors are not modelled.
- NftManager.ApplyNFTRules: `EnsureNFTInfrastructure` ignores every error
  and always succeeds, so it is left out. The database query's own error is
  not modelled.
- Database errors. The only error modelled is the unique key on
  `out_interface` when a row is inserted. A failing update or delete,
  connection errors and gorm's query building are left out.
- LegacyBridge.AddVlanIf: the access lookup in `doc/code/vlan/bridge.go`
  (line 136) passes `"out_interface"` and the key with no `?` placeholder.
  The model takes gorm's reading of that call: a primary-key condition on
  the two strings, which matches no row, so access mode always inserts.
  That reading rests on gorm's condition building, which is not part of
  this model; the server's copy (`server/network/bridge.go` line 292)
  writes the placeholder and finds the row.
- VLAN IP rows. The `VlanConfigArray` rows and the IP functions of
  `doc/code/vlan/bridge.go` are not part of this model. `DelVlanIf`'s
  deletion of those rows is the one call left out of that function.
- Log output. zap log lines are left out, and the log record's timestamp is
  not modelled. The IPv4 address strings of the log record come from the
  decoded layers.
- Api.EveryCallServed proves that a registered route serves each call and
  runs its handler. It does not model gin's tree precedence, so it does not
  prove that no other route matches first.
- Api.ApplyAndClear: `days` is a string. axios leaving out an undefined
  parameter, and so `clear()` without an argument, is not modelled.
- Request bodies are modelled only by whether a call sends one. The axios
  transport, the 10-second timeout's effect and response handling are left
  out; the timeout is a value of `Api.Config`.
- Router.OnlyDeclaredPathsResolve: vue-router's history handling, its
  case-insensitive matching and its optional trailing slash are not
  modelled. Paths are compared as exact strings.
- Parser.FormatFieldValue: the Unicode tables of `strconv.IsPrint` above
  U+00FF are the parameter `wide`, not modelled. Latin-1 is exact.
- Repackager.FieldSegments: the offset arithmetic of the segment scan is
  unbounded. Go's wrap-around of offset + length is modelled only in
  `Parser.ExtractField`. Well-laid fields, which the identity lemmas
  require, never wrap.
- Bridge.AppendRange: the Go loop `for i := start; i <= end; i++` (in both
  `bridge.go` files) never ends when end is the largest int64, because `i`
  wraps. The model's range is finite and always ends.
- GoText.TrimSpace trims ASCII white space only. `ToLower` is ASCII only.
  Unicode spaces and letters, multi-byte in UTF-8, are not modelled.
- Repackager.ScanInt skips ASCII blanks only. `fmt.Sscanf` with "%d"
  reads runes and also skips the Unicode spaces (U+0085, U+00A0,
  U+2000 and the others); a string starting with one of them scans as 0 in
  the model but as its number in Go.
- Repackager.Slice takes the packet buffer's capacity to be its length.
  Go bounds a slice by `cap`, not `len`, so the fallback to the original
  bytes of a user field that fails to encode (server/engine/repackager.go
  line 105) may succeed in Go past the
  packet's length when the buffer has spare capacity, where the model
  reports `SliceOutOfRange`.
