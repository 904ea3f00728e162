# TVGate: a model and its proofs

TVGate is an IPTV proxy. This project models the parts of it that compute something subtle
and proves what they promise, in Dafny 4.11. `dafny verify dfyconfig.toml` checks everything.

- **PHP value codec** (`PhpValues`, `OrderedMaps`, `Decimal`, `Serialize*`, `Unserialize*`). The printer walks
  a heap of arrays and objects with a reference table; the parser is a cursor with a table of
  its own. Both are classes that update their fields, proved against functions on documents
  and on the remaining text. Main results: printing and reading back gives the same graph,
  pointers renamed, *exactly* when the printer's walk meets no array inside itself, drops
  nothing to its nesting limit and prints no array key `-0`; every value that unfolds to a
  finite tree, which is every acyclic one, reads back as that tree; serialize is injective on
  such trees; each container is opened at most once, cycles included. The texts that
  unserialize accepts are characterised by a grammar, and no text brings an object of a class
  to life that the options do not allow.
- **Expression parser** (`ParserSpec`, `Parser`, `ParserPrint`, `ParserLadder`, `ParserForms`). The
  precedence ladder over one shared cursor, for any table of predefined constants. Parsing the
  minimally parenthesised tokens of a tree returns the tree; the order of the operators is
  stated rung by rung, and so is what sugar, missing brackets and composed names stand for.
- **Calls** (`CallSpec`, `Interpreter`, `CallDiscipline`, `CallPrograms`, `CallValues`, `CallSwap`). The
  interpreter's scopes, saved copies, reference parameters and argument stack. What a call is
  worth, which calls bind their reference arguments to the caller's own variables, what any
  call leaves alone, and what reference parameters hand back; a recursive function, loops and
  a swap by reference as whole programs.
- **Byte codecs and string algorithms** (`Csv*`, `UuCodec`, `QuotedPrintable`, `CodecForms`, `Pack*`,
  `EditDistance`, `Version*`, `NaturalOrder`). Round trips with their exact conditions, the
  layout of what is written and the leniency of what is read, the edit distance as a least
  cost and as a metric, and the laws of two comparison orders.
- **Load balancer** (`ProxySelection`, `SpeedTests`, `SpeedTestRuns`). Fairness of the cached round robin, and
  the accounting of concurrent speed tests over all interleavings.
- **Stateful guards** (`Breaker`, `BreakerRuns`, `BreakerRequests`, `BreakerSerial`,
  `RedirectChains`, `TimeoutCloser`, `TimeoutRuns`). Invariants over every run of the failure
  breaker, the requests at its gate, the bounded redirect chains and the body closer.

Code that changes state step by step is a class or a loop here too, and each such method is
proved against a function of the old state; the theorems are about those functions. Strings
are byte strings with a `char` for a byte, or `bv8` where bits are split and joined. Clocks,
the library's sort of property names, the text form of floats and the meaning of binary
operators are parameters.

Where the code and its comments or tests disagree, the model follows the code:

- The comment at `phpgo/fn_serialize.go:15-18` says that no reference marks are printed and
  that properties are sorted; the code prints `R:` and `r:` and keeps the recorded order.
- The breaker's comment promises no fetch before a deadline. While an address cools nobody
  passes the gate, but whoever passed it before the trip still fetches, and nobody else does
  (`NoRequestPassesCooling`, `CoolingFetches`): the remaining attempts of the request that
  tripped the breaker (`RetryFetchesWhileCooling`) and even the first attempt of another one
  (`OverlappingFetchesWhileCooling`). Requests of one attempt that do not overlap never do
  (`SingleAttemptsNeverFetch`); `SerialExactly` says which request does on its own.
- The default CSV dialect loses fields with a backslash before a quote or at the end
  (`BackslashLost`); the exact condition is `EscapeSafe` for every field.
- `unpack` skips the codes `a` and `A` without skipping their bytes (`TextIsNotSkipped`);
  `InvertsExactly` says for which formats it still returns what `pack` was given.
- A reference parameter is bound to the caller's own variable exactly when its argument
  *aims*: no earlier parameter has taken the argument's name, or one has by value while the
  caller's slot is plain, or by reference to the same cell (`CallAimsExactly`). Otherwise the
  earlier parameter is captured (`EarlierParameterCaptures`), or the slot in which the caller
  keeps a reference is overwritten (`ReferenceSlotClobbered`); only the latter breaks what
  calls leave alone. A local name that is a reference parameter of a caller writes through to
  it (`LocalWritesThrough`).
- After `Close` the watcher of a response body can be left waiting for a tick for ever;
  `WatcherCanEnd` says exactly when, and `CloseStrands` which first `Close` does it.
- Digit runs compare modulo 2^64 in the natural order, so they are ordered by value exactly
  up to 2^63 - 1 (`ByValueExactly`). Two different version words outside the ranking break
  transitivity, one never does (`TransitiveExactly`, `UnknownWordsNotTransitive`).

## Model

| member | source | states |
|---|---|---|
| SerializeTheorems.RoundTripExactly | phpgo/fn_serialize.go:68-145 | for every heap graph: reading back the printed text succeeds, and gives a copy with the same kinds, classes, keys, order and sharing if and only if the walk is clean |
| SerializeTheorems.SerPrints | phpgo/fn_serialize.go:97-140 | on any finite heap, cycles included, each container pointer is registered and printed in full at most once, and what is printed is well formed |
| SerializeTheorems.RoundTrip | phpgo/fn_serialize.go:286-458 | a clean walk is read back as a copy, sharing and cycles through objects included |
| SerializeTheorems.NoRoundTrip | phpgo/fn_serialize.go:442-455 | an unclean walk is still accepted, and never gives a copy |
| SerializeTrees.TreeRoundTrip | phpgo/fn_serialize.go:68-202 | a value that unfolds to a finite tree, at most 100000 values deep and without the array key "-0", reads back as a value that unfolds to the same tree |
| SerializeTrees.SerializeInjective | phpgo/fn_serialize.go:50-55 | two values with the same text unfold to the same tree, when neither is more than 100000 values deep |
| SerializeTrees.AcyclicClean | phpgo/fn_serialize.go:97-109 | a walk over a value with a finite unfolding never meets an array that is still open |
| SerializeTrees.CopyUnfolds | phpgo/fn_serialize.go:442-455 | a copy of a graph unfolds to the same tree as the original |
| SerializeAcyclic.UnfoldsExactly | phpgo/fn_serialize.go:97-125 | a value denotes a finite tree exactly when the containers below it can be ranked above what they hold, that is, when the graph is acyclic |
| SerializeAcyclic.AcyclicRoundTrip | phpgo/fn_serialize.go:68-202 | the text of an acyclic value at most 100000 values deep and without the array key "-0" reads back as the same tree |
| SerializeTrees.UnfoldsOnce | phpgo/value.go:233-253 | a value unfolds to at most one tree |
| SerializeSyntax.ParsePrint | phpgo/fn_serialize.go:300-458 | parsing the text of a document, whatever follows it, does exactly what the document says and leaves the rest |
| SerializeRoundTrip.EvalSer | phpgo/fn_serialize.go:168-174 | the i-th container that the printer registers is the i-th one that the parser appends to its table |
| SerializeDefect.EvalSerAny | phpgo/fn_serialize.go:442-455 | on any walk the parser succeeds, and an unclean walk leaves a defect in the copy that later steps do not repair |
| SerializeCases.ArrayInItself | phpgo/fn_serialize.go:97-103 | an array that holds itself does not come back as a copy |
| SerializeCases.ObjectInItself | phpgo/fn_serialize.go:119-125 | an object that holds itself does |
| SerializeCases.MinusZeroKey | phpgo/fn_serialize.go:178-202 | the array key "-0" does not come back |
| SerializeTexts.ScalarTexts | phpgo/fn_serialize.go:68-145 | the texts of null, booleans, integers, floats, strings and resources, letter by letter |
| SerializeTexts.ArrayText | phpgo/fn_serialize.go:97-118 | an array not met before: its count, and then key and value texts in key order |
| SerializeTexts.ObjectText | phpgo/fn_serialize.go:119-140 | an object not met before: class, count and properties, in the recorded order or a sorted one |
| SerializeTexts.MetAgain | phpgo/fn_serialize.go:97-125 | a container met again is `R:<n>;` for an array and `r:<n>;` for an object, n its place among the containers printed |
| SerializeTexts.TooDeepText | phpgo/fn_serialize.go:68-76 | under 100000 open values only a null is printed |
| SerializeTexts.NestedArrays | phpgo/fn_serialize.go:68-76 | n arrays around 1 are printed in full up to n = 99999; from 100000 on exactly 100000 are, around a null |
| Serializer.SerializeTop | phpgo/fn_serialize.go:50-55 | the builder and context loops produce the text of the document |
| Serializer.SerializeValue | phpgo/fn_serialize.go:68-145 | one value appends its document's text; the table grows to exactly the registered pointers and the depth returns |
| Serializer.SerializeCtx.RegisterRef | phpgo/fn_serialize.go:168-174 | the identifier table after a registration |
| Unserializer.UnserializeTop | phpgo/fn_serialize.go:287-298 | the cursor parser accepts and returns exactly what the function on texts does; only white space may follow, that of Unicode included |
| Unserializer.Unserializer.ParseVal | phpgo/fn_serialize.go:300-458 | one parsed value moves the cursor, heap, table and depth as specified, errors included |
| Unserializer.Unserializer.ReadInteger | phpgo/fn_serialize.go:470-488 | the scan reads an optional sign and the longest digit run, in the int64 range |
| Unserializer.Unserializer.ReadUntilByte | phpgo/fn_serialize.go:491-502 | the text up to the next separator, and failure when there is none |
| UnserializeMeaning.AcceptedTexts | phpgo/fn_serialize.go:287-458 | unserialize accepts a text if and only if it is a well-written form followed by white space, its floats can be read, every reference names a container opened before it, and no more containers stand inside each other than max_depth allows |
| UnserializeGrammar.FormIsRead | phpgo/fn_serialize.go:300-458 | a well-written form, whatever follows it, is read as its meaning; numbers may have a plus sign and leading zeros, a count may be negative, `R` and `r` are the same |
| UnserializeGrammar.ReadIsForm | phpgo/fn_serialize.go:300-458 | whatever is accepted is a well-written form in front of the rest |
| UnserializeMeaning.OnlyAllowedClasses | phpgo/fn_serialize.go:417-425 | for all options and texts: every object that comes to life has an allowed class or is a `__PHP_Incomplete_Class` with the property for the lost name |
| UnserializeMeaning.RejectedClass | phpgo/fn_serialize.go:418-437 | a class that is not allowed leaves its name under `__PHP_Incomplete_Class_Name`, first among the properties, unless entries of that name replace it: then the last of them stays |
| UnserializeMeaning.EmptyObject | phpgo/fn_serialize.go:392-440 | the empty object of any class, as a text: a live object or only the name |
| UnserializeMeaning.ArrayRead | phpgo/fn_serialize.go:362-391 | an array is a new container with its entries stored in order, the last value of a key kept at its first place; no open container changes |
| UnserializeMeaning.ObjectRead | phpgo/fn_serialize.go:392-440 | the same for an object and its properties |
| UnserializeMeaning.BlankTexts | phpgo/fn_serialize.go:293-296 | what counts as trailing white space, by its Unicode characters in UTF-8 |
| UnserializeMeaning.KeyNames | phpgo/value.go:198-230 | the names that keys of each kind stand for |
| Decimal.ComputeArrayIntKey | phpgo/fn_serialize.go:178-202 | the byte loop accepts exactly the decimal integers without superfluous zeros that fit an int64 |
| Decimal.IntKeyText | phpgo/fn_serialize.go:176-202 | an integer key prints as the same text, "-0" alone excepted |
| Decimal.ParseFormatInt | phpgo/fn_serialize.go:470-488 | parsing the decimal text of an int64 returns it |
| Decimal.IntKeysExactly | phpgo/fn_serialize.go:176-202 | the keys that print as integers are the decimal texts of the int64 numbers, and "-0" |
| Decimal.SignedTexts | phpgo/fn_serialize.go:470-488 | a sign is optional, and a number is refused exactly outside 64 bits |
| Decimal.DigitValues | phpgo/fn_serialize.go:470-488 | each digit multiplies by ten and adds itself |
| Decimal.DigitTexts | phpgo/fn_serialize.go:84-88 | decimal notation, digit by digit |
| OrderedMaps.OrderedMap.Set | phpgo/value.go:286-296 | setting a key keeps the key list in step with the map: overwritten in place or appended |
| OrderedMaps.OrderedMap.Unset | phpgo/value.go:308-323 | unsetting removes the key from the map and its one slot from the list, and nothing else |
| ParserPrint.ParseShow | phpgo/parser.go:837-1469 | for every table of predefined constants: parsing the minimally parenthesised tokens of an expression returns the expression and stops at the end of file |
| ParserPrint.ShowParses | phpgo/parser.go:859-1469 | the same at every ladder level, before any token that does not extend an expression of that level |
| ParserPrint.ShowInjective | phpgo/parser.go:837-1469 | different expressions have different token texts |
| ParserLadder.TighterTakes | phpgo/parser.go:934-1104 | for any operands and two operators of different rungs of the ladder, from logical or up to multiplication, the tighter one takes the operand between them, whichever comes first |
| ParserLadder.SameRungLeft | phpgo/parser.go:934-1104 | operators of one rung associate to the left |
| ParserLadder.TestsArithmetic | phpgo/parser.go:1014-1104 | `instanceof` tests what shifts, sums and products make |
| ParserLadder.TestIsOperand | phpgo/parser.go:934-1056 | a test is an operand of the logical and bit operators |
| ParserLadder.TestIsNotCompared | phpgo/parser.go:1014-1056 | a comparison after a test stays unread |
| ParserForms.Shorthands | phpgo/parser.go:859-916 | a compound assignment assigns the combination; a conditional may lack its else part |
| ParserForms.Increments | phpgo/parser.go:1106-1183 | the prefix `++` and `--` assign the variable plus or minus one |
| ParserForms.Prefixes | phpgo/parser.go:1106-1200 | `@` changes nothing, and `&` makes a reference to the variable |
| ParserForms.MissingBrackets | phpgo/parser.go:1209-1374 | a closing parenthesis or bracket may be missing, and arguments may end in a comma |
| ParserForms.Names | phpgo/parser.go:1376-1469 | names of one or several words and what they stand for: predefined constants, the seven magic names, or a constant |
| ParserForms.NamelessClass | phpgo/parser.go:1262-1324 | what stands before a double colon and is no name counts as the class with the empty name |
| ParserForms.Words | phpgo/parser.go:837-857 | the word operators in any letter case |
| ParserForms.Instances | phpgo/parser.go:1014-1056 | the class after `instanceof` from the root or in parts; without a name the left side alone |
| ParserForms.WideInteger | phpgo/parser.go:1376-1469 | an integer literal beyond 64 bits is 0 |
| ParserForms.RefusedPrimary | phpgo/parser.go:1376-1469 | an expression does not begin with a closing bracket, a colon, a comma or an equals sign, and is not empty |
| ParserForms.RefusedRight | phpgo/parser.go:1074-1328 | an operator without a right operand, an arrow or a double colon without a name, and a call of what has no name are refused |
| ParserForms.RefusedPrefix | phpgo/parser.go:1106-1200 | `++`, `--` and `&` without a variable are refused |
| ParserSpec.ParseAt | phpgo/parser.go:837-1104 | every ladder level either fails or consumes at least one token, and never the end-of-file token |
| ParserSpec.ParseUnary | phpgo/parser.go:1106-1183 | prefix operators likewise advance or fail |
| Parser.Parser.ParseExpr | phpgo/parser.go:837-857 | the cursor method returns the specified tree and leaves the cursor at the specified rest |
| Parser.Parser.ParseTernary | phpgo/parser.go:886-916 | the conditional, in its three forms |
| Parser.Parser.ParseCompare | phpgo/parser.go:1014-1056 | `instanceof` once, or comparisons that associate to the left, never both |
| Parser.Parser.ParseInstanceTail | phpgo/parser.go:1020-1045 | the class name after `instanceof`, separators included; without a name the left side stands alone |
| Parser.Parser.ParsePrimaryExpr | phpgo/parser.go:1376-1469 | variables, literals, parentheses and names, predefined and magic constants replaced |
| Parser.Parser.ParsePostfixFrom | phpgo/parser.go:1209-1328 | the postfix loop of subscripts, calls, arrows and static accesses |
| Parser.Parser.ParseStaticTail | phpgo/parser.go:1262-1324 | after `::` a static property, the class name, a static call or a class constant |
| Parser.Parser.ParseArgList | phpgo/parser.go:1330-1374 | the argument loop with its optional separators, references and spread lists |
| CallDiscipline.CallKeepsCaller | phpgo/eval.go:2094-2141 | after any call that returns and clobbers no slot in which a caller keeps a reference: its value is the one its body returned, null when the body ended otherwise; the caller's slots are unchanged but for names passed to reference parameters, which read as the parameter did at the end of the body when their argument aims; outer saved scopes change only where a reference of the caller leads; the argument stack is as before |
| CallDiscipline.CallAimsExactly | phpgo/eval.go:2104-2127 | a call binds every reference parameter to the cell that its argument's name stands for in the caller if and only if every reference argument aims |
| CallDiscipline.AimsExactly | phpgo/eval.go:1927-1955 | the same from any point of the binding loop |
| CallDiscipline.ParamReachesArgument | phpgo/eval.go:1927-1955 | at the end of the body a reference parameter leads to its argument's cell if and only if the argument aims, and then the argument reads as the parameter did, forwarded references included |
| CallDiscipline.InvokeFrame | phpgo/eval.go:2093-2141 | what running one call that clobbers nothing leaves alone, and that its result is never a reference |
| CallDiscipline.BlockFrame | phpgo/eval.go:693-707 | running any block whose calls clobber nothing changes saved scopes only through visible references and keeps the argument stack |
| CallPrograms.ClearProgramKeepsFrame | phpgo/eval.go:2104-2127 | a test on the program text that suffices: no reference argument has the name of a parameter bound by value before it |
| CallDiscipline.WriteFrame | phpgo/eval.go:558-565 | an assignment is read back, and changes either one slot of the running scope or one referenced cell |
| CallDiscipline.ScriptEndsClean | phpgo/eval.go:693-707 | a block run to its end from an empty environment, with calls that clobber nothing, leaves no references and no frames behind |
| CallDiscipline.EarlierParameterCaptures | phpgo/eval.go:2105-2110 | an argument with the name of an earlier reference parameter is bound to that parameter's target |
| CallDiscipline.ValueParameterPassesBy | phpgo/eval.go:2105-2127 | an earlier value parameter of that name does no harm while the caller's slot is plain |
| CallDiscipline.ReferenceSlotClobbered | phpgo/eval.go:1927-1955 | when the caller's slot is a reference, the same call overwrites that slot and leaves its cell as it was |
| CallDiscipline.LocalWritesThrough | phpgo/eval.go:558-562 | a callee's local with the name of a caller's reference parameter writes through it |
| CallDiscipline.ThrowingArgumentLeaks | phpgo/eval.go:2113-2116 | an error in an argument leaves the parameters bound so far in the caller's scope |
| CallValues.CallValue | phpgo/eval.go:2129-2141 | a call is worth what its body returns from the state in which the parameters are bound, null when the body ends otherwise, and its error is the call's |
| CallValues.ReturnedValue | phpgo/eval.go:2129-2141 | a body that begins with `return e` gives the value of e in that state |
| CallValues.ValueParameter | phpgo/eval.go:2104-2127 | a value parameter is its argument's value, else its default's, else null, and so is its entry in the frame |
| CallValues.UndeclaredIsNull | phpgo/eval.go:2093-2098 | a function nobody declared is worth null |
| CallValues.IfChooses | phpgo/value.go:121-160 | null, false, 0, the empty text and "0" take the other branch, every other value the first |
| CallValues.AssignmentWrites | phpgo/eval.go:558-565 | an assignment is worth its value, and the globals table gets it under the name written to |
| CallValues.ThrowEnds | phpgo/eval.go:693-707 | an error ends the statement, the block, the loop and the call around it |
| CallValues.FactIsFactorial | phpgo/eval.go:2093-2141 | a recursive factorial function has the value n! for every n, and leaves the caller's variables, scopes and stack alone |
| CallValues.LoopSums | phpgo/eval.go:982-1015 | a counting loop adds the numbers from n down to 1, for every n and every start |
| CallValues.BreaksLeave | phpgo/eval.go:982-1015 | `break 2` leaves two loops and what follows in the outer one, `break` leaves one |
| CallValues.ContinueSkips | phpgo/eval.go:982-1015 | `continue`, and `continue 2` from an inner loop, go on with the next round, for any statements after them |
| CallValues.ReturnLeaves | phpgo/eval.go:982-1015 | `return` leaves every loop around it with its value |
| CallValues.ExitStops | phpgo/eval.go:693-707 | after `exit` in a called function nothing more is run in the caller |
| CallSwap.SwapExchanges | phpgo/eval.go:2093-2141 | swap by reference exchanges the values of any two variables of the caller, and changes nothing else there |
| Interpreter.Env.CallFunc | phpgo/eval.go:2093-2141 | the call as it updates the environment: saved copy, binding, frame, body, restore |
| Interpreter.Env.BindParams | phpgo/eval.go:2104-2127 | the binding loop: by reference, by value, default, null |
| Interpreter.Env.RunWhile | phpgo/eval.go:982-1015 | the loop with break and continue counts, return and exit |
| Interpreter.Env.PushCallFrame | phpgo/fn_func_args.go:12-26 | the new frame holds the parameters' values with references resolved |
| Interpreter.Env.PopCallFrame | phpgo/fn_func_args.go:29-33 | the top frame goes, an empty stack stays |
| Interpreter.Env.Assign | phpgo/eval.go:558-565 | plain assignment writes through a reference slot, else the slot, and the globals table |
| CsvRoundTrip.RoundTripExactly | phpgo/fn_csv.go:14-150 | for every proper dialect and all non-empty records: reading as often as was written returns the records and then the end if and only if every field is escape-safe |
| CsvRoundTrip.BackslashLost | phpgo/fn_csv.go:67-79 | the default dialect loses a field ending in a backslash |
| CsvReading.CrlfReadsBack | phpgo/fn_csv.go:84-89 | escape-safe records written with carriage return and line feed at each end read back as the same records, and then the end |
| CsvReading.UnquotedLine | phpgo/fn_csv.go:84-115 | a line without enclosures and escapes is split at the delimiters, and no carriage return enters a field |
| CsvReading.QuoteInside | phpgo/fn_csv.go:93-99 | an enclosure that does not begin a field stays |
| CsvReading.AfterQuotes | phpgo/fn_csv.go:37-65 | what follows a closing enclosure on the same field is appended as it stands |
| CsvReading.EscapeInQuotes | phpgo/fn_csv.go:67-80 | between enclosures the escape goes in front of an escape or enclosure and stays in front of anything else |
| CsvReading.EscapeOutside | phpgo/fn_csv.go:100-111 | outside enclosures the escape and the byte after it stay |
| CsvReading.EndsInQuotes | phpgo/fn_csv.go:28-36 | a text that ends between enclosures gives what was read so far |
| CsvWriting.Enclosed | phpgo/fn_csv.go:127-146 | a field with a special byte, or a blank at either end, is written between enclosures |
| CsvWriting.AsItIs | phpgo/fn_csv.go:127-135 | every other field is written as it is |
| CsvWriting.DoubledCat | phpgo/fn_csv.go:136-146 | two enclosures for one, every other byte once |
| CsvWriting.RecordText | phpgo/fn_csv.go:120-150 | fields with the delimiter between them and a line feed at the end |
| CsvWriting.OneRecord | phpgo/fn_csv.go:120-150 | one record with a plain field, an empty one, one with a delimiter and one with an enclosure |
| Csv.ReadCSVRecord | phpgo/fn_csv.go:14-116 | the byte loop with its quoting states reads one record and leaves the reader after it |
| Csv.WriteCSVRecord | phpgo/fn_csv.go:120-150 | the writer's text: fields quoted where needed, enclosures doubled |
| UuCodec.UuRoundTrip | phpgo/fn_str_more.go:317-400 | uudecode inverts uuencode on every byte string, with or without a terminator line and whatever follows it |
| UuCodec.GroupsRoundTrip | phpgo/fn_str_more.go:326-351 | groups of one to three bytes become printable characters and decode to the same bytes |
| UuCodec.UuEncode | phpgo/fn_str_more.go:317-355 | the two loops over lines and groups |
| UuCodec.UuDecode | phpgo/fn_str_more.go:358-400 | the decoder's line loop, errors and terminator included |
| CodecForms.UuLayout | phpgo/fn_str_more.go:317-355 | lines of up to 45 bytes: a length character, the groups, a line feed |
| CodecForms.UuGroups | phpgo/fn_str_more.go:326-351 | three bytes as four characters, bit by bit; a short group is filled with backticks |
| CodecForms.UuLenient | phpgo/fn_str_more.go:358-400 | blanks count as backticks, lines that are empty or have no length are passed over, a backtick ends the text |
| CodecForms.UuBackticks | phpgo/fn_str_more.go:376-398 | inside the groups a backtick is read like a blank, wherever it stands |
| QuotedPrintable.QpRoundTrip | phpgo/fn_str_more.go:227-302 | decoding what was encoded gives the text without carriage returns, so the text itself exactly when it has none |
| QuotedPrintable.QpLines | phpgo/fn_str_more.go:227-267 | section 6.7 of RFC 2045: no encoded line over 76 characters, none ending in a blank, only printable bytes |
| QuotedPrintable.QpEncode | phpgo/fn_str_more.go:227-267 | the encoder's loop with its column counter |
| QuotedPrintable.QpDecode | phpgo/fn_str_more.go:270-302 | the decoder's loop, soft breaks and broken escapes included |
| QuotedPrintable.HexRoundTrip | phpgo/fn_str_more.go:304-314 | the two hexadecimal digits of a byte read back as the byte |
| CodecForms.QpBare | phpgo/fn_str_more.go:227-267 | visible text is written as it is, with a soft break after every 75 characters |
| CodecForms.QpEscaped | phpgo/fn_str_more.go:227-267 | every other byte is escaped in upper case, but for line ends and for blanks inside a line; carriage returns go |
| CodecForms.QpEscapes | phpgo/fn_str_more.go:270-314 | an escape of either case is read as its byte |
| CodecForms.QpBreaks | phpgo/fn_str_more.go:270-302 | soft breaks vanish with either line end, and carriage returns do |
| CodecForms.QpBroken | phpgo/fn_str_more.go:270-302 | `=` without two digits or a break after it is kept |
| PackFormat.UnpackInvertsPack | phpgo/fn_crypto.go:175-356 | for every format without text codes, counts and C* included, and any arguments: unpack lists the consumed arguments reduced modulo 256^width, and the arguments themselves exactly when they fit |
| PackText.InvertsExactly | phpgo/fn_crypto.go:175-356 | for every format: unpack returns the integers that pack consumed, reduced, on all arguments if and only if no text code can be reached in front of an integer code that reads |
| PackText.ExposedBreaks | phpgo/fn_crypto.go:255-268 | for any other format there are arguments on which unpack returns more values than pack was given |
| PackFormat.DecodeEncode | phpgo/fn_crypto.go:216-254 | one integer in either byte order |
| PackFormat.TextIsNotSkipped | phpgo/fn_crypto.go:300-351 | unpack does not skip the bytes of a text code |
| PackFormat.Pack | phpgo/fn_crypto.go:175-272 | the interpreter of pack formats, text padding of the whole buffer included |
| PackFormat.Unpack | phpgo/fn_crypto.go:273-356 | the interpreter that unpacks fills an ordered map with keys 1, 2, 3, ... |
| PackFormat.ReadDirective | phpgo/fn_crypto.go:183-201 | the repeat suffix: a star, a decimal count, or one |
| PackForms.ByteOrders | phpgo/fn_crypto.go:216-254 | C is one byte, n and N put the high byte first and v and V the low one, for every integer modulo the width |
| PackForms.ByteSums | phpgo/fn_crypto.go:300-351 | what the bytes of each code read as |
| PackForms.FormatRead | phpgo/fn_crypto.go:183-201 | a code is followed by a star, by a number, or by nothing |
| PackForms.DirectivePacked | phpgo/fn_crypto.go:255-268 | text is padded with zeros or blanks to the length of the whole buffer; unknown codes do nothing |
| PackForms.UnpackedKeys | phpgo/fn_crypto.go:273-356 | two unpacked values stand under the keys "1" and "2" |
| PackForms.CodesTaken | phpgo/fn_crypto.go:202-254 | the widths of the codes; with a star only C takes everything that is left |
| PackForms.PackedTexts | phpgo/fn_crypto.go:175-356 | "C2n" and "C*" on any values, packed and unpacked |
| EditDistance.DistanceIsLeastCost | phpgo/fn_str_more.go:85-107 | the table entry for two prefixes is the least cost over all their alignments |
| EditDistance.TriangleInequality | phpgo/fn_str_more.go:85-107 | the triangle inequality, for costs under which replacing composes |
| EditDistance.IsMetric | phpgo/fn_str_more.go:85-107 | with equal positive side costs the value before the 255 cut is a metric |
| EditDistance.Levenshtein | phpgo/fn_str_more.go:67-112 | the two-row loop computes the distance, cut at 255 |
| VersionOrder.VersionCompareLaws | phpgo/fn_runtime.go:126-263 | on texts over a vocabulary with at most one word outside the ranking: reflexive, antisymmetric in sign, transitive, zero exactly when the token lists agree up to trailing zeros, that word counting as zero |
| VersionOrder.TransitiveExactly | phpgo/fn_runtime.go:126-263 | the comparison is transitive on all texts over a vocabulary if and only if it holds at most one word outside the ranking |
| VersionOrder.TwoUnknownBreak | phpgo/fn_runtime.go:160-175 | any two different words outside the ranking break transitivity around "0" |
| VersionOrder.UnknownWordsNotTransitive | phpgo/fn_runtime.go:173-174 | the texts "y", "0" and "x" are not compared transitively |
| VersionOrder.VersionTokens | phpgo/fn_runtime.go:126-157 | the index loop splits the text into numbers and words |
| VersionOrder.VersionCompare | phpgo/fn_runtime.go:243-263 | the loop over the longer list with the shorter one padded |
| VersionForms.LaterVersion | phpgo/fn_runtime.go:159-263 | after a common beginning the token of the higher rank makes the later version: dev, alpha, beta, rc, then 0 and unknown words, pl, other numbers; a version that ends counts as going on with zeros |
| VersionForms.SameRung | phpgo/fn_runtime.go:177-240 | on one rank numbers compare by value, words as texts, and 0 is equal to any unknown word |
| VersionForms.NumberToken | phpgo/fn_runtime.go:139-148 | a run of digits is one number, the largest int64 when it is larger |
| VersionForms.WordToken | phpgo/fn_runtime.go:149-154 | a run of letters is one word |
| VersionForms.Letters | phpgo/fn_runtime.go:133-138 | the letters a to z and the digits make tokens; every other character separates |
| VersionForms.VersionText | phpgo/fn_runtime.go:126-157 | the tokens of "v1.20-rc3" |
| VersionForms.LeadingV | phpgo/fn_runtime.go:127-130 | a leading `v` goes in front of a digit, and nowhere else |
| NaturalOrder.NaturalOrderLaws | phpgo/fn_str_compare.go:30-67 | on all byte strings: reflexive, antisymmetric in sign, transitive, zero exactly when the token lists are the same |
| NaturalOrder.RunsCompareEqual | phpgo/fn_str_compare.go:16-25 | two digit runs are equal exactly when their values agree modulo 2^64 |
| NaturalOrder.ByValueExactly | phpgo/fn_str_compare.go:16-25 | digit runs with values up to a bound compare as these numbers if and only if the bound fits in 63 bits |
| NaturalOrder.NaturalCompare | phpgo/fn_str_compare.go:30-67 | the loop over two cursors compares token lists lexicographically |
| ProxySelection.Fair | lb/cache.go:9-28 | any m selections from any start give counts that differ by at most one, while the health records stay fixed |
| ProxySelection.OneRound | lb/cache.go:9-28 | as many consecutive selections as there are eligible positions return each of them once, in cyclic order |
| ProxySelection.ProxyGroup.SelectProxyFromCache | lb/cache.go:9-28 | the first eligible position in cyclic order, and the index moved past it; what is picked is alive, measured and past its cooldown, and nothing changes when no proxy is |
| ProxySelection.ProxyGroup.SelectMany | lb/cache.go:9-28 | m selections in a row return the positions that the fairness lemmas speak about |
| ProxySelection.FirstReady | lb/cache.go:9-28 | the candidates are exactly the checked, living, measured proxies past their cooldown, and the first is the one nearest to the index going round |
| SpeedTestRuns.EveryResultReceivedOnce | lb/fastest.go:156-301 | in every interleaving a run is bounded, and when no step is left each launched test's result was received exactly once and the drainer has ended |
| SpeedTestRuns.NoSenderBlocks | lb/roundrobin.go:179-325 | in every reachable state a tester that has not sent can send at once |
| SpeedTestRuns.NeverStuck | lb/roundrobin.go:179-325 | some step is possible until all results are received |
| SpeedTests.ConsumeRemainingResults | lb/consume.go:13-56 | the drainer takes exactly its count of results, in order, and applies each to its health record, with 60 seconds for a missing interval |
| SpeedTestRuns.DrainKeepsOthers | lb/consume.go:19-54 | results of other proxies leave a health record alone |
| SpeedTestRuns.FailuresAddUp | lb/consume.go:42-52 | consecutive failures add up, and the third and the fifteenth lengthen the cooldown |
| SpeedTestRuns.LatestResult | lb/consume.go:19-54 | the latest result of a proxy decides its record: untouched when canceled, all new on success, one more failure with no, the group's or a two-hour cooldown otherwise |
| SpeedTestRuns.EarlyReturn | lb/fastest.go:156-301 | a run in which the loop leaves after the first result and the drainer takes the second |
| SpeedTestRuns.AllReceived | lb/fastest.go:156-301 | a run in which the loop takes every result, and then a drainer is left only where the source starts one for nothing |
| SpeedTestRuns.GivenUp | lb/roundrobin.go:179-325 | a run in which the loop gives up before any result |
| BreakerRuns.TripLaw | player/handler.go:1183-1211 | in every timed run without success or sweep the j-th trip has cooldown min(base * 2^j, cap), j from 0, and comes strictly after the previous deadline |
| BreakerRuns.TripsExactly | player/handler.go:1183-1211 | a failure trips exactly when it is counted and completes the threshold |
| BreakerRuns.TripsApart | player/handler.go:79-92 | trips in a window are bounded: k - i of them take more than k - i cooldowns |
| BreakerRequests.NoRequestPassesCooling | player/handler.go:897-977 | in every run of overlapping requests, while the address cools a fetch is possible exactly for the requests in flight at the trip that are not over yet |
| BreakerRequests.CoolingFetches | player/handler.go:907-977 | from a cooling state a request can fetch before the cooldown ends if and only if it is in flight |
| BreakerRequests.SingleAttemptsNeverFetch | player/handler.go:897-977 | requests of one attempt that do not overlap never fetch while the address cools |
| BreakerRequests.RetryFetchesWhileCooling | player/handler.go:907-977 | a request that trips the breaker still makes its remaining attempts |
| BreakerRequests.OverlappingFetchesWhileCooling | player/handler.go:907-977 | a request that passed the gate before another one tripped the breaker makes its first fetch while the address cools |
| BreakerRequests.Answers | player/handler.go:907-977 | what each kind of answer does: usable opens the gate, canceled changes nothing, failed counts and ends, invalid counts and ends only the last attempt |
| BreakerRequests.Arrivals | player/handler.go:897-906 | a request passes the gate exactly while nothing is left of a cooldown, and without passing it does nothing |
| BreakerRequests.AttemptsBounded | player/handler.go:907-977 | in every run a request makes no more attempts than it may |
| BreakerSerial.SerialRequest | player/handler.go:1183-1211 | one request at an open gate: no fetch up to the tripping answer comes during a cooldown, and the next does exactly when it is made before the new deadline |
| BreakerSerial.SerialExactly | player/handler.go:897-977 | such a request fetches during a cooldown if and only if it makes more fetches than it needs notes to trip, max(threshold - c, 1) with c failures counted |
| BreakerSerial.SafeSettings | player/handler.go:897-905 | never with one attempt, and never with as many attempts as the threshold and no failures counted |
| Breaker.SweepKeepsCooling | player/handler.go:1218-1238 | a sweep never removes an entry that is cooling or will be asked about |
| Breaker.FailureTable.NoteFailure | player/handler.go:1183-1211 | the new streak and whether it tripped; other entries unchanged |
| Breaker.FailureTable.UpstreamBlocked | player/handler.go:1163-1178 | the time left of a cooldown, zero when there is none |
| Breaker.FailureTable.NoteSuccess | player/handler.go:1213-1216 | the gate of the address is open at once and its next failure counts as the first; every other address is as before |
| Breaker.FailureTable.Sweep | player/handler.go:1218-1238 | with 512 entries or more exactly those go whose last failure and whose cooldown both lie more than 30 seconds back; with fewer none |
| Breaker.Trip | player/handler.go:1183-1211 | the failure that completes the threshold cools for 30 seconds the first time, then twice as long as the last, at most 300 seconds |
| Breaker.FirstFailure | player/handler.go:1183-1211 | the first failure of an address is counted, and trips at once when one is enough |
| RedirectChains.RedirectCache.AddRedirectIP | cache/redirect.go:15-88 | every chain keeps levels 1..head, at most 32, pairwise distinct; the chain gains the address, and then addresses of the merged chain, for every iteration order |
| RedirectChains.RedirectCache.Clean | clear/start_redirect_chain_cleaner.go:17-25 | the cleaner deletes exactly the chains unused for too long |
| RedirectChains.AppendLevel | cache/redirect.go:50-68 | appending to a full chain drops only its oldest entry |
| RedirectChains.MergeChain | cache/redirect.go:71-87 | merging adds only new addresses, and all of them while there is room |
| RedirectChains.ChainBounds | cache/redirect.go:15-88 | a chain holds 1 to 32 addresses, the 33rd pushes out the oldest, and below 32 no address of the merged chain is left out |
| TimeoutRuns.ClosedOnce | handler/http_handler.go:54-111 | in every interleaving the body is closed at most once, and exactly once after a Close returned or the timeout branch ran; the done channel at most once and never after a timeout |
| TimeoutRuns.ReadAfterTimeout | handler/http_handler.go:77-92 | a Read that takes the lock after the timeout was recorded returns 0 and that error |
| TimeoutRuns.WatcherCanEnd | handler/http_handler.go:54-75 | after Close the watcher can still end exactly when it is not about to stop, or waiting on, a timer that nobody arms again |
| TimeoutRuns.CloseStrands | handler/http_handler.go:66-111 | the first Close leaves the watcher able to end exactly when it has not just taken a reset; between stopping and arming again it still can |
| TimeoutRuns.WatcherMayWaitForever | handler/http_handler.go:66-70 | one Read and one Close can leave the watcher waiting for ever |
| TimeoutRuns.ReadInTime | handler/http_handler.go:54-111 | a Read in time and a Close: the Read returns what the body gave, everything is closed once and the watcher ends |
| TimeoutRuns.ReadTooLate | handler/http_handler.go:54-111 | a Read during which the timer runs out returns the timeout, and a later Close closes nothing more |
| TimeoutCloser.TimeoutReadCloser.Timeout | handler/http_handler.go:57-65 | the timeout branch closes the body and records the error, unless it is closed |
| TimeoutCloser.TimeoutReadCloser.OfferReset | handler/http_handler.go:77-82 | a reset is pending afterwards, whether or not one was |
| TimeoutCloser.TimeoutReadCloser.Close | handler/http_handler.go:94-111 | the new shared state, and nil on a second Close |
| TimeoutCloser.TimeoutReadCloser.FinishRead | handler/http_handler.go:86-91 | 0 and the recorded error, or else what the body gave |

## Left out

- Network, HTTP, RTSP and UDP handlers, tokens, the PHP HTTP bridge, file and stream builtins: input and output around code that is not part of this model.
- Floats: a bit pattern with the library's format and parse functions as parameters; the round trip assumes that they invert each other and print no semicolon.
- The library's sort for objects whose property order is incomplete is a parameter; case folding (class allow-list, version text) happens before the model.
- Writing to a string offset through ArraySet, and array functions other than set and unset.
- Lengths, counts and columns are mathematical integers; overflow of a declared length or repeat count is not modelled.
- ParserPrint.ParseShow: array literals, closures, `new` and interpolated strings are not in the fragment; the parser model answers an error for them. Names of more than one word are parsed but not printed.
- Parser.Parser.ParsePrimaryExpr: tokens carry the numbers, bit patterns and texts of literals; scanning and unescaping them belongs to the lexer's side. Array literals, closures, `new` and interpolation are left out.
- CallDiscipline.CallKeepsCaller: scalars only; no caller arrays or property references, no `global`, `extract`, `unset`, closures, `include`, `try`, compound assignment, `++` or superglobal names. Fuel bounds call depth and loop rounds; a run that needs more is not covered, every run that ends has enough.
- CallDiscipline.CallAimsExactly: the cached value inside a reference, which reads do not use while the cell exists, is not modelled.
- Interpreter.Env.BindParams: expressions have no subscripts or properties, so the references made for such arguments are not modelled.
- Interpreter.Env.PushCallFrame: values are scalars, so a variadic parameter, whose array the frame spreads, is one value here.
- `for`, `foreach`, `switch` and `do` loops of the interpreter: the same block semantics as `while`.
- BreakerRequests.NoRequestPassesCooling: time is a parameter that does not decrease; the gap between loading and storing a table entry is one atomic step, and the cut of overlong keys is not modelled.
- TimeoutRuns.WatcherCanEnd: says that some continuation ends the watcher, not that the scheduler chooses it.
- SpeedTestRuns.EveryResultReceivedOnce: the comparison that picks the fastest proxy, and the fallback loop, are not part of the model.
- RedirectChains.RedirectCache.AddRedirectIP: the lock makes each call one step; the clock is a parameter.
- CSV dialect bytes outside ASCII, for which the library's ContainsAny sees characters instead of bytes.
- Similar-text, soundex and the other string builtins; AES, RSA, hashes, bcrypt, regular expressions and character sets.
