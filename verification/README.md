# Verified model of the Windows client's JSON parser, QR renderers, routing service and settings mapping

The project models five parts of the repository and proves what they keep.

* **The two-pass JSON parser and tree destructor** (`src/json.c`). The loop of `json_parse_ex` runs twice over the
  text, driven by fifteen flag bits and a `top` pointer. `Parser.State` has the same fields and the same sections;
  nodes live in an arena in creation order, a pointer is an index, and the `next_alloc` links are a column of it.
  The invariant says which remaining text completes the present state to which tree (`Progress.Completes`), what the
  flags stand for (`Parser.FlagsOk`), what every node and every block cell holds in either pass (`Progress.Stored`),
  and which requests the allocator has granted (`Ledger.Solvent`). The reference is a recursive-descent definition of
  the accepted texts (`Grammar`) and an account of the requests that a tree costs (`Ledger`), whose sizes are those that
  the code's `int` and `unsigned long` give (`Sizes`). `Language` says once more, in character codes and without
  following the code, which texts stand for which tree, and proves that the two definitions agree.
* **Requests and responses** (`src/cmd_handler.c`): the reader of the request object and the response text.
* **The two QR bitmap renderers** (`src/qrcode_gen.c`).
* **The routing service** (`src/cmd_handler.c`, `src/smartdnsblock.c`): routes, the DNS filter and the handlers.
* **The settings mapping** (`src/settings_json.c`).

The parser accepts what sections 2 to 7 of RFC 8259 allow (`Language.StandardAccepted`) and, as the code does, also: a comma before a closing
bracket, unknown escapes kept as the letter itself, raw control characters in strings, the numbers `-` and `-`
directly followed by an exponent, a skipped UTF-8 byte-order mark, a NUL byte as the end of the text, and comments
when the caller enables them (not directly after a number). `Language.LanguageIs` proves that this is all, up to the
limits on lengths.

Results that are not what one might expect of the code:

* Two escaped surrogates give the character of section 2.2 of RFC 2781 only when bit 6 of the first unit is 0, because
  the parts are joined with OR (`Lexemes.EscapedPair`, a text in `Lexemes.PairMisread`).
* No length is stored for an object's names, so a reader of C strings sees a name only up to its first NUL
  (`Reader.CutSame` says exactly when that is the parsed name, `Reader.CutDiffers` gives a text where it is not).
* A reset leaves the DNS filter's engine open exactly when the last configure request returned 0 although the converted
  proxy address was empty (`RouteService.ResetCloses`); `RouteService.StuckRun` runs the handlers on such inputs.
* Saving and loading a configuration drops the protocol `verify_sha1`, and what was loaded can then not be saved again
  (`Settings.SecondRound`, a configuration in `Settings.SecondRoundFails`).
* The gateway is the eligible default route of least metric exactly when the forwarding table has no all-zero row, or
  that row is not eligible because the TAP index is 0, or another eligible row has metric 0
  (`RouteService.LeastExactly`). Otherwise an all-zero row discards the choice made before it: `RouteService.PickMisses`
  gives a table, and `RouteService.PickChosen` says for every table which row is chosen.
* The size of a block is converted to `int` and to a 32-bit `unsigned long`. A parse that is granted all its requests is
  handed a block that is too small exactly when a conversion changes a size (`Ledger.OverrunsExactly`, with the sizes in
  `Sizes.RoomIs`). With 8 bytes for a pointer and 16 for an entry this cannot happen with up to 5 * 2^27 characters of
  text (`Spans.ShortTextRoomy`), and it does happen with one more (`Spans.LongTextOverruns`).
* A response is read back as its four printed members exactly when its action and message hold no quote, no backslash and
  no NUL (`Requests.ResponseExactly`): `build_response` does not escape them.

Lemmas on which the verifier would otherwise try induction by itself carry `{:induction false}`: every inductive proof
is the one that is written. Four predicates of the parser's invariant are wrapped in a recursion that changes nothing
(see `Progress`), so that the control code is verified against them as atoms. What the environment decides is an input:
the allocator's answers, the exit codes of the commands, and what the system answers to a request.

## Model

| member | source | states |
|---|---|---|
| Language.LanguageIs | src/json.c:219-926 | the parser gives a text the tree `v` exactly when the text, without a byte-order mark, is a text of `v` in a grammar that is written down in character codes: white space and comments, words, strings with their escapes, numbers with the value of their digits by place, arrays and objects with commas before a closing bracket, lengths up to 2^32 - 9, and the end or a NUL |
| Language.SkipExactly | src/json.c:427-485 | what is skipped between tokens is the longest run of white space and, when enabled, comments |
| Language.ShortEscape | src/json.c:289-296 | a backslash and a letter between quotes are the string of 08, 0C, 0A, 0D, 09 for b, f, n, r, t, and of the letter itself for any other but u and NUL, which are rejected |
| Language.StandardAccepted | src/json.c:219-926 | every text that sections 2 to 7 of RFC 8259 allow, with surrogates in pairs and within the limits on lengths, is accepted with its tree |
| Parser.ParseEx | src/json.c:219-920 | for every text, setting and allocator: a tree is returned exactly when the grammar gives one, the memory suffices and no conversion changes a size; it is the grammar's, which is that of LanguageIs, every node and block cell is as the final layout says, and exactly the tree's bytes were granted; a block that is too small is handed out exactly when that comes before the first refusal; otherwise what was granted is what comes before that refusal; grants never exceed the limit; a run that ends in the first pass has freed every node |
| Parser.Parse | src/json.c:922-926 | the same with no limit and no comments |
| Ledger.BillMeans | src/json.c:86-190 | the requests for a tree come to the sum of what json_alloc is given for its nodes and blocks, all are granted exactly when the allocator answers all of them and, with a limit, the bytes fit it and ULONG_MAX - 8, without one, each single request does; and all give enough exactly when the tree is roomy |
| Ledger.NodesMean | src/json.c:162-163 | the requests of the first pass are one node for each value, and are granted exactly when the nodes fit |
| Ledger.BlockEntry | src/json.c:113-160 | the block that the second pass requests for the value at the hole is the one that the account lists at its place in preorder |
| Sizes.RoomIs | src/json.c:113-160 | the bytes written to a block lie inside what is requested exactly when an array's items and a string fit in 32 bits, an object's entries in 31 and its entries and names in 32; the request and values_size are then exact |
| Sizes.AskedIs | src/json.c:86-163 | every size that is requested is the number of bytes needed less multiples of 2^32, in any case, and a node has room exactly when that loses nothing |
| Ledger.OverrunsExactly | src/json.c:113-160 | when every request is granted, a block that is too small is handed out exactly when some size of the tree does not fit; never when all fit |
| Spans.BlocksExact | src/json.c:113-160 | when all sizes fit, each block is requested with exactly the bytes that the second pass writes to it |
| Spans.ValueSpan | src/json.c:271-873 | a value's text has at least two characters for each item of each array in it, five and the name for each member of each object, and one for each byte of each string |
| Spans.ShortTextRoomy | src/json.c:113-160 | for a text of at most 2^31 characters, 2^33 over the pointer size and 5 * 2^31 over the entry size, all sizes fit, whatever the allocator answers |
| Spans.LongTextOverruns | src/json.c:131-140 | a text one character longer than that bound, whose object makes values_size negative although every request is granted |
| Moves.NextDue | src/json.c:100-190 | in every state in which a value starts, what new_value requests is the next entry of the account |
| Parser.State.RunPass | src/json.c:271-874 | a pass ends: position and rank fall lexicographically although characters are looked at again; it stops with the finished tree and every request granted, fails only on a text that has no tree, and halts only at a request that the limits or the allocator refuse or that gives too little; in the first pass that is the request of the next node, for every text |
| Parser.State.Turn | src/json.c:273-873 | one turn keeps the invariant and the account of requests in both passes and makes progress; it halts only where a request is refused or gives too little |
| Parser.State.NewValue | src/json.c:100-190 | first pass: one more zeroed node at the end of the chain; second pass: the next node of the chain gets a block with exactly the counted cells and its counters restart; either fails only where its request is refused or gives too little |
| Parser.State.Alloc | src/json.c:86-98 | memory is given exactly when the request is within the limits and the allocator, which is asked in that case only, answers it |
| Parser.State.StringAdd | src/json.c:195-196 | a byte is counted, and in the second pass written inside the block, right after the previous one |
| Parser.State.ReadCharacter | src/json.c:298-330 | reads exactly the escaped character of the grammar and never looks past the end |
| Parser.State.AddCharacter | src/json.c:332-368 | the bytes counted in the first pass are those written in the second |
| Parser.State.SkipNumber | src/json.c:641-652 | the greedy skip stops at the first character that cannot be part of a number |
| Parser.State.FinishValue | src/json.c:837-872 | a finished value is linked into its container in order, or ends the document |
| Parser.State.FreeChain | src/json.c:907-914 | following the next_alloc links from the root frees every node, each once |
| Context.PlugOnTrack | src/json.c:259-877 | pass agreement: if the remaining text completes the state to a tree, the open containers are on the way through that tree and the value just read is the part at their hole |
| Progress.ResumeOnTrack | src/json.c:259-877 | in a run that will succeed, every state is on the way through the final tree, and strings and names being read fit in their blocks |
| Progress.NextNode | src/json.c:109-110 | the next node of the chain is the one the first pass made for the value that starts now: same kind, parent and counts |
| Progress.PartAt | src/json.c:184-187 | where in the first pass's chain the nodes of the part at the hole stand |
| NumberSteps.SecondPassNumber | src/json.c:639-655 | in an accepted text the greedy skip of the second pass ends where the number automaton of the first pass ended |
| Moves.LinkParent | src/json.c:850-870 | the container has an unwritten cell for the finished value, and linking it gives the container's next state in either pass |
| Moves.NameQuote | src/json.c:382-413 | the closing quote of a name finds room for its NUL and an entry for it |
| Moves.StringQuote | src/json.c:382-396 | the closing quote of a string finds one cell left, for its NUL |
| Moves.PassEnd | src/json.c:876 | after the first pass the arena is the skeleton of the tree, after the second the tree itself |
| Reader.TreeFilled | src/json.c:115-158 | every block of the second pass has exactly the cells counted in the first and is written completely; lengths, kinds and parents agree |
| Reader.TreeReadsBack | src/json.c:837-876 | read through kinds, lengths and links from the root, the arena gives the parsed tree and visits each of its nodes exactly once, in creation order; each child's parent is its container |
| Reader.CutSame | src/json.c:401-410 | the names read back as C strings are the parsed ones exactly when none contains a NUL |
| Reader.CutDiffers | src/json.c:401-410 | a text with a name that is read differently |
| Destructor.FreeTree | src/json.c:928-973 | on every tree as a parse leaves it the walk ends, reads no freed node, and frees every node and every block exactly once |
| Destructor.Descend | src/json.c:948-949 | following the last remaining link leaves the earlier links and arrives at the last child |
| Destructor.Drop | src/json.c:968-971 | what is freed is always the last node that is left |
| Destructor.ParseThenFree | src/json.c:219-979 | parsing and freeing gives back everything that was allocated, unless a request ends the second pass |
| Grammar.ParsedWellFormed | src/json.c:398-413 | in a parsed tree every object has one name for each value |
| Writer.WriteParses | src/json.c:219-926 | every tree that fits the counters has a text, with the short escapes of section 7 of RFC 8259, that is parsed to exactly that tree |
| Lexemes.NumberLanguage | src/json.c:634-671 | the accepted number texts are those of section 6 of RFC 8259, a lone minus sign, and a minus sign before an exponent |
| Lexemes.NumberShape | src/json.c:723-825 | an accepted number is an integer exactly when it has no point and no exponent |
| Language.NumberValue | src/json.c:723-825 | the number's value is an integer congruent modulo 2^64 to the digits taken by their places, with their sign, in the range of 64 bits, exactly when there is no point and no exponent, else a double |
| Lexemes.ExactValue | src/json.c:738-757 | the integer is the signed decimal value exactly when that fits in 64 bits |
| Numbers.IntegerEnd | src/json.c:784-825 | where the integer part ends, the automaton agrees with the definition by digit runs |
| Lexemes.EscapeIsUtf8 | src/json.c:296-368 | every accepted escape is written as well-formed UTF-8 that decodes to its character |
| Lexemes.EscapedPair | src/json.c:312-330 | a surrogate pair gives the standard's character exactly when bit 6 of the first unit is 0 |
| Lexemes.PairMisread | src/json.c:312-330 | a pair that is read as U+10000 where the standard has U+20000 |
| Unicode.EncodeDecodes | src/json.c:332-368 | the bytes written for any scalar value are one well-formed UTF-8 sequence for it |
| Unicode.CodeUnitRange | src/json.c:307-312 | the mask test for surrogates is exact |
| Requests.Request.Take | src/cmd_handler.c:230-276 | the request taken through the pointers: every field is the last member found under its name, letter by letter and up to a NUL, or what it was; it is taken exactly when every member with one of the names has the right type and its text fits in 128 bytes |
| Requests.RequestIs | src/cmd_handler.c:230-276 | the same for every tree, without the pointers |
| Requests.RequestReads | src/cmd_handler.c:230-286 | the object with the names action, parameters, proxyIp, tapDeviceName, tapDeviceGatewayIp and isAutoConnect, written as text with any action, addresses and name that fit and any flag, is parsed and taken as exactly these |
| Requests.TakeWritten | src/cmd_handler.c:278-286 | the same through parse_request, field by field |
| Requests.ParseRequest | src/cmd_handler.c:278-286 | parse, take and free: when the memory suffices every field is the last member found under its name in the text's tree, or what it was; without a tree or memory the request stays as it was; undefined exactly where a block is too small, an assertion fails or a field overflows; no memory left, unless a request is refused in the second pass |
| Requests.ResponseParses | src/cmd_handler.c:582-585 | a response text without quotes, backslashes and NULs parses to exactly the four printed members, whose names are spelled out |
| Requests.ResponseExactly | src/cmd_handler.c:582-585 | the response text parses to exactly the four printed members if and only if action and message hold no quote, no backslash and no NUL |
| Requests.ResponseAction | src/cmd_handler.c:239-243 | read as a request, the response gives its action back exactly when it fits the field |
| QrRender.ReverseRows | src/qrcode_gen.c:55-60 | swapping in place reverses the rows of the matrix |
| QrRender.PaintModules | src/qrcode_gen.c:134-149 | with moving pointers the loops paint every byte of every pixel 0 where bit 0 of its module is set and leave it 0xFF where not, inside the buffer, and leave the padding 0xFF |
| QrRender.PixelShows | src/qrcode_gen.c:127-149 | every byte of pixel (x, y) is 0 if bit 0 of byte (y / scale) * width + x / scale of the code is set, and 0xFF if not |
| QrRender.RenderFile | src/qrcode_gen.c:34-93 | every byte of every pixel of the file buffer, rows counted from the bottom, is 0 or 0xFF by the bit of its module in the code as it was before; the scale is 400 / width or 1, a row takes the next multiple of four bytes, and the rest of it is 0xFF; the matrix is left reversed |
| QrRender.RenderBitmap | src/qrcode_gen.c:115-149 | every byte of every pixel of the 32-bit buffer, top row first, is 0 or 0xFF by the bit of its module |
| QrRender.SamePicture | src/qrcode_gen.c:43-149 | read from the bottom row up, the file shows pixel for pixel the picture of the bitmap |
| QrRender.RenderBoth | src/qrcode_gen.c:34-149 | the two renderers run on one code give pictures that agree at every pixel, and both are those of the code's bits |
| DnsBlock.Blocker.Begin | src/smartdnsblock.c:53-192 | the engine is open afterwards exactly when it was open before or the device is found and every call succeeds; 0 is returned exactly then; the filter is then complete, else rolled back completely, and the result is the code of the first call that failed |
| DnsBlock.Blocker.End | src/smartdnsblock.c:194-209 | the session is closed once and nothing stays installed |
| Routes.Table.AddRedirect | src/cmd_handler.c:466-487 | the result, the commands run and the table follow the exit codes: each half is added or else set, and the halves before the first double failure are routed; 0 exactly when that is all of them |
| Routes.TriesExactly | src/cmd_handler.c:466-556 | a series of commands ends with 0 exactly when each item's first command or, after it failed, its second has exit code 0; any other result is the last exit code, before which the other command for the item had failed |
| Routes.Table.AddProxyRoute | src/cmd_handler.c:524-537 | the same for the proxy's route; with an empty address the commands name no route |
| Routes.Table.AddReservedBypass | src/cmd_handler.c:540-556 | the same for the reserved subnets |
| Routes.LookupIsLongest | src/cmd_handler.c:88-114 | the lookup finds a longest matching route, whenever one matches |
| Routes.RouteSelection | src/cmd_handler.c:88-114 | over a table of default routes only, the proxy and every address in the sixteen reserved ranges go to the gateway and every other address to the TAP device |
| Routes.ReservedRanges | src/cmd_handler.c:97-114 | the reserved subnets, matched by their masks, are exactly these ranges of addresses |
| RouteService.PickGateway | src/cmd_handler.c:677-694 | a choice is a row of the table with destination 0 and an interface other than the TAP device's; without such a row there is none; it has the least metric of all such rows exactly under the condition of LeastExactly; and it is the one that PickChosen describes |
| RouteService.PickChosen | src/cmd_handler.c:677-694 | for every table, where a row is eligible if its destination is 0 and its interface not the TAP device's: the first eligible row of metric 0 that is not all-zero; without one, the first eligible row of least metric behind the last all-zero row where that is eligible, else in the whole table; and none exactly when no row there is eligible |
| RouteService.LeastExactly | src/cmd_handler.c:677-694 | the choice has the least metric of all rows with destination 0 and an interface other than the TAP device's exactly when there is no all-zero row, or the TAP index is 0, or another such row has metric 0 |
| RouteService.PickMisses | src/cmd_handler.c:691 | a table in which the eligible row of least metric is not chosen, and one in which none is |
| RouteService.Router.ConfigureRouting | src/cmd_handler.c:323-413 | 0 is returned exactly when an address was given and found, the filter is open, and there is no gateway or every command series succeeds; the engine is open exactly then; without an open filter or a gateway no command is run; with a gateway and a non-empty address the table holds the routes of the items dealt with before the first that failed, after a success the configured one; the device's name, its index, the proxy's text and the gateway are recorded as the system gave them |
| RouteService.RoutingExactly | src/cmd_handler.c:388-402 | every command series succeeds exactly when each of the 22 items passes with its first command or its second |
| RouteService.Router.ResetRouting | src/cmd_handler.c:415-447 | the engine is closed whatever the deletions return, and the result is the exit code of the last deletion whose result is kept |
| RouteService.RemovalIs | src/cmd_handler.c:424-440 | which of the exit codes, counted one by one, that last one is |
| RouteService.Router.HandleRequest | src/cmd_handler.c:295-314 | every request is a step of the runs below, and a configure request returns 0 exactly under the condition of ConfigureRouting |
| RouteService.Router.HandleMessage | src/cmd_handler.c:203-228 | the message's request is handled as a step, its response is the printed one, and the pipe is given up exactly on a reset without a proxy |
| RouteService.Router.Disconnect | src/cmd_handler.c:210-216 | a broken pipe is a reset step |
| RouteService.Serve | src/cmd_handler.c:203-228 | a service that handles any messages and broken pipes from its start goes through a run, which the results below are about |
| RouteService.MonitorBalance | src/cmd_handler.c:295-303 | no monitor is lost: after every run, monitors started less stopped is 1 if the last request was configureRouting, else 0, and the one that runs is the one that the next request stops |
| RouteService.EngineOpenExactly | src/cmd_handler.c:295-447 | after every run the engine is open exactly when the last configure returned 0 and no reset came after it or its converted address was empty |
| RouteService.StuckExactly | src/cmd_handler.c:347-349 | the engine is open without a recorded proxy exactly when the last configure returned 0 with an empty converted address |
| RouteService.ResetCloses | src/cmd_handler.c:304-312 | a reset leaves the engine closed exactly when the last configure before it did not return 0 with an empty converted address |
| RouteService.StuckRun | src/cmd_handler.c:304-312 | the handlers, run on any request and system where the filter can be installed, the address cannot be converted and there is no gateway: configure returns 0, and the reset after it leaves the engine open |
| RouteService.StuckWitness | src/cmd_handler.c:304-312 | such a request and system |
| Settings.ParseConfig | src/settings_json.c:137-267 | there is a configuration exactly for an object that is not null when there is memory for it, and it is the fold of the members over the defaults |
| Settings.SettingsAre | src/settings_json.c:137-267 | with distinct keys every field is what is found under its key with the right type, else the default |
| Settings.OrderDoesNotMatter | src/settings_json.c:137-267 | with distinct keys the configuration does not depend on key order at either level |
| Settings.BuildJson | src/settings_json.c:269-300 | the object has thirteen members, one under each key, each told by the field it comes from: a timeout is its whole seconds, rounded toward zero, and numbers are cast to 32 bits |
| Settings.TimeoutsSaved | src/settings_json.c:282-284 | for timeouts in range, a saved s has s * 1000 <= n < (s + 1) * 1000 for n >= 0 and (s - 1) * 1000 < n <= s * 1000 for n < 0, and s * 1000 is loaded |
| Settings.SaveAndLoad | src/settings_json.c:137-300 | loading what was saved gives, field by field, the configuration with timeouts cut to whole seconds toward zero, empty for missing optional strings, the default certificate path and no verify_sha1, exactly when the numbers fit the casts |
| Settings.SecondRound | src/settings_json.c:172-178 | a second round changes nothing, and is possible exactly when the protocol was not verify_sha1 |
| Settings.SecondRoundFails | src/settings_json.c:172-178 | a configuration that can be saved and loaded once but not twice |

## Left out

- Parser.ParseEx: does not model the clean-up after memory is refused in the second pass, which leaves nodes unreached in the code; such a run only returns null here. A run that is handed a block that is too small ends there, with `overrun`; what the code does next is not defined.
- Parser.State.Alloc: takes unsigned long to have 32 bits, as on Windows, and a conversion to int to wrap around.
- Parser.State.FreeChain: keeps next_alloc apart from object_mem, with which it shares a union; the latter is written only after the link has been read.
- Lexemes.ExactValue: overflow of the signed accumulator, which C leaves undefined, is modelled as wrap-around in 64 bits.
- Lexemes.NumberShape: does not give the floating-point value of a double; only that the number is one.
- Reader.TreeReadsBack: does not model pointers as addresses; a pointer is an index into the arena, and the union of a node is one record in which strings, arrays and objects share the length.
- Destructor.FreeTree: covers a tree laid out in preorder from the start of its arena, as a parse leaves it, and freed from its root; not a tree put together otherwise, and not a subtree of a tree that stays in use.
- Requests.ParseRequest: does not say what happens after a failed assertion or an overrun field; the result only tells that this is where the defined behaviour ends.
- RouteService.Router.ResetRouting: does not say what the deletions leave in the routing table, which depends on how the route command reads the text at src/cmd_handler.c:575.
- RouteService.Router.ConfigureRouting: does not claim that 0 means that routes were installed; where no gateway is found the code returns 0 without them. With an empty converted address the commands for the proxy name no route, and what they do to the table is left open.
- RouteService.PickGateway: a row of the forwarding table is four fields and one number for all its other bytes.
- Routes.Table.AddRedirect: a command with exit code 0 is taken to put its route, any other to leave the table as it is.
- Settings.SaveAndLoad: does not model overflow when a number of seconds is multiplied; the milliseconds per second are taken to be 1000, and the keys are an enumeration rather than their spelling.
- QrRender.RenderFile: does not model unsigned overflow of the byte counts, a failed allocation, the BMP headers and the writing of the file.
- The accumulators of fraction and exponent digits and the overflow of the digit counter.
- Error messages, line and column tracking, `value_extra` contents and the C++ operators of `src/json.h`.
- The text of route and netsh commands: a command is the route that it names. The IPv6 commands have exit codes and do not touch the IPv4 table.
- RouteService.MonitorBalance: does not model monitors whose event or thread cannot be created, nor address change notifications.
- Concurrent handler calls on one router record: calls are serialised.
- Buffer sizes of the wide strings in the router record; the conversion of names and addresses is an arbitrary outcome.
- QR encoding, bitmap decoding, named pipes, process launching, sockets and the user interface: libraries and operating-system plumbing.
- `config_create`, `string_safe_assign` and the settings library itself: a default record, a plain copy and ordinary typed members are assumed.
