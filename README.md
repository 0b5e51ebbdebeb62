# CmdParserService, modelled in Dafny

This models the debugger's console command interpreter, `CmdParserService`
(`debugger/src/libdbg64g/services/console/cmdparser.cpp`). A console hands
it one text line at a time. The interpreter copies the line into its command
buffer and splits it in place into an argument list. It then dispatches on
the first argument: `help`, `loadelf`, `log`, `memdump`, `regs`, `csr`,
`write`, `read`, `exit`, `halt`/`stop`/`s`, `run`/`go`/`c` and `br`. Each
command prints into a growing output buffer, reads or writes target memory
through the TAP, loads ELF files, writes dump files or enables console logs.
Last, the output buffer is handed to every registered console.

The project is split into these modules:

- `Types` (types.dfy): bytes, 64-bit words and the configuration attribute (`Attr`), with the 32-bit `int` cast and the 64-bit wrap-around addition the source uses.
- `Bits` (bits.dfy): the reversal of byte lanes inside 16-byte blocks used by `readMem` and `memDump`, little-endian byte images, `%0Nx` hex text, the DSU run-control word and the MCPUID extension letters.
- `Tokenizer` (tokenizer.dfy): a functional specification of `splitLine`, with its quoting and space-run rules, and the classification of each token.
- `Target` (target.dfy): the debug target seen through the TAP. A `World` object holds the target memory and the trace of every action taken: TAP reads and writes, ELF loads, log enables, file writes, the end of the simulation, and delivery of output to a console.
- `Commands` (commands.dfy): the specification. `Dispatch` is the decision table of `processLine`, and `Exec*` give each command's printed text, its actions in order and the scratch buffer afterwards. `Respond` covers one line and `Update` adds the delivery to the consoles.
- `CommandFacts` (facts.dfy): properties of that specification.
- `Parser` (parser.dfy): the class `CmdParser`. It holds the command buffer, the output buffer and the scratch buffer as arrays, and runs each command step by step, as the source does. Every command handler is proved against the matching `Commands` function; the output-buffer methods (`Grow`, `MakeRoom`, `Put`, `Outf`) are specified by the text they append and the growth policy they follow.
- `AsWritten` (as_written.dfy): four buffer overruns in the source, modelled as written (see Findings).

`csr_socaddr`, `AttributeType::from_config`, `fopen`, the `%.1f` millisecond
text of `csr MTIME`, the register-name table and the console list are not
part of this model. They are parameters of the model, collected in
`Commands.Config`. `to_uint64` of a non-integer attribute is taken to be 0,
and `to_string` of a non-string attribute to be the empty text.

Two points where the code is followed rather than its documentation:

- The help text lists `stop/break/s`, but `processLine` only recognises `halt`, `stop` and `s`. `break` gets the "Use 'help'" hint (`CommandFacts.BreakIsNotACommand`).
- The CSR index printed by `csr` is `(addr >> 4) & 0xfff`, bits 4 to 15 of the address, as the code computes it.

## Model

| member | source | states |
|---|---|---|
| Types.ToInt32 | debugger/src/libdbg64g/services/console/cmdparser.cpp:357 | the `static_cast<int>` of a 64-bit byte count is a 32-bit signed value congruent to it modulo 2^32, and equal to it below 2^31 |
| Types.AddU64 | debugger/src/libdbg64g/services/console/cmdparser.cpp:461 | address arithmetic wraps modulo 2^64: the plain sum when it fits, otherwise a smaller value congruent to it |
| Bits.BlockStart | debugger/src/libdbg64g/services/console/cmdparser.cpp:363 | `addr & ~0xF` is the 16-aligned start of the block holding addr |
| Bits.InvProperties | debugger/src/libdbg64g/services/console/cmdparser.cpp:371 | the lane reversal keeps a position in its 16-byte block, maps lane k to lane 15-k, is its own inverse and stays within 64 bits |
| Bits.FromLeOfLeBytes | debugger/src/libdbg64g/services/console/cmdparser.cpp:299 | the value read from the n little-endian bytes of v is v modulo 256^n |
| Bits.LeBytesOfFromLe | debugger/src/libdbg64g/services/console/cmdparser.cpp:299 | re-encoding the value of a byte image gives back the same bytes |
| Bits.Le8RoundTrip | debugger/src/libdbg64g/services/console/cmdparser.cpp:334 | the 8 bytes a `uint64_t` is written as read back to the same word |
| Bits.HexRoundTrip | debugger/src/libdbg64g/services/console/cmdparser.cpp:300-301 | `%0Nx` text parses back to the value modulo 16^N |
| Bits.Hex2 | debugger/src/libdbg64g/services/console/cmdparser.cpp:373 | `%02x` of a byte is two hex digits whose value is the byte |
| Bits.Hex16 | debugger/src/libdbg64g/services/console/cmdparser.cpp:300 | `%016x` of a word is sixteen hex digits whose value is the word |
| Bits.DigitValue | debugger/src/libdbg64g/services/console/cmdparser.cpp:300 | every hex digit character is the digit of exactly one value below 16 |
| Bits.Dec | debugger/src/libdbg64g/services/console/cmdparser.cpp:324 | decimal text is digits without a leading zero |
| Bits.DecSigned64 | debugger/src/libdbg64g/services/console/cmdparser.cpp:324 | `%lld` of a 64-bit value: below 2^63 the digits denote the value; from 2^63 a minus sign followed by digits denoting 2^64 minus the value |
| Bits.DecRoundTrip | debugger/src/libdbg64g/services/console/cmdparser.cpp:324 | the digits of `%d` denote the number printed |
| Bits.EncodeRunControl | debugger/src/libdbg64g/services/console/cmdparser.cpp:17-27 | the run-control word has halt in bit 0, stepping in bit 1, zero in bits 2-3 and core_id in bits 4-19, and nothing above |
| Bits.RunControlRoundTrip | debugger/src/libdbg64g/services/console/cmdparser.cpp:17-27 | decoding an encoded run-control word gives back its fields |
| Bits.RunControlCanonical | debugger/src/libdbg64g/services/console/cmdparser.cpp:17-27 | every word with zero reserved bits is the encoding of its own fields |
| Bits.McpuidBase | debugger/src/libdbg64g/services/console/cmdparser.cpp:307-310 | the base ISA printed is one of RV32I, RV32E, RV64I and RV128I |
| Bits.ExtLettersSpec | debugger/src/libdbg64g/services/console/cmdparser.cpp:311-321 | a letter is printed exactly when it is among the first n, is not `I` and its bit is set; letters come in ascending order |
| Tokenizer.TokenLen | debugger/src/libdbg64g/services/console/cmdparser.cpp:257-270 | a token ends at the end of the line or at a space outside quotes |
| Tokenizer.TrimSpaces | debugger/src/libdbg64g/services/console/cmdparser.cpp:262-264 | the run of spaces after a delimiter is dropped: what remains is empty or starts with a non-space |
| Tokenizer.Args | debugger/src/libdbg64g/services/console/cmdparser.cpp:252-288 | the argument list has one attribute per token |
| Tokenizer.TokensNonEmpty | debugger/src/libdbg64g/services/console/cmdparser.cpp:84-90 | a non-empty line always yields a first argument, so `listArgs[0u]` exists |
| Tokenizer.LeadingSpaceGivesEmptyToken | debugger/src/libdbg64g/services/console/cmdparser.cpp:260-264 | a line starting with a space yields an empty string as its command name |
| Tokenizer.LaterTokenNonEmpty | debugger/src/libdbg64g/services/console/cmdparser.cpp:262-264 | every token after the first is non-empty and does not start with a space |
| Tokenizer.TokenHasNoUnquotedSpace | debugger/src/libdbg64g/services/console/cmdparser.cpp:260-261 | no token holds a space outside quotes |
| Tokenizer.TokenLenOfPrefix | debugger/src/libdbg64g/services/console/cmdparser.cpp:257-270 | scanning a token again on its own stops at the same place |
| Tokenizer.TokenLenAppend | debugger/src/libdbg64g/services/console/cmdparser.cpp:257-270 | scanning a text made of a whole token and a rest continues in the quote state the token left |
| Tokenizer.QuotedRegionIsOneToken | debugger/src/libdbg64g/services/console/cmdparser.cpp:265-270 | a quoted region, spaces included, belongs to one token |
| Tokenizer.InsideRegion | debugger/src/libdbg64g/services/console/cmdparser.cpp:268-269 | inside a quoted region only the opening quote character ends it |
| Tokenizer.SplitJoin | debugger/src/libdbg64g/services/console/cmdparser.cpp:252-288 | splitting plain tokens joined by single spaces gives back exactly those tokens |
| Tokenizer.JoinStartsWithFirst | debugger/src/libdbg64g/services/console/cmdparser.cpp:84 | joined tokens start with the first token's first character |
| Tokenizer.SpaceRunIsOneDelimiter | debugger/src/libdbg64g/services/console/cmdparser.cpp:262-264 | any run of spaces between two tokens is one delimiter, and a trailing run adds no token |
| Tokenizer.TrailingRun | debugger/src/libdbg64g/services/console/cmdparser.cpp:262-264 | a run of spaces after a token is skipped before the next token |
| Tokenizer.SplitAfterToken | debugger/src/libdbg64g/services/console/cmdparser.cpp:280-283 | after a token and a space, the rest is split after its leading spaces are trimmed |
| Tokenizer.TrimRun | debugger/src/libdbg64g/services/console/cmdparser.cpp:262-264 | trimming removes exactly the leading run of spaces |
| Tokenizer.ArgsCons | debugger/src/libdbg64g/services/console/cmdparser.cpp:272-283 | the first token's attribute is followed by the arguments of the rest of the line after the delimiter |
| Tokenizer.ArgsSingle | debugger/src/libdbg64g/services/console/cmdparser.cpp:258-259 | a line that is one token yields one argument |
| Tokenizer.TrimSkip | debugger/src/libdbg64g/services/console/cmdparser.cpp:262-264 | trimming a text that starts with r spaces and then a non-space drops exactly those r |
| Target.Fetch | debugger/src/libdbg64g/services/console/cmdparser.cpp:366 | a TAP read of len bytes yields len bytes |
| Target.ApplyWritesSnoc | debugger/src/libdbg64g/services/console/cmdparser.cpp:399 | the memory after one more action changes only when that action is a TAP write, and then by storing its bytes |
| Target.ApplyWritesWithoutWrites | debugger/src/libdbg64g/services/console/cmdparser.cpp:366 | a trace without TAP writes leaves target memory unchanged |
| Target.StoreElsewhere | debugger/src/libdbg64g/services/console/cmdparser.cpp:399 | a TAP write leaves every address outside its window unchanged |
| Target.NoWrapBack | debugger/src/libdbg64g/services/console/cmdparser.cpp:399 | the addresses of a window shorter than 2^64 never wrap back onto its start |
| Target.FetchAfterStore | debugger/src/libdbg64g/services/console/cmdparser.cpp:399 | reading back the window just written gives the bytes written |
| Target.World.Read | debugger/src/libdbg64g/services/console/cmdparser.cpp:299 | `itap_->read`: yields the memory's bytes, leaves memory alone and records the read |
| Target.World.Write | debugger/src/libdbg64g/services/console/cmdparser.cpp:334 | `itap_->write`: stores the bytes and records the write |
| Target.World.Record | debugger/src/libdbg64g/services/console/cmdparser.cpp:335 | any other action is recorded and leaves memory alone |
| Commands.WordInvertsLe8 | debugger/src/libdbg64g/services/console/cmdparser.cpp:299 | the 8 bytes the TAP reads into a `uint64_t` and the word they form are inverse to each other |
| Commands.FillWords | debugger/src/libdbg64g/services/console/cmdparser.cpp:388-394 | storing words into the scratch buffer keeps its size |
| Commands.WriteScratch | debugger/src/libdbg64g/services/console/cmdparser.cpp:383-399 | the scratch buffer `write` uses holds both the byte count and every word stored |
| Commands.DumpLines | debugger/src/libdbg64g/services/console/cmdparser.cpp:422-430 | the hex dump writes one line per whole block of 16 bytes |
| Commands.RegValues | debugger/src/libdbg64g/services/console/cmdparser.cpp:471-474 | `regs` works on 128 register slots |
| Commands.RegIndexBounded | debugger/src/libdbg64g/services/console/cmdparser.cpp:475 | every index looked up by `regs` is inside its 128-slot array |
| Commands.RegIndexInTable | debugger/src/libdbg64g/services/console/cmdparser.cpp:536-543 | when every table index is below 128, so is any looked-up index |
| CommandFacts.DispatchNames | debugger/src/libdbg64g/services/console/cmdparser.cpp:90-93 | a non-string name is rejected as a wrong format, and the string names outside the known ones are exactly those that get the hint (247-249) |
| CommandFacts.ReadDefaultsToFour | debugger/src/libdbg64g/services/console/cmdparser.cpp:186-192 | `read addr` reads 4 bytes, the same as `read addr 4` |
| CommandFacts.PrintOnlyFromKnownName | debugger/src/libdbg64g/services/console/cmdparser.cpp:95-246 | only a known command name other than `exit` leads to printing fixed text |
| CommandFacts.HelpIgnoresArguments | debugger/src/libdbg64g/services/console/cmdparser.cpp:95-109 | `help` prints the command list whatever follows it |
| CommandFacts.PrintTouchesNothing | debugger/src/libdbg64g/services/console/cmdparser.cpp:95-109 | printing help or usage text takes no action and keeps the scratch buffer |
| CommandFacts.TableCoversNames | debugger/src/libdbg64g/services/console/cmdparser.cpp:110-246 | the usage table names exactly the recognised commands other than `help` and `exit` |
| CommandFacts.WrongCountPrintsUsage | debugger/src/libdbg64g/services/console/cmdparser.cpp:110-246 | for every usage-checked command and every argument count, the command prints something exactly when the line fails its table entry (count, integer step count for `run`, string sub-command for `br`), and then it prints exactly that command's usage |
| CommandFacts.PlainNameDispatch | debugger/src/libdbg64g/services/console/cmdparser.cpp:273-279 | a first token that does not look like a literal becomes the String name as written, and the line gets the hint exactly when that name is not recognised (247-249) |
| CommandFacts.BreakIsNotACommand | debugger/src/libdbg64g/services/console/cmdparser.cpp:205-207 | `break` is not recognised and only gets the hint |
| CommandFacts.UnknownNamePrintsHint | debugger/src/libdbg64g/services/console/cmdparser.cpp:247-249 | an unknown name prints the hint and does nothing else |
| CommandFacts.EmptyLineIsSilent | debugger/src/libdbg64g/services/console/cmdparser.cpp:83-86 | an empty line prints nothing and does nothing |
| CommandFacts.NonStringNameIsRejected | debugger/src/libdbg64g/services/console/cmdparser.cpp:88-93 | a line whose first token is a literal prints "Wrong command format" and does nothing else |
| CommandFacts.LeadingSpacePrintsHint | debugger/src/libdbg64g/services/console/cmdparser.cpp:252-264 | a line starting with a space gets the hint, whatever command follows |
| CommandFacts.LeadingSpaceIsUnknown | debugger/src/libdbg64g/services/console/cmdparser.cpp:247-249 | a line starting with a space is dispatched as an unknown command |
| CommandFacts.ControlWords | debugger/src/libdbg64g/services/console/cmdparser.cpp:446-448 | the halt word is 1, the free-run word 0 and the stepping word 2 |
| CommandFacts.ControlWordValue | debugger/src/libdbg64g/services/console/cmdparser.cpp:17-27 | a run-control word with only halt and stepping set is halt + 2 * stepping |
| CommandFacts.HaltWritesOne | debugger/src/libdbg64g/services/console/cmdparser.cpp:443-450 | `halt` writes the word 1 to the DSU control register, and nothing else |
| CommandFacts.RunWrites | debugger/src/libdbg64g/services/console/cmdparser.cpp:452-467 | `run` writes 0 to the control register; `run N` writes N to the step counter at offset 8, then 2 to the control register |
| CommandFacts.BreakpointTakesEffect | debugger/src/libdbg64g/services/console/cmdparser.cpp:524-534 | after `br add a` the 8 bytes at base+16 read back as a, after `br rm a` those at base+24 do, and any other sub-command writes nothing |
| CommandFacts.LoadElfBracketsReset | debugger/src/libdbg64g/services/console/cmdparser.cpp:329-339 | `loadelf` asserts MRESET (1), loads the file, then releases MRESET (0), in that order |
| CommandFacts.UnknownCsrTouchesNothing | debugger/src/libdbg64g/services/console/cmdparser.cpp:294-297 | reading or writing a CSR whose address is all ones prints "Unknown CSR" and takes no action |
| CommandFacts.CsrReadShowsValue | debugger/src/libdbg64g/services/console/cmdparser.cpp:299-301 | reading a known CSR does one 8-byte TAP read, and the line printed shows its index and the value read, recoverable from the text |
| CommandFacts.CsrTextLayout | debugger/src/libdbg64g/services/console/cmdparser.cpp:300-301 | the CSR line is `CSR[` 3 hex digits `] => ` 16 hex digits and a newline, holding the index and the value |
| CommandFacts.Hex3Value | debugger/src/libdbg64g/services/console/cmdparser.cpp:301 | `%03x` of an index below 0x1000 reads back as that index |
| CommandFacts.McpuidLine | debugger/src/libdbg64g/services/console/cmdparser.cpp:306-322 | `csr MCPUID` adds the base name from bits 62-63, then the extension letters in order, exactly those whose bits are set, skipping `I` |
| CommandFacts.WindowCoversRead | debugger/src/libdbg64g/services/console/cmdparser.cpp:363-364 | for a window that does not wrap past 2^64, the printed window is whole 16-byte blocks and covers the bytes read, with less than one block past them |
| CommandFacts.EveryByteShown | debugger/src/libdbg64g/services/console/cmdparser.cpp:367-376 | for a window that does not wrap past 2^64, every byte read is printed, in hex, at a position inside the window |
| CommandFacts.CellShowsDotsIffOutside | debugger/src/libdbg64g/services/console/cmdparser.cpp:371-376 | a cell shows `..` exactly when its reversed address is outside the bytes read; otherwise it shows that byte |
| CommandFacts.InWindow | debugger/src/libdbg64g/services/console/cmdparser.cpp:363-364 | for a window that does not wrap past 2^64, the block of every byte read lies inside the window |
| CommandFacts.WrappedWindowPrintsNothing | debugger/src/libdbg64g/services/console/cmdparser.cpp:363-372 | a read whose window wraps past 2^64 (`addr_end` below `addr_start`) prints nothing, though the TAP read still happens |
| CommandFacts.BlockStartMono | debugger/src/libdbg64g/services/console/cmdparser.cpp:363 | block starts grow with the address |
| CommandFacts.BlockStartUnique | debugger/src/libdbg64g/services/console/cmdparser.cpp:363 | every address in an aligned block has that block's start |
| CommandFacts.FullRow | debugger/src/libdbg64g/services/console/cmdparser.cpp:368-379 | the positions of one block print as one row: the `[address]: ` header, 16 cells and a newline |
| CommandFacts.WindowIsRows | debugger/src/libdbg64g/services/console/cmdparser.cpp:367-380 | a window of k whole blocks prints as k rows |
| CommandFacts.ReadMemIsRows | debugger/src/libdbg64g/services/console/cmdparser.cpp:354-381 | `read` prints exactly one row per block of the window |
| CommandFacts.ReadMemScratch | debugger/src/libdbg64g/services/console/cmdparser.cpp:357-366 | `read` does one TAP read of the count, grows the scratch buffer only when the count exceeds it, and the bytes read land at its start |
| CommandFacts.WriteMemFills | debugger/src/libdbg64g/services/console/cmdparser.cpp:383-399 | `write` with an integer or a list stores each word little-endian at offset 8*k and writes the first count bytes of the buffer, printing nothing |
| CommandFacts.WriteMemRejectsOtherShapes | debugger/src/libdbg64g/services/console/cmdparser.cpp:395-398 | any other value prints "Wrong write format" and takes no action |
| CommandFacts.WriteThenRead | debugger/src/libdbg64g/services/console/cmdparser.cpp:383-399 | `write a 8 v` followed by `read a 8` reads back the 8 bytes of v |
| CommandFacts.NegativeCountStops | debugger/src/libdbg64g/services/console/cmdparser.cpp:354-441 | a byte count the `int` cast makes negative stops `read` and `write` with no output and no effect, and `memdump` with only the opening and closing of its file, which is left empty (corrected, see Findings) |
| CommandFacts.DumpNeedsOpenFile | debugger/src/libdbg64g/services/console/cmdparser.cpp:404-408 | a dump file that cannot be opened prints "Can't open" and takes no action |
| CommandFacts.DumpOpensThenCloses | debugger/src/libdbg64g/services/console/cmdparser.cpp:403-437 | once the dump file opens, memdump's first action is opening it for writing, which creates or empties it whatever the count, and its last is closing it |
| CommandFacts.DumpCharsReversed | debugger/src/libdbg64g/services/console/cmdparser.cpp:422-424 | within a whole block the hex dump prints the block's bytes from the last to the first |
| CommandFacts.HexDumpFullLine | debugger/src/libdbg64g/services/console/cmdparser.cpp:418-433 | the hex dump file has one line per whole block plus one partial line when the length is not a multiple of 16; line q is block q's bytes in reverse order, in hex |
| CommandFacts.HexDumpOfCounting | debugger/src/libdbg64g/services/console/cmdparser.cpp:418-433 | bytes 0 to 15 dump as the single line `0f0e...0100` |
| CommandFacts.ReversedCounting | debugger/src/libdbg64g/services/console/cmdparser.cpp:422-424 | the reversed hex of counting bytes is the count-down text |
| CommandFacts.RegIndexFirstMatch | debugger/src/libdbg64g/services/console/cmdparser.cpp:536-540 | the first table entry with the name decides the index |
| CommandFacts.RegIndexMissing | debugger/src/libdbg64g/services/console/cmdparser.cpp:542 | a name missing from the table selects slot 0 |
| Parser.CmdParser.constructor | debugger/src/libdbg64g/services/console/cmdparser.cpp:31-48 | the scratch and output buffers start at 4096 bytes and the output is empty |
| Parser.CmdParser.UpdateCommand | debugger/src/libdbg64g/services/console/cmdparser.cpp:72-80 | the text printed and the actions taken for a line are those of `Commands.Update`: the command's own, then one delivery of the output to each console |
| Parser.CmdParser.CopyLine | debugger/src/libdbg64g/services/console/cmdparser.cpp:74 | the command buffer holds the line followed by its terminator |
| Parser.CmdParser.Broadcast | debugger/src/libdbg64g/services/console/cmdparser.cpp:76-79 | each console in order receives the whole output |
| Parser.CmdParser.ProcessLine | debugger/src/libdbg64g/services/console/cmdparser.cpp:82-250 | the output is reset, and the text and actions are `Commands.Respond` of the line in the buffer |
| Parser.CmdParser.Perform | debugger/src/libdbg64g/services/console/cmdparser.cpp:95-249 | each dispatched command prints and does what `Commands.Execute` says |
| Parser.CmdParser.Control | debugger/src/libdbg64g/services/console/cmdparser.cpp:110-246 | the commands that only act on the target (exit, loadelf, log, halt, run, br) print nothing and take `Commands.Execute`'s actions |
| Parser.CmdParser.SplitLine | debugger/src/libdbg64g/services/console/cmdparser.cpp:252-288 | splitting the buffer in place yields `Tokenizer.Args` of the line |
| Parser.CmdParser.Item | debugger/src/libdbg64g/services/console/cmdparser.cpp:273-279 | each NUL-terminated piece becomes `Tokenizer.Classify` of its text |
| Parser.CmdParser.BlankRun | debugger/src/libdbg64g/services/console/cmdparser.cpp:260-264 | the delimiter and the run of spaces after it are overwritten with NULs, and the run ends before a non-space or the terminator |
| Parser.CmdParser.Emit | debugger/src/libdbg64g/services/console/cmdparser.cpp:272-284 | the token just ended, followed by the rest split recursively, is the line's argument list |
| Parser.CmdParser.ReadCsr | debugger/src/libdbg64g/services/console/cmdparser.cpp:290-327 | `csr name` prints and reads as `Commands.ExecCsrRead` says |
| Parser.CmdParser.ValueLine | debugger/src/libdbg64g/services/console/cmdparser.cpp:299-326 | for a known CSR: one TAP read, the value line, then the MCPUID or MTIME detail |
| Parser.CmdParser.Detail | debugger/src/libdbg64g/services/console/cmdparser.cpp:303-326 | prints the detail line of MCPUID or MTIME, and nothing for other CSRs |
| Parser.CmdParser.Extensions | debugger/src/libdbg64g/services/console/cmdparser.cpp:311-321 | the loop over the 26 bits prints `Bits.ExtLetters` |
| Parser.CmdParser.WriteCsr | debugger/src/libdbg64g/services/console/cmdparser.cpp:341-352 | `csr name value` writes the value's 8 bytes to the CSR, or prints "Unknown CSR" |
| Parser.CmdParser.LoadElf | debugger/src/libdbg64g/services/console/cmdparser.cpp:329-339 | the reset, load and release actions of `Commands.LoadElfEvents` |
| Parser.CmdParser.TapIn | debugger/src/libdbg64g/services/console/cmdparser.cpp:366 | a TAP read returns the bytes of the memory produced by the trace so far |
| Parser.CmdParser.TapOut | debugger/src/libdbg64g/services/console/cmdparser.cpp:399 | a TAP write is recorded as the next action |
| Parser.CmdParser.Act | debugger/src/libdbg64g/services/console/cmdparser.cpp:335 | any other action is recorded as the next action |
| Parser.CmdParser.Halt | debugger/src/libdbg64g/services/console/cmdparser.cpp:443-450 | the writes of `Commands.RunControlEvents` for halt |
| Parser.CmdParser.Run | debugger/src/libdbg64g/services/console/cmdparser.cpp:452-467 | the writes of `Commands.RunControlEvents` for run |
| Parser.CmdParser.Br | debugger/src/libdbg64g/services/console/cmdparser.cpp:524-534 | the write of `Commands.RunControlEvents` for br |
| Parser.CmdParser.EnableLogs | debugger/src/libdbg64g/services/console/cmdparser.cpp:119-125 | every console in order is told to log to the file |
| Parser.CmdParser.Exit | debugger/src/libdbg64g/services/console/cmdparser.cpp:203-204 | `exit` ends the simulation and does nothing else |
| Parser.CmdParser.ReadMem | debugger/src/libdbg64g/services/console/cmdparser.cpp:354-381 | `read` prints, reads and leaves the scratch buffer as `Commands.ExecReadMem` says |
| Parser.CmdParser.Fill | debugger/src/libdbg64g/services/console/cmdparser.cpp:366 | the bytes read land at the start of the scratch buffer, and the rest is kept |
| Parser.CmdParser.PrintWindow | debugger/src/libdbg64g/services/console/cmdparser.cpp:367-380 | the loop prints the window text from start to end |
| Parser.CmdParser.NextPosition | debugger/src/libdbg64g/services/console/cmdparser.cpp:367-380 | one more position extends the printed window by one position |
| Parser.CmdParser.PrintPosition | debugger/src/libdbg64g/services/console/cmdparser.cpp:368-379 | one position prints an optional header, its cell and an optional newline |
| Parser.CmdParser.PrintByte | debugger/src/libdbg64g/services/console/cmdparser.cpp:371-376 | one cell prints the byte at the reversed address, or `..` outside the bytes read |
| Parser.CmdParser.OutfIf | debugger/src/libdbg64g/services/console/cmdparser.cpp:368-370 | the text is printed exactly when the condition holds |
| Parser.CmdParser.WriteMem | debugger/src/libdbg64g/services/console/cmdparser.cpp:383-400 | `write` stores, writes and prints as `Commands.ExecWriteMem` says |
| Parser.CmdParser.WriteWords | debugger/src/libdbg64g/services/console/cmdparser.cpp:388-399 | the words are stored in a buffer large enough for them and the count, and its first count bytes are written to the target |
| Parser.CmdParser.StoreWords | debugger/src/libdbg64g/services/console/cmdparser.cpp:388-394 | the loop stores every word of the value at offset 8*k |
| Parser.CmdParser.StoreWord | debugger/src/libdbg64g/services/console/cmdparser.cpp:389 | one word's 8 little-endian bytes replace bytes 8i to 8i+7, and the rest of the buffer is kept |
| Parser.CmdParser.MemDump | debugger/src/libdbg64g/services/console/cmdparser.cpp:402-441 | `memdump` opens, reads, writes and closes the file as `Commands.ExecMemDump` says, and its own buffer leaves the scratch buffer alone |
| Parser.CmdParser.HexDump | debugger/src/libdbg64g/services/console/cmdparser.cpp:418-433 | the hex loop writes the lines of `Commands.HexDumpEvents` |
| Parser.CmdParser.DumpLoop | debugger/src/libdbg64g/services/console/cmdparser.cpp:422-430 | after the loop, every whole line has been written and the partial line is pending |
| Parser.CmdParser.DumpPosition | debugger/src/libdbg64g/services/console/cmdparser.cpp:423-429 | one position appends its byte's hex to the pending line, and at lane 15 writes the line out |
| Parser.CmdParser.GetRegIdx | debugger/src/libdbg64g/services/console/cmdparser.cpp:536-543 | the loop returns the index of the first entry with the name, or 0 |
| Parser.CmdParser.Regs | debugger/src/libdbg64g/services/console/cmdparser.cpp:469-522 | `regs` reads and prints as `Commands.ExecRegs` says |
| Parser.CmdParser.ReadRegs | debugger/src/libdbg64g/services/console/cmdparser.cpp:470-474 | slots 1 to size-1 are read in order, and slot 0 and the slots past the table stay 0 |
| Parser.CmdParser.PrintRegs | debugger/src/libdbg64g/services/console/cmdparser.cpp:475-521 | the cells of the layout are printed in order |
| Parser.CmdParser.PrintCell | debugger/src/libdbg64g/services/console/cmdparser.cpp:475 | one cell prints its caption, the register's 16 hex digits and its suffix |
| Parser.CmdParser.Grow | debugger/src/libdbg64g/services/console/cmdparser.cpp:547-551 | the output buffer is doubled and its contents kept |
| Parser.CmdParser.MakeRoom | debugger/src/libdbg64g/services/console/cmdparser.cpp:546-552 | after growing, the text and its terminator fit and the contents are kept; the size only doubles; the buffer is kept when the source would not grow it; and for a text shorter than 128 characters the size is exactly the source's `AsWritten.OutfSize` (corrected, see Findings) |
| Parser.CmdParser.Put | debugger/src/libdbg64g/services/console/cmdparser.cpp:555 | the text is appended and terminated |
| Parser.CmdParser.Outf | debugger/src/libdbg64g/services/console/cmdparser.cpp:545-558 | the output grows by exactly the text and stays terminated, with `MakeRoom`'s growth policy: a doubled size, no new buffer when the source keeps it, the source's size for texts shorter than 128 characters |
| Parser.CmdParser.OutfAll | debugger/src/libdbg64g/services/console/cmdparser.cpp:96-109 | a list of lines prints as their concatenation |
| Parser.ReadsDone | debugger/src/libdbg64g/services/console/cmdparser.cpp:472-474 | the read loop of `regs` takes exactly the reads of `Commands.RegsEvents` and fills `Commands.RegValues` |
| Parser.WindowStep | debugger/src/libdbg64g/services/console/cmdparser.cpp:367-380 | the window up to i+1 is the window up to i followed by position i |
| Parser.FillStep | debugger/src/libdbg64g/services/console/cmdparser.cpp:391-394 | storing one more word changes only its 8 bytes |
| Parser.DumpStep | debugger/src/libdbg64g/services/console/cmdparser.cpp:423-429 | the pending line and the written lines after one more position of the hex loop |
| Parser.HexDumpDone | debugger/src/libdbg64g/services/console/cmdparser.cpp:431-433 | the pending partial line is written exactly when the length is not a multiple of 16 |
| Parser.SplitAtSpace | debugger/src/libdbg64g/services/console/cmdparser.cpp:260-283 | a token ended by a run of spaces is followed by the arguments of what comes after the run |
| Parser.ScanIsTokenLen | debugger/src/libdbg64g/services/console/cmdparser.cpp:257-270 | the in-place scan stops where `Tokenizer.TokenLen` says |
| AsWritten.OutfSize | debugger/src/libdbg64g/services/console/cmdparser.cpp:546-552 | outf grows the buffer at most once per call, by doubling |
| AsWritten.ShortTextsFit | debugger/src/libdbg64g/services/console/cmdparser.cpp:546-555 | the 128-character headroom is enough for every text shorter than 128 |
| AsWritten.LongTextOverruns | debugger/src/libdbg64g/services/console/cmdparser.cpp:546-555 | a 4096-character text printed into a fresh buffer is written past its end |
| AsWritten.CantOpenMessageOverruns | debugger/src/libdbg64g/services/console/cmdparser.cpp:406 | the "Can't open" message with a file name of 4082 or more characters overruns the buffer |
| AsWritten.WriteOverruns | debugger/src/libdbg64g/services/console/cmdparser.cpp:388-399 | one word fits the 4096-byte scratch buffer, but a count of 8192 or a list of 513 words does not |
| AsWritten.CorrectedWriteFits | debugger/src/libdbg64g/services/console/cmdparser.cpp:388-399 | the corrected scratch buffer always holds the words and the count |
| AsWritten.WholeLinesInside | debugger/src/libdbg64g/services/console/cmdparser.cpp:422-424 | when the length is a multiple of 16 every reversed index stays below it |
| AsWritten.PartialLineReadsPast | debugger/src/libdbg64g/services/console/cmdparser.cpp:422-424 | with a partial last line the loop reads past the bytes read: index 4111 of a 4097-byte buffer, or byte 15 when one byte was read |
| AsWritten.NegativeCountReadsPast | debugger/src/libdbg64g/services/console/cmdparser.cpp:357-373 | `read 0x1000 0x80000000`: the count casts to -2^31, the window runs to 0xFFFFFFFF80001000, and position 0x2000 prints index 0x100F of the 4096-byte scratch buffer |
| AsWritten.NegativeDumpWritesPast | debugger/src/libdbg64g/services/console/cmdparser.cpp:410-435 | `memdump 0 0x80000000 f` passes fwrite 2^64 - 2^31 bytes |

## Left out

- Service registration, attribute registration and `postinitService` (lines 15 and 31-45, 55-70) are not modelled. The consoles, TAP and loader are given to the model.
- The `cmdparser.h` header is not part of this model, so the size of `cmdbuf_` is a constructor parameter. `UpdateCommand` requires the line to fit in it and to hold no NUL, since `memcpy` of `strlen + 1` bytes copies only up to the first NUL.
- `AttributeType::from_config`, `csr_socaddr`, `fopen` success and the `%.1f` millisecond text of `csr MTIME` are given functions in `Commands.Config`. Their internals are not in the source.
- File output (`fopen` for writing, `fwrite`, `fclose`), `IConsole::enableLogFile`, `IElfLoader::loadFile`, `writeBuffer` and `RISCV_break_simulation` are recorded as trace events. Their effects are not modelled, beyond the event: `FileOpen` stands for the file being created or emptied.
- Types.ToInt32: a byte count of 2^31 or more becomes negative after the `int` cast. What the TAP does with a negative length is not modelled. The model stops such a `read` or `write` after the checks it has already passed, with no further effect, and such a `memdump` after opening its file (which empties it), closing the file and doing nothing else; what the source then does with the buffers is under Findings.
- CommandFacts.WindowCoversRead: stated only for a window that does not wrap past 2^64. When it does, `addr_end` wraps below `addr_start` and the source prints nothing (line 364). The model computes the same wrapped end, and CommandFacts.WrappedWindowPrintsNothing states the result.
- CommandFacts.EveryByteShown: stated only for a window that does not wrap past 2^64, for the same reason; a wrapped window shows no byte (CommandFacts.WrappedWindowPrintsNothing).
- CommandFacts.InWindow: stated only for a window that does not wrap past 2^64, for the same reason.
- The host is taken to be little-endian: the `reinterpret_cast` of the scratch buffer to `uint64_t` (lines 299, 334, 389, 473) is modelled as little-endian bytes.
- Parser.CmdParser.ReadMem: the contents of freshly allocated buffers are unspecified in C++. The model fills them with zeros.
- Commands.ValidConfig: `regs` stores into `uint64_t regs[128]` indexed by the register table. The model requires at most 128 table entries and indices below 128. This is a startup configuration, not user input.
- Parser.CmdParser.GetRegIdx: the `static_cast<unsigned>` of the index is not modelled, because the indices are below 128.
- Output text containing a NUL character is not modelled: `vsprintf` would stop at it, while the model copies it.
- `ConsoleWidget.cpp`, `UartWidget.h` and `igui.h` (the GUI side of the consoles) are not part of this model.
- Parser.CmdParser.MakeRoom, Commands.ExecWriteMem, Commands.DumpByte and the negative-count stop in Commands.Execute model the corrected behaviour of the four overruns under Findings. The as-written behaviour is in `AsWritten`.

## Findings

| source | as written | input that shows it | evidently intended | confidence | as-written member | corrected member |
|---|---|---|---|---|---|---|
| debugger/src/libdbg64g/services/console/cmdparser.cpp:545-558 | outf doubles the output buffer once, only when fewer than 128 characters remain, then `vsprintf`s a text of any length | `memdump 0 1 <name of 4082+ characters>` when the file cannot be opened: the message is longer than the 4096-byte buffer | grow until the text and its terminator fit | not executed | AsWritten.LongTextOverruns | Parser.CmdParser.MakeRoom |
| debugger/src/libdbg64g/services/console/cmdparser.cpp:383-400 | writeMem stores the words at offsets 0, 8, ... of the scratch buffer and writes `bytes` bytes from it, with neither checked against its 4096-byte size | `write 0 8192 1`, or `write 0 8 [<513 words>]` | grow the scratch buffer to hold the words and the count | not executed | AsWritten.WriteOverruns | Commands.WriteScratch |
| debugger/src/libdbg64g/services/console/cmdparser.cpp:418-433 | the hex loop reads `dumpbuf[(i & ~0xf) \| (0xf - (i & 0xf))]` for every i below len, which on a partial last line is at or past len | `memdump 0 4097 f hex` reads index 4111 of a 4097-byte array; `memdump 0 1 f hex` prints byte 15, which the read did not fill | never read past the bytes read; the model prints `00` for a reversed position past them, and whole lines are unchanged (CommandFacts.HexDumpFullLine) | not executed | AsWritten.PartialLineReadsPast | Parser.CmdParser.DumpPosition |
| debugger/src/libdbg64g/services/console/cmdparser.cpp:357-435 | a byte count of 2^31 or more casts to a negative `int`: readMem's window end subtracts and the loop prints bytes far past the scratch buffer; memDump hands `fwrite` the negative length as a `size_t` | `read 0x1000 0x80000000` prints index 0x100F of the 4096-byte buffer; `memdump 0 0x80000000 f` asks `fwrite` for 2^64 - 2^31 bytes | refuse a negative count | not executed | AsWritten.NegativeCountReadsPast | CommandFacts.NegativeCountStops |
