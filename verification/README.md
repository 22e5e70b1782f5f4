# Debug-info rewriting, label renaming and the uMDesc tools, modelled in Dafny

This project models the parts of the repository that rewrite or translate data
whose meaning has to survive, and proves that it does. Loops and classes of the
sources are methods and classes here, each proved equal to a function of its
inputs or of the old state; what the sources promise is then proved of those
functions as lemmas.

| source | modules | in short |
|---|---|---|
| `wasm-debug.cpp` | LineProgram, LineCodec, LineOpcodes, Locations, AddressMaps, DebugLines, LineRewriting, LineReading, LineMeaning, LineFixpoint, LineWitnesses, LocLists, LocMeaning, DieRanges, DieMeaning, CompileUnits | DWARF line tables, location lists, range lists and entries after an optimizer has moved code |
| `parsing.cpp` | Labels, LabelBinding (with Decimals) | renaming scope names apart without changing where any branch goes |
| `source-map.cpp` | Vlq, SourceMap, SourceMapLookup | streaming Base64 VLQ mappings against a plain table lookup |
| `umdesc/` | UmdescSyntax, UmdescExpr, UmdescFile, UmdescPrinter, UmdescLexer, UmdescText | the grammar and its derivations, a printer, the round trip from text to text, nested comments and line counting |
| `wasm-emscripten.cpp` | Escape | three in-place rewriting loops as one pass with an inverse |
| `xtrakt/` | MergeIndex, Cir, CirRecord (with Strings) | the merge index over any run of adds; the document codec |
| `opcodes_prefixes.c` | Prefixes | nested prefix handlers as a fold and its unwinding |

Words, Powers, Lists and Results hold 32-bit arithmetic, powers of two, lists and
the outcome types. The standards
meant are DWARF 4 (sections 2.6.2, 2.17, 6.2), the WebAssembly Core
Specification (section 6.5.1), Source Map Revision 3 / ECMA-426, and the Intel
SDM, volume 2A, section 2.1.1. The line-number opcodes have the values given in
section 7.21 of DWARF 4.

A failing assert, a fatal error, an exception and a lookup of a missing key are
outcomes of the model, not preconditions: an operation either returns its
result or says which check failed, and lemmas say exactly when it does.

## Where the code and its documentation differ

The model does what the code does.

- `MergeIndex` is documented to keep the record of highest precedence. `add`
  returns what `_merge` keeps but never stores it, so a later record of higher
  precedence leaves the stored one as it was (`HighestPrecedenceIsNotKept`).
- Section 6.2.5 of DWARF 4 clears `discriminator` and `basic_block` after every
  row; `resetAfterLine` clears only `prologue_end`. Reader and writer agree with
  each other (`LineTableRoundTrip`), and the assert at `wasm-debug.cpp:328`
  therefore fails exactly when a block flag goes from true to false between
  neighbours of one run (`RewritingFailsIff`, `BasicBlockAssertCanFail`).
- The `continue` for a repeated address, and the one for an omitted range, also
  pass over the end-of-sequence step (`SequenceEndsIff`, `NumbersShared`): two
  sequences can get one identifier, and a row of the second one the registers of
  the first (`RepeatedEndJoins`).
- `resetAfterLine` is called for kept rows only, so a row that goes nowhere
  leaves its prologue flag to the next one (`PrologueFlagIsLeft`); an omitted row
  resets every register, whether it ends its sequence or not
  (`OmittedRowLosesLine`). A program is read as a plain reader reads it exactly
  when its rows meet a condition on them alone (`AgreesIffReadPlainly`), and then
  its rewriting means the image of what it means (`RewritingKeepsMeaning`).
- A line row may be moved to an address that the next reading takes for a
  tombstone (`RowAtTombstoneIsLost`); rewriting is a fixed point exactly when
  none is (`RewritingAgainChangesNothing`).
- The check at `wasm-debug.cpp:1052` is guaranteed by the look-ahead for entries
  under a base entry (`BaseEntryMakesItSafe`); under a unit's base it fails
  exactly when the entry starts below the unit's new base (`AssertFailsIff`,
  `BaseAssertCanFail`).
- `updateLoc` guards against writing offsets (0, 0), which would end a list, but
  not against the other end markers or the start of a base entry. A normal entry
  becomes one exactly when its end offset is one of the two highest values and its
  start offset is zero or one of them (`StructureKept`, `NormalBecomesEnd`).
- `getNewEnd` does not compose over two rewritings as `getNewStart` does: a
  function's end opcode can, in the binary in between, stand at the end address
  of an expression, and is then followed by way of that (`EndsNeedNotCompose`).
  It composes with every later rewriting exactly when nothing of another kind
  ends there (`EndsComposeIff`); so do starts (`StartsComposeIff`), which in an
  unambiguous binary always do (`GetNewStartComposes`).
- `escape` says it escapes what is already escaped; a quote after an even,
  non-zero number of backslashes still ends up after an even number
  (`EscapeByRuns`, `EvenRunStaysEven`).
- `updateRanges` subtracts a `skip` that is never increased.

## Model

| member | source | states |
|---|---|---|
| LineCodec.LineTableRoundTrip | bank/Binaryen-WASM/wasm-debug.cpp:753-775 | For every list of rows the writing loop accepts, running `update` over the opcodes it writes reports exactly those rows, field by field, with the end of a sequence on the last row of each maximal run of one sequence and nowhere else, line deltas wrapping both ways; it fails exactly when there are more runs than identifiers |
| LineCodec.DecodeEncode | bank/Binaryen-WASM/wasm-debug.cpp:280-349 | The same from any row on, given the registers the reader has on arriving there: each diff is relative to just what the reader still holds |
| LineCodec.DiffReadsAsRow | bank/Binaryen-WASM/wasm-debug.cpp:280-349 | All opcodes of a row's diff but the last report nothing and leave the reader's registers equal to that row: a row is reported only at the last opcode of its diff |
| LineCodec.DiffBodyIsQuiet | bank/Binaryen-WASM/wasm-debug.cpp:285-333 | Whenever the diff of two rows is defined, the registers of the old row, reset after its line, become those of the new one, whatever the table's header |
| LineCodec.EncodeSucceedsIff | bank/Binaryen-WASM/wasm-debug.cpp:753-775 | The writing loop passes its checks exactly when every row has a line and an address, no epilogue flag is set, and no block flag goes from true to false between neighbours of a run |
| LineCodec.SpecialOpcodeSteps | bank/Binaryen-WASM/wasm-debug.cpp:240-252 | An opcode computed by the formula of section 6.2.5.1 of DWARF 4 is read as exactly the line step and address step it was computed from, and reports a row |
| LineCodec.ConstAddPcIsSpecial255 | bank/Binaryen-WASM/wasm-debug.cpp:225-231 | const_add_pc moves the address as special opcode 255 does, changes nothing else and reports no row |
| LineOpcodes.AdvancePcAdds | bank/Binaryen-WASM/wasm-debug.cpp:201-206 | Setting the address to a and advancing it by n, by opcode 2 or 9, leaves the registers that setting it to a + n modulo 2^32 does, and reports nothing |
| LineOpcodes.StandardOpcodes | bank/Binaryen-WASM/wasm-debug.cpp:190-239 | Opcodes 1, 3, 4, 5, 6, 7, 10 and 12 each do to their register what section 6.2.5.2 of DWARF 4 says, and only the first reports a row |
| LineOpcodes.ExtendedOpcodes | bank/Binaryen-WASM/wasm-debug.cpp:165-189 | Extended opcodes 1 and 4 end a sequence and set the discriminator, 3 is fatal, an unknown one changes nothing; 2 alone starts a range |
| LineOpcodes.OtherOpcodes | bank/Binaryen-WASM/wasm-debug.cpp:240-256 | Every other number reports a row from the base of the table on, and is fatal below it |
| LineOpcodes.InitialRegisters | bank/Binaryen-WASM/wasm-debug.cpp:135-158 | The registers at the start of a sequence have the values of section 6.2.2 of DWARF 4 |
| LineOpcodes.DiffIsShortest | bank/Binaryen-WASM/wasm-debug.cpp:280-349 | A diff has exactly one opcode for each register that differs and one that ends it, in the order of the source, with the lengths of extended opcodes right and no operand out of range |
| LineProgram.LineState.constructor | bank/Binaryen-WASM/wasm-debug.cpp:156-158 | The registers start as section 6.2.2 of DWARF 4 lists them, with the table's default for is_stmt |
| LineProgram.LineState.Update | bank/Binaryen-WASM/wasm-debug.cpp:162-259 | The registers change in place as the state machine of the line program says, the result tells whether a row is ready, and the two fatal opcodes change nothing |
| LineProgram.LineState.EmitDiff | bank/Binaryen-WASM/wasm-debug.cpp:280-349 | What is appended to the opcodes is the diff the reading lemmas are about, or the check that fails first |
| LineProgram.LineState.ResetAfterLine | bank/Binaryen-WASM/wasm-debug.cpp:352 | Only the prologue flag is cleared |
| DebugLines.ReadRows | bank/Binaryen-WASM/wasm-debug.cpp:692-748 | The reading loop, with a state object, a list of new addresses and a map, is the fold that the rewriting lemmas are about, including both early continues |
| DebugLines.WriteRows | bank/Binaryen-WASM/wasm-debug.cpp:753-775 | The writing loop over stored states, each diffed with its predecessor or a fresh state, is the encoding that reads back |
| DebugLines.UpdateDebugLines | bank/Binaryen-WASM/wasm-debug.cpp:679-776 | Every table's opcodes are replaced by their rewriting, each independently of the others, headers stay, and a fault is reported exactly when some table's rewriting has one |
| DebugLines.CollectAllKeepsInv | bank/Binaryen-WASM/wasm-debug.cpp:686-748 | At every point of the loop the new addresses are distinct, are exactly the stored keys, each stored state carries its key as address, passes the check of line 757 and has no epilogue flag, and the current state belongs to the current sequence |
| DebugLines.SortedIsUnique | bank/Binaryen-WASM/wasm-debug.cpp:751 | Two strictly increasing lists with the same members are the same list, so any sort of the distinct new addresses gives the one written |
| LineMeaning.RewritingKeepsMeaning | bank/Binaryen-WASM/wasm-debug.cpp:679-776 | From the rows the input decodes to, to the rows the output decodes to: when the input is read plainly, the output has, in the order of the new addresses, for each address the first decoded row that is not omitted and goes there, with only its address and sequence changed, and a sequence goes on to the next row exactly when no end_sequence between the two in the input is kept |
| LineMeaning.SortedImage | bank/Binaryen-WASM/wasm-debug.cpp:679-776 | The same of the rows before they are encoded, sequence numbers included |
| LineMeaning.SequencesJoined | bank/Binaryen-WASM/wasm-debug.cpp:728-746 | Two decoded rows are of one input sequence exactly when no end_sequence is between them; they get one number exactly when all that are, are omitted or repeated |
| LineMeaning.LandsIff | bank/Binaryen-WASM/wasm-debug.cpp:272-276 | A decoded row that is not omitted and whose address goes somewhere is kept or repeated exactly when its line and its address are not zero |
| LineMeaning.WrittenRowsSaySomething | bank/Binaryen-WASM/wasm-debug.cpp:753-775 | Every row written, and every row the output decodes to, has a line and an address that are not zero |
| LineReading.AgreesIffReadPlainly | bank/Binaryen-WASM/wasm-debug.cpp:692-748 | At the start of every row that is not omitted anyway, the loop has the registers of a plain reader, exactly when each row leaves them in step: an omitted row ends its sequence or leaves them fresh, a dropped one ends it or has no prologue flag, a repeated one does neither |
| LineReading.StepTells | bank/Binaryen-WASM/wasm-debug.cpp:697-747 | The same for one row, as an equivalence |
| LineReading.ReadsBeside | bank/Binaryen-WASM/wasm-debug.cpp:692-748 | After a program read plainly, and so after each of its prefixes, the loop stores, for each address, the first decoded row that goes there, omits the rows the ranges say, and has spent the numbers the kept ends say |
| LineReading.ReadIsDecode | bank/Binaryen-WASM/wasm-debug.cpp:162-259 | The rows this is told from are those the program stands for |
| LineRewriting.SortedFirstWinsImage | bank/Binaryen-WASM/wasm-debug.cpp:679-776 | For every program, whatever registers the loop reads its rows with: the rows written are strictly increasing in address, there is one for each address some surviving row was moved to, and it is the first such row with only its address changed |
| LineRewriting.SurvivorsWin | bank/Binaryen-WASM/wasm-debug.cpp:725-738 | From any point of the run, what is stored at the end is what was stored then plus, for each further address, the first row moved there as the loop read it |
| LineRewriting.TombstonedRange | bank/Binaryen-WASM/wasm-debug.cpp:694-704 | From a row whose address is a tombstone until the next set_address, no row survives and nothing is stored |
| LineRewriting.OmittedTail | bank/Binaryen-WASM/wasm-debug.cpp:698-704 | While a range is being omitted, opcodes that set no address store nothing and end no sequence |
| LineRewriting.SequenceEndsIff | bank/Binaryen-WASM/wasm-debug.cpp:728-746 | A completed row starts a new sequence exactly when it is an end_sequence that is neither omitted nor a repetition of a stored address; a repetition leaves every register as it was, an omission resets them all |
| LineRewriting.NumbersShared | bank/Binaryen-WASM/wasm-debug.cpp:692-748 | Over a whole run, two rows get one sequence number exactly when every end_sequence from the one to the other is omitted or repeated |
| LineRewriting.ReadingFailsIff | bank/Binaryen-WASM/wasm-debug.cpp:692-748 | From any point of the run, reading fails exactly when some opcode is one of the two fatal kinds or the sequences that end use up the identifiers |
| LineRewriting.SurvivorsAreEvents | bank/Binaryen-WASM/wasm-debug.cpp:697-738 | The surviving rows are the completed rows that are neither omitted nor dropped, in order |
| LineRewriting.RewrittenReadsBack | bank/Binaryen-WASM/wasm-debug.cpp:679-776 | Reading the rewritten program gives exactly the rows it was written from, field by field, with sequences numbered by run, or fails exactly when there are more runs than identifiers |
| LineRewriting.RewritingFailsIff | bank/Binaryen-WASM/wasm-debug.cpp:327-329 | Once reading has succeeded, rewriting fails exactly when two neighbours in the new order, of one sequence, have the block flag set and then not set |
| LineRewriting.NoBasicBlocksNoFailure | bank/Binaryen-WASM/wasm-debug.cpp:327-329 | A line program without set_basic_block never fails the check |
| LineRewriting.BasicBlockAssertCanFail | bank/Binaryen-WASM/wasm-debug.cpp:328 | A line program of two rows, and a location map that swaps them, for which the check fails |
| LineWitnesses.PrologueFlagIsLeft | bank/Binaryen-WASM/wasm-debug.cpp:725-738 | A program whose one written row has the prologue flag of a row that was dropped, while the decoded row has none |
| LineWitnesses.RepeatedEndJoins | bank/Binaryen-WASM/wasm-debug.cpp:728-746 | A program of two sequences whose second one is written into the first, with the line of the first |
| LineWitnesses.OmittedRowLosesLine | bank/Binaryen-WASM/wasm-debug.cpp:698-704 | A program whose written row has lost the line it was decoded with to an omitted row before it |
| LineWitnesses.RowAtTombstoneIsLost | bank/Binaryen-WASM/wasm-debug.cpp:698-704 | A binary that, read back and rewritten without a change, loses a line row at the last address but one |
| LineFixpoint.RewritingAgainChangesNothing | bank/Binaryen-WASM/wasm-debug.cpp:679-776 | The new binary read back and rewritten without further change gives the same opcodes, exactly when no row was moved to a tombstone address |
| LineFixpoint.RewritingIsStable | bank/Binaryen-WASM/wasm-debug.cpp:692-775 | The same under any location map that fixes the addresses written, including sequence boundaries |
| LineFixpoint.StableWithoutTombstones | bank/Binaryen-WASM/wasm-debug.cpp:692-775 | Any encoded list of strictly increasing rows with no tombstone address is rewritten to itself when every address is fixed |
| LineFixpoint.UnstableWithTombstones | bank/Binaryen-WASM/wasm-debug.cpp:698-704 | With a tombstone address among the rows, it is not |
| Words.DeltaRestores | bank/Binaryen-WASM/wasm-debug.cpp:300 | Casting the unsigned line difference to 32 signed bits and adding it back with wrap-around restores the line, for any two lines |
| LocMeaning.LocListMeaning | bank/Binaryen-WASM/wasm-debug.cpp:982-1075 | A reader of the written list, adding the base it finds there, gets for every normal entry that stays one exactly the moved span of the old one when that survives in order; otherwise, and when the moved span is empty and at the base, the empty span one past the base |
| LocMeaning.StructureKept | bank/Binaryen-WASM/wasm-debug.cpp:1004-1073 | Base entries and end markers stay what they are; a normal entry that survives stays one exactly when its end offset is below 2^32-2 or its start offset is neither zero nor one of the two highest values, and any other always does; unit offsets and location descriptions are untouched |
| LocMeaning.MarkersByValue | bank/Binaryen-WASM/wasm-debug.cpp:973-979 | A base entry is one that starts at the highest address; an end marker one whose start and end are both zero or one of the two highest |
| LocMeaning.ReaderAdds | bank/Binaryen-WASM/wasm-debug.cpp:996-1044 | A reader adds to an entry the end of the base entry before it, and after the end of a list the base of its unit |
| LocMeaning.BaseEntryWritten | bank/Binaryen-WASM/wasm-debug.cpp:1004-1035 | A base entry is written as one, with its new base |
| LocMeaning.NormalBecomesEnd | bank/Binaryen-WASM/wasm-debug.cpp:1053-1072 | An expression moved to the last address but one, whose entry is written as an end marker and cuts its list |
| LocMeaning.NewBaseIsReaders | bank/Binaryen-WASM/wasm-debug.cpp:996-1038 | The new base the loop carries at an entry is the one a reader of the written list uses there, if no entry since the last base entry or end marker has become a marker |
| LocMeaning.OldBaseIsReaders | bank/Binaryen-WASM/wasm-debug.cpp:996-1038 | The old base the loop carries at each entry is the one a reader of the original list uses there |
| LocMeaning.NewBaseIsLeast | bank/Binaryen-WASM/wasm-debug.cpp:1013-1035 | A base entry's new value is the least new start of the entries relative to it, and zero exactly when none of them starts anywhere, the highest address not counting |
| LocMeaning.BaseEntryMakesItSafe | bank/Binaryen-WASM/wasm-debug.cpp:1050-1054 | Under a base entry the assert never fails, whatever the location map |
| LocMeaning.AssertFailsIff | bank/Binaryen-WASM/wasm-debug.cpp:1052 | It fails at an entry exactly when the entry is under its unit's base, its span survives, and it now starts below the unit's new base |
| LocMeaning.BaseAssertCanFail | bank/Binaryen-WASM/wasm-debug.cpp:1052 | A list relative to its unit, and a unit whose base moves up past the entry, for which it fails |
| LocMeaning.RangeEndsKept | bank/Binaryen-WASM/wasm-debug.cpp:937-966 | A written range is an end marker exactly when the old one was; invalid ranges stay, ranges without a mapping become (0, 1), all others get both new addresses |
| LocMeaning.RangeEndByValue | bank/Binaryen-WASM/wasm-debug.cpp:941-946 | A range list ends at two zeros only, and a range with zero or one of the two highest addresses stays as it is |
| LocLists.FindSmallest | bank/Binaryen-WASM/wasm-debug.cpp:1014-1034 | The look-ahead loop finds the least new start up to the next base entry or end marker, removed entries not counting |
| LocLists.UpdateNormal | bank/Binaryen-WASM/wasm-debug.cpp:1040-1065 | A normal entry is moved, or marked ignorable, or trips the assert, as the meaning lemmas assume, and changes only in its two addresses |
| LocLists.UpdateLoc | bank/Binaryen-WASM/wasm-debug.cpp:982-1075 | The in-place loop updates every entry as a function of the original list alone, although its look-ahead reads the array it is overwriting; it fails exactly when some entry does |
| LocLists.UpdateRanges | bank/Binaryen-WASM/wasm-debug.cpp:932-967 | Every range is updated at its own index, each as a function of what it was |
| AddressMaps.GetNewStartComposes | bank/Binaryen-WASM/wasm-debug.cpp:624-633 | Moving a start from A to B and then from B to C is moving it from A to C, removed items included, when B's starts are unambiguous and nothing removed comes back |
| AddressMaps.StartsComposeIff | bank/Binaryen-WASM/wasm-debug.cpp:624-633 | A start composes with every later rewriting that reinstates nothing exactly when what it moves to is still the same kind of thing in B |
| AddressMaps.GetNewEndComposes | bank/Binaryen-WASM/wasm-debug.cpp:635-644 | The same for ends, when what the address moves to is still the same kind of thing in B |
| AddressMaps.EndsComposeIff | bank/Binaryen-WASM/wasm-debug.cpp:635-644 | An end composes with every later rewriting that reinstates nothing exactly under that condition |
| AddressMaps.EndsNeedNotCompose | bank/Binaryen-WASM/wasm-debug.cpp:635-644 | Without it, a function that is empty but for its end opcode, an expression added in B and removed in C: the end opcode is lost by way of B and kept directly |
| AddressMaps.StartOfExpr | bank/Binaryen-WASM/wasm-debug.cpp:522-531 | In an unambiguous layout an expression's old start moves to that expression's new start, or to zero when it was removed |
| AddressMaps.StartOfFunc | bank/Binaryen-WASM/wasm-debug.cpp:551-568 | A function's start goes to its start and its declarations go to its declarations, or to zero when it was removed |
| AddressMaps.StartOfDelimiter | bank/Binaryen-WASM/wasm-debug.cpp:606-615 | A delimiter goes to the same delimiter of the same expression |
| AddressMaps.StartOfNothing | bank/Binaryen-WASM/wasm-debug.cpp:624-633 | An address where nothing starts goes to zero |
| AddressMaps.UnchangedLayoutKeepsStarts | bank/Binaryen-WASM/wasm-debug.cpp:624-633 | When nothing moves, every address where something starts is kept and every other one goes to zero |
| AddressMaps.LineOfExpr | bank/Binaryen-WASM/wasm-debug.cpp:709-711 | A row at an expression's start goes to its new start |
| AddressMaps.LineOfFuncEnd | bank/Binaryen-WASM/wasm-debug.cpp:712-717 | A row at a function's end or end opcode, where no expression starts, goes to its new one, even if another function starts there |
| AddressMaps.LineOfFuncStart | bank/Binaryen-WASM/wasm-debug.cpp:718-719 | A row at a function's start or declarations, where no expression starts and no function ends, goes to the new ones, even if a delimiter is there |
| AddressMaps.LineOfDelimiter | bank/Binaryen-WASM/wasm-debug.cpp:720-721 | A row at a delimiter, where no expression starts and no function starts or ends, goes to the same delimiter, even if an expression ends there |
| AddressMaps.LineOfExprEnd | bank/Binaryen-WASM/wasm-debug.cpp:722-724 | A row where an expression ends and nothing else is goes to its new end |
| AddressMaps.LineOfNothing | bank/Binaryen-WASM/wasm-debug.cpp:707-724 | A row where nothing is goes nowhere |
| AddressMaps.HoldingDescribes | bank/Binaryen-WASM/wasm-debug.cpp:393-444 | Functions that hold just what a layout says, each delimiter under its position, are described by it; so the conditions of these lemmas can be met |
| AddressMaps.UnchangedLayoutKeepsLines | bank/Binaryen-WASM/wasm-debug.cpp:707-724 | When nothing moves, line rows at known addresses stay and all others are dropped |
| AddressMaps.LineTargetsAreKnown | bank/Binaryen-WASM/wasm-debug.cpp:707-724 | Where a line row is moved to is zero or an address at which something starts or ends in the new binary |
| AddressMaps.EndIsPreferredToStart | bank/Binaryen-WASM/wasm-debug.cpp:712-717 | An address that is the end of one function and the start of another goes to the new end of the first as a line row, and to the new start of the second as a start |
| Locations.AddrExprMap.Load | bank/Binaryen-WASM/wasm-debug.cpp:393-402 | Building the three hash maps passes its asserts exactly when starts, ends and delimiters are each distinct over the module, and then the maps index exactly those |
| Locations.AddrExprMap.GetStart | bank/Binaryen-WASM/wasm-debug.cpp:404-410 | A lookup in the start map finds exactly the expression whose span starts there |
| Locations.AddrExprMap.GetEnd | bank/Binaryen-WASM/wasm-debug.cpp:412-418 | A lookup in the end map finds exactly the expression whose span ends there |
| Locations.AddrExprMap.GetDelimiter | bank/Binaryen-WASM/wasm-debug.cpp:420-426 | A lookup in the delimiter map finds exactly the delimiter that is there, with its expression and position |
| Locations.AddrExprMap.AddSpan | bank/Binaryen-WASM/wasm-debug.cpp:429-434 | The two asserts hold exactly when no earlier span has the same start or the same end, and then both are found as well as all earlier ones |
| Locations.AddrExprMap.AddDelimiters | bank/Binaryen-WASM/wasm-debug.cpp:436-444 | Non-zero delimiters are added under their positions; the assert holds exactly when all are new |
| Locations.FuncAddrMap.Load | bank/Binaryen-WASM/wasm-debug.cpp:456-463 | Each key of the two maps holds the last function having that start or declarations, or that end or end opcode, and there are no other keys |
| Locations.FuncAtStart | bank/Binaryen-WASM/wasm-debug.cpp:465-471 | A function is found exactly when one starts or has its declarations there, and then it is such a function |
| Locations.FuncAtEnd | bank/Binaryen-WASM/wasm-debug.cpp:473-479 | A function is found exactly when one ends there or has its end opcode there, and then it is such a function |
| DieRanges.EntryRangeMoves | bank/Binaryen-WASM/wasm-debug.cpp:809-892 | In an updated entry the absolute high address, whether written as such or as an offset from low_pc, is the moved old one, wherever low_pc stands among the attributes |
| DieMeaning.ExpressionIsCovered | bank/Binaryen-WASM/wasm-debug.cpp:828-832 | An entry of an expression tag that covers an expression covers it at its new span, or, when it is removed, nothing |
| DieMeaning.LowOfExpression | bank/Binaryen-WASM/wasm-debug.cpp:828-832 | Its low_pc alone goes with an expression's start |
| DieMeaning.LowOfOther | bank/Binaryen-WASM/wasm-debug.cpp:828-832 | Its low_pc may also be where a function starts or a delimiter is, when no expression starts there, and goes with these |
| DieMeaning.NoExpressionEnds | bank/Binaryen-WASM/wasm-debug.cpp:875-879 | Its high_pc goes to zero where no expression ends, even if a function does |
| DieMeaning.FunctionsAreCovered | bank/Binaryen-WASM/wasm-debug.cpp:833-841 | A subprogram or unit from the start of one function to the end of the same or another one covers the same functions after |
| DieMeaning.NoFunctionThere | bank/Binaryen-WASM/wasm-debug.cpp:880-882 | Its ends go to zero where no function starts or ends, even if an expression does |
| DieMeaning.OtherAttributes | bank/Binaryen-WASM/wasm-debug.cpp:848-856 | A statement list becomes the new offset of its table; no other attribute changes, and none its kind or form |
| DieMeaning.FaultsIff | bank/Binaryen-WASM/wasm-debug.cpp:841-886 | Rewriting fails exactly for an address of a tag that has none, or an unknown line table |
| DieRanges.LowMoves | bank/Binaryen-WASM/wasm-debug.cpp:825-847 | The low addresses the first pass hands on are those a reader finds in the entry before and after it |
| DieRanges.UnitBasesRecorded | bank/Binaryen-WASM/wasm-debug.cpp:833-838 | A compile unit with a low_pc has its old and new base recorded; without one nothing is recorded |
| DieRanges.FirstPass | bank/Binaryen-WASM/wasm-debug.cpp:819-857 | The first traversal changes everything but high_pc in place, hands on the low addresses, and records unit bases and list offsets |
| DieRanges.SecondPass | bank/Binaryen-WASM/wasm-debug.cpp:861-891 | The second traversal changes only high_pc, relative to the low addresses found |
| DieRanges.UpdateDie | bank/Binaryen-WASM/wasm-debug.cpp:809-892 | The two traversals together rewrite each attribute as a function of the original entry, and fail exactly when an attribute has an unknown tag or line table |
| CompileUnits.ListsFollowLowPc | bank/Binaryen-WASM/wasm-debug.cpp:894-930 | Entries and lists together: in lists rewritten after all entries, an entry with no base entry before it is read, before and after, against the low_pc of its unit, before and after |
| CompileUnits.UnitBaseIsLowPc | bank/Binaryen-WASM/wasm-debug.cpp:651-663 | The old and new bases looked up for a list are the old and the rewritten low_pc of the unit whose entry names the list |
| CompileUnits.ListRecorded | bank/Binaryen-WASM/wasm-debug.cpp:852-856 | The unit of a list is that of the last entry that names it |
| CompileUnits.BaseRecorded | bank/Binaryen-WASM/wasm-debug.cpp:833-838 | The bases of a unit are those of its own last entry with a low_pc |
| CompileUnits.NoBaseRecorded | bank/Binaryen-WASM/wasm-debug.cpp:833-838 | A unit without such an entry has no bases |
| CompileUnits.UpdateEntries | bank/Binaryen-WASM/wasm-debug.cpp:894-930 | Every entry is rewritten in its own array, what is recorded accumulates, and the loop fails exactly when some entry does |
| LabelBinding.UniquifyPreservesBinding | bank/Binaryen-WASM/parsing.cpp:130-169 | uniquify succeeds exactly when names are already distinct or every use is in scope; then all scope names of the result are distinct over the whole tree, and it has the same shape with every branch at the same de Bruijn index |
| LabelBinding.UniquifyIsIdempotent | bank/Binaryen-WASM/parsing.cpp:130-137 | A second uniquify changes nothing |
| LabelBinding.RenameBinds | bank/Binaryen-WASM/parsing.cpp:139-168 | From any reachable mapper, walking a subtree succeeds exactly when its uses are in scope, renames its definitions to new distinct names, keeps every target, and leaves the stack as it was |
| LabelBinding.WalkEndsEmpty | bank/Binaryen-WASM/parsing.cpp:139-168 | On a closed tree the walk trips no assert, throws nothing and ends with an empty stack |
| LabelBinding.RunKeepsInv | bank/Binaryen-WASM/parsing.cpp:54-82 | Any sequence of pushes, lookups, and pops by a name that some push gave succeeds exactly when every pop is of the innermost open scope and every use is in scope; it then keeps the mapper's invariant, the stack is the open scopes' names, no name is given twice, and reverse mappings are never lost |
| LabelBinding.RunOfNewMapper | bank/Binaryen-WASM/parsing.cpp:54-82 | So for every run of a new mapper; when all scopes are closed its stack is empty |
| LabelBinding.PushKeepsInv | bank/Binaryen-WASM/parsing.cpp:54-60 | A push keeps the invariant, gives a name never used before, and puts just the new binding on the environment |
| LabelBinding.PopKeepsInv | bank/Binaryen-WASM/parsing.cpp:62-66 | Popping the top name passes the assert, keeps the invariant and removes just that binding |
| LabelBinding.SourceToUniqueBinds | bank/Binaryen-WASM/parsing.cpp:68-82 | A lookup succeeds exactly when the source name is in scope, and gives the unique name of the innermost scope with it |
| LabelBinding.WhichException | bank/Binaryen-WASM/parsing.cpp:68-82 | After any run of a new mapper a lookup out of scope throws for a bad label when the name was never opened, and for a popped one when it was; the delegate target is always itself |
| LabelBinding.NamesGiven | bank/Binaryen-WASM/parsing.cpp:41-60 | A name never given is kept; another gets the first number from the counter on that makes it new, and the counter goes past it |
| LabelBinding.FirstNumbers | bank/Binaryen-WASM/parsing.cpp:41-60 | The second scope of a name gets a zero behind it and the third a one |
| LabelBinding.UniquifiedByNumbers | bank/Binaryen-WASM/parsing.cpp:130-169 | uniquify changes a scope name only by a number behind it |
| LabelBinding.LastIsInnermost | bank/Binaryen-WASM/parsing.cpp:81 | The last of the stacked names for a source name stands exactly as deep as the innermost scope of that name |
| Labels.TakenShrinks | bank/Binaryen-WASM/parsing.cpp:46-51 | Each failed attempt strictly shrinks the set of used names that are still ahead, because numbered names are distinct: the search loop ends |
| Labels.FreeIndex | bank/Binaryen-WASM/parsing.cpp:46-51 | The number found is the least from the counter on whose name is free |
| Labels.UniqueNameMapper.GetPrefixedName | bank/Binaryen-WASM/parsing.cpp:41-52 | The loop gives the name itself when free and otherwise the first free numbered one, and only the counter changes |
| Labels.UniqueNameMapper.PushLabelName | bank/Binaryen-WASM/parsing.cpp:54-60 | The stack and the two maps change in place as the binding lemmas assume |
| Labels.UniqueNameMapper.PopLabelName | bank/Binaryen-WASM/parsing.cpp:62-66 | The name leaves the stack and its source's list, or the assert or the empty list is reported |
| Labels.UniqueNameMapper.FindUnique | bank/Binaryen-WASM/parsing.cpp:68-82 | The delegate target stands for itself; otherwise the latest unique name, or which of the two exceptions is thrown |
| Labels.UniqueNameMapper.Walk | bank/Binaryen-WASM/parsing.cpp:139-168 | The recursive walk with a shared mapper is the renaming the binding lemmas are about |
| Labels.DuplicateNameScanner.Walk | bank/Binaryen-WASM/parsing.cpp:99-126 | The scanner's flag is true exactly when no scope name of the tree is defined twice |
| Labels.Uniquify | bank/Binaryen-WASM/parsing.cpp:130-169 | Scan, and walk only when a name is repeated, as the binding lemmas assume |
| SourceMapLookup.StreamingIsLookup | bank/Binaryen-WASM/source-map.cpp:125-178 | For every well-formed mapping with increasing locations and every list of queries, each answer is the info of the last record at or before the furthest query so far, or none; over the run no more records are decoded than there are |
| SourceMapLookup.OrderedQueriesAreLookups | bank/Binaryen-WASM/source-map.cpp:125-178 | For non-decreasing queries each answer is the lookup of that query itself in the fully decoded table |
| SourceMapLookup.ReadAtIsReached | bank/Binaryen-WASM/source-map.cpp:125-178 | One query decodes exactly the leading records up to the first location beyond it, answers with the last of them, and leaves the rest of the table to be decoded |
| SourceMapLookup.WrittenTableIsLookedUp | bank/Binaryen-WASM/source-map.cpp:114-178 | Any table of increasing locations below 2^64 whose steps have encodings, written as a mapping string with deltas from the initial values of the reader, is looked up correctly by the streaming reader started on it |
| SourceMapLookup.TableReadsBack | bank/Binaryen-WASM/source-map.cpp:127-171 | The records decoded from such a string are the table, with and without debug info and symbols |
| SourceMap.SourceMapReader.ReadDebugLocationAt | bank/Binaryen-WASM/source-map.cpp:125-178 | The loop over the reader's fields gives the answer, the new fields or the exception that the lookup lemmas are about |
| SourceMap.SourceMapReader.ReadOneRecord | bank/Binaryen-WASM/source-map.cpp:128-170 | One pass of the loop body updates the fields as one record's decoding, with either exception |
| SourceMap.FieldFaults | bank/Binaryen-WASM/source-map.cpp:128-156 | The fields of a record are refused exactly for one of their numbers or for a second line after three; otherwise none, three or four are read |
| SourceMap.RecordFaults | bank/Binaryen-WASM/source-map.cpp:158-170 | After its fields a record ends the mappings, or a comma and a location follow, or it is refused for its delimiter |
| SourceMap.StepsWrap | bank/Binaryen-WASM/source-map.cpp:170 | Locations move modulo 2^64, and exactly where they stay in range |
| SourceMap.SourceMapReader.Start | bank/Binaryen-WASM/source-map.cpp:114-123 | An empty mapping leaves no location to reach; otherwise the first one is read |
| SourceMap.SourceMapReader.ReadBase64VLQ | bank/Binaryen-WASM/source-map.cpp:180-204 | The digit loop returns the number and moves the cursor past exactly its digits, or the exception is reported |
| Vlq.VlqRoundTrip | bank/Binaryen-WASM/source-map.cpp:180-204 | The Base64 VLQ encoding of any integer of absolute value at most 2^31-1, anywhere in a string, is read back and exactly its digits are consumed |
| Vlq.VlqStops | bank/Binaryen-WASM/source-map.cpp:191-202 | On any input whatever, what is read is in that range and took at most seven characters, and seven continuation digits are always refused |
| Vlq.VlqFaults | bank/Binaryen-WASM/source-map.cpp:184-202 | A number is refused for its size exactly when seven digits go on, and otherwise exactly when the character after those that do is no Base64 digit |
| Vlq.Alphabet | bank/Binaryen-WASM/source-map.cpp:185-196 | The characters are those of table 1 of RFC 4648 in order; the first 32 end a number and the others go on with the same low bits |
| Vlq.OrIsSum | bank/Binaryen-WASM/source-map.cpp:188 | Or-ing a value below 2^n with a multiple of 2^n is adding them: no bit is lost |
| UmdescFile.ParseFileIffDerives | umdesc/parser.py:31-279 | Tokens parse to a file exactly when some derivation of the whole grammar, with its precedence, parentheses and optional commas, has these tokens and this value |
| UmdescText.TextRoundTrip | umdesc/lexer.py:38-118 | Every well-formed file whose strings can stand between quotes, written as text, is lexed and parsed back to itself |
| UmdescText.ReadTextRoundTrip | umdesc/lexer.py:38-118 | Whatever text is read as a file, writing the file gives a text that is read as the same file |
| UmdescText.SpelledLexes | umdesc/lexer.py:82-114 | Spaced text of tokens is lexed to these tokens: words, decimal numbers, quoted strings, double dots and literals |
| UmdescText.NumberIsWorth | umdesc/lexer.py:93-96 | A number token is worth its digits after 0x in base sixteen, and any other its digits in base ten |
| UmdescText.NumeralWorth | umdesc/lexer.py:95 | A further digit multiplies what is before it by sixteen or by ten and adds its own value |
| UmdescText.HexDigitIs | umdesc/lexer.py:93 | The values of the hexadecimal digits, capital or not |
| UmdescText.StringIsWorth | umdesc/lexer.py:98-103 | A string loses the backslash before each quote, and nothing else |
| UmdescText.LexedIsSpellable | umdesc/lexer.py:98-103 | Whatever is lexed can be written: a string token, quoted again, ends where its quote is |
| UmdescText.TokensRoundTrip | umdesc/lexer.py:82-114 | The tokens of any text, written as spaced text, are lexed again |
| UmdescText.FileSpellable | umdesc/parser.py:207-213 | The tokens of a derivation can be written exactly when the strings of its syntax and image attributes can be quoted |
| UmdescPrinter.FileRoundTrip | umdesc/parser.py:31-279 | Every well-formed file, printed as tokens with the fewest parentheses and with keywords allowed in name slots, parses to itself |
| UmdescPrinter.ParsedRoundTrip | umdesc/parser.py:31-279 | Whatever parses is well formed, so that printing and parsing it gives the same file |
| UmdescFile.StatementsByWord | umdesc/parser.py:83-97 | The word size and endianness statements by their words |
| UmdescFile.AliasByWord | umdesc/parser.py:99-101 | The alias statement by its word |
| UmdescFile.RegisterByWord | umdesc/parser.py:103-110 | The register statement by its word, without names |
| UmdescFile.ListsByWord | umdesc/parser.py:129-177 | The format, mode and op statements by their words, with empty lists |
| UmdescFile.AttributesByWord | umdesc/parser.py:207-217 | The three attributes by their words |
| UmdescFile.DeclarationByWord | umdesc/parser.py:43-63 | A declaration by its word; exactly the thirteen keywords cannot stand in its name |
| UmdescFile.ArchStmtReadsBack | umdesc/parser.py:83-177 | Each derivation of an architecture statement, before any tokens, parses to its value and leaves the rest |
| UmdescFile.StmtReadsBack | umdesc/parser.py:227-257 | So does each derivation of an assignment or a call; they are told apart after a common identifier |
| UmdescFile.NameReadsBack | umdesc/parser.py:49-63 | The parts of a hyphenated name, identifiers and numbers, parse to their joined spelling |
| UmdescFile.ArchStmtSound | umdesc/parser.py:83-177 | Whatever parses as an architecture statement has a derivation with these tokens and this value |
| UmdescPrinter.NameIsSpelled | umdesc/parser.py:49-63 | A well-formed name is taken apart into parts that spell it |
| UmdescExpr.ParseIffDerives | umdesc/parser.py:24-28 | Before any token that cannot go on an expression, parsing gives a derivation exactly when it yields those tokens and respects the declared precedence and left associativity: parsing is sound, complete and unambiguous |
| UmdescExpr.TwoOperators | umdesc/parser.py:24-28 | For operands a, b, c and each of the 25 pairs of operators, which of the two trees is parsed: plus and minus bind tighter than and, that tighter than or and exclusive or, equal ones from the left |
| UmdescExpr.ParseExprIsSound | umdesc/parser.py:260-279 | At every precedence level a parsed derivation yields exactly the tokens consumed, respects the precedence, and stops only where it must |
| UmdescExpr.ParseIsComplete | umdesc/parser.py:260-279 | Every derivation that respects the precedence is found from its own yield |
| UmdescExpr.ExprRoundTrip | umdesc/parser.py:260-279 | Every expression over the five operators, parenthesized by need, parses to itself |
| UmdescExpr.ParenthesizedIsMinimal | umdesc/parser.py:24-28 | No derivation of the same expression uses fewer parentheses |
| UmdescExpr.ParsedInOrder | umdesc/parser.py:272-279 | The tokens consumed, parentheses removed, are the in-order yield of the expression parsed |
| UmdescLexer.CommentEndsIff | umdesc/lexer.py:56-79 | The comment scan stops at a position exactly when it is the first one where openers and closers, read greedily, balance; it fails exactly when there is none |
| UmdescLexer.LinesCounted | umdesc/lexer.py:51-114 | Over a whole text the line counter advances by all its newlines except those inside string literals |
| UmdescLexer.LineCount | umdesc/lexer.py:77-84 | A newline counts as one line and any other character as none, and counts add up |
| UmdescLexer.OneCharacter | umdesc/lexer.py:45-49 | Exactly the three blanks are skipped and exactly the sixteen literals stand for themselves |
| UmdescLexer.CommentsAndLines | umdesc/lexer.py:52-84 | A line comment ends before the end of its line, a block comment where its scan does; newlines go together; a lone slash is refused |
| UmdescLexer.WordsAre | umdesc/lexer.py:109 | A word is the longest run of letters, digits, underscores and dots from a letter or an underscore on |
| UmdescLexer.NumbersAre | umdesc/lexer.py:93-96 | A number is the longest run of hexadecimal digits after 0x, or of decimal ones, refused exactly when it starts with a zero and is not all zeros |
| UmdescLexer.NothingElse | umdesc/lexer.py:88-118 | Two dots are a token and one is refused, as is every other character |
| UmdescLexer.Lexer.SkipBlockComment | umdesc/lexer.py:56-79 | The loop moves the cursor where the scan ends and counts the newlines from the opener on, or raises with the lexer unchanged |
| UmdescLexer.Lexer.Next | umdesc/lexer.py:51-118 | One token moves the cursor past it and the counter by what the line lemma adds up |
| UmdescLexer.Lexer.Tokenize | umdesc/lexer.py:38-118 | Lexing a whole text either raises or ends at its end with the line counter advanced by its newlines, those in string literals excepted |
| Escape.EscapeIsOnePass | bank/Binaryen-WASM/wasm-emscripten.cpp:62-93 | Three rewritings one after another are a single left-to-right one |
| Escape.EscapeByRuns | bank/Binaryen-WASM/wasm-emscripten.cpp:62-93 | What happens depends only on each run of backslashes and the character after it; a quote ends up after an odd run exactly when its run was zero or odd |
| Escape.UnescapeInverts | bank/Binaryen-WASM/wasm-emscripten.cpp:62-93 | There is a left inverse on all strings |
| Escape.EscapeIsInjective | bank/Binaryen-WASM/wasm-emscripten.cpp:62-93 | Different inputs give different results |
| Escape.EvenRunStaysEven | bank/Binaryen-WASM/wasm-emscripten.cpp:77-90 | A string whose quote is still after an even run of backslashes once escaped |
| Escape.EscapeLetter | bank/Binaryen-WASM/wasm-emscripten.cpp:64-73 | Find and replace in place with a skip of three, ending because what is left after the cursor shrinks, is a recursive rewriting |
| Escape.EscapeQuotes | bank/Binaryen-WASM/wasm-emscripten.cpp:74-91 | So is the quote loop, although it looks back at a character it may have written |
| Escape.EscapeCode | bank/Binaryen-WASM/wasm-emscripten.cpp:62-93 | The three loops in order |
| MergeIndex.AddAllDescribes | xtrakt/normalize.py:161-192 | After any sequence of adds there is one record per distinct key in order of first arrival, holding the first arrival and what it absorbed, and a key's conflicts number exactly its later arrivals whose stripped encoding differs |
| MergeIndex.GatheredIsUnion | xtrakt/normalize.py:169-189 | A stored record's encoding never changes, its banks begin with its own and have exactly the members of its contributors', without repetition if it had none, and its semantics are the first that is not empty |
| MergeIndex.GatheredInOrder | xtrakt/normalize.py:174-177 | The stored banks are, in order, the first arrival's and then the first occurrences among all contributors' banks taken one record after the other |
| MergeIndex.UnionWhenNoneOutranks | xtrakt/normalize.py:161-192 | Over any run of adds, when no later record of a key outranks the first one, the stored banks are the ordered duplicate-free union of all of them, the semantics the first that is not empty, and the encoding the first one |
| MergeIndex.UnionInOrder | xtrakt/normalize.py:174-177 | One union appends, in order, the first occurrences among what is new |
| MergeIndex.AllContribute | xtrakt/normalize.py:170-172 | All arrivals contribute exactly when none has higher precedence than the stored record |
| MergeIndex.ConflictsBySpace | xtrakt/normalize.py:180 | Encodings conflict exactly when they differ by more than the white space around them |
| MergeIndex.ConflictIsLogged | xtrakt/normalize.py:169-185 | A conflict is logged with the key and the united banks, the record kept first |
| MergeIndex.EmptySemanticsGiveWay | xtrakt/normalize.py:186-188 | Exactly missing and empty semantics give way to the ones of the other record |
| Strings.StripIs | xtrakt/normalize.py:180 | Stripping takes off exactly the white space at both ends |
| Strings.StripSplits | xtrakt/normalize.py:180 | Every string is its stripped one between white space |
| MergeIndex.AddAllSucceedsIff | xtrakt/normalize.py:161-171 | A sequence of adds raises exactly when a repeated key meets an empty list of banks |
| MergeIndex.HighestPrecedenceIsNotKept | xtrakt/normalize.py:155-167 | Two records of one key, the later of higher precedence: the stored one does not change and the later one is only returned |
| MergeIndex.Merger.Add | xtrakt/normalize.py:161-167 | On shared record objects updated in place, the index, the returned record and the argument are as the sequence lemmas assume, even when the argument is already stored |
| MergeIndex.Merger.Merge | xtrakt/normalize.py:169-189 | Which of the two objects is kept and what it absorbs; the other is unchanged; the conflict log grows by the kept key and banks exactly on differing encodings |
| CirRecord.RecordRoundTrip | xtrakt/cir.py:248-275 | from_doc of to_doc is the record exactly when its nested values hold no tuple and no dict that looks like a bit vector |
| CirRecord.DocumentKeys | xtrakt/cir.py:248-259 | A document has exactly the eighteen keys of a record |
| CirRecord.DocumentFields | xtrakt/cir.py:250-255 | Its two masks are bit vectors or null, and every other base field the document of its value |
| CirRecord.RequiredKeys | xtrakt/cir.py:261-275 | A document without one of the four fields that have no default is refused |
| CirRecord.Defaults | xtrakt/cir.py:261-275 | One with these four only gives the defaults of all others |
| CirRecord.FalseDocuments | xtrakt/cir.py:269-274 | What counts as missing or false, value by value |
| CirRecord.ToDoc | xtrakt/cir.py:248-259 | The loop filling the document gives every base field, masks by their own codec, and the four others |
| Cir.FieldRoundTrip | xtrakt/cir.py:177-194 | A nested value comes back exactly when it holds, at any depth, no tuple and no dict with just the keys width and hex |
| Cir.BitsRoundTrip | xtrakt/cir.py:31-47 | Padded lower-case hex is lossless for every width, zero included |
| Cir.HexDigits | xtrakt/cir.py:43-47 | The text has one lower-case digit for every four bits or part of them, and is a zero for no bits |
| Cir.HexIsRead | xtrakt/cir.py:31-34 | White space, capitals and a prefix are taken, the value is masked to the width, and the width is four bits a digit when none is given |
| Cir.FromHexFails | xtrakt/cir.py:34 | Text with any other character, or none, is refused |
| Cir.BitsByKeys | xtrakt/cir.py:187-189 | A dictionary is taken for a bit vector exactly when its keys are width and hex |
| Prefixes.PrefixRunRestores | bank/BeaEngine-InstrSet/opcodes_prefixes.c:22-207 | After a run of prefixes around an opcode handler that leaves the decoder's fields alone, the repeat flags seen are cleared, the operand size is the one the outermost changing prefix sets, and the address size is restored exactly when no bit was shifted out |
| Prefixes.OnePrefix | bank/BeaEngine-InstrSet/opcodes_prefixes.c:22-207 | For each prefix by its value: the state the handler of the opcode after it finds, and what is changed when that returns |
| Prefixes.PrefixValues | bank/BeaEngine-InstrSet/opcodes_prefixes.c:22-207 | The eleven prefixes by their values, and how each is marked |
| Prefixes.OriginalSizeSaved | bank/BeaEngine-InstrSet/opcodes_prefixes.c:155-170 | The operand size saved in a run is the one before it when 66h came once, and the overridden one when it came again |
| Prefixes.NestIsFold | bank/BeaEngine-InstrSet/opcodes_prefixes.c:22-207 | Nested re-entrant handlers are one fold in, the opcode's handler, and one fold out, for any handler |
| Prefixes.EnterAllState | bank/BeaEngine-InstrSet/opcodes_prefixes.c:22-207 | The opcode's handler starts with EIP and both counters advanced by the length of the run, repeat and FS flags set exactly for their prefixes, and the address size shifted once for each 67h |
| Prefixes.EnterAllMarks | bank/BeaEngine-InstrSet/opcodes_prefixes.c:22-207 | It finds exactly the prefixes of the run marked, each as its handler marks it, and the operand size set by 66h |
| Prefixes.LeaveAllState | bank/BeaEngine-InstrSet/opcodes_prefixes.c:31-206 | Unwinding changes only the repeat flags, the operand size and the address size |
| Prefixes.LeaveAllAddress | bank/BeaEngine-InstrSet/opcodes_prefixes.c:200-205 | Unwinding shifts the address size back once for each 67h |
| Prefixes.ShiftedBack | bank/BeaEngine-InstrSet/opcodes_prefixes.c:191-205 | Shifting a 32-bit value k times one way and k times back restores it exactly when no bit was shifted out, and never gives more |
| Prefixes.Decoder.DispatchByte | bank/BeaEngine-InstrSet/opcodes_prefixes.c:22-207 | Dispatching on a byte changes the shared state as the recursion of the fold lemma says |
| Prefixes.Decoder.HandlePrefix | bank/BeaEngine-InstrSet/opcodes_prefixes.c:22-207 | So does each of the eleven handlers, re-entrant dispatch included |

## Left out

- LLVM's and DWARFYAML's parsing, emission and length computation, copying of sections, dumping and warnings: foreign library and output. Tables, ranges, locations and attributes are arrays and sequences here; the new offsets of line tables are an argument of DieRanges.
- The headers parsing.h, source-map.h, wasm-debug.h and DWARFYAML.h are not part of this model: the counter of the label mapper is unbounded, a source-map location is a 64-bit size_t, the cursor of the source map runs over the string followed by a closing quote, and its initial accumulator values are parameters.
- A delimiter position past the end of a new expression's recorded delimiters is undefined in the source and reads as zero here.
- The line-offset bookkeeping after rewriting (`wasm-debug.cpp:777-790`): it needs the lengths above. The changed address size of units, and entries without an abbreviation declaration, which are skipped. The loops over units and over the entries of each are one loop over entries that carry the number of their unit.
- `LineRange` zero, a division by zero in the source, is excluded by the type of the header field.
- The label tree is a value: walking returns the renamed tree instead of renaming nodes in place, and a node defines at most one scope name. The order is pre-visit, children, visit, post-visit.
- `std::sort` is insertion into a sorted list; on distinct addresses the result is the same (SortedIsUnique).
- `emitDiff` is two methods, one for the position and one for the rest, in the source's order; its unused special-opcode branch is absent.
- JSON handling in `SourceMapReader::parse` and printing of exceptions.
- SLY's tables, regular-expression engine and token loop: the grammar with its precedence and the token rules are modelled, as recursive functions, and the loop over tokens as one method. Lists, left-recursive in the grammar, are sequences; their derivations have the same tokens. Text is written with a space after every token and numbers in decimal. Digits are ASCII only.
- Stripping and lower-casing treat ASCII only; hex text with a sign, underscores, a second prefix or spaces after the prefix, which Python also accepts, is refused.
- `coerce_field`, `_width_of`, `operand_signature`, `Normalizer`, `schema.py` and the pipeline around them: guessing on strings, calls to code outside this model, or easy. A record's dedup key is a function of the fields that come back, so it comes back with them; in the merge index it is an abstract value.
- `StringConstantTracker` in `wasm-emscripten.cpp`: its intermediate representation is outside this model.
- `opcode_map1` and the opcode handlers are one arbitrary function from state to state; `Security` is a bound on EIP; memory is a total function; the fields a handler may hide elsewhere in the decoder are not modelled.
- Values of debug-info entries are 32-bit words, as BinaryLocation is; 64-bit values that the source would truncate do not occur.
- LineMeaning.RewritingKeepsMeaning: for programs that are read plainly, as AgreesIffReadPlainly says when; with fewer sequences, read and written, than identifiers, or else reading fails. The witnesses in LineWitnesses show what happens to others.
- LineRewriting.SortedFirstWinsImage: speaks of the rows as the loop reads them, on every program; LineMeaning.SortedImage of the decoded ones. So does LineRewriting.SurvivorsWin.
- LineRewriting.RewrittenReadsBack: relates the output to the rows collected; LineMeaning.RewritingKeepsMeaning to the input.
- LocMeaning.LocListMeaning: speaks of lists for which the assert does not fail, as LocMeaning.AssertFailsIff says which, and of entries that stay normal after ones that do, as LocMeaning.StructureKept says which.
- AddressMaps.GetNewEndComposes: under the condition that what the end moves to is the same kind of thing in the middle layout; EndsComposeIff shows that it is the exact one.
- SourceMapLookup.StreamingIsLookup: for mappings that decode without exception to increasing locations; ReadDebugLocationAt covers the exceptions.
- SourceMapLookup.WrittenTableIsLookedUp: for steps of at most 2^31-1, so that every delta has an encoding.
- Prefixes.PrefixRunRestores: for opcode handlers that leave the repeat flags and the address size alone; NestIsFold holds for all.
