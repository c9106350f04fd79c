# i3mlOS: a verified model

i3mlOS is a from-scratch kernel whose central mechanisms each make a promise about every input or
every run. This project models six of them and proves those promises.

* **The tool interpreter** (`Leb`, `Wasm*`). Byte strings are executed by a program counter, a label
  stack and a scanner that looks for matching `end` and `else`. The functions of `WasmMachine` are that
  machine; `WasmStructured` is the structured reading of the same instructions as trees, metered the
  same way, and `WasmMeaning` drops the meter (the control part of section 4.4 of the WebAssembly Core
  Specification). `WasmSimulation` shows that machine and trees agree exactly, fuel included, and
  `WasmProgram` that printing, assembling, decoding and running a program is running its trees.
  `WasmLaws` and `WasmNumberLaws` say what the instructions that do not branch promise, and
  `WasmControlLaws` what branches, blocks and calls leave on the stack. `WasmInstance` and `WasmDecoder` are
  the loops of the code, on moving readers and mutable stacks, proved equal to those functions.
* **The journal and its hash** (`Sha256`, `Sha256Laws`, `Journal`). A log of chained records on a device
  that may refuse any operation and may stop after any sector write.
* **Agents and their authority** (`Aman`, `Agents`, `Ledger`, `Consent`, `Scheduling`, `Gate`).
  Capabilities that only narrow, budgets carved down a tree, human answers that are used once, and an
  earliest-deadline scheduler whose agents may call any verb while they run.
* **Memory** (`Frames`, `PageTables`, `Paging`, `Heap`). A frame bitmap, four-level tables with a part
  for user code, and a free list spliced in place.
* **The virtqueue** (`Virtqueue`). Driver and device as two processes over shared rings.
* **The disk image** (`Gpt`, `DiskImage`, `Fat`). A builder and a reader of partition tables, and a file
  system with one file.

`Basics` holds shared arithmetic. A class holds what the source updates in place, and its methods keep
the source's order of steps; ghost fields record histories (every image a disk ever held, every crossing
an agent ever made, every chain ever published) so that statements about whole runs can be made in one
state. Functions say what the methods compute, and the lemmas are about the functions and invariants.

How some things are said:

* A host, a clock and a refusing device are oracles: arbitrary functions of the calls made so far. What
  agent code does in a step is an arbitrary list of verb calls.
* The structured semantics keeps the whole operand stack and unwinds it to a block's height, which is
  what the interpreter does on all trees, also on those a validator would refuse.
* Shifted-in bits that are disjoint are added rather than or-ed. Page-table entries are records of the
  bits the kernel uses, with their 4 KiB-aligned frame address.
* A panic of the source is an error value (`Panics`, or `false` from `FreeFrames`).
* Where the code does not meet a promise, the model keeps the code and proves exactly when it does:
  `DecodeUndoesFinish` (data offsets from 2^31), `BoundedBypass` with `AnswerCostsPlace` and
  `AnswerDefersOverdueAgent` (an overdue agent whose request is answered yes while it runs),
  `MapDevice` with `FarPageTakesPlace` (device addresses from 2^48), `MapYardPage` with
  `DeviceInTheYard` (a page asked for inside a device's 2 MiB page is that device's), `Submit` with
  `OverwritesIff` (more descriptors unread by the device than the table has), `WriteFat32` and `Build`
  (a kernel longer than its partition).
* The builder's FSInfo sector puts its closing signature two bytes before where FAT32 readers expect it;
  the model writes it where the code does.

## Model

| member | source | states |
|---|---|---|
| Leb.UnsignedUndoes | libs/wasm/src/leb.rs:68-93 | For every width and every value that fits it, decoding what the unsigned encoder wrote gives the value back and leaves the reader right behind it, whatever follows |
| Leb.U32Undoes | libs/wasm/src/leb.rs:125-127 | The same for every u32 index |
| Leb.SignedUndoes | libs/wasm/src/leb.rs:96-123 | For every width from 1 to 64 and every value in its signed range, decoding inverts the signed encoder, sign extension and the 64-bit wrap included |
| Leb.I32Undoes | libs/wasm/src/leb.rs:96-123 | Round trip for every i32 |
| Leb.I64Undoes | libs/wasm/src/leb.rs:96-123 | Round trip for every i64, where the last byte carries a single value bit |
| Leb.NarrowRead | libs/wasm/src/leb.rs:96-123 | Both stop after five bytes: a 32-bit read is the 35-bit read when its value fits 32 bits, and is refused exactly when it does not |
| Leb.I32Refuses | libs/wasm/src/leb.rs:96-123 | An unsigned number from 2^31 up, printed as a signed 64-bit one, is never accepted where an i32 is read |
| Leb.BuildUnsigned | host/wasm/wasmgen.py:8-16 | The shifting loop of the shipped encoder produces exactly the recursive encoding the round trips are about |
| Leb.BuildSigned | libs/wasm/src/lib.rs:76-88 | The same for the signed encoder |
| Leb.Reader.ReadUnsigned | libs/wasm/src/leb.rs:68-93 | The cursor loop computes the decoding function, and moves past the number only when it succeeds in reading it |
| Leb.Reader.ReadSigned | libs/wasm/src/leb.rs:96-123 | The same for signed numbers, with the source's wrapping shift and range check |
| Leb.Reader.ReadSlice | libs/wasm/src/leb.rs:60-66 | A slice is exactly the next bytes, or truncated with the cursor in place |
| WasmSyntax.SameWidth | libs/wasm/src/exec.rs:543-602 | Interpreter and scanner consume the same immediates for every implemented opcode, on arbitrary bytes, so an immediate that looks like `end` or `else` is never taken for one |
| WasmSimulation.ScanStepsOverCode | libs/wasm/src/exec.rs:543-602 | The scanner crosses any printed instruction sequence, blocks nested to any depth, to exactly its end, paying one unit of fuel per step, with its depth counter restored |
| WasmSimulation.FindsMatchingEnd | libs/wasm/src/exec.rs:527-541 | From just past a block header the searches stop just past the matching `end`, report only the block's own `else`, and cost exactly the steps counted in the tree, or run out of fuel |
| WasmSimulation.BranchLeaves | libs/wasm/src/exec.rs:266-288 | At the border of a block a branch lands on that block's label, leaving the operands that `BranchKeepsItsValue` and `BlockKeepsItsValue` say, or carries on outward through the enclosing labels |
| WasmControlLaws.BranchKeepsItsValue | libs/wasm/src/exec.rs:273-287 | A taken branch to a label that gives a value, from base, anything, and a value on top, leaves exactly base and that value; to a block without one, or to a loop, exactly base; labels inside are dropped and a loop keeps its own; a stack no higher than the label stays |
| WasmControlLaws.BlockKeepsItsValue | libs/wasm/src/exec.rs:259-288 | A block means its body: falling out, returning and trapping pass through, a branch to it leaves the operands of its entry and the value it gives, a branch further out loses one level |
| WasmControlLaws.IfIsTheChosenBlock | libs/wasm/src/exec.rs:225-258 | An `if` is the block of the arm its condition picks, on the operands below the condition; nothing without an arm to pick, a fault without a condition |
| WasmControlLaws.LoopStartsAgain | libs/wasm/src/exec.rs:218-287 | A branch to a loop is the loop once more from the operands of its entry; any other end of its body is its end |
| WasmControlLaws.CallTakesItsArguments | libs/wasm/src/exec.rs:290-304 | A call takes as many operands as the type its callee is declared with has parameters, in order, faults with fewer, and leaves what is below with the result on top |
| WasmControlLaws.CallRunsItsBody | libs/wasm/src/exec.rs:154-173 | A function starts with its arguments in order, then a zero of each declared type, and no operands; what it gives back is its top operand if its type has a result |
| WasmControlLaws.CodeLeavesTheRest | libs/wasm/src/exec.rs:193-521 | Locality: whatever code means on a stack, short of a trap, it means above any further operands too, through blocks, loops, branches and calls, and leaves those as they were |
| WasmControlLaws.UnsupportedIff | libs/wasm/src/exec.rs:205-518 | An opcode is refused as unsupported exactly when the interpreter has no instruction for it or it opens a block of an unknown type |
| WasmControlLaws.ScannerPasses | libs/wasm/src/exec.rs:578-600 | The scanner steps over whole encodings of indices and memory arguments, also of instructions the interpreter lacks, and stops at a branch table |
| WasmControlLaws.Ceilings | libs/wasm/src/exec.rs:75-81 | 256 operands and 256 labels run on, one more stops the run after it has paid; 32 frames are allowed and the next call does nothing |
| WasmSimulation.RunsLoop | libs/wasm/src/exec.rs:212-249 | Running a loop's bytes by jumping back to its header is running the loop tree, fuel included |
| WasmSimulation.RunsIf | libs/wasm/src/exec.rs:225-258 | An `if` run by scanning for its arms, closing the label at `else`, is the conditional of the tree |
| WasmSimulation.RunsCode | libs/wasm/src/exec.rs:193-521 | From any machine state, running the printed bytes of a code tree with the label stack gives the same result, operands, locals, memory, host trace and remaining fuel as evaluating the tree |
| WasmSimulation.RunsCall | libs/wasm/src/exec.rs:141-173 | The same for a whole call at any frame depth, through nested calls and imports: bytes and trees agree exactly, down to the fuel left over |
| WasmMeaning.MeanCallGrows | libs/wasm/src/exec.rs:141-521 | The meter-free meaning of a call, once it exists, does not depend on how far the recursion is unrolled |
| WasmMeaning.EvalCallMeans | libs/wasm/src/exec.rs:194-197 | Erasing the meter: a metered run that is not stopped by fuel or a ceiling ends in the meaning of the trees |
| WasmMeaning.CallFinishes | libs/wasm/src/exec.rs:141-521 | If the trees mean something there is a cost such that every run with at least that much fuel arrives there with exactly that much less, or overflows a stack |
| WasmProgram.CodeParses | libs/wasm/src/lib.rs:156-169 | A printed code tree parses back, in place, with every block closed where it was printed |
| WasmProgram.SpelledRunsAsMeant | libs/wasm/src/exec.rs:131-173 | For any module whose bodies spell code trees: every run is stopped by the meter or ends in the meaning, and every meaning is reached with enough fuel |
| WasmProgram.MeaningIsUnique | libs/wasm/src/exec.rs:141-521 | A call has at most one meaning |
| WasmProgram.AssembledRunsAsMeant | libs/wasm/src/lib.rs:110-221 | End to end: print a structured program, assemble and decode the module, run any function on any host and any fuel; the outcome is what the trees mean unless the meter stopped it |
| WasmInstance.FetchOp | libs/wasm/src/exec.rs:205-521 | Reading one instruction with the moving reader agrees with the pure fetch, and malformed immediates are traps |
| WasmInstance.SkipImmediates | libs/wasm/src/exec.rs:566-600 | The scanner's own skipping of immediates agrees with the pure one |
| WasmInstance.LoadMemory | libs/wasm/src/exec.rs:104-117 | The instance is refused exactly when a segment does not fit; otherwise each byte of memory is that of the last segment covering it, and 0 if none does |
| WasmInstance.Instance.ScanBlock | libs/wasm/src/exec.rs:543-602 | The scan loop terminates on all bytes, computes the scan function, and each step burns one unit of fuel |
| WasmInstance.Instance.EnterBlock | libs/wasm/src/exec.rs:212-249 | Opening a block, loop or `if`: target, label height, condition, and the jump over an untaken arm |
| WasmInstance.Instance.Branch | libs/wasm/src/exec.rs:273-287 | Branching on the mutable stacks is the taken branch of the machine: what was below the label stays, with the value of a block that gives one on top, and the reader is at the target |
| WasmInstance.Instance.Turn | libs/wasm/src/exec.rs:193-521 | One turn of the loop, on the real reader, stacks and memory, is one step of the machine |
| WasmInstance.Instance.Execute | libs/wasm/src/exec.rs:175-521 | The dispatch loop terminates for all bytes and hosts that return, computes the machine's run, and keeps operands and labels within MAX_STACK + 1 |
| WasmInstance.Instance.CallFunction | libs/wasm/src/exec.rs:141-173 | Recursion through calls is bounded by fuel; dispatches plus scanner steps equal the fuel burned; host calls are at most the dispatches; frames never exceed MAX_FRAMES |
| WasmInstance.Instance.CallExport | libs/wasm/src/exec.rs:131-139 | The first export of a name is called; the whole call obeys the same accounting, whatever the bytes |
| WasmLaws.StoreChangesOnlyItsBytes | libs/wasm/src/exec.rs:356-369 | A store traps exactly when its address wraps or its bytes leave memory; otherwise it changes no other byte |
| WasmLaws.LoadReadsStore | libs/wasm/src/exec.rs:332-369 | A 32-bit load reads back what a store left at the same address, at any alignment |
| WasmLaws.NarrowLoadsHaveNoSign | libs/wasm/src/exec.rs:332-355 | Byte and half-word loads are unsigned and little-endian |
| WasmLaws.LocalsReadBack | libs/wasm/src/exec.rs:316-329 | Setting or teeing a local is seen by the next get of it and by no other |
| WasmLaws.SelectPicks | libs/wasm/src/exec.rs:309-314 | Of the two operands below the condition `select` leaves the lower one, unless the condition is zero |
| WasmLaws.NegationSwapsChoice | libs/wasm/src/exec.rs:309-314 | Negating the condition with `i32.eqz` and swapping the two operands below it leaves what `select` chooses the same |
| WasmLaws.OperandsSwap | libs/wasm/src/exec.rs:390-503 | Addition, multiplication, the bitwise operations and equality give the same for swapped operands on the stack; each other comparison gives what its converse gives, in both widths |
| WasmLaws.SubtractionTakesTheTop | libs/wasm/src/exec.rs:432-503 | Adding and then subtracting the same number gives back the lower operand, so subtraction takes the top from what is below it |
| WasmLaws.SubtractionUndoesAddition | libs/wasm/src/exec.rs:432-503 | Addition and subtraction undo each other in both widths, across every wrap |
| WasmLaws.SignedDivision | libs/wasm/src/exec.rs:439-456 | Quotient and remainder make up the dividend, the remainder is small and has its sign; zero traps; the least number by -1 wraps to itself with remainder 0 |
| WasmLaws.UnsignedDivision | libs/wasm/src/exec.rs:445-462 | The same law on the unsigned readings |
| WasmLaws.ComparisonsAreOrders | libs/wasm/src/exec.rs:390-430 | The 32-bit comparisons: equality and less-than are those of the numbers, the others their denials and converses; the unsigned order differs exactly by sign |
| WasmLaws.ComparisonsAreOrders64 | libs/wasm/src/exec.rs:413-430 | The same for the 64-bit comparisons |
| WasmLaws.WidthsConvert | libs/wasm/src/exec.rs:45-58 | An operand of the other width is read as the conversion instructions would leave it: cut to its low half, or widened with its sign |
| WasmLaws.ByteLoadReadsByteStore | libs/wasm/src/exec.rs:332-369 | A byte store keeps the lowest eight bits, and a byte load reads them back as a number below 256 |
| WasmLaws.SizeIsInPages | libs/wasm/src/exec.rs:370-373 | Memory size counts pages of 64 KiB |
| WasmLaws.ConstantsAndDrop | libs/wasm/src/exec.rs:205-208 | Constants push themselves, `drop` undoes a push, `nop` nothing, `unreachable` faults, and so do locals that are not there and instructions without their operand |
| WasmNumberLaws.TwoOperands | libs/wasm/src/exec.rs:390-503 | Every comparison and arithmetic instruction takes the two operands on top, the right one last, and leaves one value or its trap above the untouched rest |
| WasmNumberLaws.ZeroTestsCompare | libs/wasm/src/exec.rs:386-412 | Both zero tests are the equality tests against zero; too few operands fault |
| WasmNumberLaws.MultiplicationRepeatsAddition | libs/wasm/src/exec.rs:438-480 | Multiplying by 0 gives 0, and by b + 1 the addition instruction applied to multiplying by b, in both widths and across every wrap |
| WasmNumberLaws.BitwiseBitByBit32 | libs/wasm/src/exec.rs:463-465 | Bit k of what `and`, `or` and `xor` leave is the conjunction, disjunction and difference of the two bits k |
| WasmNumberLaws.BitwiseBitByBit64 | libs/wasm/src/exec.rs:493-495 | The same for 64 bits |
| WasmNumberLaws.LeftShiftsDouble32 | libs/wasm/src/exec.rs:466 | A left shift by a masked count of 0 is nothing, and by one more is the shifted value added to itself |
| WasmNumberLaws.LeftShiftsDouble64 | libs/wasm/src/exec.rs:496 | The same for 64 bits |
| WasmNumberLaws.ShiftsDivide64 | libs/wasm/src/exec.rs:497-498 | The 64-bit right shifts divide by a power of two, rounding down, with or without the sign |
| WasmNumberLaws.SignedDivision64 | libs/wasm/src/exec.rs:481-486 | 64-bit division goes toward zero, traps on zero, and wraps for the least number by -1 |
| WasmNumberLaws.UnsignedDivision64 | libs/wasm/src/exec.rs:487-492 | The unsigned one, on the unsigned readings |
| WasmLaws.NarrowingUndoesWidening | libs/wasm/src/exec.rs:505-516 | Wrapping undoes both extensions; the signed one keeps the value, the unsigned one the bits |
| WasmLaws.ShiftsDivide | libs/wasm/src/exec.rs:466-468 | Right shifts by the masked count divide by a power of two, rounding down, with or without the sign |
| WasmModule.SectionsKeepOrder | libs/wasm/src/module.rs:122-193 | Sections accepted in order fill each vector at most once, so repetition cannot multiply a ceiling |
| WasmModule.AcceptedIsBounded | libs/wasm/src/module.rs:109-193 | Every accepted module respects every ceiling, has types of at most one result, and keeps every body range inside the bytes |
| WasmNames.Utf8Iff | libs/wasm/src/leb.rs:134-138 | A name is accepted exactly when its bytes are the UTF-8 encoding of some sequence of Unicode scalar values |
| WasmDecoder.ReadSections | libs/wasm/src/module.rs:130-193 | The section loop over the moving reader computes the section decoder, including order, length and trailing-byte errors |
| WasmDecoder.ReadBodies | libs/wasm/src/module.rs:283-316 | Code bodies: counts must agree with the function section, locals are expanded under their ceiling, ranges are exact |
| WasmDecoder.ReadData | libs/wasm/src/module.rs:318-341 | Data segments with their offset expressions, or the first error met |
| WasmDecoder.DecodeModule | libs/wasm/src/module.rs:122-193 | `Module::decode` computes the decoding function on all byte strings, and what it accepts is within the ceilings |
| WasmAssembler.BodyUndoes | libs/wasm/src/lib.rs:156-169 | A printed body decodes to its expanded locals and to exactly the range of its code and `end` |
| WasmAssembler.VectorUndoes | libs/wasm/src/lib.rs:97-103 | Decoding a vector inverts printing it whenever decoding an item inverts printing an item |
| WasmAssembler.SectionUndoes | libs/wasm/src/lib.rs:90-95 | A section header decodes to its identity and to exactly its payload |
| WasmAssembler.DecodeUndoesFinish | libs/wasm/src/lib.rs:178-221 | An assembled module within the ceilings decodes if and only if all its data offsets are below 2^31, and then its types, imports, exports, memory, data, locals and exact code ranges come back; otherwise the whole module is malformed |
| WasmAssembler.SegmentUndoes | libs/wasm/src/lib.rs:202-217 | A data segment comes back exactly when its offset is below 2^31: the assembler takes a u32 and prints it as a signed 64-bit number, the decoder reads an i32 |
| WasmAssembler.FarDataSection | libs/wasm/src/lib.rs:202-217 | One offset from 2^31 up, wherever among the segments, makes the section loop fail |
| Sha256.PaddingIsLeast | libs/sha256/src/lib.rs:79-110 | The padding chosen is the shortest that fills whole blocks with room for the length (section 5.1.1 of FIPS 180-4) |
| Sha256.CompressBlock | libs/sha256/src/lib.rs:112-153 | The in-place schedule array and eight working variables compute the compression of one block, which `ScheduleLooksBack`, `RoundsRemember` and `BlockAdds` say a second time (section 6.2.2 of FIPS 180-4) |
| Sha256Laws.ConstantsAreCubeRoots | libs/sha256/src/lib.rs:20-29 | Each round constant is the first 32 bits of the fraction of the cube root of its prime, by integer bounds (section 4.2.2 of FIPS 180-4) |
| Sha256Laws.InitialStateIsSquareRoots | libs/sha256/src/lib.rs:31-33 | The state starts as the fractions of the square roots of the first eight primes (section 5.3.3) |
| Sha256Laws.ChooseSelects | libs/sha256/src/lib.rs:131 | Where the first word has a one the choice is the second, elsewhere the third |
| Sha256Laws.MajorityVotes | libs/sha256/src/lib.rs:138 | Where the first two words agree the majority is what they agree on, elsewhere the third decides |
| Sha256Laws.BigSigma0Mixes | libs/sha256/src/lib.rs:137 | Bit k is the parity of bits k + 2, k + 13 and k + 22 of the word, going round |
| Sha256Laws.BigSigma1Mixes | libs/sha256/src/lib.rs:130 | Bit k is the parity of bits k + 6, k + 11 and k + 25, going round |
| Sha256Laws.SmallSigma0Mixes | libs/sha256/src/lib.rs:120 | Bit k is the parity of bits k + 7 and k + 18, going round, and of bit k + 3 if there is one |
| Sha256Laws.SmallSigma1Mixes | libs/sha256/src/lib.rs:121 | Bit k is the parity of bits k + 17 and k + 19, going round, and of bit k + 10 if there is one |
| Sha256Laws.RoundsRemember | libs/sha256/src/lib.rs:128-149 | The eight working variables after any number of rounds are the last four values of two registers that look back over four values each, every sum taken once |
| Sha256Laws.ScheduleLooksBack | libs/sha256/src/lib.rs:113-126 | The schedule is the block's sixteen big-endian words, then each word the sum over those 16, 15, 7 and 2 back |
| Sha256Laws.BlockAdds | libs/sha256/src/lib.rs:150-152 | A block adds the last values of the two registers to the state, word by word modulo 2^32 |
| Sha256Laws.PaddedSaysLength | libs/sha256/src/lib.rs:79-87 | The padded message is the message, a one bit, zeros, and as its last eight bytes the length in bits, big-endian modulo 2^64 |
| Sha256Laws.DigestIsState | libs/sha256/src/lib.rs:105-109 | The digest is the eight words of the state in order, each with its most significant byte first |
| Sha256.Hasher.Update | libs/sha256/src/lib.rs:53-77 | However a message is cut, after each piece state and buffer stand for the whole message so far; all buffer indices stay in range |
| Sha256.Hasher.Finish | libs/sha256/src/lib.rs:79-110 | In both padding cases the result is the fold of the compression over the padded blocks |
| Sha256.Digest | libs/sha256/src/lib.rs:156-160 | The one-shot digest is the hash |
| Sha256.DigestPieces | libs/sha256/src/lib.rs:53-110 | Any sequence of pieces gives the hash of their concatenation |
| Journal.DecodesBack | libs/journal/src/lib.rs:83-135 | Seventy-two field bytes and a hash decode to the record and that hash, whatever the unused bytes hold |
| Journal.RecordLayout | libs/journal/src/lib.rs:83-111 | Where each field of a stored record is, numbers little-endian, with the hash over the previous hash and the first 72 bytes behind them |
| Journal.FieldsDetermineRecord | libs/journal/src/lib.rs:83-94 | The hashed bytes determine the record |
| Journal.SuperblockDecodesBack | libs/journal/src/lib.rs:145-160 | The superblock round trip |
| Journal.SuperblockLayout | libs/journal/src/lib.rs:145-152 | Sector 0 is the eight letters of the format's name, the count little-endian, the tip, and zeros |
| Journal.RecordCapacity | libs/journal/src/lib.rs:283-288 | Every record under the capacity has a sector on the disk, and short of 2^20 records the next one has none, so no slot is left unused |
| Journal.WalkFollowsLog | libs/journal/src/lib.rs:205-217 | On an image that holds a log, the verification loop accepts every link and returns the chain's tip |
| Journal.RecoverableOpens | libs/journal/src/lib.rs:194-218 | An image whose superblock vouches for a prefix of the log verifies, to a prefix that contains everything promised, and each record reads back |
| Journal.SlotWriteKeepsOthers | libs/journal/src/lib.rs:240-251 | Rewriting a shared sector leaves every other slot's record unchanged |
| Journal.SlotWriteExtends | libs/journal/src/lib.rs:233-252 | The record write extends what the image holds and loses nothing it could be recovered to |
| Journal.SuperblockCommits | libs/journal/src/lib.rs:272-280 | Writing the superblock turns the whole log into what is promised |
| Journal.ChainsAgree | libs/journal/src/lib.rs:95-103 | Two logs with one tip are one log, or a collision or a preimage of the zero hash is handed over, by backward induction and for unequal lengths too |
| Journal.VerifiedHoldsLog | libs/journal/src/lib.rs:194-218 | Whatever image verifies holds a log of exactly that count and tip |
| Journal.TamperEvidence | libs/journal/src/lib.rs:194-218 | Two disks accepted under one tip hold the same records, or the proof exhibits a SHA-256 collision or a preimage of the all-zero hash |
| Journal.LoadRecord | libs/journal/src/lib.rs:290-299 | Reading one slot off a device that may refuse |
| Journal.HashRecord | libs/journal/src/lib.rs:95-103 | The record hash runs the streaming hasher over the previous hash and the fields |
| Journal.Journal.Create | libs/journal/src/lib.rs:185-190 | A created journal is valid and empty; a refused write leaves the disk alone |
| Journal.Journal.Open | libs/journal/src/lib.rs:194-218 | Opening succeeds exactly when the whole chain verifies and no read is refused; what opens is a valid journal |
| Journal.Journal.StoreRecord | libs/journal/src/lib.rs:237-252 | Read-modify-write of one sector: the slot gets the encoded record and the other slots of the sector survive |
| Journal.Journal.Append | libs/journal/src/lib.rs:233-257 | With any read or write refused: full exactly when the log has 2^20 records or four in every sector behind the first, and then unchanged; acknowledged exactly when both writes happened; otherwise the log keeps or gains the record and nothing acknowledged is lost; every image written on the way stays recoverable |
| Journal.Journal.WriteSuperblock | libs/journal/src/lib.rs:272-280 | The committing write, or a log that is longer than the disk admits |
| Journal.Journal.AppendAll | libs/journal/src/lib.rs:233-257 | Any run of appends: the log gains a selection of the records in order, and every acknowledged one is in it, below the acknowledged count, in order |
| Journal.Journal.CrashSafety | libs/journal/src/lib.rs:194-299 | Stop after any sector write of any run: the image opens, to a prefix of the log with everything acknowledged by then, and each record reads back |
| Journal.Journal.ReadBack | libs/journal/src/lib.rs:259-265 | `read(i)` is the i-th record of the log, or the error the source names |
| Aman.WithinIsContainment | nawa/aman/src/lib.rs:65-71 | The byte-level prefix test is containment of path components: `/inbox-archive` is not inside `/inbox`, and a trailing slash asks for something below |
| Aman.SubsetIsInclusion | nawa/aman/src/lib.rs:122-141 | `is_subset_of` holds if and only if every action the child permits is permitted by the parent |
| Aman.RiskIsWhatIsPermitted | nawa/aman/src/lib.rs:106-119 | An authority is irreversible exactly when it permits sending or paying |
| Aman.NarrowingNeverRaisesRisk | nawa/aman/src/lib.rs:106-141 | Whatever permits no more is no riskier, so narrowing never escapes a consent |
| Aman.LineageAttenuates | nawa/aman/src/lib.rs:157-164 | In every reachable table each slot is contained in each of its ancestors up to its mint, and shares their revocation |
| Aman.AuthorizedByLineage | nawa/aman/src/lib.rs:310-328 | What is authorized is held by the agent and permitted by every ancestor, and none of them is revoked |
| Aman.AuthorizedIff | nawa/aman/src/lib.rs:310-328 | Exactly the holder of an unrevoked capability may exercise it, with a yes where it permits sending or paying; the refusals are told apart in the source's order |
| Aman.WordsTellKinds | nawa/aman/src/lib.rs:361-374 | The kernel's words for two authorities agree exactly when they are of one kind, so they never hide a higher risk |
| Aman.RevocationRefusesDescendants | nawa/aman/src/lib.rs:341-359 | After a revocation every descendant is refused, and every other capability is answered as before |
| Aman.Table.Mint | nawa/aman/src/lib.rs:180-188 | Root authority enters as a new slot without a parent |
| Aman.Table.Attenuate | nawa/aman/src/lib.rs:217-245 | A narrower slot for the same holder, or the denial and no change |
| Aman.Table.Delegate | nawa/aman/src/lib.rs:271-302 | A narrower slot for the child, or the denial and no change; it answers exactly as `can_delegate` does, so it cannot fail after a yes |
| Aman.Table.RevokeTree | nawa/aman/src/lib.rs:341-359 | One forward pass revokes exactly what was revoked before and all descendants, and returns how many are new |
| Agents.Carve | nawa/gate/src/acb.rs:58-71 | A share is carved exactly when both resources cover it, and what parent and child have left adds up to what the parent had |
| Agents.Earliest | nawa/gate/src/lib.rs:552-562 | The choice is runnable with money and time left, of least deadline among all agents like that, the first among equals; none exactly when there is no such agent |
| Agents.ReadyIff | nawa/gate/src/acb.rs:47-50 | Ready is exactly: runnable, spent below the grant, and used below the limit where time is limited |
| Scheduling.DeadlineMovesIff | nawa/gate/src/lib.rs:411-516 | Over any stretch of verbs and steps the deadline of an overdue agent moves if and only if it was reset, by a yes it was waiting for or by its own step, and then it is no longer overdue |
| Scheduling.OnlyYesMovesOthers | nawa/gate/src/lib.rs:411-416 | In another agent's turn an overdue agent's deadline moves if and only if a yes reaches it for a request it is waiting for; if no request of its own is newly answered yes, it stays |
| Scheduling.KeepsDeadline | nawa/gate/src/lib.rs:399-549 | While an overdue ready agent is passed over, its deadline stays the same unless a request of its own is answered yes |
| Scheduling.TakesOneStep | nawa/gate/src/lib.rs:468-562 | While an overdue agent is ready and none of its requests is answered yes, no other agent is chosen twice |
| Scheduling.BoundedBypass | nawa/gate/src/lib.rs:468-562 | From an overdue agent being ready and none of its requests being answered yes: it keeps its deadline, each other agent takes at most one step before it, newcomers none, so fewer steps pass than there were agents |
| Ledger.GivenIsReceived | nawa/gate/src/acb.rs:58-71 | Money carved by a subtree is the money granted to accounts funded from it |
| Ledger.SubtreeWithinGrant | nawa/gate/src/acb.rs:26-28 | A delegation subtree's own spending is at most its root's grant plus what the kernel charged its members afterwards |
| Ledger.FundingBalances | nawa/gate/src/lib.rs:148-184 | Carving a funded child keeps every account's spending equal to its own outlay plus what it carved |
| Ledger.ChargingBalances | nawa/gate/src/lib.rs:608-628 | A saturating charge keeps the books balanced and can exceed the grant by no more than the amount charged |
| Ledger.WorkingBalances | nawa/gate/src/lib.rs:487-499 | Booking the time a step took keeps the books balanced, what exceeds the allowance being an overrun |
| Consent.ApprovedRequest | nawa/gate/src/lib.rs:210-228 | `invoke` finds an approval exactly when the very request the agent waits on was answered yes for this agent and capability and is unused |
| Consent.UseKeepsConsent | nawa/gate/src/lib.rs:241-253 | Using up a yes breaks no other agent's wait and no asking rule |
| Consent.UseKeepsHonoured | nawa/gate/src/lib.rs:241-253 | A crossing that uses up a live yes keeps crossings and used requests matched one to one |
| Consent.NewRequestKeepsAsked | nawa/gate/src/lib.rs:350-384 | No agent is asked the same thing twice at once or has more than four questions open |
| Consent.PendingCountCounts | nawa/gate/src/lib.rs:361-366 | What is counted is the set of this agent's unanswered requests, each once |
| Gate.Supervisor.Spawn | nawa/gate/src/lib.rs:95-122 | A new runnable agent due from now, with whatever budget it is given, spent in part or not, and books of its own for money and time |
| Gate.Supervisor.Grant | nawa/gate/src/lib.rs:128-139 | Mints for any holder; the capability is returned only if an agent has room to list it |
| Gate.Supervisor.AttenuateVerb | nawa/gate/src/lib.rs:187-200 | Derives and lists, or denies and changes nothing |
| Gate.Supervisor.DelegateVerb | nawa/gate/src/lib.rs:148-184 | Validated first: an error leaves agents, budgets, books, approvals and the capability table unchanged; success carves both resources, enlists and narrows in one step |
| Gate.Supervisor.HandOver | nawa/gate/src/lib.rs:174-183 | After the checks the last stages cannot fail: the child holds exactly the narrower capability, listed on it |
| Gate.Supervisor.Cross | nawa/gate/src/lib.rs:230-257 | The paying half of a crossing: refused and suspended without budget, or paid, logged, and its yes used up |
| Gate.CrossingPays | nawa/gate/src/lib.rs:230-257 | What a crossing does, field by field: it is counted, costs its price exactly when the grant covers it and else suspends, uses up the awaited request exactly if paid and irreversible, and changes no other agent or request |
| Gate.NarrowerIsNoDearer | nawa/gate/src/lib.rs:266-280 | Permitting less never costs more, and only metered spending has no price |
| Gate.Supervisor.Invoke | nawa/gate/src/lib.rs:208-262 | An irreversible authority crosses only on its own unused yes; the kernel sets the price; a refusal charges nothing |
| Gate.Supervisor.SpendVerb | nawa/gate/src/lib.rs:284-336 | Spending stays under the capability's own ceiling and consumes its yes |
| Gate.Supervisor.RequestApproval | nawa/gate/src/lib.rs:345-390 | Same question, same request; at most four open; the new request is what the agent waits on, described in the kernel's words |
| Gate.Supervisor.AnswerApproval | nawa/gate/src/lib.rs:399-436 | Answers are write-once and touch only the agent parked on that request: a yes makes it due now, which is logged as a reset of its deadline, and a no ends it |
| Gate.AnswerReaches | nawa/gate/src/lib.rs:399-436 | What an answer does to the agent waiting for it, field by field: runnable and due now, or killed and waiting for nothing; no other agent changes |
| Gate.Supervisor.Charge | nawa/gate/src/lib.rs:608-628 | The charge saturates at 64 bits and is booked in full; the agent is suspended exactly if it has now spent its grant or used up its limited time, and nothing else of it or of others changes |
| Gate.Supervisor.Revoke | nawa/aman/src/lib.rs:341-359 | Revocation keeps every gate invariant |
| Gate.Supervisor.Perform | nawa/gate/src/lib.rs:93-436 | Every verb keeps the books balanced, the consents honoured and the lineage narrowing, and moves no deadline but by a yes its agent was waiting for |
| Gate.Supervisor.EndStep | nawa/gate/src/lib.rs:490-536 | After a step the report decides the state unless a suspension or a used-up budget outranks it, an agent that goes on is due one tick behind the clock, and the time it took is charged and booked; all else stays |
| Gate.Supervisor.Step | nawa/gate/src/lib.rs:470-536 | A step of any verb calls is a turn of the scheduler: only the chosen agent's own step ends, charged the time between the clock's two readings, and all other deadlines move by answers alone |
| Gate.Supervisor.RunUntilIdle | nawa/gate/src/lib.rs:468-549 | At every turn the agent chosen is runnable with money and time left and of earliest deadline, while agent code calls any verbs; it stops only at the step limit or when no agent is like that; it counts exactly the finished and failed |
| Gate.Supervisor.SubtreeNeverOverspends | nawa/gate/src/acb.rs:26-28 | In every reachable supervisor: `spent` is own outlay plus carved, and a delegation subtree's own spending never exceeds its root's budget plus later charges |
| Gate.Supervisor.SubtreeNeverOutlasts | nawa/gate/src/acb.rs:52-71 | The same of wall time: under a root of bounded time everyone's time is bounded, and all have worked no longer than the root was allowed plus what each took beyond its share in its last step, since an agent with an overrun is not ready again |
| Gate.Supervisor.IrreversibleNeedsItsOwnYes | nawa/gate/src/lib.rs:31-52 | Behind every irreversible crossing of any run stands one request of that agent for that capability, shown in the words for that authority, answered yes, and used by no other crossing |
| Gate.AnswerCostsPlace | nawa/gate/src/lib.rs:411-416 | For every world: a yes to a ready overdue agent makes it due at the answer's time, so whoever it came before, if due earlier than that, now comes before it |
| Gate.AnswerDefersOverdueAgent | nawa/gate/src/lib.rs:411-416 | So the bound fails without its condition: from a consistent state of three numbered agents, the third asking and still running, an answer in the second agent's step lets the first go twice while the third stays ready and overdue |
| Frames.SettingMarks | nawa/core/src/mem.rs:69-79 | Setting a bit of a bitmap byte marks exactly one frame |
| Frames.BitmapAllocator.constructor | nawa/core/src/mem.rs:46-59 | The frames that hold the bitmap itself start in use, all others free |
| Frames.BitmapAllocator.AllocateContiguous | nawa/core/src/mem.rs:82-106 | None exactly when no run of that many free frames exists anywhere; otherwise the first run from the hint, or the first of all after wrapping once, and only those bits change |
| Frames.BitmapAllocator.FreeFrames | nawa/core/src/mem.rs:119-142 | Returns normally exactly for an aligned, non-empty range inside the region that is all in use, and then frees exactly it; everything else is the panic |
| Frames.FreeUndoesAllocate | nawa/core/src/mem.rs:82-142 | Freeing what was just given restores the bitmap |
| PageTables.TranslationsAreConfined | nawa/core/src/paging.rs:6-14 | Every translation there is: through a 2 MiB page an address leads into that page's home and is the kernel's alone; otherwise it is of a page given to user code, backed by a frame that holds no table |
| PageTables.WalkReadsPath | nawa/core/src/paging.rs:119-157 | An address translates exactly if every entry met on the way is present and the last is a leaf; it is user code's, or writable, exactly if every entry on the way says so; it ends in a 2 MiB page exactly if the last is above the lowest level |
| PageTables.TranslationsPersist | nawa/core/src/paging.rs:63-67 | Changes to other entries leave a translation exactly as it was |
| PageTables.NewTableKeepsShape | nawa/core/src/paging.rs:131-144 | Hanging a fresh table in an absent entry keeps user pages and kernel pages apart |
| PageTables.UserBitKeepsShape | nawa/core/src/paging.rs:138-142 | Marking an entry on the way as user's keeps them apart, as the 2 MiB pages below it have no user bit of their own |
| PageTables.LeafKeepsShape | nawa/core/src/paging.rs:146-156 | Backing a page with a new frame keeps them apart |
| PageTables.HugePageKeepsShape | nawa/core/src/paging.rs:212-217 | Putting a 2 MiB page anywhere, over a table or another page too, keeps them apart and changes nothing outside that page |
| Paging.GibibytesToCover | nawa/core/src/paging.rs:80-89 | The least number of gibibytes, between 4 and 512, that covers the framebuffer and every region one table can span |
| Paging.AddressSpace.AllocateFrame | nawa/core/src/paging.rs:50-57 | A frame just allocated is none of those that hold tables or yard data |
| Paging.AddressSpace.Descend | nawa/core/src/paging.rs:188-210 | One step of a table walk, hanging a table where none is, without disturbing other translations |
| Paging.AddressSpace.Init | nawa/core/src/paging.rs:72-114 | The built map translates exactly the addresses of its gibibytes, each to itself and for the kernel alone, with no user bit at any level and nothing in the yard's slot; it fails only when every frame is in use, and then nothing is switched |
| Paging.AddressSpace.MapYardPage | nawa/core/src/paging.rs:119-157 | For every address outside a 2 MiB page: it translates to the new frame with the user bit and the writability asked for, and all else translates as before or not at all as before. It fails only before bring-up or when every frame is in use. Inside one: exactly the entries on its path get the user bit, frame or no frame, so the page is exposed to user code; with a frame, an entry is also written where the page leads, if a table lies there |
| Paging.AddressSpace.HugeIff | nawa/core/src/paging.rs:131-144 | An address ends in a 2 MiB page if and only if one was mapped for it, which is the condition above |
| Paging.AddressSpace.DeviceInTheYard | nawa/core/src/paging.rs:116-118 | The instance: after registers at the base of the yard have been mapped, asking for a page there gives user code the registers |
| Paging.AddressSpace.FindYardTable | nawa/core/src/paging.rs:131-144 | The three steps down, each marked as user's; where the last meets a 2 MiB page, that page gets the user bit |
| Paging.AddressSpace.MapDevice | nawa/core/src/paging.rs:177-235 | For every address and length it fails only before bring-up, on an empty or overflowing range, or when every frame is in use; each page of the window, uncached, is put where its lower 48 bits say and leads to its own frame; elsewhere what translated does so as before and nothing else does; the window is recorded if there is room; identity survives if and only if the window ends by 2^48, and the yard stays clear if and only if no page mapped has its slot in the lower 48 bits |
| Paging.AddressSpace.FillSlot | nawa/core/src/paging.rs:96-105 | Each page of the identity map leads to itself, and is uncached exactly from 0xf0000000 up |
| Paging.AvoidsYardIff | nawa/core/src/paging.rs:177-188 | For a window below 2^48 that means it lies below the slot or above it |
| Paging.AddressSpace.MapDevicePage | nawa/core/src/paging.rs:189-217 | One page of the loop: entries picked by 48 bits of the address, the whole address written into the last |
| Paging.AddressSpace.UserReachesOnlyTheYard | nawa/core/src/paging.rs:6-14 | In any state in shape user code reaches only pages given to `map_yard_page`, never a frame that holds a page table, and only yard addresses if no user bit is outside the yard's slot |
| Paging.AddressSpace.MapAll | nawa/core/src/paging.rs:116-235 | Any sequence of pages asked for in the yard and devices mapped outside it, each allowed to fail, keeps the tables in shape, every user bit in the yard's slot, and that slot free of 2 MiB pages |
| Paging.AddressSpace.Run | nawa/core/src/paging.rs:6-14 | Isolation of every such run from bring-up on: user code reaches only pages that were asked for, all in the yard, and never a page table; and if every device ends by 2^48, every address that `in_range` accepts means itself |
| Paging.AddressSpace.AcceptedRangesTranslate | nawa/core/src/mmio.rs:15-20 | Every byte of every range that `in_range` accepts, at whatever address, translates by its lower 48 bits, supervisor-only, into its page's home; it is that very byte if and only if the page is its own home |
| Paging.AddressSpace.AcceptedRangesAreIdentity | nawa/core/src/mmio.rs:15-20 | So it translates to itself as long as every window mapped ended by 2^48 |
| Paging.AddressSpace.AcceptedIff | nawa/core/src/mmio.rs:15-20 | A range is accepted exactly if it ends below 2^64 and lies in the identity map or in one recorded window |
| Paging.AddressSpace.MappedDeviceIsAccepted | nawa/core/src/paging.rs:238-245 | Once a device's window is recorded, every part of its registers is accepted |
| Paging.AddressSpace.FarPageTakesPlace | nawa/core/src/paging.rs:188-218 | What is lost otherwise: the page in the lower 48 bits of a mapped page from 2^48 up, if accepted, leads to the device |
| Paging.AddressSpace.AddressZeroIsLost | nawa/core/src/paging.rs:188-218 | For instance, after registers at 2^48 have been mapped, address 0 is accepted and leads to them |
| Heap.PaddingIsWhole | nawa/core/src/heap.rs:49-58 | On the quantum, alignment padding is always 0 or at least 16, so the padding guard is unreachable |
| Heap.EveryByteInOnePiece | nawa/core/src/heap.rs:31-45 | Pieces laid end to end put every byte of the region in exactly one of them |
| Heap.CutTiles | nawa/core/src/heap.rs:90-113 | Cutting a piece in two keeps the tiling |
| Heap.SpliceLinks | nawa/core/src/heap.rs:90-113 | Replacing one block of the linked list by up to two, through the link that led to it, leaves a linked list of exactly those blocks |
| Heap.FreeList.Alloc | nawa/core/src/heap.rs:66-117 | Null exactly when no free block has room for size plus padding; otherwise the first that fits in list order, aligned, not live before, and live after with every other allocation unchanged |
| Heap.FreeList.Take | nawa/core/src/heap.rs:90-114 | The in-place splice: padding and remainder go back into the list, and the rest becomes live |
| Heap.FreeList.Dealloc | nawa/core/src/heap.rs:119-129 | A matched deallocation returns exactly that block |
| Heap.FreeList.Partition | nawa/core/src/heap.rs:31-45 | After any matched run every byte of the heap is in exactly one free block or live allocation |
| Heap.FreeList.LiveAreApart | nawa/core/src/heap.rs:49-58 | Live allocations are 16-aligned, inside the region, and disjoint |
| Virtqueue.WrapKeepsSlot | nawa/virtio/src/queue.rs:112-124 | A 16-bit wrapped index picks the slot the unbounded one would, because the size divides 2^16 |
| Virtqueue.OverwritesIff | nawa/virtio/src/queue.rs:128-151 | A new chain shares a slot with one the device has yet to read if and only if their descriptors and the new ones exceed the table |
| Virtqueue.IntactIff | nawa/virtio/src/queue.rs:134-151 | A chain in the table is intact after another was written if and only if the two want the same in every slot they share |
| Virtqueue.Queue.WriteChain | nawa/virtio/src/queue.rs:132-151 | The loop leaves the whole chain in the table and every slot it does not use as it was |
| Virtqueue.Queue.New | nawa/virtio/src/queue.rs:65-84 | A queue exactly for powers of two up to 128 |
| Virtqueue.Queue.Submit | nawa/virtio/src/queue.rs:128-161 | Refused when empty, too long or broken, and then nothing is written; otherwise published whole; the queue stays in order if and only if the descriptors the device has yet to read and the new ones fit the table and the chains not taken back the used ring; of the chains yet to be read exactly those that agree with the new one stay intact |
| Virtqueue.Queue.DeviceStep | nawa/virtio/src/queue.rs:3-12 | Following the ring and the `next` fields the device reads exactly the buffers the driver submitted, in order, across any number of index wraps (section 2.4 of VirtIO 1.0) |
| Virtqueue.Queue.TakeUsed | nawa/virtio/src/queue.rs:164-174 | Each completion is taken once, oldest first, with its own head and length, and none is missed across wraps |
| Virtqueue.Queue.WaitFor | nawa/virtio/src/queue.rs:184-199 | Success returns the length reported for the oldest outstanding request when that is the one waited for; giving up, or any other completion, breaks the queue |
| Virtqueue.Queue.PublishedIsSeen | nawa/virtio/src/queue.rs:104-118 | The wrapped indices differ exactly when something published is not yet completed |
| Gpt.CrcFromConcat | libs/gpt/src/lib.rs:177-185 | The checksum of a concatenation is the checksum continued |
| Gpt.Crc32.Update | libs/gpt/src/lib.rs:177-185 | After any cuts the register stands for everything fed to it, by the polynomial that `ChecksumChecks` holds for |
| Gpt.Crc32.Finish | libs/gpt/src/lib.rs:187-189 | So the streaming result is the one-shot checksum |
| Gpt.ChecksumChecks | libs/gpt/src/lib.rs:43-54 | For all data, feeding it and then its own checksum, least significant byte first, leaves the register at 0xdebb20e3, the residue of the IEEE 802.3 polynomial |
| Gpt.HeaderAcceptedIff | libs/gpt/src/lib.rs:75-104 | The reader accepts exactly headers with the signature, a size between 92 and a sector, the right checksum with its own field zeroed, and entries of 128 to 4096 bytes, at most 512 of them |
| Gpt.ChecksumArray | libs/gpt/src/lib.rs:131-143 | The sector loop checksums exactly the bytes of the entry array |
| Gpt.Find | libs/gpt/src/lib.rs:108-163 | On a device that refuses nothing it computes the reader's specification; whatever it returns is of the type asked for and inside the disk |
| Gpt.Window.Write | libs/gpt/src/lib.rs:219-221 | A write through a window is a write to a disk of its own, and changes no sector outside the partition |
| Gpt.Window.Read | libs/gpt/src/lib.rs:212-217 | A read past the end is refused, not clamped |
| Gpt.FoundFits | libs/gpt/src/lib.rs:201-205 | A partition that was found fits the disk, so its window does |
| DiskImage.HeaderParsesBack | xtask/src/disk.rs:127-148 | The header the builder writes, checksum included, is the header the reader parses (section 5.3 of the UEFI Specification) |
| DiskImage.HeaderLayout | xtask/src/disk.rs:127-147 | Where the fields the reader does not look at are: signature, revision, both header sectors, the usable range and the disk's GUID |
| DiskImage.EntryLayout | xtask/src/disk.rs:113-125 | Where the fields of an entry are: both GUIDs, the range, no attributes, and 36 units of name filled up with zeros |
| DiskImage.MbrLayout | xtask/src/disk.rs:93-111 | The protective table has one entry of type 0xee from sector 1 to the end of the disk or of 32 bits, and the boot signature |
| DiskImage.BuildEntries | xtask/src/disk.rs:113-125 | The entry array holds each partition in its place and zeros elsewhere |
| DiskImage.DiskBytes.WriteGpt | xtask/src/disk.rs:93-157 | The protective MBR and both copies of the table are on the disk, and nothing between them is touched |
| DiskImage.FindAgreesWithBuilder | xtask/src/disk.rs:93-157 | For up to 128 in-range partitions the reader finds the first of each non-zero type, or none |
| DiskImage.FindAgreesFromBackup | libs/gpt/src/lib.rs:112-124 | The same from the backup when the primary header no longer parses, whatever else is lost before it |
| Fat.RoundsAlternate | xtask/src/disk.rs:167-175 | The sizing step is antitone, so the rounds alternate around the answer |
| Fat.EvenRoundsCover | xtask/src/disk.rs:167-175 | After any even number of rounds the table covers its data clusters, settled or oscillating |
| Fat.OddRoundsMayFallShort | xtask/src/disk.rs:167-175 | After an odd number it need not: for 161 sectors every odd round falls short, and the iteration never settles |
| Fat.SizeFat | xtask/src/disk.rs:164-177 | For every partition of at least 34 sectors the eight rounds fill the partition exactly, with a table that covers all data clusters |
| Fat.BuildFat | xtask/src/disk.rs:228-244 | The table holds the reserved entries, three directories and the chain from cluster 5 |
| Fat.BootLayout | xtask/src/disk.rs:181-216 | The boot sector's fields that firmware checks and the walk does not need: jump, media, position and length of the partition, places of the other two sectors, label and signature |
| Fat.InfoLayout | xtask/src/disk.rs:218-226 | The information sector's signatures and unknown counts, where the code puts them |
| Fat.TypeGuids | xtask/src/disk.rs:13-28 | The two partition types as the numbers their GUIDs are written with |
| Fat.KernelReadsBack | xtask/src/disk.rs:164-281 | Walking from the boot sector through root, EFI, BOOT and the chain, with sector size, cluster size and every position taken from it, yields exactly the kernel |
| Fat.WriteFat32 | xtask/src/disk.rs:164-281 | Too small exactly below 65525 clusters, and otherwise written exactly when the chain fits the table and the bytes the image; the kernel is then on the disk in full, a kernel that fits reads back with both tables and boot sectors right and nothing outside the partition changed, and the rest of one that does not fit is what follows the partition |
| Fat.RoomEnds | xtask/src/disk.rs:249-278 | The room for the kernel ends where the partition does, and a non-empty kernel is longer than that exactly when its clusters do not fit |
| Fat.TableSurvives | xtask/src/disk.rs:284-316 | Writing inside one partition leaves both copies of the table in place |
| Fat.Build | xtask/src/disk.rs:284-316 | An image is built exactly from 50 MiB and up to 96763 kernel clusters; up to 96757 it is bootable, both partitions found and the kernel read back; with more, the journal partition begins with the end of the kernel |

## Left out

- SIJIL's event ring, labels, agent goals, snapshots for reporting and the journaling calls of the gate are not modelled; ghost logs take their place.
- Instruction validation and numeric conformance are not claimed: the interpreter is untyped, and arithmetic follows the code (division of the least integer by -1 wraps).
- Exact rejection of number encodings is not claimed: the decoder accepts a superfluous zero byte, and the tenth byte of a 64-bit signed number keeps only its low bit.
- `manifest`, `Instance::read` and `tool::bind` are lookups and left out.
- Growth of the interpreter's vectors on the kernel heap is not modelled; lengths are bounded by the ceilings proved.
- Record construction from text is left out; records carry a label length of at most 40, as `Record::new` makes them.
- Bytes 22, 23 and 104 to 127 of a journal slot are outside the hash, so journal equality is on decoded records.
- `flush` is not modelled: sector writes are taken to be ordered and all-or-nothing.
- Collision resistance is never assumed; collisions are exhibited.
- A text too long for a scope is refused by `Scope::new`; here a scope is that short by its type.
- Agent identifiers, approval numbers, times, crossing counts and frame addresses are unbounded numbers; money is 64-bit with the source's saturation.
- Budgets and agents are values inside the supervisor's list, replaced rather than edited; aliasing between them does not arise in the source either.
- The supervisor's lock is not modelled: each verb is one step, and the timer hook only counts.
- Terminal agent states are not claimed to be final: an answer makes any parked agent runnable.
- Scheduling.BoundedBypass: says nothing about a run whose clock stands still, because then no deadline ever passes.
- The choice of the largest region from the firmware's memory map is left out; the allocator starts from a region.
- The frame bitmap is an array of its own rather than the first bytes of the region it manages; its frames are marked in use.
- Cache attributes are proved where an entry is written, not over whole runs; flushing the translation cache is not modelled.
- Paging.AddressSpace.Init: is taken once, from the firmware's map, as bring-up does.
- What a write through a device's registers does is not modelled, nor reserved and no-execute bits of an entry: an entry keeps address bits 12 to 51, as the source's mask does.
- Heap.FreeList.Dealloc: requires a pointer that is live and the layout it was allocated with, as the allocator interface does.
- The heap's headers are a map from address to header rather than bytes in the free blocks.
- Memory barriers of the virtqueue are not modelled: steps of driver and device are interleaved, not reordered. The device completes in order.
- What the device makes of a queue whose chains in flight were overwritten is not modelled.
- Gpt.Find: an entry size that makes an entry straddle a sector is reported as `Panics`; a disk that refuses reads may be answered from the backup.
- Fat.WriteFat32: requires at least 34 sectors, below which the size arithmetic underflows, and 28-bit cluster numbers; a kernel of 4 GiB or more has its size field truncated.
- Reading or writing the image file, the firmware's own FAT reader, transport registers, interrupts, screen and console are effects without an algorithm here.
