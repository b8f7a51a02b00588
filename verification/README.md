# m68kdasm in Dafny

A model of the Motorola 68000 disassembler m68kdasm, with proofs about all inputs. It covers the path
from a byte source to a printed, structured instruction:

- the restartable driver: it runs a decoder on a growing buffer, turns every "need more bytes" into a
  refill from a reader that may deliver short, and tries again (`Readers`, `Driver`);
- the sequential disassembly of a byte range (`Ranges`);
- the two-level opcode table (`Dispatch`) and the decoders behind it, methods that fill an instruction
  record (`Decoders`);
- effective addresses (`EffectiveAddresses`), MOVEM register lists (`RegisterLists`, `MaskTexts`) and
  operand text (`Text`), with parsers as their inverses (`EaText`, `OperandTexts`);
- encoders as the inverse of decoding: for addresses and MOVE in closed form (`MoveCodec`), for the opcode
  word of every mnemonic (`Assembler`), and for every instruction in the table (`InstructionCodec`);
- the deep copies a record goes through on its way to the caller, on the heap (`Copies`);
- the opcodes whose text leaves the assembler syntax (`Irregular`).

## How the proofs are organised

Every decoder is a script: demand some bytes, read a field, go on. `Forms` and `InstructionSet` give the
declarative counterpart, the list of fields ("slots") an opcode announces, and `Forms.Interpret` says what
decoding a buffer with such a form means. Each decoder method is proved to refine the form of its opcode:
same record on success, same number of missing bytes and same context on a shortage, same hard error. The laws of
`FormLaws` are proved once for every form by induction over its slots: the outcome class is a threshold on the
number of bytes, success and hard errors are stable when bytes are appended, a shortage names the end of
one field, relocation moves branch targets only. `OpcodeLaws` computes which opcodes are errors and how
long every other instruction is. `FixedOperands` says which operands a decoder can take from the opcode word
alone; the laws about operand texts, empty operands and recorded addresses follow from it.

A form is itself a claim about the code, and a decoder refining a wrong form would say nothing. So what the
forms amount to is stated a second time, from opcode bits and bytes, without them: `TableLaws` which decoder
an opcode has, `InstructionLayout` which fields follow it, how long it is and what it is called,
`OperandMeanings` and `OpcodeOperands` what each operand is and where it stands. Numbers there are
`Words.BigEndian` of their bytes, and sign extension is pinned by residue and range (`Words.Extends`).

`Slices.Slice` is then what decoding a byte slice means. The driver is proved against it for every reader:
whatever the reader does, the result is that of slice decoding on the bytes delivered, each byte of the
instruction is fetched once and in order, none beyond it, and a decoder runs at most three times. Range
disassembly is proved against a recursive listing, and composition, tiling, boundaries and relocation are
inductions over that listing.

Bytes, opcode words and their fields are bit vectors, since the code masks and shifts them. Addresses,
displacements and immediates are bounded integers with explicit wrap-around at 2^32 (`Words.Advance`) and
explicit two's complement (`Words.Signed`). A Go pointer that may be nil is an `Option`, except in
`Copies`, where it is a cell on the heap. A Go error is a `Result` whose error says whether more bytes can
repair it.

## Where the code is not what the manual or the documentation says

The model follows the code.

- Branch targets count from the end of the instruction for all three widths; the M68000 Family
  Programmer's Reference Manual counts from the opcode address plus two, which differs for .W and .L
  (internal/decoders/branch.go:27-43, `Slices.BranchTarget`).
- Absolute short addresses are extended with zeros, not with their sign
  (internal/decoders/addressing.go:114-115, `MoveCodec.DecodesAsEaOf`).
- CMPI.L, ANDI.L, ORI.L and EORI.L read a one-word immediate (internal/decoders/compare.go:76,
  internal/decoders/logical.go:30, `Decoders.DecodeImmediateBinaryOp`).
- The bit operations with the bit number in a register are in the table for D2 only
  (internal/decoders/types.go:48-51, `Dispatch.RegisterBitOpsAreD2Only`).
- The second MOVEM pattern can never match, and the first one serves both directions
  (internal/decoders/types.go:233-234, `Dispatch.SecondMovemPatternIsDead`).
- CMPM is tested before CMPA, so CMPA.L with an address register as source prints as "CMPM.?" with two
  postincrement operands (internal/decoders/compare.go:7-12); `Irregular.CompareMnemonic` says that exactly
  these compares are lost.
- The kind of a register shift is taken from the count field, bits 9 to 11
  (internal/decoders/shift.go:34-40, `Decoders.DecodeShiftRotate`); bits 4 and 3, where the manual has the
  kind, are ignored, as are bits 10 and 9 of a memory shift. `InstructionCodec.OperandsDetermineBytes` says
  that no decoder ignores any other opcode bit.
- MOVEM masks are not reversed for predecrement (internal/decoders/move.go:96,
  `RegisterLists.BitsOfRegisterNames`).
- A register list joins consecutive numbers across the two register files: D0/D1/A2 and D0/A1/A2 both
  print "D0-A2". `RegisterLists.MaskRoundTrip` says for which masks the usual reading of the text, letter of
  the first name and all numbers up to the last, gives the mask back. `MaskTexts.TextIsSharedIff` says for
  which masks any reading can: another mask prints alike exactly when a run crosses from D to A registers and
  goes on before the last D or behind the first A register. D0/A1 crosses, and its "D0-A1" is still its own.
- MOVEM with mode 0 and register 0, where the manual has EXT.W D0 and EXT.L D0, prints an empty operand
  (internal/decoders/move.go:90-95); `Irregular.EmptyOperandIff` says that no other opcode does.
- CMPM, and ABCD and SBCD in their memory form, leave the mode of their structured addresses at 0
  (internal/decoders/compare.go:63-71, internal/decoders/bcd.go:23-31). `OperandTexts.ReadableIff` says that
  these are exactly the opcodes whose operands do not read back from their text, and
  `OperandTexts.OperandsAreReadable` that the mode is all they lose; `Irregular.CmpmLosesMode` is an instance.

## Model

| member | source | states |
|---|---|---|
| Readers.Reader.ReadAtAddress | disasm.go:37-51 | What the driver may rely on in a reader: at most the bytes asked for, those of the memory, with any number of them missing and a failure at any time; an exhaustive reader fails only where the next byte is not mapped |
| Readers.ReadUntil | disasm.go:174-192 | Refilling appends exactly the next bytes of the memory, each fetched once and in order, and asks for nothing at or beyond the wanted length; it fails exactly when the wanted length is not reached, and an exhaustive reader then has no next byte |
| Readers.DeliveredTwice | disasm.go:145-171 | Two refills in a row are one refill: contents, order of fetches and bounds of the requests compose |
| Driver.DecodeInstruction | disasm.go:99-172 | For every reader, with or without short reads and failures, the result is slice decoding of the bytes that ended up in the buffer; the buffer is what was delivered and never exceeds what the opcode needs; at most three decoder calls |
| Driver.Refill | disasm.go:158-170 | After a shortage, a shorter refill leaves the same shortage reduced by what came, and a full one completes at least one more field |
| Driver.DecodeSlice | disasm.go:54-60 | Without a reader the driver is slice decoding |
| Driver.DecodeReader | disasm.go:62-76 | Streaming refines slice decoding: the result, of whatever kind, is that of slice decoding the n bytes fetched, each once and in order; n is what the opcode demands, or less for a partial error, and nothing behind the demand is asked for; a final result is that of every longer window of the memory; an exhaustive reader ends in a partial error only where its memory ends, so with exactly k bytes mapped the result, including have, missing and context, is that of slice decoding those k bytes, and with the demand mapped it is final |
| Driver.NeedIsExact | disasm.go:145-171 | One number of bytes, given by the opcode word, separates partial errors from successes and hard errors; for a success it is the size |
| Driver.DataWord | disasm.go:120-143 | An opcode without decoder yields the DC.W record, metadata included |
| Decoders.SetInstructionSize | internal/decoders/common.go:41-48 | Size and bytes are set together, the extension words follow from the bytes, and bytes are left alone when the buffer is too short |
| Decoders.PopulateMetadata | internal/decoders/types.go:305-326 | The metadata are what `MetadataMeans` says of mnemonic and operands: the branch target is that of the first operand having one, the immediates are those of operands and of their addresses, none left out, in operand order, and the mnemonic is cut at its first point |
| Model.MetadataMeaning | internal/decoders/types.go:305-326 | The collecting functions meet that independent description for every list of operands and every mnemonic |
| Decoders.SetInstruction | internal/decoders/common.go:50-55 | The filled record is the complete instruction over the first `size` bytes |
| Decoders.EaStep | internal/decoders/common.go:61-67 | An effective address decoded inside a longer buffer reads its own extension words and advances behind them, with the missing bytes counted from the end of the whole buffer |
| Decoders.DecodeDirectedBinaryOp | internal/decoders/common.go:69-93 | AND, OR, EOR, ADD, SUB: refines its form; size field 3 is an error, the direction bit swaps the operands |
| Decoders.DecodeAddressRegisterArithmetic | internal/decoders/arithmetic.go:64-84 | ADDA, SUBA, CMPA: refines its form; operand size from the operation mode |
| Decoders.DecodeArithmetic | internal/decoders/arithmetic.go:5-21 | ADD and SUB split on the operation mode as the form does |
| Decoders.DecodeImmediateBinaryOp | internal/decoders/arithmetic.go:35-57 | Immediate then address, each with its own shortage; .L takes two words only where asked to |
| Decoders.DecodeBitset | internal/decoders/bit.go:24-49 | Bit number from a register or from a word of its own, then an address: refines its form |
| Decoders.DecodeEaToRegister | internal/decoders/multiply_divide.go:21-31 | Address then register: refines its form; also LEA and CMP |
| Decoders.DecodeSingleOp | internal/decoders/single_op.go:23-33 | One address: refines its form; also JSR, JMP and PEA |
| Decoders.DecodeMOVE | internal/decoders/move.go:19-72 | Two chained addresses, source at its own size: refines its form in record, shortage and error, MOVEA and its byte-size error included |
| Decoders.DecodeMOVEQ | internal/decoders/move.go:8-14 | Refines its form |
| Decoders.DecodeMOVEM | internal/decoders/move.go:74-104 | Mask word then address, operand order by the direction bit: refines its form |
| Decoders.SetBranch | internal/decoders/branch.go:27-43 | Target is the end of the instruction plus the displacement, mod 2^32 |
| Decoders.DecodeBxx | internal/decoders/branch.go:13-46 | Three displacement widths: refines its form, whose target `Slices.BranchTarget` pins |
| Decoders.DecodeCMP | internal/decoders/compare.go:5-32 | CMPM before CMPA before EOR before CMP: refines its form; the size error is never reached |
| Decoders.DecodeCMPM | internal/decoders/compare.go:56-73 | Refines its form |
| Decoders.DecodeBCD | internal/decoders/bcd.go:13-33 | Register and predecrement variants: refines its form |
| Decoders.DecodeShiftRotate | internal/decoders/shift.go:29-68 | Register and memory shifts split on bits 9 to 11: refines its form |
| Decoders.DecodeSTOP | internal/decoders/special.go:38-46 | Refines its form |
| Decoders.Run | internal/decoders/types.go:201-276 | Every decoder in the table refines the form of its opcode; lengths, field contexts, mnemonics and operands of the forms are pinned by `InstructionLayout`, `OperandMeanings` and `OpcodeOperands` |
| FormLaws.WalkThreshold | internal/decoders/common.go:57-67 | Outcome class and end offset depend on the fields announced and the number of bytes only: below one threshold more bytes are asked for, from there on it is always the same error or the same end |
| FormLaws.WalkShortage | internal/decoders/common.go:148-156 | At least one byte is missing; have plus missing is the end of one field and stays the same, with the same context, until that field is complete; the next shortage is about a later field |
| FormLaws.InterpretStable | internal/decoders/common.go:41-67 | Appending bytes changes neither a success in any field nor a hard error |
| FormLaws.InterpretRelocates | internal/decoders/branch.go:13-53 | Decoding k bytes further moves address, branch targets and their text, and nothing else |
| Forms.InterpretTwo | internal/decoders/move.go:50-64 | Decoding two fields in one go is fetching the first and then the second behind it |
| OpcodeLaws.FaultOfForm | internal/decoders/types.go:201-290 | Through the jump table the error of an opcode is that of its class; the other error branches are unreachable |
| OpcodeLaws.MoveHasSize | internal/decoders/move.go:21-37 | Whatever reaches the MOVE decoder has a size, so the unknown-size error is dead |
| OpcodeLaws.OrHasSize | internal/decoders/common.go:95-106 | Whatever reaches OR has a size: size field 3 went to division before |
| OpcodeLaws.AndHasSize | internal/decoders/common.go:95-106 | Whatever reaches AND has a size: size field 3 went to multiplication before |
| OpcodeLaws.LookupIsHome | internal/decoders/types.go:201-290 | Whatever reaches a decoder has the bits its patterns ask for; `TableLaws.LookupIff` has the converse |
| OpcodeLaws.OpcodeLengthBounds | internal/decoders/addressing.go:12-214 | The fields of every opcode end at 2, 4, 6, 8 or 10 bytes |
| Slices.SliceStable | disasm.go:54-60 | Only "need more" is unstable: success and hard errors survive any continuation, in every field |
| Slices.SliceLength | internal/decoders/common.go:41-48 | The opcode word alone decides the length: decoding succeeds exactly from that length on, with that size and those bytes; an erroneous opcode never decodes; `InstructionLayout.LengthIsTable` gives the number |
| InstructionLayout.FieldsAreDemanded | internal/decoders/common.go:57-154 | For every opcode, the widths and contexts of the fields its decoder demands are those of a table over opcode bits: immediate or mask words of the instruction, extension words of the address at the operand size in the opcode, then of the second address; four immediate bytes for ADDI.L and SUBI.L, two for all other immediates |
| InstructionLayout.LengthIsTable | internal/decoders/common.go:41-67 | The length of every instruction is two plus the widths of that table, and the demand of an erroneous opcode too |
| InstructionLayout.PartialNamesField | internal/decoders/common.go:148-156 | Decoding ends in a partial error exactly when the buffer does not cover some field of the table, and then have, missing and context are those of the first such field |
| InstructionLayout.MnemonicIsTable | internal/decoders/types.go:201-276 | The mnemonic of every decoded instruction, size suffix included, is that of a table over opcode bits; four-way splits of the compare group, the shift kinds and the sixteen conditions included |
| OperandMeanings.SourceDenotes | internal/decoders/addressing.go:12-214 | In every decoded instruction with an address in bits 5 to 0, the operand at the place the opcode says is that address at the size the opcode says, read from the bytes behind the fields before it: displacements as signed, addresses and immediates as big-endian numbers, index registers from the bits of their word |
| OperandMeanings.DestinationDenotes | internal/decoders/move.go:50-64 | The second operand of a MOVE is the address with mode in bits 8 to 6 and register in bits 11 to 9, read behind the first one |
| OperandMeanings.EaMeaning | internal/decoders/addressing.go:12-214 | What every address denotes, from mode, register, size and bytes |
| OperandMeanings.ImmediateDenotesBytes | internal/decoders/common.go:95-122 | The immediate of ADDI, SUBI, ANDI, ORI, EORI, CMPI and STOP comes first and is the big-endian number, signed and unsigned, in the two or four bytes behind the opcode |
| OperandMeanings.BitNumberDenotesByte | internal/decoders/bit.go:24-49 | The bit number of a bit operation is the low byte of its word |
| OperandMeanings.OpcodeNumbers | internal/decoders/move.go:8-14 | MOVEQ holds the low byte of its opcode, TRAP its low four bits, and a data word the opcode |
| OperandMeanings.ShiftCounts | internal/decoders/shift.go:44-66 | A register shift counts with bits 11 to 9, 0 standing for 8, or with the data register of that number where bit 5 is set, and shifts the data register in bits 2 to 0 |
| OperandMeanings.NamedRegisters | internal/decoders/common.go:170-180 | Register operands are address registers exactly for LEA, ADDA, SUBA, CMPA and MOVEA, and data registers everywhere else |
| OperandMeanings.ImmediatesAreMarked | internal/decoders/common.go:170-192 | Every immediate operand of an instruction in the table prints behind "#" |
| OpcodeOperands.HighRegisterDenotes | internal/decoders/common.go:69-93 | In every decoded instruction that names a register in bits 11 to 9, the operand at its place, first or second as the opcode says, is the register of that number |
| OpcodeOperands.LowRegisterDenotes | internal/decoders/bcd.go:13-33 | SWAP, and ABCD and SBCD between registers, name the data register in bits 2 to 0 first |
| OpcodeOperands.BuiltDenote | internal/decoders/compare.go:56-73 | CMPM has two postincrement operands, ABCD and SBCD in memory form two predecrement ones, each with the address register of bits 2 to 0 and then that of bits 11 to 9, in text and structure |
| OpcodeOperands.ListDenotesMask | internal/decoders/move.go:74-104 | The register list of a MOVEM is that of the word behind the opcode, and comes first exactly for bit 10 clear |
| Slices.HardErrorsExactly | internal/decoders/addressing.go:203-212 | A hard error can occur for an opcode exactly when it has size field 3 in the immediate family, an effective address 7.5 to 7.7, or is a MOVE.B to an address register, and it is the error of that class |
| Slices.PartialIsPrecise | disasm.go:194-202 | A partial error has missing at least 1; shorter continuations keep the end offset and the context, longer ones get strictly further |
| Slices.WordsAreTheBytes | internal/decoders/common.go:158-168 | Opcode and extension words written out big-endian are the bytes, and the bytes are the front of the input |
| Slices.MetadataIsCollected | internal/decoders/types.go:305-326 | In every decoded instruction, metadata are those of its own operands and mnemonic in the sense of `MetadataMeans` |
| Slices.TextAgreesWithStructure | internal/decoders/common.go:50-93 | The operand string is the ", "-join of the operand texts and can be cut back into them, for every decoded instruction |
| Slices.SymbolizationRefines | disasm.go:313-354 | A symbolizer changes the operand string only: it is the join of one text per operand, and each is the symbol of its branch target, else of its resolved address, else of its absolute address, else the text of the operand; a symbolizer that resolves nothing changes nothing |
| Slices.KnownBranchPrintsSymbol | disasm.go:324-333 | A branch to a known target prints the symbol and nothing else |
| OperandMeanings.KnownJumpPrintsSymbol | disasm.go:324-343 | JSR and JMP to a known absolute address, the big-endian number behind the opcode, print the symbol and nothing else |
| Slices.SliceRelocates | internal/decoders/branch.go:13-53 | The same bytes k further on give the same outcome with addresses and targets moved by k mod 2^32 |
| Slices.BranchTarget | internal/decoders/branch.go:27-43 | Size 4, 6 or 2 for a low opcode byte of 0, 0xFF or anything else; the target is address plus size plus the number of that width whose residue the bytes give, in two's complement range, mod 2^32, in metadata and as 4- or 8-digit text |
| Slices.FormatOperands | disasm.go:313-322 | The join of the rendered operands, which `Slices.SymbolizationRefines` pins one by one |
| Slices.FinalizeInstruction | disasm.go:204-221 | Only the operand string changes, and only under a symbolizer with operands to render |
| Ranges.DisassembleRange | disasm.go:83-97 | Every instruction listed is what decoding gives, under the same options, behind the instructions listed before it; the listing ends where the data end, or where decoding fails and with that error |
| Ranges.RangeDecodesInPlace | disasm.go:83-97 | The same of the recursive listing all other range laws are about |
| Ranges.RangeComposes | disasm.go:83-97 | If xs disassembles, xs followed by ys is the listing of xs followed by that of ys at the address behind xs |
| Ranges.RangeIsPrefix | disasm.go:83-97 | Whatever follows, the instructions already found are found again; after a hard error nothing changes |
| Ranges.RangeTiles | disasm.go:83-97 | The bytes of the instructions concatenate to the consumed front, addresses are the start plus the sizes before mod 2^32, no error means everything was consumed, and an error is that of decoding the rest |
| Ranges.OddLengthFails | disasm.go:83-97 | An odd number of bytes always ends in an error |
| Ranges.BoundariesAreLengthWalk | disasm.go:83-97 | Boundaries are those of a walk that looks at opcode words only |
| Ranges.RangeRelocates | disasm.go:83-97 | Relocation lifted to whole ranges, errors included |
| Dispatch.FindDecoder | internal/decoders/types.go:281-290 | Finds the first match in the bucket of the high nibble; `TableLaws` says from opcode bits alone which decoder that is |
| TableLaws.LookupIff | internal/decoders/types.go:201-290 | An opcode reaches a decoder exactly when it has the decoder's bits and no narrower instruction with precedence does: SWAP before PEA, SBCD, DIVU and DIVS before OR, ABCD, MULU and MULS before AND |
| TableLaws.LookupNoneIff | internal/decoders/types.go:201-290 | An opcode has no decoder exactly when it has the bits of none |
| Dispatch.FlattenOpcodeBuckets | internal/decoders/types.go:292-303 | Concatenates the buckets in order |
| Dispatch.BucketsEqualLinearScan | internal/decoders/types.go:281-303 | For every well-formed table and opcode, bucketed lookup is the linear scan of the flattened table |
| Dispatch.BucketsWellFormed | internal/decoders/types.go:199-276 | The repository's table is well formed |
| Dispatch.LookupIsLinearScan | internal/decoders/types.go:278-290 | Hence its lookup is the linear scan |
| Dispatch.MatchableIff | internal/decoders/types.go:283-288 | A pattern can match some opcode exactly when its value lies within its mask |
| Dispatch.UnmatchablePattern | internal/decoders/types.go:283-288 | Deleting a pattern that cannot match changes no lookup |
| Dispatch.SecondMovemPatternIsDead | internal/decoders/types.go:233-234 | The second MOVEM pattern never matches, the table decides the same without it, and the first one serves its opcodes |
| Dispatch.RegisterBitOpsAreD2Only | internal/decoders/types.go:47-51 | In the first bucket, a word with bit 8 set has a decoder exactly when its register field is 2, and then it is a bit operation |
| EffectiveAddresses.DecodeAddressingMode | internal/decoders/addressing.go:12-214 | Mode, register and size alone decide between error, shortage (with its count and context) and success, and how many words are consumed |
| EffectiveAddresses.EaReadsItsField | internal/decoders/addressing.go:12-214 | Nothing behind the operand's own extension words is read |
| EaText.EaTextRoundTrip | internal/decoders/addressing.go:12-214 | Parsing the printed text gives back the structured address for all twelve forms and all extension words |
| EaText.EaTextInjective | internal/decoders/addressing.go:12-214 | Operands of one size that print alike are the same operand |
| EaText.ImmediateInverse | internal/decoders/addressing.go:217-233 | The mixed decimal and hexadecimal immediate printer can be read back |
| EaText.MoveqImmediateInverse | internal/decoders/addressing.go:236-244 | So can the signed one of MOVEQ |
| EaText.ImmediateNotation | internal/decoders/addressing.go:217-233 | Immediates below 100 print in decimal without leading zeros, all others as "$" and the digits of the operand width |
| EaText.MoveqNotation | internal/decoders/addressing.go:236-244 | MOVEQ prints negative values as "-$" and digits, small ones in decimal, the others as "$" and digits, without leading zeros |
| EaText.AbsoluteNotation | internal/decoders/addressing.go:112-146 | Absolute addresses print as "$" and four or eight digits |
| OperandTexts.OperandsAreReadable | internal/decoders/common.go:170-216 | In every decoded instruction the text of every operand reads back to its structured value, modes of addresses included: registers, immediates, addresses, uncrossed register lists and branch targets; where the decoder writes its addresses by hand, both operands have lost the mode and nothing else |
| OperandTexts.ReadableIff | internal/decoders/compare.go:63-71 | All operands read back exactly when the opcode is not a CMPM or a memory-form ABCD or SBCD |
| OperandTexts.TargetReadable | internal/decoders/branch.go:48-53 | The 4- or 8-digit branch target text is the target |
| OperandTexts.TargetNotation | internal/decoders/branch.go:48-53 | Branch targets print as "$" and four digits up to 0xFFFF, eight digits beyond |
| OperandTexts.FormForReadable | internal/decoders/common.go:170-192 | The same for the operands that come from the opcode word, over all decoders but the three that build addresses |
| FixedOperands.FixedOperandsOf | internal/decoders/types.go:201-276 | Over the whole table, an operand taken from the opcode alone is a register of the instruction's kind, the count in the opcode, the MOVEQ value or the data word; only CMPM, ABCD and SBCD hold addresses there, and only the MOVEM on D0 an empty operand |
| MoveCodec.EaDecodesEncoded | internal/decoders/addressing.go:12-214 | The extension words written for any well-formed address denote that address |
| MoveCodec.EaEncodesDecoded | internal/decoders/addressing.go:12-214 | Every decoded address is well formed and encodes back to its words, up to the bits the decoder ignores |
| MoveCodec.DecodesAsEaOf | internal/decoders/addressing.go:12-214 | The structured address of each of the twelve forms, from its extension words: sign-extended displacements, zero-extended short absolutes |
| MoveCodec.IndexWordInverse | internal/decoders/addressing.go:247-260 | Packing a brief extension word is inverse to unpacking it |
| MoveCodec.LookupMove | internal/decoders/types.go:218-226 | Every word with two leading zeros and a size reaches the MOVE decoder |
| MoveCodec.MoveDecodesEncoded | internal/decoders/move.go:19-72 | Decoding an encoded MOVE or MOVEA gives back size and both addresses and consumes exactly the encoding, for every pair of addresses and whatever follows; byte-size MOVEA is refused |
| MoveCodec.MoveEncodesDecoded | internal/decoders/move.go:19-72 | Re-encoding a decoded MOVE or MOVEA gives back its bytes, up to bits 10 to 8 of index words and the high byte of byte immediates |
| InstructionCodec.EncodesDecoded | internal/decoders/common.go:41-67 | For every decoded instruction of whatever kind, opcode, address and structured operands determine the bytes: encoding them gives the bytes back up to bits 10 to 8 of index words and the high byte of byte immediates and bit numbers |
| InstructionCodec.DecodesEncoded | internal/decoders/common.go:41-67 | Decoding that encoding, whatever follows it, gives the same instruction: size, mnemonic, operands, text and metadata |
| InstructionCodec.AssemblesDecoded | internal/decoders/types.go:201-290 | Assembling mnemonic and structured operands of any decoded instruction gives back its bytes, opcode included, up to the bits the decoders ignore |
| InstructionCodec.DisassemblesAssembled | internal/decoders/types.go:201-290 | Disassembling what was assembled, whatever follows it, gives the instruction back: size, mnemonic, operands, text and metadata |
| InstructionCodec.OperandsDetermineBytes | internal/decoders/types.go:201-290 | Two instructions at one address have the same mnemonic and operands exactly when their bytes agree up to bits 4 and 3 of a register shift, bits 10 and 9 of a memory shift, bits 10 to 8 of index words and the high byte of byte immediates and bit numbers |
| InstructionCodec.CanonicalOpcodeForm | internal/decoders/shift.go:29-68 | Clearing the ignored opcode bits changes nothing in what the opcode announces |
| Assembler.OpcodeAssembles | internal/decoders/types.go:201-276 | For every opcode in the table, mnemonic and operands as printed determine the opcode word, up to the ignored bits of shifts |
| Assembler.BranchAssembles | internal/decoders/branch.go:13-46 | Condition, width and short displacement are recovered from name, suffix, target and address |
| Assembler.MoveFamilyAssembles | internal/decoders/move.go:19-72 | Size, both modes and both registers are recovered from a MOVE or MOVEA |
| Assembler.CompareGroupAssembles | internal/decoders/compare.go:5-32 | The four instructions of the compare group are told apart by their names and give back their opcodes |
| InstructionCodec.MaskOfRegisterNames | internal/decoders/special.go:60-73 | The mask is recovered from its list of names, crossing or not |
| InstructionCodec.BranchEncodes | internal/decoders/branch.go:13-46 | The displacement field is recovered from target and address through the wrap-around at 2^32 |
| Irregular.EmptyOperandIff | internal/decoders/move.go:90-95 | In every decoded instruction, data words included, an operand is empty exactly when the opcode is a MOVEM with mode 0 and register 0 |
| Irregular.EmptyOperandText | internal/decoders/move.go:96-103 | Such an instruction prints the register list and a bare comma, on the side the direction bit says |
| Irregular.ExtendPrintsAsMovem | internal/decoders/types.go:233-234 | An instance: 4880 0001 prints as "MOVEM.W D0, " |
| Irregular.CompareMnemonic | internal/decoders/compare.go:5-20 | For operation modes 3 and 7 of the compare group: CMPA.W exactly for mode 3, CMPA.L exactly for mode 7 without address-register source, and the rest prints as "CMPM.?" with postincrement operands |
| Irregular.CmpmLosesMode | internal/decoders/compare.go:63-71 | An instance: CMPM.B (A0)+, (A1)+ records mode 0 where its text says mode 3 |
| RegisterLists.ScanRun | internal/decoders/special.go:85-97 | The inner loop stops where the run that starts at i stops |
| RegisterLists.FormatRegisterRange | internal/decoders/special.go:75-106 | The two loops print the runs of the list, joined with "/" |
| RegisterLists.FormatRegisterList | internal/decoders/special.go:60-73 | The names of the mask's bits in order, and their text |
| RegisterLists.RunIsMaximal | internal/decoders/special.go:88-97 | Runs hold consecutive numbers and cannot be extended |
| RegisterLists.CompressionKeepsNumbers | internal/decoders/special.go:75-106 | For every list of register names, expanding the printed runs gives back all numbers in order |
| RegisterLists.CompressionKeepsNames | internal/decoders/special.go:75-106 | The names come back exactly when no run crosses between D and A registers |
| RegisterLists.BitsOfRegisterNames | internal/decoders/special.go:60-73 | The names printed for a mask stand for exactly its bits |
| RegisterLists.RegisterNamesAscend | internal/decoders/special.go:60-73 | and are listed in bit order, D0 first |
| RegisterLists.MaskRoundTrip | internal/decoders/special.go:60-106 | For every mask: the usual reading of the text gives the registers back exactly when the first A register does not continue the last D register, and then the mask is recovered |
| MaskTexts.TextIsSharedIff | internal/decoders/special.go:60-106 | For every mask: another mask prints the same text exactly when the last D and the first A register have consecutive numbers and D has the register before or A the register after |
| MaskTexts.UncrossedTextIsInjective | internal/decoders/special.go:60-106 | The text of a mask without such a crossing is no other mask's text, crossing or not |
| MaskTexts.CrossingIsAmbiguous | internal/decoders/special.go:88-97 | An instance: two different masks that print alike |
| MaskTexts.CrossingCanBeUnique | internal/decoders/special.go:88-97 | An instance: a crossing mask whose text no other mask prints |
| Text.SplitJoin | disasm.go:345-354 | The ", "-join of at least one text without blanks can be cut back uniquely |
| Text.JoinOperands | disasm.go:345-354 | The loop computes the join |
| Text.ParseIntInverse | internal/decoders/addressing.go:79-79 | Signed decimals read back |
| Text.ParseHexInverse | internal/decoders/addressing.go:225-229 | Hexadecimals of fixed width read back |
| Words.CollectExtensionWords | internal/decoders/common.go:158-168 | The words behind the opcode in order; an odd byte at the end is dropped |
| Words.BytesOfWordsOf | internal/decoders/common.go:158-168 | Writing the collected words out again gives back the bytes |
| Copies.CloneOperand | internal/decoders/types.go:339-385 | A deep copy: the same value, and every object reachable from it is new; `convertOperand` (disasm.go:241-295) copies the same way |
| Copies.CloneOperands | internal/decoders/types.go:328-337 | All operands of a record copied in place into a new slice: same values in order, and every object reachable from it is new |
| Copies.CopyItems | disasm.go:211-212 | A slice is copied out of the part of an array it is a window on: same items, new array |
| Copies.ConvertMetadata | disasm.go:223-239 | Same metadata value, with operands, branch target and immediates in new storage throughout |
| Copies.FinalizeInstruction | disasm.go:204-221 | The record handed out has the value of the decoder's record, symbolized; every array, cell and nested cell it reaches is new, so it shares nothing with the decoder's record or with the buffer that record is a window on |

## Left out

- ELF files (elf.go): file access around range disassembly.
- Error texts, wrapped causes, `Assembly` and `String`: an error is its class and its fields.
- The io.ReaderAt and callback adapters (disasm.go:37-51): one reader stands for both. It reports a count between 0 and the number of bytes asked for; a negative or larger count is outside the model.
- ISA conformance in the places listed above, and any claim that the decoded instruction set is complete.
- The inverse of an external assembler: the encoder and the parsers here are the model's own.
- Range boundaries of a byte source that changes between two reads: the memory of a reader is constant.
- Slices.FinalizeInstruction: works on values, like the driver that calls it; that the record handed out shares no storage is stated for the same function on the heap, `Copies.FinalizeInstruction`, whose records are not the ones the driver passes on.
- Copies.CloneOperand: stands for `convertOperand` too, which makes the same copy into the public types; the two families of types are one here.
- Readers.ReadUntil: returns the grown buffer where the code appends through a pointer; growth of the backing array is not modelled.
- RegisterLists.ScanRun: is the inner loop of `formatRegisterRange`, taken out as a method of its own.
- Decoders.DecodeImmediateBinaryOp: stands for `decodeLogicalI` and `decodeCMPI` too, whose bodies repeat it with one-word immediates; in the same way `decodeCMPA` is `DecodeAddressRegisterArithmetic`, LEA and CMP are `DecodeEaToRegister`, PEA, JSR and JMP are `DecodeSingleOp`, and SWAP, TRAP, NOP, RTS and TRAPV are two shared methods.
- MoveCodec.MoveDecodesEncoded: encodes brief index words with bits 10 to 8 clear and byte immediates with a zero high byte; the other encodings of the same operands are covered by MoveCodec.MoveEncodesDecoded.
