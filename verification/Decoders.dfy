/** The decoders of internal/decoders: methods that fill the instruction record they are given. Each is
    proved against the form of its opcode. */
module Decoders {
  import opened Wrappers
  import opened Words
  import opened Text
  import opened Model
  import opened EffectiveAddresses
  import opened RegisterLists
  import opened Forms
  import opened InstructionSet

  type Status = Result<(), DecodeError>

  /** decoders.Instruction */
  class Instruction {
    var address: uint32
    var opcode: word
    var mnemonic: string
    var operands: string
    var size: nat
    var bytes: seq<byte>
    var extensionWords: seq<word>
    var metadata: Metadata

    constructor (address: uint32, opcode: word, bytes: seq<byte>)
      ensures this.address == address && this.opcode == opcode && this.bytes == bytes
    {
      this.address, this.opcode := address, opcode;
      this.mnemonic, this.operands := "", "";
      this.size, this.bytes, this.extensionWords := 2, bytes, [];
      this.metadata := Metadata("", "", "", [], None, []);
    }

    function View(): Decoded
      reads this
    {
      Decoded(address, opcode, mnemonic, operands, size, bytes, extensionWords, metadata)
    }
  }

  /** A decoder call on `data` ended as the form says: same success with the same record, same shortage
      or same fault. */
  predicate Meets(f: Form, address: uint32, opcode: word, data: seq<byte>, r: Status, view: Decoded)
    requires FormOk(f) && |data| >= 2
  {
    match Interpret(f, address, opcode, data)
    case Ok(d) => r.Ok? && view == d
    case Err(e) => r == Err(e)
  }

  // ---- common.go, types.go ----

  method SetInstructionSize(data: seq<byte>, inst: Instruction, offset: nat)
    modifies inst`size, inst`bytes, inst`extensionWords
    ensures inst.size == offset
    ensures inst.bytes == if |data| >= offset then data[..offset] else old(inst.bytes)
    ensures inst.extensionWords == if |inst.bytes| <= 2 then [] else WordsOf(inst.bytes[2..])
  {
    inst.size := offset;
    if |data| >= offset {
      inst.bytes := data[..offset];
    }
    inst.extensionWords := CollectExtensionWords(inst.bytes);
  }

  method PopulateMetadata(inst: Instruction, mnemonic: string, operands: seq<Operand>)
    modifies inst`metadata
    ensures inst.metadata == MetadataOf(mnemonic, operands)
    ensures MetadataMeans(inst.metadata, mnemonic, operands)
  {
    hide Cut, ImmediatesOf, MetadataMeans;
    MetadataMeaning(mnemonic, operands);
    var (base, suffix) := Cut(mnemonic);
    var target: Option<uint32> := None;
    var immediates: seq<ImmediateValue> := [];
    for i := 0 to |operands|
      invariant FirstTarget(operands) == if target.Some? then target else FirstTarget(operands[i..])
      invariant AllImmediates(operands) == immediates + AllImmediates(operands[i..])
    {
      var operand := operands[i];
      ghost var before := immediates;
      assert operands[i..][1..] == operands[i + 1..];
      if operand.branchTarget.Some? && target.None? {
        target := operand.branchTarget;
      }
      if operand.immediate.Some? {
        immediates := immediates + [operand.immediate.value];
      }
      if operand.effectiveAddress.Some? && operand.effectiveAddress.value.immediate.Some? {
        immediates := immediates + [operand.effectiveAddress.value.immediate.value];
      }
      ImmediatesAppended(before, operand, immediates, AllImmediates(operands[i + 1..]));
    }
    inst.metadata := Metadata(mnemonic, base, suffix, operands, target, immediates);
  }

  lemma ImmediatesAppended(before: seq<ImmediateValue>, o: Operand, after: seq<ImmediateValue>,
                           rest: seq<ImmediateValue>)
    requires after == (before + (if o.immediate.Some? then [o.immediate.value] else []))
                      + (if o.effectiveAddress.Some? && o.effectiveAddress.value.immediate.Some?
                         then [o.effectiveAddress.value.immediate.value] else [])
    ensures before + (ImmediatesOf(o) + rest) == after + rest
  {
  }

  /** Fills the record. When the operand string is the join of the operand texts, as it is at every
      call, the record is the complete instruction over data[..size]. */
  method SetInstruction(data: seq<byte>, inst: Instruction, size: nat, mnemonic: string, operands: string,
                        structuredOperands: seq<Operand>)
    requires 2 <= size <= |data|
    requires operands == Join(Texts(structuredOperands))
    modifies inst
    ensures inst.address == old(inst.address) && inst.opcode == old(inst.opcode)
    ensures inst.View() == Assemble(inst.address, inst.opcode, data[..size], mnemonic, structuredOperands)
  {
    hide Cut, FirstTarget, AllImmediates;
    inst.mnemonic := mnemonic;
    inst.operands := operands;
    SetInstructionSize(data, inst, size);
    PopulateMetadata(inst, mnemonic, structuredOperands);
  }

  function GetSizeString(size: bv2): string {
    SizeName(size)
  }

  function BuildDirectedOperands(direction: word, src: string, dstReg: regnum): string {
    if direction == 0 then src + ", " + RegisterName(DataRegister, dstReg)
    else RegisterName(DataRegister, dstReg) + ", " + src
  }

  function OperandSize(size: bv2, mnemonic: string): Result<nat, DecodeError> {
    if size == 0 then Ok(1)
    else if size == 1 then Ok(2)
    else if size == 2 then Ok(4)
    else Err(Hard(UnknownSize(mnemonic, size)))
  }

  function ImmediateSpec(size: bv2, longImmediate: bool, mnemonic: string): Result<(string, nat), DecodeError> {
    if size == 0 then Ok(("B", 2))
    else if size == 1 then Ok(("W", 2))
    else if size == 2 then Ok(("L", if longImmediate then 4 else 2))
    else Err(Hard(UnknownSize(mnemonic, size)))
  }

  function ReadImmediate(data: seq<byte>, offset: nat, size: nat, mnemonic: string)
    : Result<(uint32, nat), DecodeError>
  {
    var _ :- RequireLength(data, offset + size, mnemonic + " immediate");
    if size == 2 then Ok((WordAt(data, offset) as int, offset + 2))
    else if size == 4 then Ok((LongAt(data, offset), offset + 4))
    else Err(Hard(UnsupportedImmediateSize(size)))
  }

  /** Decodes one effective address at `offset`. */
  function DecodeEAWithSize(data: seq<byte>, offset: nat, mode: bv3, reg: regnum, operandSize: nat)
    : Result<Fetched, DecodeError>
    requires offset <= |data|
  {
    var parts :- DecodeAddressingMode(data[offset..], mode, reg, operandSize);
    Ok(Fetched(parts.text, offset + parts.extraWords * 2, parts.operand))
  }

  function DecodeEA(data: seq<byte>, offset: nat, mode: bv3, reg: regnum): Result<Fetched, DecodeError>
    requires offset <= |data|
  {
    DecodeEAWithSize(data, offset, mode, reg, 2)
  }

  /** Decoding an effective address inside a longer buffer is fetching its slot. */
  lemma EaStep(data: seq<byte>, address: uint32, offset: nat, mode: bv3, reg: regnum, size: nat)
    requires offset <= |data| && size in {1, 2, 4}
    ensures DecodeEAWithSize(data, offset, mode, reg, size) == Step(Ea(mode, reg, size), address, data, offset)
  {
    hide DecodeAddressingMode, EaFault, EaWidth, EaContext;
    var width := EaWidth(mode, reg, size);
    assert MeetsLayout(DecodeAddressingMode(data[offset..], mode, reg, size), |data| - offset, mode, reg, size);
    if EaFault(mode, reg, size).None? && offset + width <= |data| {
      EaReadsItsField(data[offset..], mode, reg, size);
      assert data[offset..][..width] == data[offset..offset + width];
    }
  }

  lemma FixedStep(o: Operand, address: uint32, data: seq<byte>, offset: nat)
    requires SlotOk(Fixed(o)) && offset <= |data|
    ensures Step(Fixed(o), address, data, offset) == Ok(Fetched(o.text, offset, o))
  {
  }

  lemma DataStep(data: seq<byte>, address: uint32, offset: nat, size: nat, mnemonic: string)
    requires offset <= |data| && size in {2, 4}
    ensures Step(Data(size, mnemonic + " immediate"), address, data, offset)
            == match ReadImmediate(data, offset, size, mnemonic)
               case Err(e) => Err(e)
               case Ok(x) => Ok(Fetched(DataOperand(x.0, size).text, x.1, DataOperand(x.0, size)))
  {
    hide FormatImmediate, Immediate, WordAt, LongAt, DataOperand;
    if offset + size <= |data| {
      NumberInPlace(data, offset, size);
    }
  }

  /** A number is the same read in place and read from its field. */
  lemma NumberInPlace(data: seq<byte>, offset: nat, size: nat)
    requires size in {2, 4} && offset + size <= |data|
    ensures WordAt(data[offset..offset + size], 0) == WordAt(data, offset)
    ensures size == 4 ==> LongAt(data[offset..offset + size], 0) == LongAt(data, offset)
  {
  }

  lemma BitNumberStep(data: seq<byte>, address: uint32, offset: nat, context: string)
    requires offset <= |data|
    ensures Step(BitNumber(context), address, data, offset)
            == if |data| < offset + 2 then Err(NeedMore(offset + 2 - |data|, context))
               else
                 var o := BitNumberOperand(WordAt(data, offset));
                 Ok(Fetched(o.text, offset + 2, o))
  {
    hide Immediate, Dec, LowByte;
  }

  lemma MaskStep(data: seq<byte>, address: uint32, offset: nat, context: string)
    requires offset <= |data|
    ensures Step(RegisterMask(context), address, data, offset)
            == if |data| < offset + 2 then Err(NeedMore(offset + 2 - |data|, context))
               else
                 var o := MaskOperand(WordAt(data, offset));
                 Ok(Fetched(o.text, offset + 2, o))
  {
    hide RegisterListText, RegisterNames;
  }

  lemma BranchStep(data: seq<byte>, address: uint32, offset: nat, width: nat, short: byte, context: string)
    requires offset <= |data| && width in {0, 2, 4}
    ensures Step(Branch(width, short, context), address, data, offset)
            == if |data| < offset + width then Err(NeedMore(offset + width - |data|, context))
               else
                 var o := TargetOperand(Advance(address, offset + width
                                                + BranchDisplacement(width, short, data[offset..offset + width])));
                 Ok(Fetched(o.text, offset + width, o))
  {
    hide FormatBranchTarget, BranchDisplacement, Advance;
  }

  lemma JoinOperandTexts(a: Operand, b: Operand)
    ensures Join(Texts([a, b])) == a.text + ", " + b.text
    ensures Join(Texts([a])) == a.text && Join(Texts([])) == ""
  {
    assert Texts([a, b]) == [a.text, b.text];
    assert Texts([a]) == [a.text];
    JoinTwo(a.text, b.text);
    JoinOne(a.text);
  }

  lemma RejectedMeans(f: Form, fault: Fault, address: uint32, opcode: word, data: seq<byte>)
    requires f == Rejected(fault) && |data| >= 2
    ensures Interpret(f, address, opcode, data) == Err(Hard(fault))
  {
  }

  // ---- decoders ----

  /** NOP, RTS and TRAPV. */
  method DecodePlain(mnemonic: string, data: seq<byte>, opcode: word, inst: Instruction) returns (r: Status)
    requires |data| >= 2 && inst.opcode == opcode
    modifies inst
    ensures Meets(Form(mnemonic, [], false), old(inst.address), opcode, data, r, inst.View())
  {
    hide Assemble;
    InterpretNone(Form(mnemonic, [], false), inst.address, opcode, data);
    JoinOperandTexts(NO_OPERAND, NO_OPERAND);
    SetInstruction(data, inst, 2, mnemonic, "", []);
    return Ok(());
  }

  /** AND, OR, EOR, and ADD and SUB on data registers. */
  method DecodeDirectedBinaryOp(mnemonic: string, data: seq<byte>, opcode: word, inst: Instruction) returns (r: Status)
    requires |data| >= 2 && inst.opcode == opcode
    modifies inst
    ensures Meets(DirectedForm(mnemonic, opcode), old(inst.address), opcode, data, r, inst.View())
  {
    hide DecodeEAWithSize, Step, Assemble, Interpret, Join, Texts, SlotOk;
    ghost var address := inst.address;
    ghost var f := DirectedForm(mnemonic, opcode);
    var direction := (opcode >> 8) & 0x1;
    var sizeBits := ((opcode >> 6) & 0x3) as bv2;
    var sizeStr := GetSizeString(sizeBits);
    if sizeBits == 3 {
      RejectedMeans(f, UnknownSize(mnemonic, sizeBits), address, opcode, data);
    }
    var operandSize :- OperandSize(sizeBits, mnemonic);
    var dstReg := ((opcode >> 9) & 0x7) as regnum;
    var srcMode := ((opcode >> 3) & 0x7) as bv3;
    var srcReg := (opcode & 0x7) as regnum;
    var dstMeta := RegisterOperand(DataRegister, dstReg);
    InterpretTwo(f, SourceEa(opcode, operandSize), Fixed(dstMeta), address, opcode, data);
    EaStep(data, address, 2, srcMode, srcReg, operandSize);
    var src :- DecodeEAWithSize(data, 2, srcMode, srcReg, operandSize);
    FixedStep(dstMeta, address, data, src.offset);
    JoinOperandTexts(src.operand, dstMeta);
    JoinOperandTexts(dstMeta, src.operand);
    if direction == 0 {
      SetInstruction(data, inst, src.offset, mnemonic + "." + sizeStr,
                     BuildDirectedOperands(direction, src.text, dstReg),
                     [src.operand, dstMeta]);
      return Ok(());
    }
    SetInstruction(data, inst, src.offset, mnemonic + "." + sizeStr, BuildDirectedOperands(direction, src.text, dstReg),
                   [dstMeta, src.operand]);
    return Ok(());
  }

  /** One effective address, then a register fetched from the opcode. */
  method DecodeEaToRegister(ghost f: Form, mnemonic: string, data: seq<byte>, opcode: word, inst: Instruction,
                            operandSize: nat, kind: RegisterKind) returns (r: Status)
    requires |data| >= 2 && inst.opcode == opcode && operandSize in {1, 2, 4}
    requires f == Form(mnemonic, [SourceEa(opcode, operandSize), RegisterSlot(kind, RegX(opcode))], false)
    modifies inst
    ensures FormOk(f) && Meets(f, old(inst.address), opcode, data, r, inst.View())
  {
    hide DecodeEAWithSize, Step, Assemble, Interpret, Join, Texts, SlotOk;
    ghost var address := inst.address;
    var dstReg := ((opcode >> 9) & 0x7) as regnum;
    var srcMode := ((opcode >> 3) & 0x7) as bv3;
    var srcReg := (opcode & 0x7) as regnum;
    var dstMeta := RegisterOperand(kind, dstReg);
    InterpretTwo(f, SourceEa(opcode, operandSize), Fixed(dstMeta), address, opcode, data);
    EaStep(data, address, 2, srcMode, srcReg, operandSize);
    var src :- DecodeEAWithSize(data, 2, srcMode, srcReg, operandSize);
    FixedStep(dstMeta, address, data, src.offset);
    JoinOperandTexts(src.operand, dstMeta);
    SetInstruction(data, inst, src.offset, mnemonic, src.text + ", " + RegisterName(kind, dstReg),
                   [src.operand, dstMeta]);
    return Ok(());
  }

  /** ADDA, SUBA and CMPA. */
  method DecodeAddressRegisterArithmetic(mnemonic: string, data: seq<byte>, opcode: word, inst: Instruction)
    returns (r: Status)
    requires |data| >= 2 && inst.opcode == opcode
    modifies inst
    ensures Meets(AddressForm(mnemonic, opcode), old(inst.address), opcode, data, r, inst.View())
  {
    hide Interpret;
    var opmode := ((opcode >> 6) & 0x7) as bv3;
    var sizeStr := "W";
    var sizeBytes := 2;
    if opmode == 7 {
      sizeStr := "L";
      sizeBytes := 4;
    }
    r := DecodeEaToRegister(AddressForm(mnemonic, opcode), mnemonic + "A." + sizeStr, data, opcode, inst, sizeBytes,
                            AddressRegister);
  }

  method DecodeArithmetic(mnemonic: string, data: seq<byte>, opcode: word, inst: Instruction) returns (r: Status)
    requires |data| >= 2 && inst.opcode == opcode
    modifies inst
    ensures Meets(ArithmeticForm(mnemonic, opcode), old(inst.address), opcode, data, r, inst.View())
  {
    hide Interpret;
    var opmode := ((opcode >> 6) & 0x7) as bv3;
    if opmode == 3 || opmode == 7 {
      r := DecodeAddressRegisterArithmetic(mnemonic, data, opcode, inst);
    } else {
      r := DecodeDirectedBinaryOp(mnemonic, data, opcode, inst);
    }
  }

  /** ADDI and SUBI; with one-word immediates also ANDI, ORI, EORI and CMPI. */
  method DecodeImmediateBinaryOp(mnemonic: string, data: seq<byte>, opcode: word, inst: Instruction,
                                 longImmediate: bool)
    returns (r: Status)
    requires |data| >= 2 && inst.opcode == opcode
    modifies inst
    ensures Meets(ImmediateForm(mnemonic, opcode, longImmediate), old(inst.address), opcode, data, r, inst.View())
  {
    hide DecodeEAWithSize, Step, Assemble, Interpret, Join, Texts, SlotOk, ReadImmediate, FormatImmediate, Immediate;
    ghost var address := inst.address;
    ghost var f := ImmediateForm(mnemonic, opcode, longImmediate);
    var sizeBits := ((opcode >> 6) & 0x3) as bv2;
    if sizeBits == 3 {
      RejectedMeans(f, UnknownSize(mnemonic, sizeBits), address, opcode, data);
    }
    var spec :- ImmediateSpec(sizeBits, longImmediate, mnemonic);
    var dstMode := ((opcode >> 3) & 0x7) as bv3;
    var dstReg := (opcode & 0x7) as regnum;
    InterpretTwo(f, Data(spec.1, mnemonic + " immediate"), SourceEa(opcode, 2), address, opcode, data);
    DataStep(data, address, 2, spec.1, mnemonic);
    var immediate :- ReadImmediate(data, 2, spec.1, mnemonic);
    EaStep(data, address, immediate.1, dstMode, dstReg, 2);
    var dst :- DecodeEA(data, immediate.1, dstMode, dstReg);
    var immText := "#" + FormatImmediate(immediate.0, spec.1);
    var immMeta := ImmediateOperand(immText, immediate.0, spec.1);
    JoinOperandTexts(immMeta, dst.operand);
    SetInstruction(data, inst, dst.offset, mnemonic + "." + spec.0, immText + ", " + dst.text, [immMeta, dst.operand]);
    return Ok(());
  }

  method DecodeBitset(mn: string, data: seq<byte>, opcode: word, inst: Instruction) returns (r: Status)
    requires |data| >= 2 && inst.opcode == opcode
    modifies inst
    ensures Meets(BitForm(mn, opcode), old(inst.address), opcode, data, r, inst.View())
  {
    hide DecodeEAWithSize, Step, Assemble, Interpret, Join, Texts, SlotOk, Immediate, Dec, LowByte;
    ghost var address := inst.address;
    ghost var f := BitForm(mn, opcode);
    InterpretTwo(f, f.slots[0], SourceEa(opcode, 2), address, opcode, data);
    var mode := ((opcode >> 3) & 0x7) as bv3;
    var reg := (opcode & 0x7) as regnum;
    var offset := 2;
    var bitNumStr: string;
    var bitOperand: Operand;
    if (opcode >> 8) & 0x1 == 1 {
      var bitReg := ((opcode >> 9) & 0x7) as regnum;
      bitNumStr := RegisterName(DataRegister, bitReg);
      bitOperand := RegisterOperand(DataRegister, bitReg);
      FixedStep(bitOperand, address, data, 2);
    } else {
      BitNumberStep(data, address, 2, mn + " immediate bit number");
      var _ :- RequireLength(data, offset + 2, mn + " immediate bit number");
      var bitNum := LowByte(WordAt(data, offset)) as int;
      bitNumStr := "#" + Dec(bitNum);
      offset := offset + 2;
      bitOperand := ImmediateOperand(bitNumStr, bitNum, 1);
    }
    EaStep(data, address, offset, mode, reg, 2);
    var ea :- DecodeEA(data, offset, mode, reg);
    JoinOperandTexts(bitOperand, ea.operand);
    SetInstruction(data, inst, ea.offset, mn, bitNumStr + ", " + ea.text, [bitOperand, ea.operand]);
    return Ok(());
  }

  /** CLR, NEG, NEGX, NOT and TST with a size suffix; JSR, JMP and PEA without. */
  method DecodeSingleOp(mnemonic: string, data: seq<byte>, opcode: word, inst: Instruction) returns (r: Status)
    requires |data| >= 2 && inst.opcode == opcode
    modifies inst
    ensures Meets(EaForm(mnemonic, opcode), old(inst.address), opcode, data, r, inst.View())
  {
    hide DecodeEAWithSize, Step, Assemble, Interpret, Join, Texts, SlotOk;
    ghost var address := inst.address;
    var mode := ((opcode >> 3) & 0x7) as bv3;
    var reg := (opcode & 0x7) as regnum;
    InterpretOne(EaForm(mnemonic, opcode), SourceEa(opcode, 2), address, opcode, data);
    EaStep(data, address, 2, mode, reg, 2);
    var ea :- DecodeEA(data, 2, mode, reg);
    JoinOperandTexts(ea.operand, NO_OPERAND);
    SetInstruction(data, inst, ea.offset, mnemonic, ea.text, [ea.operand]);
    return Ok(());
  }

  method DecodeMOVE(data: seq<byte>, opcode: word, inst: Instruction) returns (r: Status)
    requires |data| >= 2 && inst.opcode == opcode
    modifies inst
    ensures Meets(MoveForm(opcode), old(inst.address), opcode, data, r, inst.View())
  {
    hide DecodeEAWithSize, Step, Assemble, Interpret, Join, Texts, SlotOk;
    ghost var address := inst.address;
    ghost var f := MoveForm(opcode);
    var sizeField := ((opcode >> 12) & 0x3) as bv2;
    var sizeStr: string;
    var sizeBytes: nat;
    if sizeField == 1 {
      sizeStr := "B";
      sizeBytes := 1;
    } else if sizeField == 3 {
      sizeStr := "W";
      sizeBytes := 2;
    } else if sizeField == 2 {
      sizeStr := "L";
      sizeBytes := 4;
    } else {
      RejectedMeans(f, UnknownMoveSize(sizeField), address, opcode, data);
      return Err(Hard(UnknownMoveSize(sizeField)));
    }
    var dstReg := ((opcode >> 9) & 0x7) as regnum;
    var dstMode := ((opcode >> 6) & 0x7) as bv3;
    var srcReg := (opcode & 0x7) as regnum;
    var srcMode := ((opcode >> 3) & 0x7) as bv3;
    InterpretTwo(f, SourceEa(opcode, sizeBytes), f.slots[1], address, opcode, data);
    EaStep(data, address, 2, srcMode, srcReg, sizeBytes);
    var src :- DecodeEAWithSize(data, 2, srcMode, srcReg, sizeBytes);
    if dstMode == 1 {
      if sizeField == 1 {
        RejectStep(ByteMovea, address, data, src.offset);
        return Err(Hard(ByteMovea));
      }
      var areg := RegisterOperand(AddressRegister, dstReg);
      FixedStep(areg, address, data, src.offset);
      JoinOperandTexts(src.operand, areg);
      SetInstruction(data, inst, src.offset, "MOVEA." + sizeStr,
                     src.text + ", " + RegisterName(AddressRegister, dstReg),
                     [src.operand, areg]);
      return Ok(());
    }
    EaStep(data, address, src.offset, dstMode, dstReg, 2);
    var dst :- DecodeEA(data, src.offset, dstMode, dstReg);
    JoinOperandTexts(src.operand, dst.operand);
    SetInstruction(data, inst, dst.offset, "MOVE." + sizeStr, src.text + ", " + dst.text, [src.operand, dst.operand]);
    return Ok(());
  }

  lemma RejectStep(fault: Fault, address: uint32, data: seq<byte>, offset: nat)
    requires offset <= |data|
    ensures Step(Reject(fault), address, data, offset) == Err(Hard(fault))
  {
  }

  method DecodeMOVEQ(data: seq<byte>, opcode: word, inst: Instruction) returns (r: Status)
    requires |data| >= 2 && inst.opcode == opcode
    modifies inst
    ensures Meets(FormOf(MOVEQ, opcode), old(inst.address), opcode, data, r, inst.View())
  {
    hide Step, Assemble, Interpret, Join, Texts, SlotOk, FormatImmediateForMOVEQ, LowByte, Signed, Immediate;
    ghost var address := inst.address;
    var dstReg := ((opcode >> 9) & 0x7) as regnum;
    var immText := "#" + FormatImmediateForMOVEQ(Signed(LowByte(opcode) as int, 0x100));
    var immMeta := ImmediateOperand(immText, LowByte(opcode) as int, 1);
    var dstMeta := RegisterOperand(DataRegister, dstReg);
    InterpretTwo(FormOf(MOVEQ, opcode), Fixed(immMeta), Fixed(dstMeta), address, opcode, data);
    FixedStep(immMeta, address, data, 2);
    FixedStep(dstMeta, address, data, 2);
    JoinOperandTexts(immMeta, dstMeta);
    SetInstruction(data, inst, 2, "MOVEQ", immText + ", " + RegisterName(DataRegister, dstReg), [immMeta, dstMeta]);
    return Ok(());
  }

  method DecodeMOVEM(data: seq<byte>, opcode: word, inst: Instruction) returns (r: Status)
    requires |data| >= 2 && inst.opcode == opcode
    modifies inst
    ensures Meets(MovemForm(opcode), old(inst.address), opcode, data, r, inst.View())
  {
    hide DecodeEAWithSize, Step, Assemble, Interpret, Join, Texts, SlotOk, RegisterListText, RegisterNames;
    ghost var address := inst.address;
    ghost var f := MovemForm(opcode);
    InterpretTwo(f, f.slots[0], f.slots[1], address, opcode, data);
    MaskStep(data, address, 2, "MOVEM register list");
    var _ :- RequireLength(data, 4, "MOVEM register list");
    var direction := (opcode >> 10) & 0x1;
    var sizeStr := "W";
    if opcode & 0x0040 != 0 {
      sizeStr := "L";
    }
    var mode := ((opcode >> 3) & 0x7) as bv3;
    var reg := (opcode & 0x7) as regnum;
    var regListMask := WordAt(data, 2);
    var ea := Fetched("", 4, NO_OPERAND);
    if mode != 0 || reg != 0 {
      EaStep(data, address, 4, mode, reg, 2);
      ea :- DecodeEA(data, 4, mode, reg);
    } else {
      FixedStep(NO_OPERAND, address, data, 4);
    }
    var regListText, registers := FormatRegisterList(regListMask);
    var regListMeta := RegisterListOperand(regListText, registers);
    JoinOperandTexts(regListMeta, ea.operand);
    JoinOperandTexts(ea.operand, regListMeta);
    if direction == 0 {
      SetInstruction(data, inst, ea.offset, "MOVEM." + sizeStr, regListText + ", " + ea.text,
                     [regListMeta, ea.operand]);
      return Ok(());
    }
    SetInstruction(data, inst, ea.offset, "MOVEM." + sizeStr, ea.text + ", " + regListText, [ea.operand, regListMeta]);
    return Ok(());
  }

  /** Target, text and record of a branch that ends at `offset`. */
  method SetBranch(data: seq<byte>, inst: Instruction, offset: nat, mnemonic: string, displacement: int)
    requires 2 <= offset <= |data|
    modifies inst
    ensures inst.View() == Assemble(old(inst.address), old(inst.opcode), data[..offset], mnemonic,
                                    [TargetOperand(Advance(old(inst.address), offset + displacement))])
  {
    hide Assemble, Join, Texts, FormatBranchTarget, Advance;
    var target := Advance(inst.address, offset + displacement);
    var targetText := FormatBranchTarget(target);
    JoinOperandTexts(BranchOperand(targetText, target), NO_OPERAND);
    SetInstruction(data, inst, offset, mnemonic, targetText, [BranchOperand(targetText, target)]);
  }

  method DecodeBxx(data: seq<byte>, opcode: word, inst: Instruction) returns (r: Status)
    requires |data| >= 2 && inst.opcode == opcode
    modifies inst
    ensures Meets(BranchForm(opcode), old(inst.address), opcode, data, r, inst.View())
  {
    hide Step, Assemble, Interpret, SlotOk, TargetOperand, Advance, BranchName, LowByte;
    ghost var address := inst.address;
    ghost var f := BranchForm(opcode);
    InterpretOne(f, f.slots[0], address, opcode, data);
    var offset := 2;
    var mnemonic := BranchName(((opcode >> 8) & 0x0F) as bv4);
    var displacement := LowByte(opcode);
    if displacement == 0 {
      BranchStep(data, address, 2, 2, displacement, mnemonic + ".W displacement");
      var _ :- RequireLength(data, offset + 2, mnemonic + ".W displacement");
      var displacement16 := Signed(WordAt(data, offset) as int, 0x1_0000);
      assert WordAt(data[2..4], 0) == WordAt(data, 2);
      offset := offset + 2;
      SetBranch(data, inst, offset, mnemonic + ".W", displacement16);
    } else if displacement == 0xFF {
      BranchStep(data, address, 2, 4, displacement, mnemonic + ".L displacement");
      var _ :- RequireLength(data, offset + 4, mnemonic + ".L displacement");
      var displacement32 := Signed(LongAt(data, offset), 0x1_0000_0000);
      assert LongAt(data[2..6], 0) == LongAt(data, 2);
      offset := offset + 4;
      SetBranch(data, inst, offset, mnemonic + ".L", displacement32);
    } else {
      BranchStep(data, address, 2, 0, displacement, "");
      SetBranch(data, inst, offset, mnemonic + ".S", Signed(displacement as int, 0x100));
    }
    return Ok(());
  }

  method DecodeCMP(data: seq<byte>, opcode: word, inst: Instruction) returns (r: Status)
    requires |data| >= 2 && inst.opcode == opcode
    modifies inst
    ensures Meets(CmpForm(opcode), old(inst.address), opcode, data, r, inst.View())
  {
    hide Interpret;
    var opmode := ((opcode >> 6) & 0x7) as bv3;
    if opcode & 0xF138 == 0xB108 {
      r := DecodeCMPM(data, opcode, inst);
      return;
    }
    if opmode == 3 || opmode == 7 {
      r := DecodeAddressRegisterArithmetic("CMP", data, opcode, inst);
      return;
    }
    if 4 <= opmode <= 6 {
      r := DecodeDirectedBinaryOp("EOR", data, opcode, inst);
      return;
    }
    var sizeStr := GetSizeString(opmode as bv2);
    var sizeBytes := OperandSize(opmode as bv2, "CMP");
    assert sizeBytes.Ok?;  // the sub-dispatch leaves sizes 0 to 2 only
    r := DecodeEaToRegister(CmpForm(opcode), "CMP." + sizeStr, data, opcode, inst, sizeBytes.value, DataRegister);
  }

  /** CMPM, and ABCD and SBCD in their memory form: two operands built from the opcode alone. */
  method SetTwoFixed(ghost f: Form, mnemonic: string, data: seq<byte>, opcode: word, inst: Instruction, src: Operand,
                     dst: Operand)
    returns (r: Status)
    requires |data| >= 2 && inst.opcode == opcode
    requires f == Form(mnemonic, [Fixed(src), Fixed(dst)], false) && FormOk(f)
    modifies inst
    ensures Meets(f, old(inst.address), opcode, data, r, inst.View())
  {
    hide Step, Assemble, Interpret, Join, Texts, SlotOk;
    ghost var address := inst.address;
    InterpretTwo(f, Fixed(src), Fixed(dst), address, opcode, data);
    FixedStep(src, address, data, 2);
    FixedStep(dst, address, data, 2);
    JoinOperandTexts(src, dst);
    SetInstruction(data, inst, 2, mnemonic, src.text + ", " + dst.text, [src, dst]);
    return Ok(());
  }

  method DecodeCMPM(data: seq<byte>, opcode: word, inst: Instruction) returns (r: Status)
    requires |data| >= 2 && inst.opcode == opcode && IsCmpm(opcode)
    modifies inst
    ensures Meets(CmpForm(opcode), old(inst.address), opcode, data, r, inst.View())
  {
    hide Interpret, SlotOk;
    var sizeBits := ((opcode >> 6) & 0x3) as bv2;
    var srcReg := (opcode & 0x7) as regnum;
    var dstReg := ((opcode >> 9) & 0x7) as regnum;
    r := SetTwoFixed(CmpForm(opcode), "CMPM." + GetSizeString(sizeBits), data, opcode, inst,
                     PostIncrementOperand(srcReg), PostIncrementOperand(dstReg));
  }

  method DecodeBCD(mn: string, data: seq<byte>, opcode: word, inst: Instruction) returns (r: Status)
    requires |data| >= 2 && inst.opcode == opcode
    modifies inst
    ensures Meets(BcdForm(mn, opcode), old(inst.address), opcode, data, r, inst.View())
  {
    hide Interpret, SlotOk;
    var srcReg := (opcode & 0x7) as regnum;
    var dstReg := ((opcode >> 9) & 0x7) as regnum;
    var addressingMode := (opcode >> 3) & 0x1;
    if addressingMode == 0 {
      r := SetTwoFixed(BcdForm(mn, opcode), mn, data, opcode, inst,
                       RegisterOperand(DataRegister, srcReg), RegisterOperand(DataRegister, dstReg));
      return;
    }
    r := SetTwoFixed(BcdForm(mn, opcode), mn, data, opcode, inst,
                     PreDecrementOperand(srcReg), PreDecrementOperand(dstReg));
  }

  method DecodeShiftRotate(data: seq<byte>, opcode: word, inst: Instruction) returns (r: Status)
    requires |data| >= 2 && inst.opcode == opcode
    modifies inst
    ensures Meets(ShiftForm(opcode), old(inst.address), opcode, data, r, inst.View())
  {
    hide DecodeAddressingMode, Step, Assemble, Interpret, Join, Texts, SlotOk, Immediate, Dec;
    ghost var address := inst.address;
    ghost var f := ShiftForm(opcode);
    var direction := (opcode >> 8) & 0x1;
    var size := ((opcode >> 6) & 0x3) as bv2;
    var reg := (opcode & 0x7) as regnum;
    var rotType := ((opcode >> 9) & 0x7) as regnum;
    var countIsReg := (opcode >> 5) & 0x1;
    var dirStr := if direction == 0 then "R" else "L";
    if rotType <= 3 {
      var mnemonic := ShiftName(rotType as bv2) + dirStr + "." + GetSizeString(size);
      var target := RegisterOperand(DataRegister, reg);
      if countIsReg == 0 {
        var count := if rotType == 0 then 8 else rotType as int;
        r := SetTwoFixed(f, mnemonic, data, opcode, inst, CountOperand(count), target);
      } else {
        r := SetTwoFixed(f, mnemonic, data, opcode, inst, RegisterOperand(DataRegister, rotType), target);
      }
      return;
    }
    InterpretOne(f, SourceEa(opcode, 2), address, opcode, data);
    EaStep(data, address, 2, Mode(opcode), reg, 2);
    var parts :- DecodeAddressingMode(data[2..], ((opcode >> 3) & 0x7) as bv3, reg, 2);
    JoinOperandTexts(parts.operand, NO_OPERAND);
    SetInstruction(data, inst, 2 + parts.extraWords * 2, ShiftName(size) + dirStr + ".W", parts.text, [parts.operand]);
    return Ok(());
  }

  method DecodeSTOP(data: seq<byte>, opcode: word, inst: Instruction) returns (r: Status)
    requires |data| >= 2 && inst.opcode == opcode
    modifies inst
    ensures Meets(FormOf(STOP, opcode), old(inst.address), opcode, data, r, inst.View())
  {
    hide Step, Assemble, Interpret, Join, Texts, SlotOk, FormatImmediate, Immediate;
    ghost var address := inst.address;
    InterpretOne(FormOf(STOP, opcode), Data(2, "STOP immediate"), address, opcode, data);
    assert "STOP" + " immediate" == "STOP immediate";
    DataStep(data, address, 2, 2, "STOP");
    var _ :- RequireLength(data, 4, "STOP immediate");
    var immediate := WordAt(data, 2) as int;
    var immText := "#" + FormatImmediate(immediate, 2);
    var immMeta := ImmediateOperand(immText, immediate, 2);
    JoinOperandTexts(immMeta, NO_OPERAND);
    SetInstruction(data, inst, 4, "STOP", immText, [immMeta]);
    return Ok(());
  }

  /** TRAP and SWAP: one operand from the opcode. */
  method SetOneFixed(ghost f: Form, mnemonic: string, data: seq<byte>, opcode: word, inst: Instruction, o: Operand)
    returns (r: Status)
    requires |data| >= 2 && inst.opcode == opcode
    requires f.mnemonic == mnemonic && f.slots == [Fixed(o)] && FormOk(f)
    modifies inst
    ensures Meets(f, old(inst.address), opcode, data, r, inst.View())
  {
    hide Step, Assemble, Interpret, Join, Texts, SlotOk;
    InterpretOne(f, Fixed(o), inst.address, opcode, data);
    FixedStep(o, inst.address, data, 2);
    JoinOperandTexts(o, NO_OPERAND);
    SetInstruction(data, inst, 2, mnemonic, o.text, [o]);
    return Ok(());
  }

  /** The call through the function pointer of a table entry. */
  method Run(d: Decoder, data: seq<byte>, opcode: word, inst: Instruction) returns (r: Status)
    requires |data| >= 2 && inst.opcode == opcode
    modifies inst
    ensures Meets(FormOf(d, opcode), old(inst.address), opcode, data, r, inst.View())
  {
    hide Interpret, SlotOk, BitForm, ImmediateForm, MoveForm, MovemForm, BranchForm, BcdForm, DirectedForm,
      ArithmeticForm, CmpForm, ShiftForm, EaForm, RegisterOperand, CountOperand, QuickOperand;
    var suffix := "." + GetSizeString(((opcode >> 6) & 0x3) as bv2);
    match d
    case BTST => r := DecodeBitset("BTST", data, opcode, inst);
    case BCHG => r := DecodeBitset("BCHG", data, opcode, inst);
    case BCLR => r := DecodeBitset("BCLR", data, opcode, inst);
    case BSET => r := DecodeBitset("BSET", data, opcode, inst);
    case ADDI => r := DecodeImmediateBinaryOp("ADDI", data, opcode, inst, true);
    case SUBI => r := DecodeImmediateBinaryOp("SUBI", data, opcode, inst, true);
    case ANDI => r := DecodeImmediateBinaryOp("ANDI", data, opcode, inst, false);
    case ORI => r := DecodeImmediateBinaryOp("ORI", data, opcode, inst, false);
    case EORI => r := DecodeImmediateBinaryOp("EORI", data, opcode, inst, false);
    case CMPI => r := DecodeImmediateBinaryOp("CMPI", data, opcode, inst, false);
    case MOVE => r := DecodeMOVE(data, opcode, inst);
    case NOP => r := DecodePlain("NOP", data, opcode, inst);
    case RTS => r := DecodePlain("RTS", data, opcode, inst);
    case TRAPV => r := DecodePlain("TRAPV", data, opcode, inst);
    case STOP => r := DecodeSTOP(data, opcode, inst);
    case TRAP => r := SetOneFixed(FormOf(d, opcode), "TRAP", data, opcode, inst,
                                  CountOperand(((opcode & 0xF) as bv4) as int));
    case MOVEM => r := DecodeMOVEM(data, opcode, inst);
    case CLR => r := DecodeSingleOp("CLR" + suffix, data, opcode, inst);
    case NEG => r := DecodeSingleOp("NEG" + suffix, data, opcode, inst);
    case NEGX => r := DecodeSingleOp("NEGX" + suffix, data, opcode, inst);
    case NOT => r := DecodeSingleOp("NOT" + suffix, data, opcode, inst);
    case TST => r := DecodeSingleOp("TST" + suffix, data, opcode, inst);
    case JSR => r := DecodeSingleOp("JSR", data, opcode, inst);
    case JMP => r := DecodeSingleOp("JMP", data, opcode, inst);
    case PEA => r := DecodeSingleOp("PEA", data, opcode, inst);
    case LEA => r := DecodeEaToRegister(FormOf(d, opcode), "LEA", data, opcode, inst, 2, AddressRegister);
    case SWAP =>
      r := SetOneFixed(FormOf(d, opcode), "SWAP", data, opcode, inst,
                       RegisterOperand(DataRegister, (opcode & 0x7) as regnum));
    case BXX => r := DecodeBxx(data, opcode, inst);
    case MOVEQ => r := DecodeMOVEQ(data, opcode, inst);
    case SBCD => r := DecodeBCD("SBCD", data, opcode, inst);
    case ABCD => r := DecodeBCD("ABCD", data, opcode, inst);
    case DIVU => r := DecodeEaToRegister(FormOf(d, opcode), "DIVU", data, opcode, inst, 2, DataRegister);
    case DIVS => r := DecodeEaToRegister(FormOf(d, opcode), "DIVS", data, opcode, inst, 2, DataRegister);
    case MULU => r := DecodeEaToRegister(FormOf(d, opcode), "MULU", data, opcode, inst, 2, DataRegister);
    case MULS => r := DecodeEaToRegister(FormOf(d, opcode), "MULS", data, opcode, inst, 2, DataRegister);
    case OR => r := DecodeDirectedBinaryOp("OR", data, opcode, inst);
    case AND => r := DecodeDirectedBinaryOp("AND", data, opcode, inst);
    case ADD => r := DecodeArithmetic("ADD", data, opcode, inst);
    case SUB => r := DecodeArithmetic("SUB", data, opcode, inst);
    case CMP => r := DecodeCMP(data, opcode, inst);
    case SHIFT => r := DecodeShiftRotate(data, opcode, inst);
  }
}
