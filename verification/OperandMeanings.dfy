/** What the structured operands of a decoded instruction are, stated from opcode bits and bytes. */
module OperandMeanings {
  import opened Wrappers
  import opened Words
  import opened Text
  import opened Model
  import opened EffectiveAddresses
  import opened EaText
  import opened Forms
  import opened FormLaws
  import opened InstructionSet
  import opened Dispatch
  import opened OpcodeLaws
  import opened FixedOperands
  import opened MoveCodec
  import opened Slices
  import opened InstructionCodec

  // ---- numbers ----

  function Range(size: nat): nat {
    if size == 1 then 0x100 else if size == 2 then 0x1_0000 else 0x1_0000_0000
  }

  /** An immediate of this many bytes. */
  predicate ImmediateMeans(v: ImmediateValue, bytes: seq<byte>) {
    v.value == BigEndian(bytes) && v.size == |bytes| && Extends(v.signed, v.value, Range(|bytes|))
  }

  lemma ImmediateIs(value: uint32, bytes: seq<byte>)
    requires |bytes| in {1, 2, 4} && value == BigEndian(bytes) && value < Range(|bytes|)
    ensures ImmediateMeans(Immediate(value, |bytes|), bytes)
  {
    hide BigEndian, Extends;
    SignedExtends(value, Range(|bytes|));
  }

  // ---- effective addresses ----

  /** Register of a brief extension word: A or D in bit 15, number in bits 14 to 12, size in bit 11. */
  predicate IndexMeans(x: IndexRegister, hi: byte) {
    && x.register.kind == (if hi & 0x80 != 0 then AddressRegister else DataRegister)
    && x.register.number == ((hi >> 4) & 0x7) as regnum
    && x.size == if hi & 0x08 != 0 then "L" else "W"
  }

  /** What an address with this mode and register is, its extension words being `field`. */
  predicate EaMeans(ea: EffectiveAddress, mode: bv3, reg: regnum, size: nat, field: seq<byte>)
    requires |field| <= 4
  {
    var a, pc := Some(Register(AddressRegister, reg)), Some(Register(ProgramCounter, 0));
    && ea.mode == mode && ea.register == reg
    && if mode == 0 then
         ea == EffectiveAddress(DataRegisterDirect, 0, reg, Some(Register(DataRegister, reg)), None, None, None, None,
                                None)
       else if mode == 1 then ea == EffectiveAddress(AddressRegisterDirect, 1, reg, a, None, None, None, None, None)
       else if mode == 2 then ea == EffectiveAddress(AddressIndirect, 2, reg, a, None, None, None, None, None)
       else if mode == 3 then ea == EffectiveAddress(PostIncrement, 3, reg, a, None, None, None, None, None)
       else if mode == 4 then ea == EffectiveAddress(PreDecrement, 4, reg, a, None, None, None, None, None)
       else if mode == 5 then
         && |field| == 2 && ea.displacement.Some? && Extends(ea.displacement.value, BigEndian(field), 0x1_0000)
         && ea == EffectiveAddress(Displacement, 5, reg, a, ea.displacement, None, None, None, None)
       else if mode == 6 then
         && |field| == 2 && ea.displacement.Some? && Extends(ea.displacement.value, field[1] as int, 0x100)
         && ea.index.Some? && IndexMeans(ea.index.value, field[0])
         && ea == EffectiveAddress(Index, 6, reg, a, ea.displacement, None, None, None, ea.index)
       else if reg == 0 then
         && |field| == 2 && ea.absoluteAddress.Some? && ea.absoluteAddress.value == BigEndian(field)
         && ea == EffectiveAddress(AbsoluteShort, 7, 0, None, None, ea.absoluteAddress, ea.absoluteAddress, None, None)
       else if reg == 1 then
         && |field| == 4 && ea.absoluteAddress.Some? && ea.absoluteAddress.value == BigEndian(field)
         && ea == EffectiveAddress(AbsoluteLong, 7, 1, None, None, ea.absoluteAddress, ea.absoluteAddress, None, None)
       else if reg == 2 then
         && |field| == 2 && ea.displacement.Some? && Extends(ea.displacement.value, BigEndian(field), 0x1_0000)
         && ea == EffectiveAddress(PCDisplacement, 7, 2, pc, ea.displacement, None, None, None, None)
       else if reg == 3 then
         && |field| == 2 && ea.displacement.Some? && Extends(ea.displacement.value, field[1] as int, 0x100)
         && ea.index.Some? && IndexMeans(ea.index.value, field[0])
         && ea == EffectiveAddress(PCIndex, 7, 3, pc, ea.displacement, None, None, None, ea.index)
       else
         && |field| == (if size == 4 then 4 else 2) && size in {1, 2, 4}
         && ea.immediate.Some? && ImmediateMeans(ea.immediate.value, field[|field| - size..])
         && ea == EffectiveAddress(ImmediateData, 7, 4, None, None, None, None, ea.immediate, None)
  }

  lemma DisplacementMeans(field: seq<byte>)
    requires |field| == 2
    ensures Extends(WordDisplacement(field), BigEndian(field), 0x1_0000)
  {
    hide BigEndian, WordAt, Signed, Extends;
    BigEndianWord(field);
    SignedExtends(WordAt(field, 0) as int, 0x1_0000);
  }

  lemma IndexedMeans(field: seq<byte>)
    requires |field| == 2
    ensures Extends(ByteDisplacement(field), field[1] as int, 0x100)
    ensures IndexMeans(IndexRegisterOf(field), field[0])
  {
    hide Word, Signed, Extends, LowByte;
    IndexBits(field[0], field[1]);
    SignedExtends(field[1] as int, 0x100);
    assert ['L'] == "L" && ['W'] == "W";
  }

  lemma ImmediateFieldMeans(field: seq<byte>, size: nat)
    requires size in {1, 2, 4} && |field| == (if size == 4 then 4 else 2)
    ensures var ea := EaOf(field, 7, 4, size);
            ea.immediate.Some? && ImmediateMeans(ea.immediate.value, field[|field| - size..])
            && ea == EffectiveAddress(ImmediateData, 7, 4, None, None, None, None, ea.immediate, None)
  {
    hide BigEndian, WordAt, LongAt, LowByte, Immediate, ImmediateMeans;
    var bytes := field[|field| - size..];
    if size == 4 {
      assert bytes == field;
      BigEndianLong(field);
      ImmediateIs(LongAt(field, 0), bytes);
    } else if size == 2 {
      assert bytes == field;
      BigEndianWord(field);
      ImmediateIs(WordAt(field, 0) as int, bytes);
    } else {
      assert bytes == [field[1]];
      LowByteOfField(field);
      BigEndianByte(field[1]);
      ImmediateIs(field[1] as int, bytes);
    }
  }

  /** The structured address of every form, from mode, register, size and the bytes of its field. */
  lemma EaMeaning(field: seq<byte>, mode: bv3, reg: regnum, size: nat)
    requires size in {1, 2, 4} && EaFault(mode, reg, size).None? && |field| == EaWidth(mode, reg, size)
    ensures EaMeans(EaOf(field, mode, reg, size), mode, reg, size, field)
  {
    hide BigEndian, WordAt, LongAt, LowByte, Immediate, ImmediateMeans, Extends, IndexMeans, WordDisplacement,
      ByteDisplacement, IndexRegisterOf;
    if mode == 5 || (mode == 7 && reg == 2) {
      DisplacementMeans(field);
    } else if mode == 6 || (mode == 7 && reg == 3) {
      IndexedMeans(field);
    } else if mode == 7 && reg == 0 {
      BigEndianWord(field);
    } else if mode == 7 && reg == 1 {
      BigEndianLong(field);
    } else if mode == 7 {
      ImmediateFieldMeans(field, size);
    }
  }

  // ---- operands of decoded instructions ----

  lemma OneSlot(data: seq<byte>, address: uint32, opts: Options, s: Slot)
    requires Slice(data, address, opts).Decoding? && |data| >= 2 && FormFor(WordAt(data, 0)).slots == [s]
    ensures SlotOk(s) && SlotFault(s).None? && 2 + SlotWidth(s) <= |data|
    ensures Slice(data, address, opts).inst.metadata.operands
            == [ReadSlot(s, address, 2 + SlotWidth(s), data[2..2 + SlotWidth(s)])]
  {
    hide FormFor, ReadSlot, Slice, Finalized, Assemble, EaFault, EaWidth, EaContext;
    SliceIsWalk(data, address, opts);
    var f := FormFor(WordAt(data, 0));
    assert s in f.slots;
    WalkOne(s, |data|, 2);
    ReadOne(s, address, data, 2);
    OperandsOfSlice(data, address, opts);
  }

  lemma TwoSlots(data: seq<byte>, address: uint32, opts: Options, s: Slot, t: Slot)
    requires Slice(data, address, opts).Decoding? && |data| >= 2 && FormFor(WordAt(data, 0)).slots == [s, t]
    ensures SlotOk(s) && SlotFault(s).None? && SlotOk(t) && SlotFault(t).None?
    ensures 2 + SlotWidth(s) + SlotWidth(t) <= |data|
    ensures var mid, end := 2 + SlotWidth(s), 2 + SlotWidth(s) + SlotWidth(t);
            Slice(data, address, opts).inst.metadata.operands
            == Pair(FormFor(WordAt(data, 0)).swapped, ReadSlot(s, address, mid, data[2..mid]),
                    ReadSlot(t, address, end, data[mid..end]))
  {
    hide FormFor, ReadSlot, Slice, Finalized, Assemble, EaFault, EaWidth, EaContext;
    SliceIsWalk(data, address, opts);
    var f := FormFor(WordAt(data, 0));
    assert s in f.slots && t in f.slots;
    WalkTwo(s, t, |data|, 2);
    ReadTwo(s, t, address, data, 2);
    OperandsOfSlice(data, address, opts);
  }

  lemma OperandsOfSlice(data: seq<byte>, address: uint32, opts: Options)
    requires Slice(data, address, opts).Decoding? && |data| >= 2
    ensures var f := FormFor(WordAt(data, 0));
            && Walk(f.slots, |data|, 2).Fits?
            && Slice(data, address, opts).inst.metadata.operands
               == Ordered(f.swapped, ReadSlots(f.slots, address, data, 2))
  {
    hide FormFor, ReadSlots, Slice, Ordered, Finalized, Assemble;
    SliceIsWalk(data, address, opts);
    var f := FormFor(WordAt(data, 0));
    var end, os := Walk(f.slots, |data|, 2).end, Ordered(f.swapped, ReadSlots(f.slots, address, data, 2));
    AssembledOver(address, WordAt(data, 0), WordAt(data, 0), data[..end], data[..end], f.mnemonic, os, opts);
  }

  // ---- the source address ----

  /** Operand size of the address in bits 5 to 0. */
  function SourceSize(d: Decoder, op: word): nat {
    if d == MOVE then
      if op & 0xF000 == 0x1000 then 1 else if op & 0xF000 == 0x3000 then 2 else 4
    else if d in {OR, AND, ADD, SUB, CMP} then
      if op & 0x01C0 == 0x01C0 then 4
      else if op & 0x00C0 == 0x0000 then 1 else if op & 0x00C0 == 0x0080 then 4 else 2
    else 2
  }

  /** Bytes between the opcode word and the extension words of that address. */
  function Lead(d: Decoder, op: word): nat {
    if d in {ADDI, SUBI} && op & 0x00C0 == 0x0080 then 4
    else if d in {ADDI, SUBI, ANDI, ORI, EORI, CMPI, MOVEM} then 2
    else if d in {BTST, BCHG, BCLR, BSET} && op & 0x0100 == 0 then 2
    else 0
  }

  /** Its place among the printed operands. */
  function SourceIndex(d: Decoder, op: word): nat {
    if d in {ADDI, SUBI, ANDI, ORI, EORI, CMPI, BTST, BCHG, BCLR, BSET} then 1
    else if d == MOVEM then (if op & 0x0400 == 0 then 1 else 0)
    else if d in {OR, AND, ADD, SUB, CMP} && op & 0x0100 != 0 && op & 0x01C0 != 0x01C0 then 1
    else 0
  }

  predicate SourceAt(f: Form, op: word, size: nat, lead: nat, index: nat) {
    && size in {1, 2, 4}
    && (|| (f.slots == [SourceEa(op, size)] && lead == 0 && index == 0)
        || (&& |f.slots| == 2 && f.slots[0] == SourceEa(op, size) && lead == 0
            && index == (if f.swapped then 1 else 0))
        || (&& |f.slots| == 2 && f.slots[1] == SourceEa(op, size) && lead == SlotWidth(f.slots[0])
            && index == (if f.swapped then 0 else 1)))
  }

  lemma OpcodeBitsAre(op: word)
    ensures SizeField(op) == 0 <==> op & 0x00C0 == 0x0000
    ensures SizeField(op) == 2 <==> op & 0x00C0 == 0x0080
    ensures SizeField(op) == 3 <==> op & 0x00C0 == 0x00C0
    ensures OpMode(op) == 7 <==> op & 0x01C0 == 0x01C0
    ensures OpMode(op) == 3 || OpMode(op) == 7 <==> op & 0x00C0 == 0x00C0
    ensures OpMode(op) == 3 ==> op & 0x0100 == 0
    ensures OpMode(op) >= 4 <==> op & 0x0100 != 0
    ensures Direction(op) <==> op & 0x0100 != 0
    ensures (op >> 10) & 0x1 != 0 <==> op & 0x0400 != 0
  {
  }

  lemma DirectedSource(d: Decoder, mn: string, op: word)
    requires d in {OR, AND, ADD, SUB, CMP} && SizeField(op) != 3
    ensures SourceAt(DirectedForm(mn, op), op, SourceSize(d, op), Lead(d, op), SourceIndex(d, op))
  {
    hide SourceEa, RegisterSlot, SizeName, Direction, SizeField;
    OpcodeBitsAre(op);
    NotAddressMode(op);
  }

  lemma NotAddressMode(op: word)
    ensures SizeField(op) != 3 ==> op & 0x01C0 != 0x01C0
  {
  }

  lemma AddressSource(d: Decoder, mn: string, op: word)
    requires d in {ADD, SUB, CMP} && (OpMode(op) == 3 || OpMode(op) == 7)
    ensures SourceAt(AddressForm(mn, op), op, SourceSize(d, op), Lead(d, op), SourceIndex(d, op))
  {
    hide SourceEa, RegisterSlot, OpMode;
    OpcodeBitsAre(op);
  }

  lemma ArithmeticSource(d: Decoder, mn: string, op: word)
    requires d in {ADD, SUB}
    ensures SourceAt(ArithmeticForm(mn, op), op, SourceSize(d, op), Lead(d, op), SourceIndex(d, op))
  {
    hide AddressForm, DirectedForm, OpMode, SizeField, SourceAt, SourceSize, Lead, SourceIndex;
    OpcodeBitsAre(op);
    if OpMode(op) == 3 || OpMode(op) == 7 {
      AddressSource(d, mn, op);
    } else {
      DirectedSource(d, mn, op);
    }
  }

  lemma CmpSource(op: word)
    requires !IsCmpm(op)
    ensures SourceAt(CmpForm(op), op, SourceSize(CMP, op), Lead(CMP, op), SourceIndex(CMP, op))
  {
    hide AddressForm, DirectedForm, OpMode, SizeField, SourceEa, RegisterSlot, SizeName, IsCmpm;
    OpcodeBitsAre(op);
    NotAddressMode(op);
    if OpMode(op) == 3 || OpMode(op) == 7 {
      AddressSource(CMP, "CMP", op);
    } else if OpMode(op) >= 4 {
      DirectedSource(CMP, "EOR", op);
    }
  }

  lemma ImmediateSource(d: Decoder, mn: string, op: word)
    requires d in {ADDI, SUBI, ANDI, ORI, EORI, CMPI} && SizeField(op) != 3
    ensures SourceAt(ImmediateForm(mn, op, d in {ADDI, SUBI}), op, SourceSize(d, op), Lead(d, op), SourceIndex(d, op))
  {
    hide SourceEa, SizeName, SizeField;
    OpcodeBitsAre(op);
  }

  lemma BitSource(d: Decoder, mn: string, op: word)
    requires d in {BTST, BCHG, BCLR, BSET}
    ensures SourceAt(BitForm(mn, op), op, SourceSize(d, op), Lead(d, op), SourceIndex(d, op))
  {
    hide SourceEa, Direction, RegisterOperand;
    OpcodeBitsAre(op);
  }

  lemma MovemSource(op: word)
    requires Mode(op) != 0 || Reg(op) != 0
    ensures SourceAt(MovemForm(op), op, SourceSize(MOVEM, op), Lead(MOVEM, op), SourceIndex(MOVEM, op))
  {
    hide SourceEa, Mode, Reg;
    OpcodeBitsAre(op);
  }

  lemma MoveSource(op: word)
    requires op & 0xF000 in {0x1000, 0x2000, 0x3000}
    ensures SourceAt(MoveForm(op), op, SourceSize(MOVE, op), Lead(MOVE, op), SourceIndex(MOVE, op))
  {
    hide SourceEa, OpMode, RegX, RegisterSlot, MoveSizeName, MoveSizeField;
    MoveNibbles(op);
  }

  lemma PlainSource(d: Decoder, mn: string, kind: RegisterKind, op: word)
    requires d in {CLR, NEG, NEGX, NOT, TST, JSR, JMP, PEA, LEA, DIVU, DIVS, MULU, MULS}
    ensures SourceAt(EaForm(mn, op), op, SourceSize(d, op), Lead(d, op), SourceIndex(d, op))
    ensures SourceAt(EaToRegisterForm(mn, op, kind), op, SourceSize(d, op), Lead(d, op), SourceIndex(d, op))
  {
    hide SourceEa, RegisterSlot;
    assert SourceSize(d, op) == 2 && Lead(d, op) == 0 && SourceIndex(d, op) == 0;
    hide SourceSize, Lead, SourceIndex;
  }

  lemma ShiftSource(op: word)
    requires RegX(op) > 3
    ensures SourceAt(ShiftForm(op), op, SourceSize(SHIFT, op), Lead(SHIFT, op), SourceIndex(SHIFT, op))
  {
    hide SourceEa, RegX, ShiftName, SizeField;
  }

  lemma PlainGroupSource(d: Decoder, op: word)
    requires d in {CLR, NEG, NEGX, NOT, TST, JSR, JMP, PEA, LEA, DIVU, DIVS, MULU, MULS}
    ensures SourceAt(FormOf(d, op), op, SourceSize(d, op), Lead(d, op), SourceIndex(d, op))
  {
    hide SourceAt, SourceSize, Lead, SourceIndex, DirectedForm, ArithmeticForm, CmpForm, BitForm, ShiftForm, MoveForm,
      MovemForm, EaForm, EaToRegisterForm, ImmediateForm, SizeName, SizeField, Mode, Reg, RegX, IsCmpm;
    var suffix := "." + SizeName(SizeField(op));
    match d
    case CLR => PlainSource(d, "CLR" + suffix, DataRegister, op);
    case NEG => PlainSource(d, "NEG" + suffix, DataRegister, op);
    case NEGX => PlainSource(d, "NEGX" + suffix, DataRegister, op);
    case NOT => PlainSource(d, "NOT" + suffix, DataRegister, op);
    case TST => PlainSource(d, "TST" + suffix, DataRegister, op);
    case JSR => PlainSource(d, "JSR", DataRegister, op);
    case JMP => PlainSource(d, "JMP", DataRegister, op);
    case PEA => PlainSource(d, "PEA", DataRegister, op);
    case LEA => PlainSource(d, "LEA", AddressRegister, op);
    case DIVU => PlainSource(d, "DIVU", DataRegister, op);
    case DIVS => PlainSource(d, "DIVS", DataRegister, op);
    case MULU => PlainSource(d, "MULU", DataRegister, op);
    case MULS => PlainSource(d, "MULS", DataRegister, op);
  }

  lemma ImmediateGroupSource(d: Decoder, op: word)
    requires d in {ADDI, SUBI, ANDI, ORI, EORI, CMPI, BTST, BCHG, BCLR, BSET}
    requires d in {ADDI, SUBI, ANDI, ORI, EORI, CMPI} ==> SizeField(op) != 3
    ensures SourceAt(FormOf(d, op), op, SourceSize(d, op), Lead(d, op), SourceIndex(d, op))
  {
    hide SourceAt, SourceSize, Lead, SourceIndex, DirectedForm, ArithmeticForm, CmpForm, BitForm, ShiftForm, MoveForm,
      MovemForm, EaForm, EaToRegisterForm, ImmediateForm, SizeName, SizeField, Mode, Reg, RegX, IsCmpm;
    match d
    case ADDI => ImmediateSource(d, "ADDI", op);
    case SUBI => ImmediateSource(d, "SUBI", op);
    case ANDI => ImmediateSource(d, "ANDI", op);
    case ORI => ImmediateSource(d, "ORI", op);
    case EORI => ImmediateSource(d, "EORI", op);
    case CMPI => ImmediateSource(d, "CMPI", op);
    case BTST => BitSource(d, "BTST", op);
    case BCHG => BitSource(d, "BCHG", op);
    case BCLR => BitSource(d, "BCLR", op);
    case BSET => BitSource(d, "BSET", op);
  }

  lemma SizedGroupSource(d: Decoder, op: word)
    requires d in {OR, AND, ADD, SUB, CMP, MOVE, MOVEM, SHIFT} && DecodesSource(d, op) && !SkipsIn(d, op)
    requires d in {OR, AND} ==> SizeField(op) != 3
    requires d == MOVE ==> op & 0xF000 in {0x1000, 0x2000, 0x3000}
    ensures SourceAt(FormOf(d, op), op, SourceSize(d, op), Lead(d, op), SourceIndex(d, op))
  {
    hide SourceAt, SourceSize, Lead, SourceIndex, DirectedForm, ArithmeticForm, CmpForm, BitForm, ShiftForm, MoveForm,
      MovemForm, EaForm, EaToRegisterForm, ImmediateForm, SizeName, SizeField, Mode, Reg, RegX, IsCmpm;
    match d
    case OR => DirectedSource(d, "OR", op);
    case AND => DirectedSource(d, "AND", op);
    case ADD => ArithmeticSource(d, "ADD", op);
    case SUB => ArithmeticSource(d, "SUB", op);
    case CMP => CmpSource(op);
    case MOVE => MoveSource(op);
    case MOVEM => MovemSource(op);
    case SHIFT => ShiftSource(op);
  }

  /** Where the form of an opcode has the address of bits 5 to 0. */
  lemma SourceOf(op: word, d: Decoder)
    requires Lookup(op) == Some(d) && DecodesSource(d, op) && !SkipsIn(d, op)
    requires d in {ADDI, SUBI, ANDI, ORI, EORI, CMPI} ==> SizeField(op) != 3
    ensures SourceAt(FormFor(op), op, SourceSize(d, op), Lead(d, op), SourceIndex(d, op))
  {
    hide Lookup, FormOf, SourceAt, SourceSize, Lead, SourceIndex, SizeField, IsCmpm, RegX, SkipsIn;
    if d == MOVE {
      MoveHasSize(op);
    } else if d == OR {
      OrHasSize(op);
    } else if d == AND {
      AndHasSize(op);
    }
    if d in {ADDI, SUBI, ANDI, ORI, EORI, CMPI, BTST, BCHG, BCLR, BSET} {
      ImmediateGroupSource(d, op);
    } else if d in {OR, AND, ADD, SUB, CMP, MOVE, MOVEM, SHIFT} {
      SizedGroupSource(d, op);
    } else {
      PlainGroupSource(d, op);
    }
  }

  /** An opcode with a hard error never decodes. */
  lemma DecodedHasNoFault(data: seq<byte>, address: uint32, opts: Options)
    requires Slice(data, address, opts).Decoding? && |data| >= 2
    ensures HardFault(WordAt(data, 0)).None?
  {
    hide HardFault, Slice, OpcodeLength;
    SliceLength(data, address, opts);
    OpcodeLengthNone(WordAt(data, 0));
  }

  lemma OpcodeLengthNone(op: word)
    ensures OpcodeLength(op).None? <==> HardFault(op).Some?
  {
    hide HardFault, FormFor;
  }

  lemma ImmediateHasSizeField(op: word, d: Decoder)
    requires Lookup(op) == Some(d) && HardFault(op).None?
    ensures d in {ADDI, SUBI, ANDI, ORI, EORI, CMPI} ==> SizeField(op) != 3
  {
    hide Lookup, DecodesSource, BadEa, SizeField;
  }

  /** In every decoded instruction with an address in bits 5 to 0, the operand in its place is that address,
      read at its size from the bytes behind the fields before it. */
  lemma SourceDenotes(data: seq<byte>, address: uint32, opts: Options, d: Decoder)
    requires Slice(data, address, opts).Decoding? && |data| >= 2 && Lookup(WordAt(data, 0)) == Some(d)
    requires DecodesSource(d, WordAt(data, 0)) && !SkipsIn(d, WordAt(data, 0))
    ensures var op := WordAt(data, 0);
            var os := Slice(data, address, opts).inst.metadata.operands;
            var start := 2 + Lead(d, op);
            var end := start + EaWidth(Mode(op), Reg(op), SourceSize(d, op));
            && SourceIndex(d, op) < |os| && end <= |data|
            && os[SourceIndex(d, op)].effectiveAddress.Some?
            && EaMeans(os[SourceIndex(d, op)].effectiveAddress.value, Mode(op), Reg(op), SourceSize(d, op),
                       data[start..end])
  {
    hide Slice, FormFor, Lookup, DecodesSource, SkipsIn, SourceSize, Lead, SourceIndex, ReadSlot, EaMeans, EaWidth,
      EaFault, Mode, Reg, SizeField, HardFault, EaContext;
    var op, f := WordAt(data, 0), FormFor(WordAt(data, 0));
    DecodedHasNoFault(data, address, opts);
    ImmediateHasSizeField(op, d);
    SourceOf(op, d);
    var size, start := SourceSize(d, op), 2 + Lead(d, op);
    var s := SourceEa(op, size);
    if |f.slots| == 1 {
      OneSlot(data, address, opts, s);
    } else {
      assert f.slots == [f.slots[0], f.slots[1]];
      TwoSlots(data, address, opts, f.slots[0], f.slots[1]);
    }
    var end := start + EaWidth(Mode(op), Reg(op), size);
    EaOperandMeans(Mode(op), Reg(op), size, address, end, data[start..end]);
  }

  lemma EaOperandMeans(mode: bv3, reg: regnum, size: nat, address: uint32, end: nat, field: seq<byte>)
    requires size in {1, 2, 4} && EaFault(mode, reg, size).None? && |field| == EaWidth(mode, reg, size)
    ensures |field| <= 4
    ensures var o := ReadSlot(Ea(mode, reg, size), address, end, field);
            o.effectiveAddress.Some? && EaMeans(o.effectiveAddress.value, mode, reg, size, field)
  {
    hide DecodeAddressingMode, EaOf, EaMeans, EaFault;
    DecodesAsEaOf(field, mode, reg, size);
    EaMeaning(field, mode, reg, size);
  }

  /** The second address of a MOVE: mode in bits 8 to 6, register in bits 11 to 9, behind the first one. */
  lemma DestinationDenotes(data: seq<byte>, address: uint32, opts: Options)
    requires Slice(data, address, opts).Decoding? && |data| >= 2 && Lookup(WordAt(data, 0)) == Some(MOVE)
    requires OpMode(WordAt(data, 0)) != 1
    ensures var op := WordAt(data, 0);
            var os := Slice(data, address, opts).inst.metadata.operands;
            var start := 2 + EaWidth(Mode(op), Reg(op), SourceSize(MOVE, op));
            var end := start + EaWidth(OpMode(op), RegX(op), 2);
            && |os| == 2 && end <= |data| && os[1].effectiveAddress.Some?
            && EaMeans(os[1].effectiveAddress.value, OpMode(op), RegX(op), 2, data[start..end])
  {
    hide Slice, FormFor, Lookup, ReadSlot, EaMeans, EaWidth, EaFault, Mode, Reg, OpMode, RegX, SourceSize, EaContext,
      MoveForm;
    var op := WordAt(data, 0);
    MoveHasSize(op);
    MoveSlots(op);
    FormOfMove(op);
    TwoSlots(data, address, opts, SourceEa(op, SourceSize(MOVE, op)), Ea(OpMode(op), RegX(op), 2));
    var start := 2 + EaWidth(Mode(op), Reg(op), SourceSize(MOVE, op));
    var end := start + EaWidth(OpMode(op), RegX(op), 2);
    EaOperandMeans(OpMode(op), RegX(op), 2, address, end, data[start..end]);
  }

  lemma FormOfMove(op: word)
    requires Lookup(op) == Some(MOVE)
    ensures FormFor(op) == MoveForm(op)
  {
    hide Lookup, MoveForm;
  }

  lemma MoveSlots(op: word)
    requires op & 0xF000 in {0x1000, 0x2000, 0x3000} && OpMode(op) != 1
    ensures SourceSize(MOVE, op) in {1, 2, 4}
    ensures MoveForm(op).slots == [SourceEa(op, SourceSize(MOVE, op)), Ea(OpMode(op), RegX(op), 2)]
    ensures !MoveForm(op).swapped
  {
    hide OpMode, RegX, Mode, Reg, MoveSizeField, MoveSizeName;
    MoveNibbles(op);
  }

  // ---- immediates in fields of their own ----

  lemma DataMeans(size: nat, context: string, address: uint32, end: nat, field: seq<byte>)
    requires size in {2, 4} && |field| == size
    ensures var o := ReadSlot(Data(size, context), address, end, field);
            o.immediate.Some? && ImmediateMeans(o.immediate.value, field)
  {
    hide FormatImmediate, Immediate, BigEndian, ImmediateMeans, WordAt, LongAt;
    if size == 2 {
      BigEndianWord(field);
      ImmediateIs(WordAt(field, 0) as int, field);
    } else {
      BigEndianLong(field);
      ImmediateIs(LongAt(field, 0), field);
    }
  }

  lemma BitNumberMeans(context: string, address: uint32, end: nat, field: seq<byte>)
    requires |field| == 2
    ensures var o := ReadSlot(BitNumber(context), address, end, field);
            o.immediate.Some? && ImmediateMeans(o.immediate.value, field[1..])
  {
    hide Dec, Immediate, BigEndian, ImmediateMeans, WordAt, LowByte;
    LowByteOfField(field);
    assert field[1..] == [field[1]];
    BigEndianByte(field[1]);
    ImmediateIs(field[1] as int, field[1..]);
  }

  /** ADDI and SUBI take four immediate bytes for .L and two otherwise; ANDI, ORI, EORI, CMPI and STOP take
      two. The first operand is the big-endian number in them. */
  lemma ImmediateDenotesBytes(data: seq<byte>, address: uint32, opts: Options, d: Decoder)
    requires Slice(data, address, opts).Decoding? && |data| >= 2 && Lookup(WordAt(data, 0)) == Some(d)
    requires d in {ADDI, SUBI, ANDI, ORI, EORI, CMPI, STOP}
    ensures var op := WordAt(data, 0);
            var os := Slice(data, address, opts).inst.metadata.operands;
            var end := 2 + (if d in {ADDI, SUBI} && op & 0x00C0 == 0x0080 then 4 else 2);
            && os != [] && end <= |data| && os[0].immediate.Some?
            && ImmediateMeans(os[0].immediate.value, data[2..end])
  {
    hide Slice, FormFor, FormOf, Lookup, ReadSlot, SizeField, HardFault, EaWidth, EaFault, EaContext, ImmediateMeans;
    var op, f := WordAt(data, 0), FormFor(WordAt(data, 0));
    DecodedHasNoFault(data, address, opts);
    ImmediateHasSizeField(op, d);
    FormIsOf(op, d);
    DataSlotFirst(d, op);
    var width := if d in {ADDI, SUBI} && op & 0x00C0 == 0x0080 then 4 else 2;
    if |f.slots| == 1 {
      assert f.slots == [f.slots[0]];
      OneSlot(data, address, opts, f.slots[0]);
    } else {
      assert f.slots == [f.slots[0], f.slots[1]];
      TwoSlots(data, address, opts, f.slots[0], f.slots[1]);
    }
    DataMeans(width, f.slots[0].context, address, 2 + width, data[2..2 + width]);
  }

  lemma FormIsOf(op: word, d: Decoder)
    requires Lookup(op) == Some(d)
    ensures FormFor(op) == FormOf(d, op)
  {
    hide Lookup, FormOf;
  }

  lemma DataSlotFirst(d: Decoder, op: word)
    requires d in {ADDI, SUBI, ANDI, ORI, EORI, CMPI, STOP} && (d != STOP ==> SizeField(op) != 3)
    ensures var f := FormOf(d, op);
            && 1 <= |f.slots| <= 2 && !f.swapped && f.slots[0].Data?
            && f.slots[0].size == if d in {ADDI, SUBI} && op & 0x00C0 == 0x0080 then 4 else 2
  {
    hide SourceEa, SizeName, SizeField;
    OpcodeBitsAre(op);
  }

  /** A bit number is the low byte of its word. */
  lemma BitNumberDenotesByte(data: seq<byte>, address: uint32, opts: Options, d: Decoder)
    requires Slice(data, address, opts).Decoding? && |data| >= 2 && Lookup(WordAt(data, 0)) == Some(d)
    requires d in {BTST, BCHG, BCLR, BSET} && WordAt(data, 0) & 0x0100 == 0
    ensures var os := Slice(data, address, opts).inst.metadata.operands;
            && |os| == 2 && 4 <= |data| && os[0].immediate.Some?
            && ImmediateMeans(os[0].immediate.value, data[3..4])
  {
    hide Slice, FormFor, FormOf, Lookup, ReadSlot, EaWidth, EaFault, EaContext, ImmediateMeans;
    var op, f := WordAt(data, 0), FormFor(WordAt(data, 0));
    FormIsOf(op, d);
    BitSlotFirst(d, op);
    TwoSlots(data, address, opts, f.slots[0], f.slots[1]);
    BitNumberMeans(f.slots[0].context, address, 4, data[2..4]);
    assert data[2..4][1..] == data[3..4];
  }

  lemma BitSlotFirst(d: Decoder, op: word)
    requires d in {BTST, BCHG, BCLR, BSET} && op & 0x0100 == 0
    ensures var f := FormOf(d, op);
            |f.slots| == 2 && f.slots == [f.slots[0], f.slots[1]] && !f.swapped && f.slots[0].BitNumber?
  {
    hide SourceEa, Direction, RegisterOperand;
    OpcodeBitsAre(op);
  }

  // ---- operands in the opcode ----

  /** The slots whose operand names a register are fixed. */
  lemma RegisterIsFixed(s: Slot, address: uint32, end: nat, field: seq<byte>)
    requires SlotOk(s) && SlotFault(s).None? && |field| == SlotWidth(s)
    requires ReadSlot(s, address, end, field).register.Some?
    ensures s.Fixed? && ReadSlot(s, address, end, field) == s.operand
  {
    hide DecodeAddressingMode, EaFault, EaWidth, EaContext, FormatImmediate, Immediate, Dec, FormatBranchTarget,
      BranchDisplacement, Advance, WordAt, LongAt, LowByte;
    if s.Ea? {
      assert MeetsLayout(DecodeAddressingMode(field, s.mode, s.reg, s.size), |field|, s.mode, s.reg, s.size);
    }
  }

  lemma {:induction false} RegistersAreFixed(slots: seq<Slot>, address: uint32, data: seq<byte>, offset: nat,
                                             o: Operand)
    requires forall s <- slots :: SlotOk(s)
    requires offset <= |data| && Walk(slots, |data|, offset).Fits?
    requires o in ReadSlots(slots, address, data, offset) && o.register.Some?
    ensures Fixed(o) in slots
  {
    hide ReadSlot, EaFault, EaWidth, EaContext;
    var end := offset + SlotWidth(slots[0]);
    assert slots[0] in slots;
    if o == ReadSlot(slots[0], address, end, data[offset..end]) {
      RegisterIsFixed(slots[0], address, end, data[offset..end]);
    } else {
      RegistersAreFixed(slots[1..], address, data, end, o);
    }
  }

  lemma StockRegister(o: Operand, op: word, k: Stock)
    requires InStock(o, op, k) && o.register.Some?
    ensures o.register.value.kind == k.kind
  {
    hide Dec, Hex, FormatImmediateForMOVEQ, Immediate, LowByte, RegisterName, Digit;
  }

  /** Every register operand of every decoded instruction is of the kind of its instruction: an address
      register for LEA, ADDA, SUBA, CMPA and MOVEA, a data register for all others. */
  lemma NamedRegisters(data: seq<byte>, address: uint32, opts: Options, o: Operand)
    requires Slice(data, address, opts).Decoding? && |data| >= 2
    requires o in Slice(data, address, opts).inst.metadata.operands && o.register.Some?
    ensures var op := WordAt(data, 0);
            && Lookup(op).Some?
            && o.register.value.kind
               == if NamesAddressRegister(Lookup(op).value, op) then AddressRegister else DataRegister
  {
    hide Slice, FormFor, Lookup, ReadSlots, InStock, NamesAddressRegister, CountIn, BuildsIn, SkipsIn;
    OperandsOfSlice(data, address, opts);
    var op, f := WordAt(data, 0), FormFor(WordAt(data, 0));
    InOrdered(f.swapped, ReadSlots(f.slots, address, data, 2), o);
    RegistersAreFixed(f.slots, address, data, 2, o);
    FixedOperandsOf(op);
    assert InStock(Fixed(o).operand, op, StockFor(op));
    StockRegister(o, op, StockFor(op));
    if Lookup(op).None? {
      DataWordNamesNone(o, op);
    }
  }

  lemma InOrdered(swapped: bool, os: seq<Operand>, o: Operand)
    ensures o in Ordered(swapped, os) <==> o in os
  {
    if |os| == 2 {
      assert os == [os[0], os[1]];
    }
  }

  lemma DataWordNamesNone(o: Operand, op: word)
    requires Lookup(op).None? && Fixed(o) in FormFor(op).slots
    ensures o.register.None?
  {
    hide Lookup, Hex, Immediate;
  }

  /** A number of this width that the opcode holds. */
  predicate Holds(o: Operand, value: int, size: nat) {
    && o.immediate.Some? && o.immediate.value.value == value && o.immediate.value.size == size
    && Extends(o.immediate.value.signed, value, Range(size))
  }

  lemma ImmediateHolds(o: Operand, value: uint32, size: nat)
    requires size in {1, 2, 4} && value < Range(size) && o.immediate == Some(Immediate(value, size))
    ensures Holds(o, value, size)
  {
    hide Extends;
    SignedExtends(value, Range(size));
  }

  lemma FixedFirst(data: seq<byte>, address: uint32, opts: Options, o: Operand)
    requires Slice(data, address, opts).Decoding? && |data| >= 2
    requires var f := FormFor(WordAt(data, 0)); 1 <= |f.slots| <= 2 && f.slots[0] == Fixed(o) && !f.swapped
    ensures Slice(data, address, opts).inst.metadata.operands != []
    ensures Slice(data, address, opts).inst.metadata.operands[0] == o
  {
    hide Slice, FormFor, ReadSlot, EaWidth, EaFault, EaContext;
    var f := FormFor(WordAt(data, 0));
    if |f.slots| == 1 {
      assert f.slots == [f.slots[0]];
      OneSlot(data, address, opts, f.slots[0]);
    } else {
      assert f.slots == [f.slots[0], f.slots[1]];
      TwoSlots(data, address, opts, f.slots[0], f.slots[1]);
    }
    FixedReads(o, address, 2, data[2..2]);
  }

  lemma FixedReads(o: Operand, address: uint32, end: nat, field: seq<byte>)
    requires SlotOk(Fixed(o)) && |field| == 0
    ensures ReadSlot(Fixed(o), address, end, field) == o && SlotWidth(Fixed(o)) == 0
  {
    hide NoSpace;
  }

  /** MOVEQ holds the low byte of its opcode, TRAP the low four bits, and a data word the opcode itself. */
  lemma OpcodeNumbers(data: seq<byte>, address: uint32, opts: Options)
    requires Slice(data, address, opts).Decoding? && |data| >= 2
    ensures var op := WordAt(data, 0);
            var os := Slice(data, address, opts).inst.metadata.operands;
            && (Lookup(op) == Some(MOVEQ) ==> os != [] && Holds(os[0], data[1] as int, 1))
            && (Lookup(op) == Some(TRAP) ==> os != [] && Holds(os[0], (data[1] & 0xF) as int, 1))
            && (Lookup(op) == None ==>
                  os != [] && Holds(os[0], BigEndian(data[..2]), 2) && Hexadecimal(os[0].text, 4))
  {
    hide Slice, FormFor, Lookup, Holds, BigEndian, QuickOperand, CountOperand, DataWordOperand, Vector, Word;
    var op := WordAt(data, 0);
    IndexBits(data[0], data[1]);
    if Lookup(op) == Some(MOVEQ) {
      QuickFirst(op);
      FixedFirst(data, address, opts, QuickOperand(op));
      QuickHolds(op);
    } else if Lookup(op) == Some(TRAP) {
      TrapFirst(op);
      FixedFirst(data, address, opts, CountOperand(Vector(op)));
      VectorByte(data[0], data[1]);
      CountHolds(Vector(op));
    } else if Lookup(op) == None {
      DataWordFirst(op);
      FixedFirst(data, address, opts, DataWordOperand(op));
      BigEndianWord(data[..2]);
      DataWordHolds(op);
      DataWordText(op);
    }
  }

  lemma QuickFirst(op: word)
    requires Lookup(op) == Some(MOVEQ)
    ensures var f := FormFor(op);
            |f.slots| == 2 && f.slots[0] == Fixed(QuickOperand(op)) && !f.swapped
  {
    hide Lookup, QuickOperand, RegisterSlot;
  }

  lemma QuickHolds(op: word)
    ensures Holds(QuickOperand(op), LowByte(op) as int, 1)
  {
    hide Holds, LowByte, FormatImmediateForMOVEQ, Immediate, Signed;
    ImmediateHolds(QuickOperand(op), LowByte(op) as int, 1);
  }

  lemma TrapFirst(op: word)
    requires Lookup(op) == Some(TRAP)
    ensures var f := FormFor(op);
            |f.slots| == 1 && f.slots[0] == Fixed(CountOperand(Vector(op))) && !f.swapped
  {
    hide Lookup, CountOperand, Vector;
  }

  lemma VectorByte(hi: byte, lo: byte)
    ensures Vector(Word(hi, lo)) == (lo & 0xF) as int
  {
    assert ((Word(hi, lo) & 0xF) as bv4) == (lo & 0xF) as bv4;
    assert ((lo & 0xF) as bv4) as int == (lo & 0xF) as int;
  }

  lemma CountHolds(n: nat)
    requires n < 0x100
    ensures Holds(CountOperand(n), n, 1)
  {
    hide Holds, Dec, Immediate;
    ImmediateHolds(CountOperand(n), n, 1);
  }

  lemma DataWordFirst(op: word)
    requires Lookup(op) == None
    ensures var f := FormFor(op);
            |f.slots| == 1 && f.slots[0] == Fixed(DataWordOperand(op)) && !f.swapped
  {
    hide Lookup, DataWordOperand;
  }

  lemma WordHolds(o: Operand, n: nat)
    requires n < 0x1_0000 && o.immediate == Some(Immediate(n, 2))
    ensures Holds(o, n, 2)
  {
    hide Holds, Immediate;
    ImmediateHolds(o, n, 2);
  }

  lemma DataWordHolds(op: word)
    ensures Holds(DataWordOperand(op), op as int, 2)
  {
    hide Holds, Hex, Immediate;
    WordHolds(DataWordOperand(op), op as int);
  }

  lemma HexText(n: nat)
    requires n < 0x1_0000
    ensures Hexadecimal(ImmediateOperand("$" + Hex(n, 4), n, 2).text, 4)
  {
    hide Hex, Hexadecimal, Immediate;
    HexNotation(n, 4);
  }

  lemma DataWordText(op: word)
    ensures Hexadecimal(DataWordOperand(op).text, 4)
  {
    hide Hex, Hexadecimal, ImmediateOperand, SlotOk, SlotWidth;
    HexText(op as int);
  }

  /** An immediate is printed behind "#". */
  predicate Marked(o: Operand) {
    o.kind == ImmediateKindOperand ==> o.text != "" && o.text[0] == '#'
  }

  lemma SlotMarked(s: Slot, address: uint32, end: nat, field: seq<byte>)
    requires SlotOk(s) && SlotFault(s).None? && |field| == SlotWidth(s) && (s.Fixed? ==> Marked(s.operand))
    ensures Marked(ReadSlot(s, address, end, field))
  {
    hide DecodeAddressingMode, EaFault, EaWidth, EaContext, FormatImmediate, Immediate, Dec, FormatBranchTarget,
      BranchDisplacement, Advance, WordAt, LongAt, LowByte;
    match s
    case Ea(mode, reg, size) =>
      assert MeetsLayout(DecodeAddressingMode(field, mode, reg, size), |field|, mode, reg, size);
    case Data(size, _) =>
      var value := if size == 2 then WordAt(field, 0) as int else LongAt(field, 0);
      assert ReadSlot(s, address, end, field) == DataOperand(value, size);
    case BitNumber(_) => assert ReadSlot(s, address, end, field) == BitNumberOperand(WordAt(field, 0));
    case _ =>
  }

  lemma {:induction false} SlotsMarked(slots: seq<Slot>, address: uint32, data: seq<byte>, offset: nat)
    requires forall s <- slots :: SlotOk(s) && (s.Fixed? ==> Marked(s.operand))
    requires offset <= |data| && Walk(slots, |data|, offset).Fits?
    ensures forall o <- ReadSlots(slots, address, data, offset) :: Marked(o)
  {
    hide ReadSlot, EaFault, EaWidth, EaContext, Marked;
    if slots != [] {
      var end := offset + SlotWidth(slots[0]);
      assert slots[0] in slots;
      SlotMarked(slots[0], address, end, data[offset..end]);
      SlotsMarked(slots[1..], address, data, end);
    }
  }

  lemma StockMarked(o: Operand, op: word, k: Stock)
    requires InStock(o, op, k) && !k.word
    ensures Marked(o)
  {
    hide Dec, Hex, FormatImmediateForMOVEQ, Immediate, LowByte, RegisterName, Digit;
  }

  /** Every immediate operand of every instruction, data words aside, is printed behind "#". */
  lemma ImmediatesAreMarked(data: seq<byte>, address: uint32, opts: Options)
    requires Slice(data, address, opts).Decoding? && |data| >= 2 && Lookup(WordAt(data, 0)).Some?
    ensures forall o <- Slice(data, address, opts).inst.metadata.operands :: Marked(o)
  {
    hide Slice, FormFor, Lookup, ReadSlots, InStock, Marked, NamesAddressRegister, CountIn, BuildsIn, SkipsIn;
    var op, f := WordAt(data, 0), FormFor(WordAt(data, 0));
    OperandsOfSlice(data, address, opts);
    FixedOperandsOf(op);
    forall s | s in f.slots && s.Fixed?
      ensures Marked(s.operand)
    {
      StockMarked(s.operand, op, StockFor(op));
    }
    SlotsMarked(f.slots, address, data, 2);
    forall o
      ensures o in Ordered(f.swapped, ReadSlots(f.slots, address, data, 2))
              <==> o in ReadSlots(f.slots, address, data, 2)
    {
      InOrdered(f.swapped, ReadSlots(f.slots, address, data, 2), o);
    }
  }

  /** A register shift names its count first: bits 11 to 9 are the count, 0 standing for 8, or with bit 5 set
      the number of the data register that holds it. The second operand is the register shifted. */
  lemma ShiftCounts(data: seq<byte>, address: uint32, opts: Options)
    requires Slice(data, address, opts).Decoding? && |data| >= 2
    requires Lookup(WordAt(data, 0)) == Some(SHIFT) && WordAt(data, 0) & 0x0800 == 0
    ensures var op := WordAt(data, 0);
            var os := Slice(data, address, opts).inst.metadata.operands;
            && |os| == 2
            && (if op & 0x0020 != 0 then os[0].register == Some(Register(DataRegister, ((op >> 9) & 0x7) as regnum))
                else Holds(os[0], if op & 0x0E00 == 0 then 8 else (((op >> 9) & 0x7) as regnum) as int, 1))
            && os[1].register == Some(Register(DataRegister, (op & 0x7) as regnum))
  {
    hide Slice, FormFor, Lookup, Holds, CountOperand, RegisterOperand, ReadSlot, EaWidth, EaFault, EaContext;
    var op, f := WordAt(data, 0), FormFor(WordAt(data, 0));
    ShiftSlots(op);
    assert f.slots == [f.slots[0], f.slots[1]];
    TwoSlots(data, address, opts, f.slots[0], f.slots[1]);
    FixedReads(f.slots[0].operand, address, 2, data[2..2]);
    FixedReads(f.slots[1].operand, address, 2, data[2..2]);
    RegisterIs((op & 0x7) as regnum);
    RegisterIs(((op >> 9) & 0x7) as regnum);
    CountHolds(ShiftNumber(op));
  }

  function ShiftNumber(op: word): (n: nat)
    ensures n < 0x100
  {
    if op & 0x0E00 == 0 then 8 else (((op >> 9) & 0x7) as regnum) as int
  }

  lemma RegisterIs(number: regnum)
    ensures RegisterOperand(DataRegister, number).register == Some(Register(DataRegister, number))
  {
    hide RegisterName;
  }

  lemma ShiftSlots(op: word)
    requires Lookup(op) == Some(SHIFT) && op & 0x0800 == 0
    ensures var f := FormFor(op);
            && |f.slots| == 2 && !f.swapped && f.slots[1] == Fixed(RegisterOperand(DataRegister, (op & 0x7) as regnum))
            && f.slots[0] == Fixed(if op & 0x0020 != 0 then RegisterOperand(DataRegister, ((op >> 9) & 0x7) as regnum)
                                   else CountOperand(ShiftNumber(op)))
  {
    hide Lookup, CountOperand, RegisterOperand, ShiftName, SizeName, SizeField, Direction;
    ShiftFieldBits(op);
  }

  lemma ShiftFieldBits(op: word)
    ensures op & 0x0800 == 0 <==> RegX(op) <= 3
    ensures op & 0x0020 != 0 <==> (op >> 5) & 0x1 != 0
    ensures op & 0x0E00 == 0 <==> RegX(op) == 0
  {
  }

  /** Bytes of an absolute address with this register field. */
  function AbsoluteField(data: seq<byte>, reg: regnum): seq<byte>
    requires |data| >= if reg == 0 then 4 else 6
  {
    if reg == 0 then data[2..4] else data[2..6]
  }

  lemma JumpOperand(data: seq<byte>, address: uint32, d: Decoder)
    requires Slice(data, address, None).Decoding? && |data| >= 2 && Lookup(WordAt(data, 0)) == Some(d)
    requires d in {JSR, JMP} && Mode(WordAt(data, 0)) == 7 && Reg(WordAt(data, 0)) < 2
    ensures |data| >= if Reg(WordAt(data, 0)) == 0 then 4 else 6
    ensures var os := Slice(data, address, None).inst.metadata.operands;
            && |os| == 1 && os == [os[0]] && os[0].branchTarget.None?
            && AbsoluteOf(os[0]).Some? && ResolvedOf(os[0]) == AbsoluteOf(os[0])
            && AbsoluteOf(os[0]).value == BigEndian(AbsoluteField(data, Reg(WordAt(data, 0))))
  {
    hide Slice, FormFor, Lookup, ReadSlot, BigEndian, EaFault, EaContext, Mode, Reg, WordAt, EaMeans;
    var op := WordAt(data, 0);
    JumpSource(d, op);
    SourceDenotes(data, address, None, d);
    JumpSlot(op, d);
    OneSlot(data, address, None, SourceEa(op, 2));
    var end := if Reg(op) == 0 then 4 else 6;
    var o := Slice(data, address, None).inst.metadata.operands[0];
    NoTargetIn(Mode(op), Reg(op), 2, address, end, data[2..end]);
    AbsoluteMeans(o.effectiveAddress.value, Reg(op), 2, data[2..end]);
  }

  lemma JumpSource(d: Decoder, op: word)
    requires d in {JSR, JMP}
    ensures DecodesSource(d, op) && !SkipsIn(d, op)
    ensures SourceSize(d, op) == 2 && Lead(d, op) == 0 && SourceIndex(d, op) == 0
  {
    hide Mode, Reg, RegX, IsCmpm;
  }

  lemma NoTargetIn(mode: bv3, reg: regnum, size: nat, address: uint32, end: nat, field: seq<byte>)
    requires size in {1, 2, 4} && EaFault(mode, reg, size).None? && |field| == EaWidth(mode, reg, size)
    ensures ReadSlot(Ea(mode, reg, size), address, end, field).branchTarget.None?
  {
    hide DecodeAddressingMode, EaFault, EaWidth;
    EaHasNoTarget(field, mode, reg, size);
  }

  lemma AbsoluteMeans(ea: EffectiveAddress, reg: regnum, size: nat, field: seq<byte>)
    requires |field| <= 4 && reg < 2 && EaMeans(ea, 7, reg, size, field)
    ensures ea.absoluteAddress.Some? && ea.resolvedAddress == ea.absoluteAddress
    ensures ea.absoluteAddress.value == BigEndian(field)
  {
    hide BigEndian;
  }

  /** JSR and JMP to an absolute address that the symbolizer knows print the symbol. */
  lemma KnownJumpPrintsSymbol(data: seq<byte>, address: uint32, symbolize: Symbolizer, d: Decoder, target: uint32)
    requires Slice(data, address, None).Decoding? && |data| >= 2 && Lookup(WordAt(data, 0)) == Some(d)
    requires d in {JSR, JMP} && Mode(WordAt(data, 0)) == 7 && Reg(WordAt(data, 0)) < 2
    requires |data| >= if Reg(WordAt(data, 0)) == 0 then 4 else 6
    requires target == BigEndian(AbsoluteField(data, Reg(WordAt(data, 0)))) && symbolize(target).Some?
    ensures Slice(data, address, Some(symbolize)).Decoding?
    ensures Slice(data, address, Some(symbolize)).inst.operands == symbolize(target).value
  {
    hide Slice, Lookup, BigEndian, Mode, Reg, WordAt, AbsoluteField;
    JumpOperand(data, address, d);
    var o := Slice(data, address, None).inst.metadata.operands[0];
    OnlyOperandPrints(data, address, symbolize, o, symbolize(target).value);
  }

  lemma JumpSlot(op: word, d: Decoder)
    requires Lookup(op) == Some(d) && d in {JSR, JMP}
    ensures FormFor(op).slots == [SourceEa(op, 2)]
  {
    hide Lookup, SourceEa;
  }
}
