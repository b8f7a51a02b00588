/** The registers a decoded instruction names in its opcode word, by number and place. */
module OpcodeOperands {
  import opened Wrappers
  import opened Words
  import opened Model
  import opened EffectiveAddresses
  import opened RegisterLists
  import opened Forms
  import opened InstructionSet
  import opened Dispatch
  import opened OpcodeLaws
  import opened FixedOperands
  import opened Slices
  import opened OperandMeanings

  /** Number in bits 11 to 9. */
  function HighNumber(op: word): regnum {
    ((op >> 9) & 0x7) as regnum
  }

  /** Number in bits 2 to 0. */
  function LowNumber(op: word): regnum {
    (op & 0x7) as regnum
  }

  /** The form has this fixed operand at this place of two. */
  predicate FixedAt(f: Form, o: Operand, index: nat) {
    && |f.slots| == 2
    && (|| (f.slots[0] == Fixed(o) && index == if f.swapped then 1 else 0)
        || (f.slots[1] == Fixed(o) && index == if f.swapped then 0 else 1))
  }

  lemma FixedIsRead(data: seq<byte>, address: uint32, opts: Options, o: Operand, index: nat)
    requires Slice(data, address, opts).Decoding? && |data| >= 2
    requires FixedAt(FormFor(WordAt(data, 0)), o, index)
    ensures |Slice(data, address, opts).inst.metadata.operands| == 2
    ensures index < 2 && Slice(data, address, opts).inst.metadata.operands[index] == o
  {
    hide Slice, FormFor, ReadSlot, EaWidth, EaFault, EaContext;
    var f := FormFor(WordAt(data, 0));
    assert f.slots == [f.slots[0], f.slots[1]];
    TwoSlots(data, address, opts, f.slots[0], f.slots[1]);
    var mid := 2 + SlotWidth(f.slots[0]);
    var end := mid + SlotWidth(f.slots[1]);
    if f.slots[0] == Fixed(o) {
      FixedReads(o, address, mid, data[2..mid]);
    }
    if f.slots[1] == Fixed(o) {
      FixedReads(o, address, end, data[mid..end]);
    }
  }

  // ---- the register in bits 11 to 9 ----

  /** Instructions with a register operand in bits 11 to 9; a register shift has it too, see `ShiftCounts`. */
  predicate NamesHighRegister(d: Decoder, op: word) {
    || d in {LEA, DIVU, DIVS, MULU, MULS, MOVEQ, OR, AND, ADD, SUB}
    || (d in {BTST, BCHG, BCLR, BSET} && op & 0x0100 != 0)
    || (d == CMP && op & 0xF138 != 0xB108)
    || (d == MOVE && op & 0x01C0 == 0x0040)
    || (d in {ABCD, SBCD} && op & 0x0008 == 0)
  }

  /** It comes first in bit operations and where bit 8 directs the result to the other operand. */
  function HighIndex(d: Decoder, op: word): nat {
    if d in {BTST, BCHG, BCLR, BSET} then 0
    else if d in {OR, AND, ADD, SUB, CMP} && op & 0x0100 != 0 && op & 0x01C0 != 0x01C0 then 0
    else 1
  }

  function HighOperand(d: Decoder, op: word): Operand {
    RegisterOperand(if NamesAddressRegister(d, op) then AddressRegister else DataRegister, HighNumber(op))
  }

  predicate HighAt(f: Form, d: Decoder, op: word) {
    FixedAt(f, HighOperand(d, op), HighIndex(d, op))
  }

  lemma HighBits(op: word)
    ensures HighNumber(op) == RegX(op) && LowNumber(op) == Reg(op)
    ensures op & 0x01C0 == 0x0040 <==> OpMode(op) == 1
    ensures (op >> 3) & 0x1 == 0 <==> op & 0x0008 == 0
  {
  }

  lemma DirectedHigh(d: Decoder, mn: string, op: word)
    requires d in {OR, AND, ADD, SUB, CMP} && SizeField(op) != 3 && op & 0xF138 != 0xB108
    ensures HighAt(DirectedForm(mn, op), d, op)
  {
    hide SourceEa, RegisterOperand, SizeName, SizeField, Direction, RegX, HighNumber;
    OpcodeBitsAre(op);
    NotAddressMode(op);
    HighBits(op);
  }

  lemma AddressHigh(d: Decoder, mn: string, op: word)
    requires d in {ADD, SUB, CMP} && (OpMode(op) == 3 || OpMode(op) == 7) && op & 0xF138 != 0xB108
    ensures HighAt(AddressForm(mn, op), d, op)
  {
    hide SourceEa, RegisterOperand, OpMode, RegX, HighNumber;
    OpcodeBitsAre(op);
    HighBits(op);
  }

  lemma ArithmeticHigh(d: Decoder, mn: string, op: word)
    requires d in {ADD, SUB} && op & 0xF138 != 0xB108
    ensures HighAt(ArithmeticForm(mn, op), d, op)
  {
    hide AddressForm, DirectedForm, OpMode, SizeField, HighAt;
    OpcodeBitsAre(op);
    if OpMode(op) == 3 || OpMode(op) == 7 {
      AddressHigh(d, mn, op);
    } else {
      DirectedHigh(d, mn, op);
    }
  }

  lemma CompareHigh(op: word)
    requires op & 0xF138 != 0xB108
    ensures HighAt(CmpForm(op), CMP, op)
  {
    hide AddressForm, DirectedForm, OpMode, SizeField, SourceEa, RegisterOperand, SizeName, RegX, HighNumber;
    OpcodeBitsAre(op);
    NotAddressMode(op);
    HighBits(op);
    if OpMode(op) == 3 || OpMode(op) == 7 {
      AddressHigh(CMP, "CMP", op);
    } else if OpMode(op) >= 4 {
      DirectedHigh(CMP, "EOR", op);
    }
  }

  lemma MoveHigh(op: word)
    requires op & 0xF000 in {0x1000, 0x2000, 0x3000} && op & 0x01C0 == 0x0040 && op & 0xF1C0 != 0x1040
    ensures HighAt(MoveForm(op), MOVE, op)
  {
    hide SourceEa, RegisterOperand, OpMode, RegX, MoveSizeField, MoveSizeName, HighNumber;
    MoveNibbles(op);
    HighBits(op);
    assert op & 0xF1C0 == (op & 0xF000) | (op & 0x01C0);
  }

  lemma BitHigh(d: Decoder, mn: string, op: word)
    requires d in {BTST, BCHG, BCLR, BSET} && op & 0x0100 != 0
    ensures HighAt(BitForm(mn, op), d, op)
  {
    hide SourceEa, RegisterOperand, Direction, RegX, HighNumber;
    OpcodeBitsAre(op);
    HighBits(op);
  }

  lemma ToRegisterHigh(d: Decoder, mn: string, op: word)
    requires d in {LEA, DIVU, DIVS, MULU, MULS}
    ensures HighAt(EaToRegisterForm(mn, op, if d == LEA then AddressRegister else DataRegister), d, op)
  {
    hide SourceEa, RegisterOperand, RegX, HighNumber;
    HighBits(op);
  }

  lemma DecimalHigh(d: Decoder, mn: string, op: word)
    requires d in {ABCD, SBCD} && op & 0x0008 == 0
    ensures HighAt(BcdForm(mn, op), d, op)
    ensures FixedAt(BcdForm(mn, op), RegisterOperand(DataRegister, LowNumber(op)), 0)
  {
    hide RegisterOperand, RegX, Reg, HighNumber, LowNumber;
    HighBits(op);
  }

  lemma QuickHigh(op: word)
    ensures HighAt(FormOf(MOVEQ, op), MOVEQ, op)
  {
    hide RegisterOperand, QuickOperand, RegX, HighNumber;
    HighBits(op);
  }

  lemma HighOfForm(d: Decoder, op: word)
    requires NamesHighRegister(d, op) && d !in {LEA, DIVU, DIVS, MULU, MULS}
    requires d in {OR, AND} ==> SizeField(op) != 3
    requires d in {OR, AND, ADD, SUB} ==> op & 0xF138 != 0xB108
    requires d == MOVE ==> op & 0xF000 in {0x1000, 0x2000, 0x3000} && op & 0xF1C0 != 0x1040
    ensures HighAt(FormOf(d, op), d, op)
  {
    hide HighAt, DirectedForm, ArithmeticForm, CmpForm, BitForm, MoveForm, EaToRegisterForm, BcdForm, SizeName,
      SizeField;
    match d
    case BTST => BitHigh(d, "BTST", op);
    case BCHG => BitHigh(d, "BCHG", op);
    case BCLR => BitHigh(d, "BCLR", op);
    case BSET => BitHigh(d, "BSET", op);
    case OR => DirectedHigh(d, "OR", op);
    case AND => DirectedHigh(d, "AND", op);
    case ADD => ArithmeticHigh(d, "ADD", op);
    case SUB => ArithmeticHigh(d, "SUB", op);
    case CMP => CompareHigh(op);
    case MOVE => MoveHigh(op);
    case ABCD => DecimalHigh(d, "ABCD", op);
    case SBCD => DecimalHigh(d, "SBCD", op);
    case MOVEQ => QuickHigh(op);
  }

  lemma HighOfToRegister(d: Decoder, op: word)
    requires d in {LEA, DIVU, DIVS, MULU, MULS}
    ensures HighAt(FormOf(d, op), d, op)
  {
    hide HighAt, EaToRegisterForm;
    match d
    case LEA => ToRegisterHigh(d, "LEA", op);
    case DIVU => ToRegisterHigh(d, "DIVU", op);
    case DIVS => ToRegisterHigh(d, "DIVS", op);
    case MULU => ToRegisterHigh(d, "MULU", op);
    case MULS => ToRegisterHigh(d, "MULS", op);
  }

  lemma HighGuards(d: Decoder, op: word)
    requires Lookup(op) == Some(d) && HardFault(op).None?
    ensures d in {OR, AND} ==> SizeField(op) != 3
    ensures d in {OR, AND, ADD, SUB} ==> op & 0xF138 != 0xB108
    ensures d == MOVE ==> op & 0xF000 in {0x1000, 0x2000, 0x3000} && op & 0xF1C0 != 0x1040
  {
    hide Lookup, DecodesSource, BadEa, SizeField;
    LookupIsHome(op);
    if d == MOVE {
      MoveHasSize(op);
    } else if d == OR {
      OrHasSize(op);
    } else if d == AND {
      AndHasSize(op);
    }
  }

  lemma HighIsFixed(d: Decoder, op: word)
    requires Lookup(op) == Some(d) && HardFault(op).None? && NamesHighRegister(d, op)
    ensures FixedAt(FormFor(op), HighOperand(d, op), HighIndex(d, op))
  {
    hide FormFor, FormOf, Lookup, NamesHighRegister, HighIndex, HighOperand, HardFault, FixedAt, SizeField;
    HighGuards(d, op);
    if d in {LEA, DIVU, DIVS, MULU, MULS} {
      HighOfToRegister(d, op);
    } else {
      HighOfForm(d, op);
    }
    FormIsOf(op, d);
  }

  /** In every decoded instruction that names a register in bits 11 to 9, the operand in its place is that
      register, of the kind of the instruction. */
  lemma HighRegisterDenotes(data: seq<byte>, address: uint32, opts: Options, d: Decoder)
    requires Slice(data, address, opts).Decoding? && |data| >= 2 && Lookup(WordAt(data, 0)) == Some(d)
    requires NamesHighRegister(d, WordAt(data, 0))
    ensures var op := WordAt(data, 0);
            var os := Slice(data, address, opts).inst.metadata.operands;
            && |os| == 2
            && os[HighIndex(d, op)].register
               == Some(Register(if NamesAddressRegister(d, op) then AddressRegister else DataRegister, HighNumber(op)))
  {
    hide Slice, FormFor, FormOf, Lookup, NamesHighRegister, HighIndex, NamesAddressRegister, HardFault, FixedAt,
      HighNumber, RegisterName;
    var op := WordAt(data, 0);
    DecodedHasNoFault(data, address, opts);
    HighIsFixed(d, op);
    FixedIsRead(data, address, opts, HighOperand(d, op), HighIndex(d, op));
  }

  // ---- the other registers ----

  /** SWAP, and ABCD and SBCD between registers, name the data register in bits 2 to 0 first. */
  lemma LowRegisterDenotes(data: seq<byte>, address: uint32, opts: Options, d: Decoder)
    requires Slice(data, address, opts).Decoding? && |data| >= 2 && Lookup(WordAt(data, 0)) == Some(d)
    requires d == SWAP || (d in {ABCD, SBCD} && WordAt(data, 0) & 0x0008 == 0)
    ensures var os := Slice(data, address, opts).inst.metadata.operands;
            os != [] && os[0].register == Some(Register(DataRegister, LowNumber(WordAt(data, 0))))
  {
    hide Slice, Lookup, LowNumber, RegisterName, Reg, SlotOk, BcdForm, FixedAt;
    var op := WordAt(data, 0);
    var o := RegisterOperand(DataRegister, LowNumber(op));
    FormIsOf(op, d);
    HighBits(op);
    if d == SWAP {
      OneSlot(data, address, opts, Fixed(o));
      FixedReads(o, address, 2, data[2..2]);
    } else {
      DecimalHigh(d, if d == ABCD then "ABCD" else "SBCD", op);
      FixedIsRead(data, address, opts, o, 0);
    }
  }

  /** "(An)+" or "-(An)" with its address register recorded. */
  predicate Built(o: Operand, kind: EffectiveAddressKind, reg: regnum, before: string, behind: string) {
    && o.effectiveAddress.Some? && o.effectiveAddress.value.kind == kind
    && o.effectiveAddress.value.base == Some(Register(AddressRegister, reg))
    && o.text == before + ['0' + reg as char] + behind
  }

  lemma BuiltTexts(reg: regnum)
    ensures Built(PostIncrementOperand(reg), PostIncrement, reg, "(A", ")+")
    ensures Built(PreDecrementOperand(reg), PreDecrement, reg, "-(A", ")")
  {
  }

  /** CMPM, and ABCD and SBCD in their memory form, name the address registers in bits 2 to 0 and 11 to 9, in
      this order, CMPM with postincrement and the others with predecrement. */
  lemma BuiltDenote(data: seq<byte>, address: uint32, opts: Options, d: Decoder)
    requires Slice(data, address, opts).Decoding? && |data| >= 2 && Lookup(WordAt(data, 0)) == Some(d)
    requires (d == CMP && WordAt(data, 0) & 0xF138 == 0xB108) || (d in {ABCD, SBCD} && WordAt(data, 0) & 0x0008 != 0)
    ensures var op := WordAt(data, 0);
            var os := Slice(data, address, opts).inst.metadata.operands;
            && |os| == 2
            && if d == CMP then
                 Built(os[0], PostIncrement, LowNumber(op), "(A", ")+")
                 && Built(os[1], PostIncrement, HighNumber(op), "(A", ")+")
               else
                 Built(os[0], PreDecrement, LowNumber(op), "-(A", ")")
                 && Built(os[1], PreDecrement, HighNumber(op), "-(A", ")")
  {
    hide Slice, Lookup, LowNumber, HighNumber, Built, PostIncrementOperand, PreDecrementOperand, Reg, RegX, SizeName,
      SizeField;
    var op := WordAt(data, 0);
    FormIsOf(op, d);
    HighBits(op);
    BuiltTexts(LowNumber(op));
    BuiltTexts(HighNumber(op));
    var a := if d == CMP then PostIncrementOperand(LowNumber(op)) else PreDecrementOperand(LowNumber(op));
    var b := if d == CMP then PostIncrementOperand(HighNumber(op)) else PreDecrementOperand(HighNumber(op));
    FixedIsRead(data, address, opts, a, 0);
    FixedIsRead(data, address, opts, b, 1);
  }

  /** The register list of a MOVEM is that of the word behind the opcode, first for bit 10 clear. */
  lemma ListDenotesMask(data: seq<byte>, address: uint32, opts: Options)
    requires Slice(data, address, opts).Decoding? && |data| >= 2 && Lookup(WordAt(data, 0)) == Some(MOVEM)
    ensures |data| >= 4
    ensures var os := Slice(data, address, opts).inst.metadata.operands;
            var index := if WordAt(data, 0) & 0x0400 == 0 then 0 else 1;
            |os| == 2 && os[index].registerList == RegisterNames(WordAt(data, 2))
  {
    hide Slice, Lookup, Mode, Reg, SourceEa, EaWidth, EaFault, EaContext, RegisterNames, RegisterListText, WordAt;
    var op := WordAt(data, 0);
    FormIsOf(op, MOVEM);
    OpcodeBitsAre(op);
    var f := FormFor(op);
    assert f.slots == [f.slots[0], f.slots[1]];
    TwoSlots(data, address, opts, f.slots[0], f.slots[1]);
    WordOfField(data);
  }

  lemma WordOfField(data: seq<byte>)
    requires |data| >= 4
    ensures WordAt(data[2..4], 0) == WordAt(data, 2)
  {
  }
}
