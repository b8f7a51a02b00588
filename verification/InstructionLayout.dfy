/** Which bytes follow each opcode and what a shortage in them is called, as a table over opcode bits that
    stands beside the forms. */
module InstructionLayout {
  import opened Wrappers
  import opened Words
  import opened Model
  import opened EffectiveAddresses
  import opened Forms
  import opened FormLaws
  import opened InstructionSet
  import opened Dispatch
  import opened OpcodeLaws
  import opened Slices
  import opened Driver

  datatype Field = Field(width: nat, context: string)

  // ---- the table ----

  /** Extension words of an address: mode in bits 5 to 3, register in bits 2 to 0. */
  function AddressFields(bits: word, long: bool): seq<Field> {
    if 0x28 <= bits < 0x30 then [Field(2, "displacement")]
    else if 0x30 <= bits < 0x38 then [Field(2, "index extension word")]
    else if bits == 0x38 then [Field(2, "absolute short address")]
    else if bits == 0x39 then [Field(4, "absolute long address")]
    else if bits == 0x3A then [Field(2, "pc displacement")]
    else if bits == 0x3B then [Field(2, "pc index extension word")]
    else if bits == 0x3C then [if long then Field(4, "long immediate") else Field(2, "immediate")]
    else []
  }

  /** The address in bits 5 to 0, of an operand that is never long. */
  function Plain(op: word): seq<Field> {
    AddressFields(op & 0x003F, false)
  }

  /** The address in bits 5 to 0, of an operand whose size is in bits 7 and 6. */
  function Sized(op: word): seq<Field> {
    AddressFields(op & 0x003F, op & 0x00C0 == 0x0080)
  }

  /** The same where bits 8 to 6 may also say that the other operand is an address register. */
  function SizedOrAddress(op: word): seq<Field> {
    AddressFields(op & 0x003F, op & 0x00C0 == 0x0080 || op & 0x01C0 == 0x01C0)
  }

  function BitFields(name: string, op: word): seq<Field> {
    (if op & 0x0100 != 0 then [] else [Field(2, name + " immediate bit number")]) + Plain(op)
  }

  /** Two immediate bytes, or four for .L where there is a long form; nothing for size 3, an error. */
  function ImmediateFields(name: string, op: word, longForm: bool): seq<Field> {
    if op & 0x00C0 == 0x00C0 then []
    else [Field(if longForm && op & 0x00C0 == 0x0080 then 4 else 2, name + " immediate")] + Plain(op)
  }

  /** The destination of a MOVE has its register in bits 11 to 9 and its mode in bits 8 to 6. */
  function Destination(op: word): word {
    ((op >> 3) & 0x0038) | ((op >> 9) & 0x0007)
  }

  function MoveFields(op: word): seq<Field> {
    if op & 0x003F >= 0x3D then []
    else
      AddressFields(op & 0x003F, op & 0xF000 == 0x2000)
      + (if op & 0x01C0 == 0x0040 then [] else AddressFields(Destination(op), false))
  }

  function BranchFields(op: word): seq<Field> {
    var name := BranchName(((op >> 8) & 0xF) as bv4);
    if op & 0x00FF == 0 then [Field(2, name + ".W displacement")]
    else if op & 0x00FF == 0x00FF then [Field(4, name + ".L displacement")]
    else []
  }

  function FieldsOf(d: Decoder, op: word): seq<Field> {
    match d
    case BTST => BitFields("BTST", op)
    case BCHG => BitFields("BCHG", op)
    case BCLR => BitFields("BCLR", op)
    case BSET => BitFields("BSET", op)
    case ADDI => ImmediateFields("ADDI", op, true)
    case SUBI => ImmediateFields("SUBI", op, true)
    case ANDI => ImmediateFields("ANDI", op, false)
    case ORI => ImmediateFields("ORI", op, false)
    case EORI => ImmediateFields("EORI", op, false)
    case CMPI => ImmediateFields("CMPI", op, false)
    case MOVE => MoveFields(op)
    case STOP => [Field(2, "STOP immediate")]
    case MOVEM => [Field(2, "MOVEM register list")] + (if op & 0x003F == 0 then [] else Plain(op))
    case BXX => BranchFields(op)
    case OR => Sized(op)
    case AND => Sized(op)
    case ADD => SizedOrAddress(op)
    case SUB => SizedOrAddress(op)
    case CMP => if op & 0xF138 == 0xB108 then [] else SizedOrAddress(op)
    case SHIFT => if op & 0x0800 == 0 then [] else Plain(op)
    case NOP => []
    case RTS => []
    case TRAPV => []
    case TRAP => []
    case SWAP => []
    case MOVEQ => []
    case SBCD => []
    case ABCD => []
    case _ => Plain(op)
  }

  function Fields(op: word): seq<Field> {
    if Lookup(op).None? then [] else FieldsOf(Lookup(op).value, op)
  }

  function Total(fields: seq<Field>): nat {
    if fields == [] then 0 else fields[0].width + Total(fields[1..])
  }

  // ---- the forms agree with it ----

  function SlotFields(s: Slot): seq<Field> {
    if SlotWidth(s) == 0 then [] else [Field(SlotWidth(s), SlotContext(s))]
  }

  /** The fields a walk demands before it can finish or report its error. */
  function DemandedFields(slots: seq<Slot>): seq<Field> {
    if slots == [] || SlotFault(slots[0]).Some? then [] else SlotFields(slots[0]) + DemandedFields(slots[1..])
  }

  lemma DemandedOne(s: Slot)
    ensures DemandedFields([s]) == if SlotFault(s).Some? then [] else SlotFields(s)
  {
    hide SlotFields, EaFault;
    assert [s][1..] == [];
  }

  lemma DemandedTwo(s: Slot, t: Slot)
    ensures DemandedFields([s, t])
            == if SlotFault(s).Some? then []
               else SlotFields(s) + (if SlotFault(t).Some? then [] else SlotFields(t))
  {
    hide SlotFields, EaFault;
    assert [s, t][1..] == [t];
    DemandedOne(t);
  }

  lemma AddressDemands(bits: word, mode: bv3, reg: regnum, size: nat)
    requires size in {1, 2, 4} && bits == (mode as word << 3) | reg as word
    ensures (if EaFault(mode, reg, size).Some? then [] else SlotFields(Ea(mode, reg, size)))
            == AddressFields(bits, size == 4)
    ensures EaFault(mode, reg, size).Some? <==> bits >= 0x3D
  {
    AddressBits(bits, mode, reg);
  }

  lemma AddressBits(bits: word, mode: bv3, reg: regnum)
    requires bits == (mode as word << 3) | reg as word
    ensures bits < 0x28 <==> mode < 5
    ensures 0x28 <= bits < 0x30 <==> mode == 5
    ensures 0x30 <= bits < 0x38 <==> mode == 6
    ensures bits == 0x38 <==> mode == 7 && reg == 0
    ensures bits == 0x39 <==> mode == 7 && reg == 1
    ensures bits == 0x3A <==> mode == 7 && reg == 2
    ensures bits == 0x3B <==> mode == 7 && reg == 3
    ensures bits == 0x3C <==> mode == 7 && reg == 4
    ensures bits >= 0x3D <==> mode == 7 && reg >= 5
  {
  }

  lemma SourceDemands(op: word, size: nat)
    requires size in {1, 2, 4}
    ensures (if SlotFault(SourceEa(op, size)).Some? then [] else SlotFields(SourceEa(op, size)))
            == AddressFields(op & 0x003F, size == 4)
    ensures SlotFault(SourceEa(op, size)).Some? <==> op & 0x003F >= 0x3D
  {
    hide AddressFields, SlotFields, EaFault;
    SourceBits(op);
    AddressDemands(op & 0x003F, Mode(op), Reg(op), size);
  }

  lemma SourceBits(op: word)
    ensures op & 0x003F == (Mode(op) as word << 3) | Reg(op) as word
  {
  }

  lemma FixedDemands(o: Operand)
    ensures SlotFault(Fixed(o)).None? && SlotFields(Fixed(o)) == []
  {
  }

  lemma PlainDemands(mn: string, op: word)
    ensures DemandedFields(EaForm(mn, op).slots) == Plain(op)
  {
    hide AddressFields, SlotFields, EaFault, SlotFault, SourceEa;
    SourceDemands(op, 2);
    DemandedOne(SourceEa(op, 2));
  }

  /** A source operand and one that the opcode holds, in either order. */
  lemma SourceAndFixedDemands(f: Form, op: word, size: nat, o: Operand)
    requires size in {1, 2, 4}
    requires f.slots == [SourceEa(op, size), Fixed(o)] || f.slots == [Fixed(o), SourceEa(op, size)]
    ensures DemandedFields(f.slots) == AddressFields(op & 0x003F, size == 4)
  {
    hide AddressFields, SlotFields, EaFault, SlotFault, SourceEa, DemandedFields;
    SourceDemands(op, size);
    FixedDemands(o);
    DemandedTwo(SourceEa(op, size), Fixed(o));
    DemandedTwo(Fixed(o), SourceEa(op, size));
  }

  lemma EaToRegisterDemands(mn: string, op: word, kind: RegisterKind)
    ensures DemandedFields(EaToRegisterForm(mn, op, kind).slots) == Plain(op)
  {
    hide AddressFields, DemandedFields, RegisterOperand, SourceEa;
    SourceAndFixedDemands(EaToRegisterForm(mn, op, kind), op, 2, RegisterOperand(kind, RegX(op)));
  }

  lemma SizeBits(op: word)
    ensures SizeField(op) == 2 <==> op & 0x00C0 == 0x0080
    ensures SizeField(op) == 3 <==> op & 0x00C0 == 0x00C0
    ensures OpMode(op) == 7 <==> op & 0x01C0 == 0x01C0
    ensures OpMode(op) == 7 || OpMode(op) == 3 ==> SizeField(op) == 3
    ensures OpMode(op) == 1 <==> op & 0x01C0 == 0x0040
    ensures Direction(op) <==> op & 0x0100 != 0
    ensures RegX(op) <= 3 <==> op & 0x0800 == 0
    ensures Mode(op) == 0 && Reg(op) == 0 <==> op & 0x003F == 0
  {
  }

  lemma RejectedDemands(fault: Fault)
    ensures DemandedFields(Rejected(fault).slots) == []
  {
    hide SlotFields;
    DemandedOne(Reject(fault));
  }

  lemma DirectedDemands(mn: string, op: word)
    requires SizeField(op) != 3
    ensures DemandedFields(DirectedForm(mn, op).slots) == Sized(op)
  {
    hide AddressFields, DemandedFields, RegisterOperand, SourceEa, SizeName, SizeField, Direction;
    SizeBits(op);
    SourceAndFixedDemands(DirectedForm(mn, op), op, ByteSize(SizeField(op)), RegisterOperand(DataRegister, RegX(op)));
  }

  lemma AddressFormDemands(mn: string, op: word)
    requires OpMode(op) == 3 || OpMode(op) == 7
    ensures DemandedFields(AddressForm(mn, op).slots) == SizedOrAddress(op)
  {
    hide AddressFields, DemandedFields, RegisterOperand, SourceEa, SizeField, OpMode;
    SizeBits(op);
    var size := if OpMode(op) == 7 then 4 else 2;
    SourceAndFixedDemands(AddressForm(mn, op), op, size, RegisterOperand(AddressRegister, RegX(op)));
  }

  lemma ArithmeticDemands(mn: string, op: word)
    requires SizeField(op) != 3 || OpMode(op) == 3 || OpMode(op) == 7
    ensures DemandedFields(ArithmeticForm(mn, op).slots) == SizedOrAddress(op)
  {
    hide AddressFields, DemandedFields, AddressForm, DirectedForm, SizeField, OpMode;
    SizeBits(op);
    if OpMode(op) == 3 || OpMode(op) == 7 {
      AddressFormDemands(mn, op);
    } else {
      DirectedDemands(mn, op);
    }
  }

  /** Size field 3 is operation mode 3 or 7. */
  lemma SizeThree(op: word)
    ensures SizeField(op) == 3 <==> OpMode(op) == 3 || OpMode(op) == 7
  {
  }

  lemma ImmediateDemands(mn: string, op: word, longForm: bool)
    ensures DemandedFields(ImmediateForm(mn, op, longForm).slots) == ImmediateFields(mn, op, longForm)
  {
    hide AddressFields, DemandedFields, EaFault, SourceEa, SizeField, SizeName;
    SizeBits(op);
    if SizeField(op) == 3 {
      RejectedDemands(UnknownSize(mn, 3));
    } else {
      SourceDemands(op, 2);
      DemandedTwo(ImmediateForm(mn, op, longForm).slots[0], SourceEa(op, 2));
    }
  }

  lemma BitDemands(mn: string, op: word)
    ensures DemandedFields(BitForm(mn, op).slots) == BitFields(mn, op)
  {
    hide AddressFields, DemandedFields, EaFault, SourceEa, Direction, RegisterOperand;
    SizeBits(op);
    SourceDemands(op, 2);
    DemandedTwo(BitForm(mn, op).slots[0], SourceEa(op, 2));
  }

  lemma MovemDemands(op: word)
    ensures DemandedFields(MovemForm(op).slots)
            == [Field(2, "MOVEM register list")] + (if op & 0x003F == 0 then [] else Plain(op))
  {
    hide AddressFields, DemandedFields, EaFault, SourceEa, Mode, Reg;
    SizeBits(op);
    SourceDemands(op, 2);
    DemandedTwo(MovemForm(op).slots[0], MovemForm(op).slots[1]);
  }

  lemma DestinationIs(op: word)
    ensures Destination(op) == (OpMode(op) as word << 3) | RegX(op) as word
  {
  }

  lemma MoveLong(op: word)
    requires op & 0xF000 in {0x1000, 0x2000, 0x3000}
    ensures MoveByteSize(MoveSizeField(op)) == 4 <==> op & 0xF000 == 0x2000
    ensures MoveSizeField(op) != 0
  {
  }

  lemma MoveDemands(op: word)
    requires op & 0xF000 in {0x1000, 0x2000, 0x3000}
    ensures DemandedFields(MoveForm(op).slots) == MoveFields(op)
  {
    hide AddressFields, DemandedFields, EaFault, SourceEa, MoveSizeField, OpMode, RegX, RegisterOperand, MoveSizeName,
      Destination, EaWidth, EaContext;
    SizeBits(op);
    MoveLong(op);
    var f, size := MoveForm(op), MoveByteSize(MoveSizeField(op));
    SourceDemands(op, size);
    DemandedTwo(f.slots[0], f.slots[1]);
    if OpMode(op) != 1 {
      DestinationIs(op);
      AddressDemands(Destination(op), OpMode(op), RegX(op), 2);
    }
  }

  lemma BranchDemands(op: word)
    ensures DemandedFields(BranchForm(op).slots) == BranchFields(op)
  {
    hide DemandedFields, BranchName;
    LowByteIs(op);
    DemandedOne(BranchForm(op).slots[0]);
  }

  lemma LowByteIs(op: word)
    ensures LowByte(op) == 0 <==> op & 0x00FF == 0
    ensures LowByte(op) == 0xFF <==> op & 0x00FF == 0x00FF
  {
  }

  lemma ShiftDemands(op: word)
    ensures DemandedFields(ShiftForm(op).slots) == if op & 0x0800 == 0 then [] else Plain(op)
  {
    hide AddressFields, DemandedFields, EaFault, SourceEa, RegX, RegisterOperand, CountOperand, ShiftName, SizeName,
      SizeField, Direction;
    SizeBits(op);
    var f := ShiftForm(op);
    if RegX(op) <= 3 {
      DemandedTwo(f.slots[0], f.slots[1]);
    } else {
      SourceDemands(op, 2);
      DemandedOne(f.slots[0]);
    }
  }

  lemma BcdDemands(mn: string, op: word)
    ensures DemandedFields(BcdForm(mn, op).slots) == []
  {
    hide DemandedFields, RegisterOperand, PreDecrementOperand;
    DemandedTwo(BcdForm(mn, op).slots[0], BcdForm(mn, op).slots[1]);
  }

  lemma CmpDemands(op: word)
    ensures DemandedFields(CmpForm(op).slots) == if op & 0xF138 == 0xB108 then [] else SizedOrAddress(op)
  {
    hide AddressFields, DemandedFields, RegisterOperand, PostIncrementOperand, SourceEa, SizeName, AddressForm,
      DirectedForm, OpMode, SizeField;
    SizeBits(op);
    SizeThree(op);
    if IsCmpm(op) {
      DemandedTwo(CmpForm(op).slots[0], CmpForm(op).slots[1]);
    } else if OpMode(op) == 3 || OpMode(op) == 7 {
      AddressFormDemands("CMP", op);
    } else if OpMode(op) >= 4 {
      DirectedDemands("EOR", op);
    } else {
      SourceAndFixedDemands(CmpForm(op), op, ByteSize(SizeField(op)), RegisterOperand(DataRegister, RegX(op)));
    }
  }

  // ---- the whole table ----

  lemma PlainDecoders(d: Decoder, op: word)
    requires d in {CLR, NEG, NEGX, NOT, TST, JSR, JMP, PEA}
    ensures DemandedFields(FormOf(d, op).slots) == FieldsOf(d, op)
  {
    hide DemandedFields, Plain, Sized, SizedOrAddress, BitFields, ImmediateFields, MoveFields, BranchFields,
      DirectedForm, ArithmeticForm, CmpForm, BcdForm, BitForm, ShiftForm, MoveForm, MovemForm, EaForm,
      EaToRegisterForm, ImmediateForm, BranchForm, RegisterSlot, CountOperand, QuickOperand, SizeName, SizeField,
      Vector;
    var suffix := "." + SizeName(SizeField(op));
    match d
    case CLR => PlainDemands("CLR" + suffix, op);
    case NEG => PlainDemands("NEG" + suffix, op);
    case NEGX => PlainDemands("NEGX" + suffix, op);
    case NOT => PlainDemands("NOT" + suffix, op);
    case TST => PlainDemands("TST" + suffix, op);
    case JSR => PlainDemands("JSR", op);
    case JMP => PlainDemands("JMP", op);
    case PEA => PlainDemands("PEA", op);
  }

  lemma ToRegisterDecoders(d: Decoder, op: word)
    requires d in {LEA, DIVU, DIVS, MULU, MULS}
    ensures DemandedFields(FormOf(d, op).slots) == FieldsOf(d, op)
  {
    hide DemandedFields, Plain, EaToRegisterForm;
    match d
    case LEA => EaToRegisterDemands("LEA", op, AddressRegister);
    case DIVU => EaToRegisterDemands("DIVU", op, DataRegister);
    case DIVS => EaToRegisterDemands("DIVS", op, DataRegister);
    case MULU => EaToRegisterDemands("MULU", op, DataRegister);
    case MULS => EaToRegisterDemands("MULS", op, DataRegister);
  }

  lemma ImmediateDecoders(d: Decoder, op: word)
    requires d in {ADDI, SUBI, ANDI, ORI, EORI, CMPI, BTST, BCHG, BCLR, BSET}
    ensures DemandedFields(FormOf(d, op).slots) == FieldsOf(d, op)
  {
    hide DemandedFields, Plain, Sized, SizedOrAddress, BitFields, ImmediateFields, MoveFields, BranchFields,
      DirectedForm, ArithmeticForm, CmpForm, BcdForm, BitForm, ShiftForm, MoveForm, MovemForm, EaForm,
      EaToRegisterForm, ImmediateForm, BranchForm, RegisterSlot, CountOperand, QuickOperand, SizeName, SizeField,
      Vector;
    match d
    case ADDI => ImmediateDemands("ADDI", op, true);
    case SUBI => ImmediateDemands("SUBI", op, true);
    case ANDI => ImmediateDemands("ANDI", op, false);
    case ORI => ImmediateDemands("ORI", op, false);
    case EORI => ImmediateDemands("EORI", op, false);
    case CMPI => ImmediateDemands("CMPI", op, false);
    case BTST => BitDemands("BTST", op);
    case BCHG => BitDemands("BCHG", op);
    case BCLR => BitDemands("BCLR", op);
    case BSET => BitDemands("BSET", op);
  }

  lemma ArithmeticDecoders(d: Decoder, op: word)
    requires d in {ADD, SUB, CMP}
    ensures DemandedFields(FormOf(d, op).slots) == FieldsOf(d, op)
  {
    hide DemandedFields, Plain, Sized, SizedOrAddress, BitFields, ImmediateFields, MoveFields, BranchFields,
      DirectedForm, ArithmeticForm, CmpForm, BcdForm, BitForm, ShiftForm, MoveForm, MovemForm, EaForm,
      EaToRegisterForm, ImmediateForm, BranchForm, RegisterSlot, CountOperand, QuickOperand, SizeName, SizeField,
      OpMode, Vector;
    SizeThree(op);
    match d
    case ADD => ArithmeticDemands("ADD", op);
    case SUB => ArithmeticDemands("SUB", op);
    case CMP => CmpDemands(op);
  }

  lemma LogicalDecoders(d: Decoder, op: word)
    requires d in {OR, AND, SBCD, ABCD}
    requires d in {OR, AND} ==> SizeField(op) != 3
    ensures DemandedFields(FormOf(d, op).slots) == FieldsOf(d, op)
  {
    hide DemandedFields, Plain, Sized, SizedOrAddress, BitFields, ImmediateFields, MoveFields, BranchFields,
      DirectedForm, ArithmeticForm, CmpForm, BcdForm, BitForm, ShiftForm, MoveForm, MovemForm, EaForm,
      EaToRegisterForm, ImmediateForm, BranchForm, RegisterSlot, CountOperand, QuickOperand, SizeName, SizeField,
      OpMode, Vector;
    match d
    case OR => DirectedDemands("OR", op);
    case AND => DirectedDemands("AND", op);
    case SBCD => BcdDemands("SBCD", op);
    case ABCD => BcdDemands("ABCD", op);
  }

  lemma OtherDecoders(d: Decoder, op: word)
    requires d in {MOVE, MOVEM, BXX, SHIFT}
    requires d == MOVE ==> op & 0xF000 in {0x1000, 0x2000, 0x3000}
    ensures DemandedFields(FormOf(d, op).slots) == FieldsOf(d, op)
  {
    hide DemandedFields, Plain, Sized, SizedOrAddress, BitFields, ImmediateFields, MoveFields, BranchFields,
      DirectedForm, ArithmeticForm, CmpForm, BcdForm, BitForm, ShiftForm, MoveForm, MovemForm, EaForm,
      EaToRegisterForm, ImmediateForm, BranchForm, RegisterSlot, CountOperand, QuickOperand, SizeName, SizeField,
      Vector;
    match d
    case MOVE => MoveDemands(op);
    case MOVEM => MovemDemands(op);
    case BXX => BranchDemands(op);
    case SHIFT => ShiftDemands(op);
  }

  lemma OpcodeOnlyDecoders(d: Decoder, op: word)
    requires d in {NOP, RTS, STOP, TRAPV, TRAP, SWAP, MOVEQ}
    ensures DemandedFields(FormOf(d, op).slots) == FieldsOf(d, op)
  {
    hide DirectedForm, ArithmeticForm, CmpForm, BcdForm, BitForm, ShiftForm, MoveForm, MovemForm, EaForm,
      EaToRegisterForm, ImmediateForm, BranchForm, RegisterOperand, CountOperand, QuickOperand, Vector, Reg, RegX,
      Plain;
    var f := FormOf(d, op);
    if |f.slots| == 1 {
      assert f.slots == [f.slots[0]];
      DemandedOne(f.slots[0]);
    } else if |f.slots| == 2 {
      assert f.slots == [f.slots[0], f.slots[1]];
      DemandedTwo(f.slots[0], f.slots[1]);
    }
  }

  /** For every opcode, errors included, the fields its decoder demands are those of the table. */
  lemma FieldsAreDemanded(op: word)
    ensures DemandedFields(FormFor(op).slots) == Fields(op)
  {
    hide Lookup, FieldsOf, DemandedFields, DataWordForm, FormOf, SizeField;
    match Lookup(op)
    case None => DataWordDemands(op);
    case Some(d) =>
      if d == MOVE {
        MoveHasSize(op);
      } else if d == OR {
        OrHasSize(op);
      } else if d == AND {
        AndHasSize(op);
      }
      if d in {ADDI, SUBI, ANDI, ORI, EORI, CMPI, BTST, BCHG, BCLR, BSET} {
        ImmediateDecoders(d, op);
      } else if d in {ADD, SUB, CMP} {
        ArithmeticDecoders(d, op);
      } else if d in {OR, AND, SBCD, ABCD} {
        LogicalDecoders(d, op);
      } else if d in {MOVE, MOVEM, BXX, SHIFT} {
        OtherDecoders(d, op);
      } else if d in {NOP, RTS, STOP, TRAPV, TRAP, SWAP, MOVEQ} {
        OpcodeOnlyDecoders(d, op);
      } else if d in {LEA, DIVU, DIVS, MULU, MULS} {
        ToRegisterDecoders(d, op);
      } else {
        PlainDecoders(d, op);
      }
  }

  lemma DataWordDemands(op: word)
    ensures DemandedFields(DataWordForm(op).slots) == []
  {
    hide DataWordOperand, SlotFields;
    FixedDemands(DataWordOperand(op));
    DemandedOne(Fixed(DataWordOperand(op)));
  }

  // ---- lengths and shortages ----

  lemma {:induction false} DemandedTotal(slots: seq<Slot>)
    ensures Total(DemandedFields(slots)) == DecisiveWidth(slots)
  {
    hide EaFault, EaWidth, EaContext;
    if slots != [] && SlotFault(slots[0]).None? {
      DemandedTotal(slots[1..]);
      if SlotWidth(slots[0]) > 0 {
        assert DemandedFields(slots)[1..] == DemandedFields(slots[1..]);
      } else {
        assert DemandedFields(slots) == DemandedFields(slots[1..]);
      }
    }
  }

  /** The length of every instruction, and the demand of every erroneous opcode, is two plus the widths of
      the table. */
  lemma LengthIsTable(op: word)
    ensures Demand(op) == 2 + Total(Fields(op))
    ensures OpcodeLength(op) == if HardFault(op).Some? then None else Some(2 + Total(Fields(op)))
  {
    hide FormFor, Fields, DemandedFields, HardFault;
    FieldsAreDemanded(op);
    DemandedTotal(FormFor(op).slots);
    FaultOfForm(op);
    WalkThreshold(FormFor(op).slots, 2, 2);
  }

  /** End and context of the first field that `have` bytes do not cover. */
  function FirstShort(fields: seq<Field>, have: nat, offset: nat): Option<(nat, string)> {
    if fields == [] then None
    else if have < offset + fields[0].width then Some((offset + fields[0].width, fields[0].context))
    else FirstShort(fields[1..], have, offset + fields[0].width)
  }

  lemma {:induction false} WalkIsFirstShort(slots: seq<Slot>, have: nat, offset: nat)
    requires offset <= have
    ensures match Walk(slots, have, offset)
            case Short(missing, context) =>
              FirstShort(DemandedFields(slots), have, offset) == Some((have + missing, context))
            case _ => FirstShort(DemandedFields(slots), have, offset).None?
  {
    hide EaFault, EaWidth, EaContext;
    if slots != [] && SlotFault(slots[0]).None? {
      var end := offset + SlotWidth(slots[0]);
      if SlotWidth(slots[0]) > 0 {
        assert DemandedFields(slots)[1..] == DemandedFields(slots[1..]);
      } else {
        assert DemandedFields(slots) == DemandedFields(slots[1..]);
      }
      if end <= have {
        WalkIsFirstShort(slots[1..], have, end);
      }
    }
  }

  /** The opcode word, then the fields of the opcode once it is known. */
  function FieldsFrom(data: seq<byte>): seq<Field> {
    [Field(2, "opcode")] + (if |data| < 2 then [] else Fields(WordAt(data, 0)))
  }

  /** Decoding ends in a partial error exactly when a field of the table is not covered, and then the error
      names the end and the context of the first such field. */
  lemma PartialNamesField(data: seq<byte>, address: uint32, opts: Options)
    ensures match FirstShort(FieldsFrom(data), |data|, 0)
            case Some(field) => Slice(data, address, opts) == Partial(address, |data|, field.0 - |data|, field.1)
            case None => !Slice(data, address, opts).Partial?
  {
    hide FormFor, Fields, DemandedFields, ReadSlots, Finalized, Assemble, Lookup, WordAt;
    if |data| >= 2 {
      var op := WordAt(data, 0);
      FieldsAreDemanded(op);
      WalkIsFirstShort(FormFor(op).slots, |data|, 2);
      assert FieldsFrom(data)[1..] == Fields(op);
    }
  }

  // ---- mnemonics ----

  function SizeSuffix(op: word): string {
    if op & 0x00C0 == 0x0000 then ".B" else if op & 0x00C0 == 0x0040 then ".W" else if op & 0x00C0 == 0x0080 then ".L"
    else ".?"
  }

  /** ADDA, SUBA and CMPA. */
  function AddressSuffix(op: word): string {
    if op & 0x01C0 == 0x01C0 then ".L" else ".W"
  }

  function ArithmeticMnemonic(name: string, op: word): string {
    if op & 0x00C0 == 0x00C0 then name + "A" + AddressSuffix(op) else name + SizeSuffix(op)
  }

  function MoveMnemonicOf(op: word): string {
    (if op & 0x01C0 == 0x0040 then "MOVEA" else "MOVE")
    + (if op & 0xF000 == 0x1000 then ".B" else if op & 0xF000 == 0x3000 then ".W" else ".L")
  }

  function CompareMnemonicOf(op: word): string {
    if op & 0xF138 == 0xB108 then "CMPM" + SizeSuffix(op)
    else if op & 0x00C0 == 0x00C0 then "CMPA" + AddressSuffix(op)
    else if op & 0x0100 != 0 then "EOR" + SizeSuffix(op)
    else "CMP" + SizeSuffix(op)
  }

  function ShiftMnemonicOf(op: word): string {
    var kind := if op & 0x0800 == 0 then ((op >> 9) & 0x3) as bv2 else ((op >> 6) & 0x3) as bv2;
    var name := if kind == 0 then "AS" else if kind == 1 then "LS" else if kind == 2 then "ROX" else "RO";
    name + (if op & 0x0100 != 0 then "L" else "R") + (if op & 0x0800 == 0 then SizeSuffix(op) else ".W")
  }

  function BranchMnemonicOf(op: word): string {
    BranchName(((op >> 8) & 0xF) as bv4)
    + (if op & 0x00FF == 0 then ".W" else if op & 0x00FF == 0x00FF then ".L" else ".S")
  }

  function MnemonicIn(d: Decoder, op: word): string {
    match d
    case BTST => "BTST"
    case BCHG => "BCHG"
    case BCLR => "BCLR"
    case BSET => "BSET"
    case ADDI => "ADDI" + SizeSuffix(op)
    case SUBI => "SUBI" + SizeSuffix(op)
    case ANDI => "ANDI" + SizeSuffix(op)
    case ORI => "ORI" + SizeSuffix(op)
    case EORI => "EORI" + SizeSuffix(op)
    case CMPI => "CMPI" + SizeSuffix(op)
    case MOVE => MoveMnemonicOf(op)
    case NOP => "NOP"
    case RTS => "RTS"
    case STOP => "STOP"
    case TRAPV => "TRAPV"
    case TRAP => "TRAP"
    case MOVEM => "MOVEM" + (if op & 0x0040 != 0 then ".L" else ".W")
    case CLR => "CLR" + SizeSuffix(op)
    case NEG => "NEG" + SizeSuffix(op)
    case NEGX => "NEGX" + SizeSuffix(op)
    case NOT => "NOT" + SizeSuffix(op)
    case TST => "TST" + SizeSuffix(op)
    case JSR => "JSR"
    case JMP => "JMP"
    case LEA => "LEA"
    case SWAP => "SWAP"
    case PEA => "PEA"
    case BXX => BranchMnemonicOf(op)
    case MOVEQ => "MOVEQ"
    case SBCD => "SBCD"
    case ABCD => "ABCD"
    case DIVU => "DIVU"
    case DIVS => "DIVS"
    case MULU => "MULU"
    case MULS => "MULS"
    case OR => "OR" + SizeSuffix(op)
    case AND => "AND" + SizeSuffix(op)
    case ADD => ArithmeticMnemonic("ADD", op)
    case SUB => ArithmeticMnemonic("SUB", op)
    case CMP => CompareMnemonicOf(op)
    case SHIFT => ShiftMnemonicOf(op)
  }

  function Mnemonic(op: word): string {
    if Lookup(op).None? then "DC.W" else MnemonicIn(Lookup(op).value, op)
  }

  lemma Regroup(a: string, b: string, c: string)
    ensures (a + b) + c == a + (b + c)
  {
  }

  lemma SizeSuffixIs(op: word)
    ensures SizeSuffix(op) == "." + SizeName(SizeField(op))
    ensures forall mn: string :: mn + "." + SizeName(SizeField(op)) == mn + SizeSuffix(op)
  {
    SizeNameIs(op);
    forall mn: string
      ensures mn + "." + SizeName(SizeField(op)) == mn + SizeSuffix(op)
    {
      Regroup(mn, ".", SizeName(SizeField(op)));
    }
  }

  lemma SizeNameIs(op: word)
    ensures SizeSuffix(op) == "." + SizeName(SizeField(op))
  {
    SizeBits(op);
    SizeLow(op);
  }

  lemma SizeLow(op: word)
    ensures SizeField(op) == 0 <==> op & 0x00C0 == 0x0000
    ensures SizeField(op) == 1 <==> op & 0x00C0 == 0x0040
  {
  }

  lemma ArithmeticNamed(mn: string, op: word)
    requires SizeField(op) != 3 || OpMode(op) == 3 || OpMode(op) == 7
    ensures ArithmeticForm(mn, op).mnemonic == ArithmeticMnemonic(mn, op)
  {
    hide SizeSuffix, SizeName, SizeField, OpMode, SourceEa, RegisterSlot;
    SizeSuffixIs(op);
    SizeBits(op);
    SizeThree(op);
    if OpMode(op) == 3 || OpMode(op) == 7 {
      AddressNamed(mn, op);
    }
  }

  lemma AddressNamed(mn: string, op: word)
    requires OpMode(op) == 3 || OpMode(op) == 7
    ensures AddressForm(mn, op).mnemonic == mn + "A" + AddressSuffix(op)
  {
    hide OpMode, SourceEa, RegisterSlot;
    SizeBits(op);
    assert mn + "A." == mn + "A" + ".";
    Regroup(mn + "A", ".", if OpMode(op) == 7 then "L" else "W");
  }

  lemma CompareNamed(op: word)
    ensures CmpForm(op).mnemonic == CompareMnemonicOf(op)
  {
    hide SizeSuffix, SizeName, SizeField, OpMode, SourceEa, RegisterSlot, PostIncrementOperand;
    SizeSuffixIs(op);
    SizeBits(op);
    SizeThree(op);
    HighModes(op);
    if IsCmpm(op) {
      assert "CMPM." == "CMPM" + ".";
    } else if OpMode(op) == 3 || OpMode(op) == 7 {
      AddressNamed("CMP", op);
      assert "CMP" + "A" == "CMPA";
    } else if OpMode(op) < 4 {
      assert "CMP." == "CMP" + ".";
    }
  }

  lemma HighModes(op: word)
    ensures OpMode(op) >= 4 <==> op & 0x0100 != 0
  {
  }

  lemma MoveNamed(op: word)
    requires op & 0xF000 in {0x1000, 0x2000, 0x3000}
    ensures MoveForm(op).mnemonic == MoveMnemonicOf(op)
  {
    hide OpMode, MoveSizeField, SourceEa, RegisterSlot, RegX;
    SizeBits(op);
    MoveNibbles(op);
    assert "MOVEA." == "MOVEA" + "." && "MOVE." == "MOVE" + ".";
  }

  lemma ShiftNamed(op: word)
    ensures ShiftForm(op).mnemonic == ShiftMnemonicOf(op)
  {
    hide SizeSuffix, SizeName, SizeField, RegX, SourceEa, RegisterOperand, CountOperand, Direction;
    SizeSuffixIs(op);
    SizeBits(op);
    ShiftKind(op);
  }

  lemma ShiftKind(op: word)
    ensures RegX(op) <= 3 ==> RegX(op) as bv2 == ((op >> 9) & 0x3) as bv2
    ensures SizeField(op) == ((op >> 6) & 0x3) as bv2
  {
  }

  lemma BranchNamed(op: word)
    ensures BranchForm(op).mnemonic == BranchMnemonicOf(op)
  {
    hide BranchName, LowByte;
    LowByteIs(op);
  }

  lemma SizedNamed(d: Decoder, op: word)
    requires d in {CLR, NEG, NEGX, NOT, TST, ADDI, SUBI, ANDI, ORI, EORI, CMPI, OR, AND}
    requires d !in {CLR, NEG, NEGX, NOT, TST} ==> SizeField(op) != 3
    ensures FormOf(d, op).mnemonic == MnemonicIn(d, op)
  {
    hide SizeSuffix, SizeName, SizeField, SourceEa, RegisterSlot, Direction;
    SizeSuffixIs(op);
    if d in {CLR, NEG, NEGX, NOT, TST} {
      SizeNameIs(op);
    }
  }

  lemma FixedNamed(d: Decoder, op: word)
    requires d in {BTST, BCHG, BCLR, BSET, NOP, RTS, STOP, TRAPV, TRAP, JSR, JMP, LEA, SWAP, PEA, MOVEQ, SBCD, ABCD,
                   DIVU,
                   DIVS, MULU, MULS, MOVEM}
    ensures FormOf(d, op).mnemonic == MnemonicIn(d, op)
  {
    hide SourceEa, RegisterSlot, Direction, CountOperand, QuickOperand, Vector, SizeSuffix, PreDecrementOperand;
    assert "MOVEM." + "L" == "MOVEM" + ".L" && "MOVEM." + "W" == "MOVEM" + ".W";
  }

  lemma GroupNamed(d: Decoder, op: word)
    requires d in {MOVE, BXX, CMP, SHIFT}
    requires d == MOVE ==> op & 0xF000 in {0x1000, 0x2000, 0x3000}
    ensures FormOf(d, op).mnemonic == MnemonicIn(d, op)
  {
    hide MoveForm, BranchForm, CmpForm, ShiftForm, MoveMnemonicOf, BranchMnemonicOf, CompareMnemonicOf,
      ShiftMnemonicOf;
    match d
    case MOVE => MoveNamed(op);
    case BXX => BranchNamed(op);
    case CMP => CompareNamed(op);
    case SHIFT => ShiftNamed(op);
  }

  lemma AddNamed(d: Decoder, op: word)
    requires d == ADD || d == SUB
    ensures FormOf(d, op).mnemonic == MnemonicIn(d, op)
  {
    hide ArithmeticForm, ArithmeticMnemonic, SizeField, OpMode;
    SizeThree(op);
    ArithmeticNamed("ADD", op);
    ArithmeticNamed("SUB", op);
  }

  lemma DataWordNamed(op: word)
    ensures DataWordForm(op).mnemonic == "DC.W"
  {
    hide DataWordOperand;
  }

  lemma SizedFault(op: word, d: Decoder)
    requires Lookup(op) == Some(d) && HardFault(op).None?
    ensures d in {ADDI, SUBI, ANDI, ORI, EORI, CMPI} ==> SizeField(op) != 3
  {
    hide Lookup, DecodesSource, BadEa, SizeField;
  }

  lemma FormNamed(op: word)
    requires HardFault(op).None?
    ensures FormFor(op).mnemonic == Mnemonic(op)
  {
    hide Lookup, FormOf, MnemonicIn, DataWordForm, SizeField, HardFault;
    match Lookup(op)
    case None => DataWordNamed(op);
    case Some(d) =>
      SizedFault(op, d);
      if d == MOVE {
        MoveHasSize(op);
      } else if d == OR {
        OrHasSize(op);
      } else if d == AND {
        AndHasSize(op);
      }
      if d in {CLR, NEG, NEGX, NOT, TST, ADDI, SUBI, ANDI, ORI, EORI, CMPI, OR, AND} {
        SizedNamed(d, op);
      } else if d in {MOVE, BXX, CMP, SHIFT} {
        GroupNamed(d, op);
      } else if d == ADD || d == SUB {
        AddNamed(d, op);
      } else {
        FixedNamed(d, op);
      }
  }

  /** The mnemonic of every decoded instruction, suffix included, is that of the table. */
  lemma MnemonicIsTable(data: seq<byte>, address: uint32, opts: Options)
    requires Slice(data, address, opts).Decoding? && |data| >= 2
    ensures Slice(data, address, opts).inst.mnemonic == Mnemonic(WordAt(data, 0))
  {
    hide FormFor, HardFault, Mnemonic, ReadSlots, Cut, WordsOf, Rendered, OpcodeLength;
    SliceLength(data, address, opts);
    LengthIsTable(WordAt(data, 0));
    FormNamed(WordAt(data, 0));
  }
}
