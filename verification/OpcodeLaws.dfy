/** What the opcode word alone decides: the length of its instruction and whether it is an error. */
module OpcodeLaws {
  import opened Wrappers
  import opened Words
  import opened Model
  import opened EffectiveAddresses
  import opened Forms
  import opened FormLaws
  import opened InstructionSet
  import opened Dispatch

  /** The form behind an opcode, through the jump table. */
  function FormFor(op: word): (f: Form)
    ensures FormOk(f)
  {
    match Lookup(op)
    case Some(d) => FormOf(d, op)
    case None => DataWordForm(op)
  }

  // ---- hard errors ----

  function ImmediateName(d: Decoder): Option<string> {
    match d
    case ADDI => Some("ADDI")
    case SUBI => Some("SUBI")
    case ANDI => Some("ANDI")
    case ORI => Some("ORI")
    case EORI => Some("EORI")
    case CMPI => Some("CMPI")
    case _ => None
  }

  /** The decoder reads an effective address from the low six opcode bits. */
  predicate DecodesSource(d: Decoder, op: word) {
    && d !in {NOP, RTS, STOP, TRAPV, TRAP, SWAP, BXX, MOVEQ, SBCD, ABCD}
    && !(d == SHIFT && RegX(op) <= 3)
    && !(d == CMP && IsCmpm(op))
  }

  predicate BadEa(mode: bv3, reg: regnum) {
    mode == 7 && reg >= 5
  }

  /** The three classes of erroneous opcodes: size field 3 in the immediate family, effective address
      7.5 to 7.7, and MOVE.B to an address register. */
  function HardFault(op: word): Option<Fault> {
    match Lookup(op)
    case None => None
    case Some(d) => DecoderFault(d, op)
  }

  function DecoderFault(d: Decoder, op: word): Option<Fault> {
    if ImmediateName(d).Some? && SizeField(op) == 3 then Some(UnknownSize(ImmediateName(d).value, 3))
    else if DecodesSource(d, op) && BadEa(Mode(op), Reg(op)) then Some(UnknownAddressingMode(7, Reg(op)))
    else if d == MOVE && op & 0xF1C0 == 0x1040 then Some(ByteMovea)
    else if d == MOVE && BadEa(OpMode(op), RegX(op)) then Some(UnknownAddressingMode(7, RegX(op)))
    else None
  }

  /** The opcode has the bits of the decoder. */
  predicate AtHome(d: Decoder, op: word) {
    match d
    case BTST => Has(op, 0xFFC0, 0x0500) || Has(op, 0xFFC0, 0x0800)
    case BCHG => Has(op, 0xFFC0, 0x0540) || Has(op, 0xFFC0, 0x0840)
    case BCLR => Has(op, 0xFFC0, 0x0580) || Has(op, 0xFFC0, 0x0880)
    case BSET => Has(op, 0xFFC0, 0x05C0) || Has(op, 0xFFC0, 0x08C0)
    case ADDI => Has(op, 0xFF00, 0x0600)
    case SUBI => Has(op, 0xFF00, 0x0400)
    case ANDI => Has(op, 0xFF00, 0x0200)
    case ORI => Has(op, 0xFF00, 0x0000)
    case EORI => Has(op, 0xFF00, 0x0A00)
    case CMPI => Has(op, 0xFF00, 0x0C00)
    case MOVE => Has(op, 0xF000, 0x1000) || Has(op, 0xF000, 0x2000) || Has(op, 0xF000, 0x3000)
    case NOP => Has(op, 0xFFFF, 0x4E71)
    case RTS => Has(op, 0xFFFF, 0x4E75)
    case STOP => Has(op, 0xFFFF, 0x4E72)
    case TRAPV => Has(op, 0xFFFF, 0x4E76)
    case TRAP => Has(op, 0xFFF0, 0x4E40)
    case MOVEM => Has(op, 0xFB80, 0x4880)
    case CLR => Has(op, 0xFF00, 0x4200)
    case NEG => Has(op, 0xFF00, 0x4400)
    case NEGX => Has(op, 0xFF00, 0x4000)
    case NOT => Has(op, 0xFF00, 0x4600)
    case TST => Has(op, 0xFF00, 0x4A00)
    case JSR => Has(op, 0xFFC0, 0x4E80)
    case JMP => Has(op, 0xFFC0, 0x4EC0)
    case LEA => Has(op, 0xF1C0, 0x41C0)
    case SWAP => Has(op, 0xFFF8, 0x4840)
    case PEA => Has(op, 0xFFC0, 0x4840)
    case BXX => Has(op, 0xF000, 0x6000)
    case MOVEQ => Has(op, 0xF100, 0x7000)
    case SBCD => Has(op, 0xF1F0, 0x8100)
    case DIVU => Has(op, 0xF1C0, 0x80C0)
    case DIVS => Has(op, 0xF1C0, 0x81C0)
    case OR => Has(op, 0xF000, 0x8000)
    case SUB => Has(op, 0xF000, 0x9000)
    case CMP => Has(op, 0xF000, 0xB000)
    case ABCD => Has(op, 0xF1F0, 0xC100)
    case MULU => Has(op, 0xF1C0, 0xC0C0)
    case MULS => Has(op, 0xF1C0, 0xC1C0)
    case AND => Has(op, 0xF000, 0xC000)
    case ADD => Has(op, 0xF000, 0xD000)
    case SHIFT => Has(op, 0xF000, 0xE000)
  }

  predicate LeadsHome(p: Pattern, op: word) {
    Matches(p, op) ==> AtHome(p.decoder, op)
  }

  lemma BitsLeadHome(op: word)
    ensures forall i :: 0 <= i < 8 ==> LeadsHome(BUCKET_0[i], op)
  {
    hide Has;
  }

  lemma ImmediatesLeadHome(op: word)
    ensures forall i :: 8 <= i < |BUCKET_0| ==> LeadsHome(BUCKET_0[i], op)
  {
    hide Has;
  }

  lemma ExactLeadHome(op: word)
    ensures forall i :: 0 <= i < 6 ==> LeadsHome(BUCKET_4[i], op)
  {
    hide Has;
  }

  lemma SizedLeadHome(op: word)
    ensures forall i :: 7 <= i < 12 ==> LeadsHome(BUCKET_4[i], op)
  {
    hide Has;
  }

  lemma AddressesLeadHome(op: word)
    ensures forall i :: 12 <= i < |BUCKET_4| ==> LeadsHome(BUCKET_4[i], op)
  {
    hide Has;
  }

  lemma OrGroupLeadsHome(op: word)
    ensures forall i :: 0 <= i < |BUCKET_8| ==> LeadsHome(BUCKET_8[i], op)
  {
    hide Has;
  }

  lemma AndGroupLeadsHome(op: word)
    ensures forall i :: 0 <= i < |BUCKET_C| ==> LeadsHome(BUCKET_C[i], op)
  {
    hide Has;
  }

  lemma LowSinglesLeadHome(op: word)
    ensures forall k, i :: k in {1, 2, 3, 5, 6, 7} && 0 <= i < |OPCODE_BUCKETS[k]| ==>
              LeadsHome(OPCODE_BUCKETS[k][i], op)
  {
    hide Has;
  }

  lemma HighSinglesLeadHome(op: word)
    ensures forall k, i :: k in {9, 10, 11, 13, 14, 15} && 0 <= i < |OPCODE_BUCKETS[k]| ==>
              LeadsHome(OPCODE_BUCKETS[k][i], op)
  {
    hide Has;
  }

  lemma PatternsLeadHome(op: word)
    ensures forall k, i :: 0 <= k < 16 && 0 <= i < |OPCODE_BUCKETS[k]| ==> LeadsHome(OPCODE_BUCKETS[k][i], op)
  {
    hide LeadsHome;
    BitsLeadHome(op);
    ImmediatesLeadHome(op);
    ExactLeadHome(op);
    DeadPatternLeadsHome(op);
    SizedLeadHome(op);
    AddressesLeadHome(op);
    OrGroupLeadsHome(op);
    AndGroupLeadsHome(op);
    LowSinglesLeadHome(op);
    HighSinglesLeadHome(op);
  }

  lemma DeadPatternLeadsHome(op: word)
    ensures LeadsHome(BUCKET_4[6], op)
  {
    SecondMovemPatternIsDead(op);
  }

  /** An opcode with a decoder has the bits the decoder's patterns ask for. */
  lemma LookupIsHome(op: word)
    requires Lookup(op).Some?
    ensures AtHome(Lookup(op).value, op)
  {
    hide Matches, AtHome, HighNibble;
    var k := HighNibble(op);
    var i := FirstIsMember(OPCODE_BUCKETS[k], |OPCODE_BUCKETS[k]|, op);
    PatternsLeadHome(op);
    assert LeadsHome(OPCODE_BUCKETS[k][i], op);
  }

  /** MOVE is reached through its three buckets only, so its size field is never 0. */
  lemma MoveHasSize(op: word)
    requires Lookup(op) == Some(MOVE)
    ensures MoveSizeField(op) != 0 && op & 0xF000 in {0x1000, 0x2000, 0x3000} && op & 0xC000 == 0
  {
    hide Lookup;
    LookupIsHome(op);
    MoveNibbles(op);
  }

  lemma MoveNibbles(op: word)
    ensures op & 0xF000 == 0x1000 ==> MoveSizeField(op) == 1
    ensures op & 0xF000 == 0x2000 ==> MoveSizeField(op) == 2
    ensures op & 0xF000 == 0x3000 ==> MoveSizeField(op) == 3
    ensures op & 0xF000 in {0x1000, 0x2000, 0x3000} ==> op & 0xC000 == 0
  {
  }

  lemma SizeThreeIsDivision(op: word)
    requires SizeField(op) == 3
    ensures op & 0xF000 == 0x8000 ==> op & 0xF1C0 == 0x80C0 || op & 0xF1C0 == 0x81C0
    ensures op & 0xF000 == 0xC000 ==> op & 0xF1C0 == 0xC0C0 || op & 0xF1C0 == 0xC1C0
    ensures op & 0xF000 == 0x8000 ==> HighNibble(op) == 8
    ensures op & 0xF000 == 0xC000 ==> HighNibble(op) == 12
  {
    assert op & 0xF000 == 0x8000 ==> ((op >> 12) & 0xF) as bv4 == 8;
    assert op & 0xF000 == 0xC000 ==> ((op >> 12) & 0xF) as bv4 == 12;
  }

  /** The last pattern of a four-pattern bucket decides only if the three before it fail. */
  lemma LastOfFour(bucket: seq<Pattern>, op: word)
    requires |bucket| == 4 && FirstMatch(bucket, op) == Some(bucket[3].decoder)
    requires forall i :: 0 <= i < 3 ==> bucket[i].decoder != bucket[3].decoder
    ensures !Matches(bucket[1], op) && !Matches(bucket[2], op)
  {
    hide Matches;
    if FirstWithin(bucket, 3, op).Some? {
      FirstWithinStable(bucket, 3, 4, op);
      var i := FirstIsMember(bucket, 3, op);
      assert false;
    }
    NoneMatches(bucket, 3, op);
  }

  /** Size field 3 of the OR group belongs to division, that of the AND group to multiplication. */
  lemma OrHasSize(op: word)
    requires Lookup(op) == Some(OR)
    ensures SizeField(op) != 3
  {
    hide HighNibble, FirstMatch;
    LookupIsHome(op);
    if SizeField(op) == 3 {
      SizeThreeIsDivision(op);
      assert OPCODE_BUCKETS[8] == BUCKET_8;
      LastOfFour(BUCKET_8, op);
    }
  }

  lemma AndHasSize(op: word)
    requires Lookup(op) == Some(AND)
    ensures SizeField(op) != 3
  {
    hide HighNibble, FirstMatch;
    LookupIsHome(op);
    if SizeField(op) == 3 {
      SizeThreeIsDivision(op);
      assert OPCODE_BUCKETS[12] == BUCKET_C;
      LastOfFour(BUCKET_C, op);
    }
  }

  lemma FirstFaultOne(s: Slot)
    ensures FirstFault([s]) == SlotFault(s)
  {
    assert [s][1..] == [];
  }

  lemma FirstFaultTwo(s: Slot, t: Slot)
    ensures FirstFault([s, t]) == if SlotFault(s).Some? then SlotFault(s) else SlotFault(t)
  {
    assert [s, t][1..] == [t];
    FirstFaultOne(t);
  }

  function BadSource(op: word): Option<Fault> {
    if BadEa(Mode(op), Reg(op)) then Some(UnknownAddressingMode(7, Reg(op))) else None
  }

  lemma FaultOfOne(f: Form, size: nat, op: word)
    requires size in {1, 2, 4} && f.slots == [SourceEa(op, size)]
    ensures FirstFault(f.slots) == BadSource(op)
  {
    FirstFaultOne(SourceEa(op, size));
  }

  /** A source operand beside a slot that cannot fail, in either order. */
  lemma FaultOfTwo(f: Form, s: Slot, size: nat, op: word)
    requires size in {1, 2, 4} && SlotFault(s).None?
    requires f.slots == [SourceEa(op, size), s] || f.slots == [s, SourceEa(op, size)]
    ensures FirstFault(f.slots) == BadSource(op)
  {
    FirstFaultTwo(SourceEa(op, size), s);
    FirstFaultTwo(s, SourceEa(op, size));
  }

  lemma FaultOfFixed(f: Form)
    requires |f.slots| <= 2 && forall i :: 0 <= i < |f.slots| ==> SlotFault(f.slots[i]).None?
    ensures FirstFault(f.slots).None?
  {
    if |f.slots| == 1 {
      assert f.slots == [f.slots[0]];
      FirstFaultOne(f.slots[0]);
    } else if |f.slots| == 2 {
      assert f.slots == [f.slots[0], f.slots[1]];
      FirstFaultTwo(f.slots[0], f.slots[1]);
    }
  }

  lemma FaultOfDirected(mn: string, op: word)
    requires SizeField(op) != 3
    ensures FirstFault(DirectedForm(mn, op).slots) == BadSource(op)
  {
    hide BadSource, EaFault, RegisterOperand, FirstFault;
    FaultOfTwo(DirectedForm(mn, op), RegisterSlot(DataRegister, RegX(op)), ByteSize(SizeField(op)), op);
  }

  lemma FaultOfArithmetic(mn: string, op: word)
    ensures FirstFault(ArithmeticForm(mn, op).slots) == BadSource(op)
  {
    hide BadSource, EaFault, RegisterOperand, FirstFault;
    if OpMode(op) == 3 || OpMode(op) == 7 {
      FaultOfTwo(AddressForm(mn, op), RegisterSlot(AddressRegister, RegX(op)), if OpMode(op) == 7 then 4 else 2, op);
    } else {
      FaultOfDirected(mn, op);
    }
  }

  lemma FaultOfImmediate(mn: string, op: word, longImmediate: bool)
    ensures FirstFault(ImmediateForm(mn, op, longImmediate).slots)
            == if SizeField(op) == 3 then Some(UnknownSize(mn, 3)) else BadSource(op)
  {
    hide BadSource, EaFault, FirstFault;
    var f := ImmediateForm(mn, op, longImmediate);
    if SizeField(op) == 3 {
      FirstFaultOne(Reject(UnknownSize(mn, 3)));
    } else {
      FaultOfTwo(f, f.slots[0], 2, op);
    }
  }

  lemma FaultOfMove(op: word)
    requires op & 0xF000 in {0x1000, 0x2000, 0x3000}
    ensures FirstFault(MoveForm(op).slots)
            == if BadEa(Mode(op), Reg(op)) then BadSource(op)
               else if op & 0xF1C0 == 0x1040 then Some(ByteMovea)
               else if BadEa(OpMode(op), RegX(op)) then Some(UnknownAddressingMode(7, RegX(op)))
               else None
  {
    hide RegisterOperand, FirstFault;
    MoveNibbles(op);
    assert op & 0xF1C0 == 0x1040 <==> op & 0xF000 == 0x1000 && OpMode(op) == 1;
    var f := MoveForm(op);
    assert f.slots == [f.slots[0], f.slots[1]];
    FirstFaultTwo(f.slots[0], f.slots[1]);
  }

  lemma FaultOfCmp(op: word)
    ensures FirstFault(CmpForm(op).slots) == if IsCmpm(op) then None else BadSource(op)
  {
    hide BadSource, EaFault, RegisterOperand, FirstFault, PostIncrementOperand;
    if IsCmpm(op) {
      FaultOfFixed(CmpForm(op));
    } else if OpMode(op) == 3 || OpMode(op) == 7 {
      FaultOfArithmetic("CMP", op);
    } else if OpMode(op) >= 4 {
      FaultOfDirected("EOR", op);
    } else {
      FaultOfTwo(CmpForm(op), RegisterSlot(DataRegister, RegX(op)), ByteSize(SizeField(op)), op);
    }
  }

  lemma FaultOfShift(op: word)
    ensures FirstFault(ShiftForm(op).slots) == if RegX(op) <= 3 then None else BadSource(op)
  {
    hide BadSource, EaFault, RegisterOperand, FirstFault, CountOperand;
    if RegX(op) <= 3 {
      FaultOfFixed(ShiftForm(op));
    } else {
      FaultOfOne(ShiftForm(op), 2, op);
    }
  }

  lemma FaultOfBcd(mn: string, op: word)
    ensures FirstFault(BcdForm(mn, op).slots).None?
  {
    hide RegisterOperand, FirstFault, PreDecrementOperand;
    FaultOfFixed(BcdForm(mn, op));
  }

  lemma FaultOfMovem(op: word)
    ensures FirstFault(MovemForm(op).slots) == BadSource(op)
  {
    hide FirstFault;
    var f := MovemForm(op);
    if f.slots[1].Ea? {
      FaultOfTwo(f, f.slots[0], 2, op);
    } else {
      FaultOfFixed(f);
    }
  }

  lemma FaultOfBit(mn: string, op: word)
    ensures FirstFault(BitForm(mn, op).slots) == BadSource(op)
  {
    hide BadSource, EaFault, RegisterOperand, FirstFault;
    FaultOfTwo(BitForm(mn, op), BitForm(mn, op).slots[0], 2, op);
  }

  /** Decoders without an effective address. */
  lemma FaultOfBare(d: Decoder, op: word)
    requires d in {NOP, RTS, STOP, TRAPV, TRAP, SWAP, BXX, MOVEQ}
    ensures FirstFault(FormOf(d, op).slots) == DecoderFault(d, op)
  {
    hide BadEa, RegisterOperand, FirstFault, CountOperand, QuickOperand, BranchName, LowByte, Vector;
    FaultOfFixed(FormOf(d, op));
  }

  /** Decoders with one plain source operand. */
  lemma FaultOfSource(d: Decoder, op: word)
    requires d in {CLR, NEG, NEGX, NOT, TST, JSR, JMP, PEA}
    ensures FirstFault(FormOf(d, op).slots) == DecoderFault(d, op)
  {
    hide Reg, Mode, RegX, OpMode, IsCmpm, SizeField, EaFault, BadEa, RegisterOperand, FirstFault, SizeName,
      DirectedForm, ArithmeticForm, MoveForm, CmpForm, ShiftForm, BcdForm, MovemForm, BitForm, ImmediateForm,
      BranchForm, CountOperand, QuickOperand, Vector;
    FaultOfOne(FormOf(d, op), 2, op);
  }

  /** Decoders with a source operand and a register. */
  lemma FaultOfSourceAndRegister(d: Decoder, op: word)
    requires d in {LEA, DIVU, DIVS, MULU, MULS}
    ensures FirstFault(FormOf(d, op).slots) == DecoderFault(d, op)
  {
    hide Reg, Mode, RegX, OpMode, IsCmpm, SizeField, EaFault, BadEa, RegisterOperand, FirstFault, SizeName,
      DirectedForm, ArithmeticForm, MoveForm, CmpForm, ShiftForm, BcdForm, MovemForm, BitForm, ImmediateForm,
      BranchForm, CountOperand, QuickOperand, Vector;
    var f := FormOf(d, op);
    FaultOfTwo(f, f.slots[1], 2, op);
  }

  lemma FaultOfBucket0(d: Decoder, op: word)
    requires d in {ADDI, SUBI, ANDI, ORI, EORI, CMPI, BTST, BCHG, BCLR, BSET}
    ensures FirstFault(FormOf(d, op).slots) == DecoderFault(d, op)
  {
    hide Reg, Mode, RegX, OpMode, IsCmpm, SizeField, FirstFault, ImmediateForm, BitForm, BadEa, DirectedForm,
      ArithmeticForm, MoveForm, CmpForm, ShiftForm, BcdForm, MovemForm, EaForm, EaToRegisterForm, BranchForm,
      CountOperand, QuickOperand, Vector, RegisterOperand, SizeName;
    match d
    case ADDI => FaultOfImmediate("ADDI", op, true);
    case SUBI => FaultOfImmediate("SUBI", op, true);
    case ANDI => FaultOfImmediate("ANDI", op, false);
    case ORI => FaultOfImmediate("ORI", op, false);
    case EORI => FaultOfImmediate("EORI", op, false);
    case CMPI => FaultOfImmediate("CMPI", op, false);
    case BTST => FaultOfBit("BTST", op);
    case BCHG => FaultOfBit("BCHG", op);
    case BCLR => FaultOfBit("BCLR", op);
    case BSET => FaultOfBit("BSET", op);
  }

  lemma FaultOfMoveForm(op: word)
    requires op & 0xF000 in {0x1000, 0x2000, 0x3000}
    ensures FirstFault(FormOf(MOVE, op).slots) == DecoderFault(MOVE, op)
  {
    hide Reg, Mode, RegX, OpMode, IsCmpm, SizeField, FirstFault, DirectedForm, ArithmeticForm, MoveForm, CmpForm,
      ShiftForm, BcdForm, MovemForm, BadEa, EaForm, EaToRegisterForm, BranchForm, BitForm, ImmediateForm,
      RegisterOperand, CountOperand, QuickOperand, Vector, SizeName;
    FaultOfMove(op);
  }

  lemma FaultOfBinary(d: Decoder, op: word)
    requires d in {OR, AND, ADD, SUB}
    requires d in {OR, AND} ==> SizeField(op) != 3
    ensures FirstFault(FormOf(d, op).slots) == DecoderFault(d, op)
  {
    hide Reg, Mode, RegX, OpMode, IsCmpm, SizeField, FirstFault, DirectedForm, ArithmeticForm, MoveForm, CmpForm,
      ShiftForm, BcdForm, MovemForm, BadEa, EaForm, EaToRegisterForm, BranchForm, BitForm, ImmediateForm,
      RegisterOperand, CountOperand, QuickOperand, Vector, SizeName;
    match d
    case OR => FaultOfDirected("OR", op);
    case AND => FaultOfDirected("AND", op);
    case ADD => FaultOfArithmetic("ADD", op);
    case SUB => FaultOfArithmetic("SUB", op);
  }

  lemma FaultOfMovemForm(op: word)
    ensures FirstFault(FormOf(MOVEM, op).slots) == DecoderFault(MOVEM, op)
  {
    hide Reg, Mode, RegX, OpMode, IsCmpm, SizeField, FirstFault, DirectedForm, ArithmeticForm, MoveForm, CmpForm,
      ShiftForm, BcdForm, MovemForm, BadEa, EaForm, EaToRegisterForm, BranchForm, BitForm, ImmediateForm,
      RegisterOperand, CountOperand, QuickOperand, Vector, SizeName;
    FaultOfMovem(op);
  }

  lemma FaultOfCmpForm(op: word)
    ensures FirstFault(FormOf(CMP, op).slots) == DecoderFault(CMP, op)
  {
    hide Reg, Mode, RegX, OpMode, IsCmpm, SizeField, FirstFault, DirectedForm, ArithmeticForm, MoveForm, CmpForm,
      ShiftForm, BcdForm, MovemForm, BadEa, EaForm, EaToRegisterForm, BranchForm, BitForm, ImmediateForm,
      RegisterOperand, CountOperand, QuickOperand, Vector, SizeName;
    FaultOfCmp(op);
  }

  lemma FaultOfShiftForm(op: word)
    ensures FirstFault(FormOf(SHIFT, op).slots) == DecoderFault(SHIFT, op)
  {
    hide Reg, Mode, RegX, OpMode, IsCmpm, SizeField, FirstFault, DirectedForm, ArithmeticForm, MoveForm, CmpForm,
      ShiftForm, BcdForm, MovemForm, BadEa, EaForm, EaToRegisterForm, BranchForm, BitForm, ImmediateForm,
      RegisterOperand, CountOperand, QuickOperand, Vector, SizeName;
    FaultOfShift(op);
  }

  lemma FaultOfBcdForm(d: Decoder, op: word)
    requires d in {SBCD, ABCD}
    ensures FirstFault(FormOf(d, op).slots) == DecoderFault(d, op)
  {
    hide Reg, Mode, RegX, OpMode, IsCmpm, SizeField, FirstFault, DirectedForm, ArithmeticForm, MoveForm, CmpForm,
      ShiftForm, BcdForm, MovemForm, BadEa, EaForm, EaToRegisterForm, BranchForm, BitForm, ImmediateForm,
      RegisterOperand, CountOperand, QuickOperand, Vector, SizeName;
    match d
    case SBCD => FaultOfBcd("SBCD", op);
    case ABCD => FaultOfBcd("ABCD", op);
  }

  /** Through dispatch the fault of an opcode is exactly the one of its class: the defaults for unknown
      sizes elsewhere, for unsupported immediate sizes and for MOVE sizes are never reached. */
  lemma FaultOfForm(op: word)
    ensures FirstFault(FormFor(op).slots) == HardFault(op)
  {
    hide Lookup, FirstFault, DataWordForm, DecoderFault, FormOf, BadSource;
    match Lookup(op)
    case None => FaultOfDataWord(op);
    case Some(d) =>
      if d == MOVE {
        MoveHasSize(op);
      } else if d == OR {
        OrHasSize(op);
      } else if d == AND {
        AndHasSize(op);
      }
      if d in {ADDI, SUBI, ANDI, ORI, EORI, CMPI, BTST, BCHG, BCLR, BSET} {
        FaultOfBucket0(d, op);
      } else if d == MOVE {
        FaultOfMoveForm(op);
      } else if d in {OR, AND, ADD, SUB} {
        FaultOfBinary(d, op);
      } else if d in {MOVEM, CMP, SHIFT} {
        FaultOfMovemForm(op);
        FaultOfCmpForm(op);
        FaultOfShiftForm(op);
      } else if d in {SBCD, ABCD} {
        FaultOfBcdForm(d, op);
      } else if d in {NOP, RTS, STOP, TRAPV, TRAP, SWAP, BXX, MOVEQ} {
        FaultOfBare(d, op);
      } else if d in {LEA, DIVU, DIVS, MULU, MULS} {
        FaultOfSourceAndRegister(d, op);
      } else {
        FaultOfSource(d, op);
      }
  }

  lemma FaultOfDataWord(op: word)
    ensures FirstFault(DataWordForm(op).slots).None?
  {
    hide ImmediateOperand, FirstFault;
    FaultOfFixed(DataWordForm(op));
  }

  // ---- length ----

  /** Length of the instruction an opcode starts; None when the opcode is an error. */
  function OpcodeLength(op: word): Option<nat> {
    if HardFault(op).Some? then None else Some(FormLength(FormFor(op)))
  }

  /** The fields of every opcode end within ten bytes. */
  lemma OpcodeLengthBounds(op: word)
    ensures FormLength(FormFor(op)) in {2, 4, 6, 8, 10}
  {
    FormLengthBounds(FormFor(op));
  }
}
