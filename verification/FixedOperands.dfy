/** Which operands the decoders take from the opcode word alone. One walk over all forms; the laws about
    operand texts, empty operands and recorded addresses are derived from it. */
module FixedOperands {
  import opened Wrappers
  import opened Words
  import opened Text
  import opened Model
  import opened Forms
  import opened InstructionSet
  import opened Dispatch
  import opened OpcodeLaws

  predicate BuildsIn(d: Decoder, op: word) {
    (d == CMP && IsCmpm(op)) || (d in {ABCD, SBCD} && (op >> 3) & 0x1 != 0)
  }

  predicate SkipsIn(d: Decoder, op: word) {
    d == MOVEM && Mode(op) == 0 && Reg(op) == 0
  }

  /** CMPM, and ABCD and SBCD in their memory form, write their structured addresses out by hand. */
  predicate BuildsAddress(op: word) {
    Lookup(op).Some? && BuildsIn(Lookup(op).value, op)
  }

  /** MOVEM on D0, where the manual has EXT.W and EXT.L: the decoder skips the address. */
  predicate SkipsAddress(op: word) {
    Lookup(op).Some? && SkipsIn(Lookup(op).value, op)
  }

  predicate IsRegister(o: Operand) {
    && o.register.Some? && o.register.value.kind != ProgramCounter
    && o == RegisterOperand(o.register.value.kind, o.register.value.number)
  }

  predicate IsCount(o: Operand, n: nat) {
    n < 0x100 && o == CountOperand(n)
  }

  predicate IsBuilt(o: Operand) {
    && o.effectiveAddress.Some?
    && (|| o == PostIncrementOperand(o.effectiveAddress.value.register)
        || o == PreDecrementOperand(o.effectiveAddress.value.register))
  }

  /** What fixed slots may hold: registers of one kind, a count, the MOVEQ value, the data word, addresses
      written out by hand, and the zero operand. */
  datatype Stock = Stock(kind: RegisterKind, count: Option<nat>, quick: bool, word: bool, built: bool, empty: bool)

  /** The registers an instruction names in its opcode are data registers, except the destinations of LEA,
      ADDA, SUBA, CMPA and MOVEA. */
  predicate NamesAddressRegister(d: Decoder, op: word) {
    || d == LEA
    || (d in {ADD, SUB} && op & 0x00C0 == 0x00C0)
    || (d == CMP && op & 0x00C0 == 0x00C0 && op & 0xF138 != 0xB108)
    || (d == MOVE && op & 0x01C0 == 0x0040)
  }

  /** The vector of a TRAP; the count of a shift, where 0 stands for 8. */
  function CountIn(d: Decoder, op: word): Option<nat> {
    if d == TRAP then Some(((op & 0xF) as bv4) as int)
    else if d == SHIFT then Some(if op & 0x0E00 == 0 then 8 else (((op >> 9) & 0x7) as bv3) as int)
    else None
  }

  function StockIn(d: Decoder, op: word): Stock {
    Stock(if NamesAddressRegister(d, op) then AddressRegister else DataRegister, CountIn(d, op), d == MOVEQ, false,
          BuildsIn(d, op), SkipsIn(d, op))
  }

  const DATA_WORD_STOCK := Stock(DataRegister, None, false, true, false, false)

  function StockFor(op: word): Stock {
    if Lookup(op).None? then DATA_WORD_STOCK else StockIn(Lookup(op).value, op)
  }

  predicate InStock(o: Operand, op: word, k: Stock) {
    || (IsRegister(o) && o.register.value.kind == k.kind)
    || (k.count.Some? && IsCount(o, k.count.value))
    || (k.quick && o == QuickOperand(op))
    || (k.word && o == DataWordOperand(op))
    || (k.built && IsBuilt(o))
    || (k.empty && o == NO_OPERAND)
  }

  predicate StockSlots(slots: seq<Slot>, op: word, k: Stock) {
    forall s <- slots :: s.Fixed? ==> InStock(s.operand, op, k)
  }

  predicate BuiltSlots(slots: seq<Slot>) {
    |slots| == 2 && forall s <- slots :: s.Fixed? && IsBuilt(s.operand)
  }

  // ---- the operands forms are made of ----

  lemma RegisterIsStock(kind: RegisterKind, number: regnum)
    requires kind != ProgramCounter
    ensures IsRegister(RegisterOperand(kind, number)) && RegisterOperand(kind, number).register.value.kind == kind
  {
    hide RegisterName;
  }

  lemma BuiltIsStock(reg: regnum)
    ensures IsBuilt(PostIncrementOperand(reg)) && IsBuilt(PreDecrementOperand(reg))
  {
    hide Digit;
  }

  predicate IsKind(o: Operand, kind: RegisterKind) {
    IsRegister(o) && o.register.value.kind == kind
  }

  lemma OpcodeStock(op: word)
    ensures IsKind(RegisterOperand(DataRegister, Reg(op)), DataRegister)
    ensures IsKind(RegisterOperand(DataRegister, RegX(op)), DataRegister)
    ensures IsKind(RegisterOperand(AddressRegister, RegX(op)), AddressRegister)
    ensures IsBuilt(PostIncrementOperand(Reg(op))) && IsBuilt(PostIncrementOperand(RegX(op)))
    ensures IsBuilt(PreDecrementOperand(Reg(op))) && IsBuilt(PreDecrementOperand(RegX(op)))
  {
    hide IsRegister, IsBuilt, Reg, RegX;
    RegisterIsStock(DataRegister, Reg(op));
    RegisterIsStock(DataRegister, RegX(op));
    RegisterIsStock(AddressRegister, RegX(op));
    BuiltIsStock(Reg(op));
    BuiltIsStock(RegX(op));
  }

  lemma OpcodeBits(op: word)
    ensures op & 0x00C0 == 0x00C0 <==> OpMode(op) == 3 || OpMode(op) == 7
    ensures op & 0x01C0 == 0x0040 <==> OpMode(op) == 1
    ensures op & 0x0E00 == 0 <==> RegX(op) == 0
  {
  }

  // ---- form by form ----

  lemma ShiftCount(op: word)
    ensures CountIn(SHIFT, op) == Some(if RegX(op) == 0 then 8 else RegX(op) as int)
  {
    OpcodeBits(op);
  }

  lemma ShiftFormStock(op: word, k: Stock)
    requires k.kind == DataRegister && k.count == Some(if RegX(op) == 0 then 8 else RegX(op) as int)
    ensures StockSlots(ShiftForm(op).slots, op, k)
  {
    hide IsRegister, RegisterOperand, CountOperand, QuickOperand, DataWordOperand, SizeName, ShiftName, Reg, Mode,
      SizeField, Direction, IsBuilt, RegX;
    OpcodeStock(op);
    SmallCount(RegX(op));
  }

  lemma ShiftStock(op: word)
    ensures StockSlots(ShiftForm(op).slots, op, StockIn(SHIFT, op))
  {
    hide StockSlots, ShiftForm, CountIn, RegX, BuildsIn, SkipsIn;
    ShiftCount(op);
    ShiftFormStock(op, StockIn(SHIFT, op));
  }

  lemma SmallCount(reg: regnum)
    ensures reg as int < 0x100
  {
  }

  lemma MoveStock(op: word)
    ensures StockSlots(MoveForm(op).slots, op, StockIn(MOVE, op))
  {
    hide IsRegister, RegisterOperand, QuickOperand, DataWordOperand, MoveSizeName, MoveByteSize, MoveSizeField, Reg,
      RegX, Mode, OpMode, IsBuilt;
    OpcodeStock(op);
    OpcodeBits(op);
  }

  lemma MovemStock(op: word)
    ensures StockSlots(MovemForm(op).slots, op, StockIn(MOVEM, op))
    ensures Mode(op) == 0 && Reg(op) == 0 ==> Fixed(NO_OPERAND) in MovemForm(op).slots
  {
    hide QuickOperand, DataWordOperand, Reg, Mode;
    assert MovemForm(op).slots[1] in MovemForm(op).slots;
  }

  lemma DirectedStock(mn: string, op: word, k: Stock)
    requires k.kind == DataRegister
    ensures StockSlots(DirectedForm(mn, op).slots, op, k)
  {
    hide IsRegister, RegisterOperand, QuickOperand, DataWordOperand, SizeName, ByteSize, SizeField, Reg, RegX, Mode,
      Direction, IsBuilt, IsCount;
    OpcodeStock(op);
  }

  lemma AddressStock(mn: string, op: word, k: Stock)
    requires k.kind == AddressRegister
    ensures StockSlots(AddressForm(mn, op).slots, op, k)
  {
    hide IsRegister, RegisterOperand, QuickOperand, DataWordOperand, Reg, RegX, Mode, OpMode, IsBuilt, IsCount;
    OpcodeStock(op);
  }

  lemma ArithmeticStock(d: Decoder, mn: string, op: word)
    requires d in {ADD, SUB}
    ensures StockSlots(ArithmeticForm(mn, op).slots, op, StockIn(d, op))
  {
    hide StockSlots, AddressForm, DirectedForm, OpMode;
    OpcodeBits(op);
    if OpMode(op) == 3 || OpMode(op) == 7 {
      AddressStock(mn, op, StockIn(d, op));
    } else {
      DirectedStock(mn, op, StockIn(d, op));
    }
  }

  lemma PlainCmpStock(op: word, k: Stock)
    requires k.kind == DataRegister && !IsCmpm(op) && OpMode(op) < 3
    ensures StockSlots(CmpForm(op).slots, op, k)
  {
    hide IsRegister, RegisterOperand, QuickOperand, DataWordOperand, SizeName, ByteSize, SizeField, Reg, RegX, Mode,
      IsCmpm, OpMode, IsBuilt, IsCount;
    OpcodeStock(op);
  }

  lemma CmpmStock(op: word, k: Stock)
    requires k.built && IsCmpm(op)
    ensures StockSlots(CmpForm(op).slots, op, k) && BuiltSlots(CmpForm(op).slots)
  {
    hide IsRegister, QuickOperand, DataWordOperand, SizeName, SizeField, Reg, RegX, PostIncrementOperand, IsCmpm,
      IsBuilt, IsCount;
    OpcodeStock(op);
  }

  lemma CmpStock(op: word)
    ensures StockSlots(CmpForm(op).slots, op, StockIn(CMP, op))
    ensures IsCmpm(op) ==> BuiltSlots(CmpForm(op).slots)
  {
    hide StockSlots, BuiltSlots, AddressForm, DirectedForm, OpMode, SizeName, RegisterSlot, PostIncrementOperand;
    OpcodeBits(op);
    var k := StockIn(CMP, op);
    if IsCmpm(op) {
      CmpmStock(op, k);
    } else if OpMode(op) == 3 || OpMode(op) == 7 {
      AddressStock("CMP", op, k);
    } else if OpMode(op) >= 4 {
      DirectedStock("EOR", op, k);
    } else {
      PlainCmpStock(op, k);
    }
  }

  lemma BcdFormStock(mn: string, op: word, k: Stock)
    requires k.kind == DataRegister && ((op >> 3) & 0x1 != 0 ==> k.built)
    ensures StockSlots(BcdForm(mn, op).slots, op, k)
    ensures (op >> 3) & 0x1 != 0 ==> BuiltSlots(BcdForm(mn, op).slots)
  {
    hide IsRegister, IsBuilt, RegisterOperand, QuickOperand, DataWordOperand, Reg, RegX, PreDecrementOperand, IsCount;
    OpcodeStock(op);
  }

  lemma BcdStock(d: Decoder, mn: string, op: word)
    requires d in {SBCD, ABCD}
    ensures StockSlots(BcdForm(mn, op).slots, op, StockIn(d, op))
    ensures (op >> 3) & 0x1 != 0 ==> BuiltSlots(BcdForm(mn, op).slots)
  {
    hide StockSlots, BuiltSlots, BcdForm, CountIn, SkipsIn;
    BcdFormStock(mn, op, StockIn(d, op));
  }

  lemma BitStock(mn: string, op: word, k: Stock)
    requires k.kind == DataRegister
    ensures StockSlots(BitForm(mn, op).slots, op, k)
  {
    hide IsRegister, RegisterOperand, QuickOperand, DataWordOperand, Reg, RegX, Mode, Direction, IsBuilt, IsCount;
    OpcodeStock(op);
  }

  lemma NothingFixed(mn: string, op: word, longForm: bool, k: Stock)
    ensures StockSlots(EaForm(mn, op).slots, op, k)
    ensures StockSlots(ImmediateForm(mn, op, longForm).slots, op, k)
    ensures StockSlots(BranchForm(op).slots, op, k)
  {
    hide SizeField, SizeName, BranchName, LowByte, Mode, Reg, InStock;
  }

  lemma EaToRegisterStock(mn: string, op: word, kind: RegisterKind, k: Stock)
    requires kind == k.kind && kind != ProgramCounter
    ensures StockSlots(EaToRegisterForm(mn, op, kind).slots, op, k)
  {
    hide IsRegister, RegisterOperand, QuickOperand, DataWordOperand, Reg, RegX, Mode, IsBuilt, IsCount;
    OpcodeStock(op);
  }

  lemma BinaryStock(d: Decoder, op: word)
    requires d in {OR, AND, ADD, SUB, SHIFT, MOVE}
    ensures StockSlots(FormOf(d, op).slots, op, StockIn(d, op))
  {
    hide StockSlots, DirectedForm, ArithmeticForm, ShiftForm, MoveForm, CountOperand, QuickOperand, RegisterOperand,
      SizeName, SizeField, Vector;
    match d
    case OR => DirectedStock("OR", op, StockIn(d, op));
    case AND => DirectedStock("AND", op, StockIn(d, op));
    case ADD => ArithmeticStock(d, "ADD", op);
    case SUB => ArithmeticStock(d, "SUB", op);
    case SHIFT => ShiftStock(op);
    case MOVE => MoveStock(op);
  }

  lemma ToRegisterStock(d: Decoder, op: word)
    requires d in {LEA, DIVU, DIVS, MULU, MULS}
    ensures StockSlots(FormOf(d, op).slots, op, StockIn(d, op))
  {
    hide StockSlots, EaToRegisterForm, RegisterOperand, SizeName, SizeField, Vector;
    match d
    case LEA => EaToRegisterStock("LEA", op, AddressRegister, StockIn(d, op));
    case DIVU => EaToRegisterStock("DIVU", op, DataRegister, StockIn(d, op));
    case DIVS => EaToRegisterStock("DIVS", op, DataRegister, StockIn(d, op));
    case MULU => EaToRegisterStock("MULU", op, DataRegister, StockIn(d, op));
    case MULS => EaToRegisterStock("MULS", op, DataRegister, StockIn(d, op));
  }

  lemma SpecialStock(d: Decoder, op: word)
    requires d in {CMP, SBCD, ABCD, MOVEM}
    ensures StockSlots(FormOf(d, op).slots, op, StockIn(d, op))
    ensures BuildsIn(d, op) ==> BuiltSlots(FormOf(d, op).slots)
    ensures SkipsIn(d, op) ==> Fixed(NO_OPERAND) in FormOf(d, op).slots
  {
    hide StockSlots, BuiltSlots, StockIn, CmpForm, BcdForm, MovemForm, CountOperand, QuickOperand, RegisterOperand,
      SizeName, SizeField, Vector, IsCmpm, Mode, Reg;
    match d
    case CMP => CmpStock(op);
    case SBCD => BcdStock(d, "SBCD", op);
    case ABCD => BcdStock(d, "ABCD", op);
    case MOVEM => MovemStock(op);
  }

  lemma ImmediateStock(d: Decoder, op: word)
    requires d in {ADDI, SUBI, ANDI, ORI, EORI, CMPI, BTST, BCHG, BCLR, BSET, BXX}
    ensures StockSlots(FormOf(d, op).slots, op, StockIn(d, op))
  {
    hide StockSlots, ImmediateForm, BitForm, BranchForm, CountOperand, QuickOperand, RegisterOperand, SizeName,
      SizeField, Vector;
    var k := StockIn(d, op);
    match d
    case ADDI => NothingFixed("ADDI", op, true, k);
    case SUBI => NothingFixed("SUBI", op, true, k);
    case ANDI => NothingFixed("ANDI", op, false, k);
    case ORI => NothingFixed("ORI", op, false, k);
    case EORI => NothingFixed("EORI", op, false, k);
    case CMPI => NothingFixed("CMPI", op, false, k);
    case BTST => BitStock("BTST", op, k);
    case BCHG => BitStock("BCHG", op, k);
    case BCLR => BitStock("BCLR", op, k);
    case BSET => BitStock("BSET", op, k);
    case BXX => NothingFixed("", op, false, k);
  }

  lemma SingleEaStock(d: Decoder, op: word)
    requires d in {CLR, NEG, NEGX, NOT, TST, JSR, JMP, PEA}
    ensures StockSlots(FormOf(d, op).slots, op, StockIn(d, op))
  {
    hide StockSlots, EaForm, SizeName, SizeField, Vector, StockIn;
    var k, suffix := StockIn(d, op), "." + SizeName(SizeField(op));
    match d
    case CLR => NothingFixed("CLR" + suffix, op, false, k);
    case NEG => NothingFixed("NEG" + suffix, op, false, k);
    case NEGX => NothingFixed("NEGX" + suffix, op, false, k);
    case NOT => NothingFixed("NOT" + suffix, op, false, k);
    case TST => NothingFixed("TST" + suffix, op, false, k);
    case JSR => NothingFixed("JSR", op, false, k);
    case JMP => NothingFixed("JMP", op, false, k);
    case PEA => NothingFixed("PEA", op, false, k);
  }

  lemma OpcodeOnlyStock(d: Decoder, op: word)
    requires d in {NOP, RTS, STOP, TRAPV, TRAP, SWAP, MOVEQ}
    ensures StockSlots(FormOf(d, op).slots, op, StockIn(d, op))
  {
    hide InStock, StockIn, RegisterOperand, CountOperand, QuickOperand, Reg, RegX, Vector, SlotOk;
    match d
    case TRAP => TrapStock(op);
    case SWAP => RegisterInStock(SWAP, op, Reg(op));
    case MOVEQ =>
      RegisterInStock(MOVEQ, op, RegX(op));
      QuickStock(op);
    case _ =>
  }

  lemma TrapStock(op: word)
    ensures InStock(CountOperand(Vector(op)), op, StockIn(TRAP, op))
  {
    hide CountOperand;
  }

  lemma QuickStock(op: word)
    ensures InStock(QuickOperand(op), op, StockIn(MOVEQ, op))
  {
    hide QuickOperand;
  }

  lemma RegisterInStock(d: Decoder, op: word, number: regnum)
    requires d in {SWAP, MOVEQ}
    ensures InStock(RegisterOperand(DataRegister, number), op, StockIn(d, op))
  {
    hide RegisterOperand, IsRegister;
    RegisterIsStock(DataRegister, number);
  }

  lemma DataWordStock(op: word)
    ensures StockSlots(DataWordForm(op).slots, op, DATA_WORD_STOCK)
  {
    hide DataWordOperand, QuickOperand;
  }

  lemma NeitherElsewhere(d: Decoder, op: word)
    ensures d !in {CMP, SBCD, ABCD, MOVEM} ==> !BuildsIn(d, op) && !SkipsIn(d, op)
  {
    hide IsCmpm, Mode, Reg;
  }

  lemma OpcodeOnlyDecoders(d: Decoder)
    requires d !in {OR, AND, ADD, SUB, SHIFT, MOVE, LEA, DIVU, DIVS, MULU, MULS, CMP, SBCD, ABCD, MOVEM}
    requires d !in {ADDI, SUBI, ANDI, ORI, EORI, CMPI, BTST, BCHG, BCLR, BSET, BXX}
    requires d !in {CLR, NEG, NEGX, NOT, TST, JSR, JMP, PEA}
    ensures d in {NOP, RTS, STOP, TRAPV, TRAP, SWAP, MOVEQ}
  {
  }

  /** The whole table: registers in fixed slots are of the kind of the instruction, counts are its count,
      only the three address builders hold addresses there, and only the skipping MOVEM the zero operand. */
  lemma FixedOperandsOf(op: word)
    ensures StockSlots(FormFor(op).slots, op, StockFor(op))
    ensures BuildsAddress(op) ==> BuiltSlots(FormFor(op).slots)
    ensures SkipsAddress(op) ==> Fixed(NO_OPERAND) in FormFor(op).slots
  {
    hide StockSlots, BuiltSlots, FormOf, Lookup, DataWordForm, BuildsIn, SkipsIn, StockIn;
    match Lookup(op)
    case None => DataWordStock(op);
    case Some(d) =>
      NeitherElsewhere(d, op);
      if d in {OR, AND, ADD, SUB, SHIFT, MOVE} {
        BinaryStock(d, op);
      } else if d in {LEA, DIVU, DIVS, MULU, MULS} {
        ToRegisterStock(d, op);
      } else if d in {CMP, SBCD, ABCD, MOVEM} {
        SpecialStock(d, op);
      } else if d in {ADDI, SUBI, ANDI, ORI, EORI, CMPI, BTST, BCHG, BCLR, BSET, BXX} {
        ImmediateStock(d, op);
      } else if d in {CLR, NEG, NEGX, NOT, TST, JSR, JMP, PEA} {
        SingleEaStock(d, op);
      } else {
        OpcodeOnlyDecoders(d);
        OpcodeOnlyStock(d, op);
      }
  }
}
