/** What the text of each operand of a decoded instruction says: it can be read back to the structured
    operand beside it. */
module OperandTexts {
  import opened Wrappers
  import opened Words
  import opened Text
  import opened Model
  import opened EffectiveAddresses
  import opened EaText
  import opened RegisterLists
  import opened Forms
  import opened InstructionSet
  import opened Dispatch
  import opened OpcodeLaws
  import opened FixedOperands
  import opened Slices

  // ---- reading back ----

  function ParseRegisterName(s: string): Option<Register> {
    if |s| != 2 || !IsRegisterDigit(s[1]) then None
    else if s[0] == 'D' then Some(Register(DataRegister, ParseRegister(s[1])))
    else if s[0] == 'A' then Some(Register(AddressRegister, ParseRegister(s[1])))
    else None
  }

  /** The number in "#5", "#$1F", "#-$80" or "$1F". */
  function ParseNumber(s: string): int {
    ParseMoveqImmediate(if s != [] && s[0] == '#' then s[1..] else s)
  }

  /** Width of the operand, where it shows: only immediates depend on it. */
  function WidthOf(ea: EffectiveAddress): nat {
    if ea.immediate.Some? then ea.immediate.value.size else 2
  }

  /** The text of an operand reads back to its structure. Negative numbers are the signed reading of the
      value. A register list reads back unless it crosses from D to A registers. */
  predicate Readable(o: Operand) {
    match o.kind
    case NoOperandKind => o == NO_OPERAND
    case RegisterKindOperand => o.register.Some? && ParseRegisterName(o.text) == o.register
    case ImmediateKindOperand =>
      && o.immediate.Some?
      && var n := ParseNumber(o.text);
      if n >= 0 then n == o.immediate.value.value else n == o.immediate.value.signed
    case EffectiveAddressOperandKind =>
      && o.effectiveAddress.Some?
      && var ea := o.effectiveAddress.value;
      ParseEa(o.text, WidthOf(ea)) == Some(ea)
    case RegisterListOperandKind =>
      AllNames(o.registerList) && (Uncrossed(o.registerList, 0) <==> Expand(o.text) == o.registerList)
    case BranchTargetOperandKind => o.branchTarget.Some? && ParseNumber(o.text) == o.branchTarget.value
  }

  /** The recorded mode is 0 where the text has another; everything else reads back. */
  predicate ModeLost(o: Operand) {
    && o.kind == EffectiveAddressOperandKind && o.effectiveAddress.Some?
    && var ea := o.effectiveAddress.value;
    var read := ParseEa(o.text, WidthOf(ea));
    && read.Some? && read.value.mode != 0 && ea == read.value.(mode := 0)
  }

  // ---- operands the opcode decides ----

  lemma RegisterReadable(kind: RegisterKind, number: regnum)
    requires kind != ProgramCounter
    ensures Readable(RegisterOperand(kind, number))
  {
    ParseRegisterInverse(number);
  }

  lemma BuiltLosesMode(o: Operand)
    requires IsBuilt(o)
    ensures ModeLost(o)
  {
    hide ParseHex, ParseDec, ParseInt, ParseImmediate, ParseAfterDisplacement;
    ParseRegisterInverse(o.effectiveAddress.value.register);
  }

  lemma LostIsNotReadable(o: Operand)
    requires ModeLost(o)
    ensures !Readable(o)
  {
    hide ParseEa;
  }

  lemma CountReadable(n: nat)
    requires n < 0x100
    ensures Readable(CountOperand(n))
  {
    hide Dec, ParseNumber, SignedImmediateValue;
    DecimalReads(n);
  }

  lemma DecimalReads(n: nat)
    ensures ParseNumber("#" + Dec(n)) == n
  {
    hide ParseImmediate;
    DecimalImmediate(n);
    assert Dec(n)[0] in Dec(n);
    assert ("#" + Dec(n))[1..] == Dec(n);
  }

  lemma HexReads(n: nat, width: nat)
    requires n < HexRange(width)
    ensures ParseNumber("$" + Hex(n, width)) == n
  {
    hide ParseImmediate, Hex;
    HexImmediate(n, width);
  }

  lemma ByteImmediate(n: nat)
    requires n < 0x100
    ensures Immediate(n, 1) == ImmediateValue(n, Signed(n, 0x100), 1)
    ensures Signed(n, 0x100) >= 0 ==> Signed(n, 0x100) == n
  {
  }

  lemma QuickText(v: int)
    ensures ParseNumber("#" + FormatImmediateForMOVEQ(v)) == v
  {
    hide FormatImmediateForMOVEQ, ParseMoveqImmediate;
    MoveqImmediateInverse(v);
    assert ("#" + FormatImmediateForMOVEQ(v))[1..] == FormatImmediateForMOVEQ(v);
  }

  lemma QuickReadable(op: word)
    ensures Readable(QuickOperand(op))
  {
    hide FormatImmediateForMOVEQ, ParseNumber, LowByte, Immediate, Signed;
    ByteImmediate(LowByte(op) as int);
    QuickText(Signed(LowByte(op) as int, 0x100));
  }

  lemma WordReadable(n: nat)
    requires n < 0x1_0000
    ensures Readable(ImmediateOperand("$" + Hex(n, 4), n, 2))
  {
    hide Hex, ParseNumber, HexRange, SignedImmediateValue;
    HexRanges();
    HexReads(n, 4);
  }

  lemma DataWordReadable(op: word)
    ensures Readable(DataWordOperand(op))
  {
    hide Hex, Readable, ImmediateOperand;
    WordReadable(op as int);
  }

  lemma StockReadable(o: Operand, op: word, k: Stock)
    requires InStock(o, op, k) && !k.built
    ensures Readable(o)
  {
    hide Readable, RegisterOperand, CountOperand, QuickOperand, DataWordOperand;
    if IsRegister(o) {
      RegisterReadable(o.register.value.kind, o.register.value.number);
    } else if k.count.Some? && IsCount(o, k.count.value) {
      CountReadable(k.count.value);
    } else if o == QuickOperand(op) {
      QuickReadable(op);
    } else if o == DataWordOperand(op) {
      DataWordReadable(op);
    } else {
      NothingReadable();
    }
  }

  lemma NothingReadable()
    ensures Readable(NO_OPERAND)
  {
  }

  // ---- operands in extension words ----

  lemma DataReadable(value: uint32, size: nat)
    requires size == 2 ==> value < 0x1_0000
    requires size in {2, 4}
    ensures Readable(DataOperand(value, size))
  {
    hide FormatImmediate, ParseImmediate, SignedImmediateValue;
    ImmediateInverse(value, size);
    ImmediateHasNoSign(value, size);
    assert ("#" + FormatImmediate(value, size))[1..] == FormatImmediate(value, size);
  }

  lemma ImmediateHasNoSign(value: uint32, size: nat)
    ensures FormatImmediate(value, size) != [] && FormatImmediate(value, size)[0] != '-'
  {
    hide Hex, HexShort, Dec;
    if value < 100 {
      assert Dec(value)[0] in Dec(value);
    }
  }

  lemma BitNumberReadable(w: word)
    ensures Readable(BitNumberOperand(w))
  {
    hide Dec, ParseNumber, SignedImmediateValue, LowByte;
    DecimalReads(LowByte(w) as int);
  }

  lemma TargetReadable(target: uint32)
    ensures Readable(TargetOperand(target))
  {
    hide Hex, ParseNumber, HexRange;
    HexRanges();
    HexReads(target, if target <= 0xFFFF then 4 else 8);
  }

  /** Targets up to $FFFF print with four digits, all others with eight. */
  lemma TargetNotation(target: uint32)
    ensures Hexadecimal(FormatBranchTarget(target), if target <= 0xFFFF then 4 else 8)
  {
    hide Hex, Hexadecimal;
    HexNotation(target, if target <= 0xFFFF then 4 else 8);
  }

  lemma MaskReadable(mask: word)
    ensures Readable(MaskOperand(mask))
  {
    hide Names, AppendRuns, Runs, Expand;
    CrossesMeaning(mask);
    MaskRoundTrip(mask);
  }

  lemma WidthOnlyForImmediates(s: string, a: nat, b: nat)
    requires ParseEa(s, a).Some? && ParseEa(s, a).value.immediate.None?
    ensures ParseEa(s, b) == ParseEa(s, a)
  {
    hide ParseHex, ParseImmediate, ParseAfterDisplacement, ParseInt, ParseRegister;
  }

  lemma EaReadable(field: seq<byte>, mode: bv3, reg: regnum, size: nat)
    requires DecodeAddressingMode(field, mode, reg, size).Ok?
    ensures Readable(DecodeAddressingMode(field, mode, reg, size).value.operand)
  {
    hide DecodeAddressingMode, ParseEa;
    var parts := DecodeAddressingMode(field, mode, reg, size).value;
    assert MeetsLayout(DecodeAddressingMode(field, mode, reg, size), |field|, mode, reg, size);
    EaTextRoundTrip(field, mode, reg, size);
    if parts.operand.effectiveAddress.value.immediate.Some? {
      ImmediateHasSize(field, mode, reg, size);
    } else {
      WidthOnlyForImmediates(parts.text, size, 2);
    }
  }

  lemma ImmediateHasSize(field: seq<byte>, mode: bv3, reg: regnum, size: nat)
    requires DecodeAddressingMode(field, mode, reg, size).Ok?
    requires DecodeAddressingMode(field, mode, reg, size).value.operand.effectiveAddress.Some?
    ensures var ea := DecodeAddressingMode(field, mode, reg, size).value.operand.effectiveAddress.value;
            ea.immediate.Some? ==> ea.immediate.value.size == size
  {
    hide FormatImmediate, Dec, DecInt, Hex, IndexText, Parenthesised, MeetsLayout, Digit, Signed, DecodeIndexWord,
      WordAt, LongAt;
  }

  // ---- whole instructions ----

  predicate FixedReadable(slots: seq<Slot>) {
    forall s <- slots :: s.Fixed? ==> Readable(s.operand)
  }

  /** Over all decoders, the operands taken from the opcode word read back, except built addresses. */
  lemma FormForReadable(op: word)
    requires !BuildsAddress(op)
    ensures FixedReadable(FormFor(op).slots)
  {
    hide Readable, FormFor, Lookup, BuildsIn, InStock;
    FixedOperandsOf(op);
    forall s | s in FormFor(op).slots && s.Fixed?
      ensures Readable(s.operand)
    {
      StockReadable(s.operand, op, StockFor(op));
    }
  }

  lemma SlotReadable(s: Slot, address: uint32, end: nat, field: seq<byte>)
    requires SlotOk(s) && SlotFault(s).None? && |field| == SlotWidth(s)
    requires s.Fixed? ==> Readable(s.operand)
    ensures Readable(ReadSlot(s, address, end, field))
  {
    hide Readable, DecodeAddressingMode, EaFault, EaWidth, EaContext, DataOperand, BitNumberOperand, MaskOperand,
      TargetOperand, BranchDisplacement, Advance, WordAt, LongAt;
    match s
    case Fixed(_) =>
    case Ea(mode, reg, size) =>
      assert MeetsLayout(DecodeAddressingMode(field, mode, reg, size), |field|, mode, reg, size);
      EaReadable(field, mode, reg, size);
    case Data(size, _) => DataReadable(if size == 2 then WordAt(field, 0) as int else LongAt(field, 0), size);
    case BitNumber(_) => BitNumberReadable(WordAt(field, 0));
    case RegisterMask(_) => MaskReadable(WordAt(field, 0));
    case Branch(width, short, _) => TargetReadable(Advance(address, end + BranchDisplacement(width, short, field)));
  }

  lemma {:induction false} SlotsReadable(slots: seq<Slot>, address: uint32, data: seq<byte>, offset: nat)
    requires FixedReadable(slots) && forall s <- slots :: SlotOk(s)
    requires offset <= |data| && Walk(slots, |data|, offset).Fits?
    ensures forall o <- ReadSlots(slots, address, data, offset) :: Readable(o)
  {
    hide ReadSlot, EaFault, EaWidth, EaContext, Readable;
    if slots != [] {
      var end := offset + SlotWidth(slots[0]);
      assert slots[0] in slots;
      SlotReadable(slots[0], address, end, data[offset..end]);
      SlotsReadable(slots[1..], address, data, end);
    }
  }

  lemma {:induction false} BuiltSlotsRead(slots: seq<Slot>, address: uint32, data: seq<byte>, offset: nat)
    requires forall s <- slots :: s.Fixed? && IsBuilt(s.operand) && SlotOk(s)
    requires offset <= |data| && Walk(slots, |data|, offset).Fits?
    ensures forall o <- ReadSlots(slots, address, data, offset) :: ModeLost(o)
  {
    hide IsBuilt, ModeLost;
    if slots != [] {
      assert slots[0] in slots;
      BuiltLosesMode(slots[0].operand);
      BuiltSlotsRead(slots[1..], address, data, offset);
    }
  }

  /** In every decoded instruction, data words included, every operand reads back to its structure, unless
      the decoder builds its addresses by hand; then every operand has lost its mode and nothing else. */
  lemma OperandsAreReadable(data: seq<byte>, address: uint32, opts: Options)
    requires Slice(data, address, opts).Decoding?
    ensures var os := Slice(data, address, opts).inst.metadata.operands;
            if BuildsAddress(WordAt(data, 0)) then |os| == 2 && forall o <- os :: ModeLost(o)
            else forall o <- os :: Readable(o)
  {
    hide FormFor, ReadSlots, Join, Cut, FirstTarget, AllImmediates, WordsOf, Readable, ModeLost, Rendered,
      BuildsAddress;
    var op, slots := WordAt(data, 0), FormFor(WordAt(data, 0)).slots;
    WalkBounds(slots, |data|, 2);
    if BuildsAddress(op) {
      FixedOperandsOf(op);
      BuiltSlotsRead(slots, address, data, 2);
    } else {
      FormForReadable(op);
      SlotsReadable(slots, address, data, 2);
    }
  }

  /** All operands read back exactly when the decoder does not build addresses by hand. */
  lemma ReadableIff(data: seq<byte>, address: uint32, opts: Options)
    requires Slice(data, address, opts).Decoding?
    ensures (forall o <- Slice(data, address, opts).inst.metadata.operands :: Readable(o))
            <==> !BuildsAddress(WordAt(data, 0))
  {
    hide Slice, Readable, ModeLost, BuildsAddress;
    SliceHasOpcode(data, address, opts);
    OperandsAreReadable(data, address, opts);
    var os := Slice(data, address, opts).inst.metadata.operands;
    if BuildsAddress(WordAt(data, 0)) {
      LostIsNotReadable(os[0]);
    }
  }
}
