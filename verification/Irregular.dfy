/** Where the printed instruction leaves the assembler syntax, and for exactly which opcodes. */
module Irregular {
  import opened Wrappers
  import opened Words
  import opened Text
  import opened Model
  import opened EffectiveAddresses
  import opened RegisterLists
  import opened Forms
  import opened InstructionSet
  import opened Dispatch
  import opened OpcodeLaws
  import opened FixedOperands
  import opened Decoders
  import opened Slices
  import opened EaText
  import opened OperandTexts

  // ---- empty operands ----

  lemma StockIsPresent(o: Operand, op: word, k: Stock)
    requires InStock(o, op, k) && !k.empty
    ensures o.kind != NoOperandKind
  {
    hide Hex, Dec, FormatImmediateForMOVEQ, Immediate, LowByte, RegisterName, Digit;
  }

  lemma EmptySlotIff(op: word)
    ensures Fixed(NO_OPERAND) in FormFor(op).slots <==> SkipsAddress(op)
  {
    hide FormFor, Lookup, SkipsIn, InStock;
    FixedOperandsOf(op);
    if !SkipsAddress(op) && Fixed(NO_OPERAND) in FormFor(op).slots {
      StockIsPresent(Fixed(NO_OPERAND).operand, op, StockFor(op));
      assert false;
    }
  }

  lemma MovemFormOf(op: word)
    ensures FormOf(MOVEM, op) == MovemForm(op)
  {
    hide MovemForm;
  }

  lemma SlotEmptyIff(s: Slot, address: uint32, end: nat, field: seq<byte>)
    requires SlotOk(s) && SlotFault(s).None? && |field| == SlotWidth(s)
    ensures ReadSlot(s, address, end, field) == NO_OPERAND <==> s == Fixed(NO_OPERAND)
  {
    hide DecodeAddressingMode, EaFault, EaWidth, EaContext, FormatImmediate, Immediate, Dec, RegisterListText,
      RegisterNames, FormatBranchTarget, BranchDisplacement, Advance, WordAt, LongAt, LowByte;
    if s.Ea? {
      assert MeetsLayout(DecodeAddressingMode(field, s.mode, s.reg, s.size), |field|, s.mode, s.reg, s.size);
    }
  }

  lemma {:induction false} SlotsEmptyIff(slots: seq<Slot>, address: uint32, data: seq<byte>, offset: nat)
    requires forall s <- slots :: SlotOk(s)
    requires offset <= |data| && Walk(slots, |data|, offset).Fits?
    ensures NO_OPERAND in ReadSlots(slots, address, data, offset) <==> Fixed(NO_OPERAND) in slots
  {
    hide ReadSlot, EaFault, EaWidth, EaContext;
    if slots != [] {
      var end := offset + SlotWidth(slots[0]);
      assert slots[0] in slots;
      SlotEmptyIff(slots[0], address, end, data[offset..end]);
      SlotsEmptyIff(slots[1..], address, data, end);
      assert slots == [slots[0]] + slots[1..];
    }
  }

  /** An operand of a decoded instruction is empty exactly when the opcode is a MOVEM on D0. */
  lemma EmptyOperandIff(data: seq<byte>, address: uint32, opts: Options)
    requires Slice(data, address, opts).Decoding?
    ensures NO_OPERAND in Slice(data, address, opts).inst.metadata.operands <==> SkipsAddress(WordAt(data, 0))
  {
    hide FormFor, ReadSlots, Join, Cut, FirstTarget, AllImmediates, WordsOf, Rendered, SkipsAddress;
    var slots := FormFor(WordAt(data, 0)).slots;
    WalkBounds(slots, |data|, 2);
    EmptySlotIff(WordAt(data, 0));
    SlotsEmptyIff(slots, address, data, 2);
    OrderedKeepsEmpty(FormFor(WordAt(data, 0)).swapped, ReadSlots(slots, address, data, 2));
  }

  lemma OrderedKeepsEmpty(swapped: bool, os: seq<Operand>)
    ensures NO_OPERAND in Ordered(swapped, os) <==> NO_OPERAND in os
  {
    if |os| == 2 {
      assert os == [os[0], os[1]];
    }
  }

  /** Then the operand string ends or starts with the comma. */
  lemma EmptyOperandText(data: seq<byte>, address: uint32)
    requires |data| >= 4 && SkipsAddress(WordAt(data, 0))
    ensures var list := RegisterListText(WordAt(data, 2));
            var r := Slice(data, address, None);
            && r.Decoding? && r.inst.mnemonic == MovemForm(WordAt(data, 0)).mnemonic
            && r.inst.operands == if (WordAt(data, 0) >> 10) & 0x1 == 0 then list + ", " else ", " + list
  {
    hide Lookup, Interpret, Step, Assemble, Join, Texts, RegisterListText, RegisterNames, SlotOk, FormOf, MovemForm,
      WordAt, Mode, Reg;
    var op, f := WordAt(data, 0), MovemForm(WordAt(data, 0));
    var mask := MaskOperand(WordAt(data, 2));
    MovemFormOf(op);
    SkippedSlots(op);
    InterpretTwo(f, f.slots[0], f.slots[1], address, op, data);
    MaskStep(data, address, 2, "MOVEM register list");
    FixedStep(NO_OPERAND, address, data, 4);
    JoinOperandTexts(mask, NO_OPERAND);
    JoinOperandTexts(NO_OPERAND, mask);
    AssembledOperands(address, op, data[..4], f.mnemonic, Pair(f.swapped, mask, NO_OPERAND));
  }

  lemma AssembledOperands(address: uint32, op: word, bytes: seq<byte>, mnemonic: string, os: seq<Operand>)
    requires |bytes| >= 2
    ensures Assemble(address, op, bytes, mnemonic, os).operands == Join(Texts(os))
    ensures Assemble(address, op, bytes, mnemonic, os).mnemonic == mnemonic
  {
    hide Join, Texts, Cut, WordsOf;
  }

  lemma SkippedSlots(op: word)
    requires Mode(op) == 0 && Reg(op) == 0
    ensures var f := MovemForm(op);
            && f.slots == [RegisterMask("MOVEM register list"), Fixed(NO_OPERAND)] && SlotOk(Fixed(NO_OPERAND))
            && (f.swapped <==> (op >> 10) & 0x1 != 0)
  {
    hide Mode, Reg;
  }

  lemma ExtendLookup()
    ensures SkipsAddress(0x4880) && MovemForm(0x4880).mnemonic == "MOVEM.W"
  {
    hide FirstWithin;
    assert HighNibble(0x4880) == 4 && OPCODE_BUCKETS[4] == BUCKET_4;
    assert forall i :: 0 <= i < 5 ==> !Matches(BUCKET_4[i], 0x4880);
    assert Matches(BUCKET_4[5], 0x4880) && BUCKET_4[5].decoder == MOVEM;
    NoneMatches(BUCKET_4, 5, 0x4880);
    NoneMatches(BUCKET_4, 6, 0x4880);
    var i := FirstIsMember(BUCKET_4, 6, 0x4880);
    assert i == 5;
    FirstWithinStable(BUCKET_4, 6, |BUCKET_4|, 0x4880);
  }

  lemma ListOfD0()
    ensures RegisterListText(0x0001) == "D0"
  {
    assert Names(0x0001, 0, 8) == ["D0"];
    assert Names(0x0001, 8, 16) == [];
    assert RunEnd(["D0"], 1) == 1;
    assert Runs(["D0"], 1) == [];
    assert Separated("") + RunText(Run("D0", "D0")) == "D0";
  }

  /** EXT.W D0 followed by the word 1 prints as "MOVEM.W D0, ". */
  lemma ExtendPrintsAsMovem()
    ensures SkipsAddress(0x4880)
    ensures var r := Slice([0x48, 0x80, 0x00, 0x01], 0, None);
            r.Decoding? && r.inst.mnemonic == "MOVEM.W" && r.inst.operands == "D0, "
  {
    hide RegisterListText, SkipsAddress, MovemForm, Slice;
    ExtendLookup();
    ListOfD0();
    var data: seq<byte> := [0x48, 0x80, 0x00, 0x01];
    assert WordAt(data, 0) == 0x4880 && WordAt(data, 2) == 0x0001;
    EmptyOperandText(data, 0);
  }

  // ---- compares with an address register ----

  /** Words that the CMPM test takes from CMPA: operation mode 7 with an address register as source. */
  predicate TakenByCmpm(op: word) {
    OpMode(op) == 7 && Mode(op) == 1
  }

  lemma CmpmBits(op: word)
    requires op & 0xF000 == 0xB000 && (OpMode(op) == 3 || OpMode(op) == 7)
    ensures IsCmpm(op) <==> TakenByCmpm(op)
    ensures OpMode(op) == 7 ==> SizeField(op) == 3
  {
  }

  lemma CmpNibble(op: word)
    requires Lookup(op) == Some(CMP)
    ensures op & 0xF000 == 0xB000
  {
    hide Lookup;
    LookupIsHome(op);
  }

  /** A compare with an address register is printed as one, except CMPA.L An, Am: that prints as "CMPM.?"
      with two postincrement operands. */
  lemma CompareMnemonic(data: seq<byte>, address: uint32)
    requires Slice(data, address, None).Decoding?
    requires Lookup(WordAt(data, 0)) == Some(CMP)
    requires OpMode(WordAt(data, 0)) == 3 || OpMode(WordAt(data, 0)) == 7
    ensures var op := WordAt(data, 0);
            var d := Slice(data, address, None).inst;
            && (d.mnemonic == "CMPA.W" <==> OpMode(op) == 3)
            && (d.mnemonic == "CMPA.L" <==> OpMode(op) == 7 && Mode(op) != 1)
            && (d.mnemonic == "CMPM.?" <==> TakenByCmpm(op))
            && (TakenByCmpm(op) ==>
                  d.metadata.operands == [PostIncrementOperand(Reg(op)), PostIncrementOperand(RegX(op))])
  {
    hide Lookup, CmpForm, FormOf, ReadSlots, Walk, Assemble, OpMode, Mode, Reg, RegX, PostIncrementOperand;
    var op := WordAt(data, 0);
    CmpNibble(op);
    CmpmBits(op);
    CmpFormOf(op);
    CompareNames(op);
    CompareDecoded(data, address, op);
  }

  lemma CmpFormOf(op: word)
    ensures FormOf(CMP, op) == CmpForm(op)
  {
    hide CmpForm;
  }

  lemma CompareNames(op: word)
    requires OpMode(op) == 3 || OpMode(op) == 7
    requires IsCmpm(op) <==> TakenByCmpm(op)
    requires OpMode(op) == 7 ==> SizeField(op) == 3
    ensures CmpForm(op).mnemonic == if TakenByCmpm(op) then "CMPM.?" else if OpMode(op) == 3 then "CMPA.W" else "CMPA.L"
    ensures TakenByCmpm(op) ==>
              CmpForm(op).slots == [Fixed(PostIncrementOperand(Reg(op))), Fixed(PostIncrementOperand(RegX(op)))]
              && !CmpForm(op).swapped
  {
    hide OpMode, Mode, SizeField, IsCmpm, Reg, RegX, PostIncrementOperand, RegisterOperand;
  }

  lemma CompareDecoded(data: seq<byte>, address: uint32, op: word)
    requires |data| >= 2 && op == WordAt(data, 0) && Interpret(CmpForm(op), address, op, data).Ok?
    ensures var d := Interpret(CmpForm(op), address, op, data).value;
            && d.mnemonic == CmpForm(op).mnemonic
            && (TakenByCmpm(op) && IsCmpm(op) ==>
                  d.metadata.operands == [PostIncrementOperand(Reg(op)), PostIncrementOperand(RegX(op))])
  {
    hide Step, Interpret, OpMode, Mode, Reg, RegX, IsCmpm, Join, Texts, Cut, WordsOf, SlotOk, AddressForm,
      DirectedForm;
    var src, dst := PostIncrementOperand(Reg(op)), PostIncrementOperand(RegX(op));
    hide PostIncrementOperand;
    InterpretMnemonic(CmpForm(op), address, op, data);
    if IsCmpm(op) {
      InterpretTwo(CmpForm(op), Fixed(src), Fixed(dst), address, op, data);
      FixedStep(src, address, data, 2);
      FixedStep(dst, address, data, 2);
    }
  }

  lemma InterpretMnemonic(f: Form, address: uint32, op: word, data: seq<byte>)
    requires FormOk(f) && |data| >= 2 && Interpret(f, address, op, data).Ok?
    ensures Interpret(f, address, op, data).value.mnemonic == f.mnemonic
  {
    hide ReadSlots, Walk, Join, Cut, WordsOf;
  }

  // ---- built addresses ----

  lemma CmpmLookup()
    ensures Lookup(0xB308) == Some(CMP) && IsCmpm(0xB308) && BuildsAddress(0xB308)
  {
    var bucket := [Pattern(0xF000, 0xB000, CMP)];
    assert HighNibble(0xB308) == 11 && OPCODE_BUCKETS[11] == bucket;
    assert Matches(bucket[0], 0xB308);
    assert FirstWithin(bucket, 1, 0xB308) == Some(CMP);
  }

  lemma CmpmShape(data: seq<byte>, address: uint32)
    requires |data| >= 2 && WordAt(data, 0) == 0xB308
    ensures var r := Slice(data, address, None);
            && r.Decoding? && r.inst.mnemonic == "CMPM.B"
            && r.inst.metadata.operands == [PostIncrementOperand(0), PostIncrementOperand(1)]
  {
    hide Lookup, FormOf, Step, Interpret, IsCmpm, Texts, Join, Cut, WordsOf, SlotOk, PostIncrementOperand,
      DirectedForm, AddressForm;
    var src, dst := PostIncrementOperand(0), PostIncrementOperand(1);
    CmpmLookup();
    CmpFormOf(0xB308);
    assert Reg(0xB308) == 0 && RegX(0xB308) == 1 && SizeField(0xB308) == 0;
    assert CmpForm(0xB308) == Form("CMPM.B", [Fixed(src), Fixed(dst)], false);
    InterpretTwo(CmpForm(0xB308), Fixed(src), Fixed(dst), address, 0xB308, data);
    FixedStep(src, address, data, 2);
    FixedStep(dst, address, data, 2);
  }

  /** CMPM.B (A0)+, (A1)+ records mode 0 for operands whose text says mode 3. */
  lemma CmpmLosesMode()
    ensures var r := Slice([0xB3, 0x08], 0, None);
            && r.Decoding? && r.inst.mnemonic == "CMPM.B" && r.inst.operands == "(A0)+, (A1)+"
            && forall o <- r.inst.metadata.operands ::
                 && ModeLost(o) && o.effectiveAddress.value.mode == 0
                 && ParseEa(o.text, 2).Some? && ParseEa(o.text, 2).value.mode == 3
  {
    hide Slice, PostIncrementOperand, ModeLost, BuildsAddress, ParseEa, Join, Texts, Readable, Split, Lookup, IsCmpm;
    var data: seq<byte> := [0xB3, 0x08];
    assert WordAt(data, 0) == 0xB308;
    CmpmShape(data, 0);
    CmpmLookup();
    OperandsAreReadable(data, 0, None);
    TextAgreesWithStructure(data, 0);
    PostIncrementReads(0);
    PostIncrementReads(1);
    JoinOperandTexts(PostIncrementOperand(0), PostIncrementOperand(1));
  }

  lemma PostIncrementReads(reg: regnum)
    ensures var o := PostIncrementOperand(reg);
            && o.text == "(A" + [Digit(reg as int)] + ")+" && o.effectiveAddress.Some?
            && o.effectiveAddress.value.mode == 0
            && ParseEa(o.text, 2).Some? && ParseEa(o.text, 2).value.mode == 3
  {
    hide ParseHex, ParseDec, ParseInt, ParseImmediate, ParseAfterDisplacement;
  }
}
