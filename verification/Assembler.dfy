/** An assembler for opcode words: mnemonic and structured operands of a decoded instruction determine its
    opcode, up to the bits its decoder ignores. */
module Assembler {
  import opened Wrappers
  import opened Words
  import opened Text
  import opened Model
  import opened EffectiveAddresses
  import opened RegisterLists
  import opened Forms
  import opened InstructionSet
  import opened Dispatch
  import opened OpcodeLaws
  import opened MoveCodec

  // ---- mnemonics ----

  /** How the instructions of one name are laid out, with the bits the name stands for. */
  datatype Family =
    | Exactly(opcode: word)                  // no operand in the opcode
    | Vectored
    | OneRegister
    | SizedEa(opcode: word)
    | PlainEa(opcode: word)
    | EaRegister(opcode: word)
    | BitField(which: word)
    | ImmediateTo(opcode: word)
    | Moves
    | MovesAddress
    | MovesMany
    | Quick
    | Decimal(opcode: word)
    | Directed(opcode: word)
    | AddressTo(opcode: word)
    | Compares
    | ComparesMemory
    | BranchOn(condition: word)
    | Shifts(kind: bv2, left: bool)
    | DataWords
    | Unknown

  function ShortFamily(s: string): Family {
    if s == "DC" then DataWords
    else if s == "OR" then Directed(0x8000)
    else if s == "AND" then Directed(0xC000)
    else if s == "ADD" then Directed(0xD000)
    else if s == "SUB" then Directed(0x9000)
    else if s == "EOR" then Directed(0xB000)
    else if s == "CMP" then Compares
    else if s == "ORI" then ImmediateTo(0x0000)
    else if s == "CLR" then SizedEa(0x4200)
    else if s == "NEG" then SizedEa(0x4400)
    else if s == "NOT" then SizedEa(0x4600)
    else if s == "TST" then SizedEa(0x4A00)
    else if s == "JSR" then PlainEa(0x4E80)
    else if s == "JMP" then PlainEa(0x4EC0)
    else if s == "PEA" then PlainEa(0x4840)
    else if s == "LEA" then EaRegister(0x41C0)
    else if s == "NOP" then Exactly(0x4E71)
    else if s == "RTS" then Exactly(0x4E75)
    else if s == "ASR" then Shifts(0, false)
    else if s == "ASL" then Shifts(0, true)
    else if s == "LSR" then Shifts(1, false)
    else if s == "LSL" then Shifts(1, true)
    else if s == "ROR" then Shifts(3, false)
    else if s == "ROL" then Shifts(3, true)
    else Unknown
  }

  function LongFamily(s: string): Family {
    if s == "ADDI" then ImmediateTo(0x0600)
    else if s == "SUBI" then ImmediateTo(0x0400)
    else if s == "ANDI" then ImmediateTo(0x0200)
    else if s == "EORI" then ImmediateTo(0x0A00)
    else if s == "CMPI" then ImmediateTo(0x0C00)
    else if s == "ADDA" then AddressTo(0xD000)
    else if s == "SUBA" then AddressTo(0x9000)
    else if s == "CMPA" then AddressTo(0xB000)
    else if s == "CMPM" then ComparesMemory
    else if s == "ABCD" then Decimal(0xC100)
    else if s == "SBCD" then Decimal(0x8100)
    else if s == "DIVU" then EaRegister(0x80C0)
    else if s == "DIVS" then EaRegister(0x81C0)
    else if s == "NEGX" then SizedEa(0x4000)
    else if s == "STOP" then Exactly(0x4E72)
    else if s == "TRAPV" then Exactly(0x4E76)
    else if s == "TRAP" then Vectored
    else if s == "SWAP" then OneRegister
    else if s == "ROXR" then Shifts(2, false)
    else if s == "ROXL" then Shifts(2, true)
    else Unknown
  }

  /** Long names that start with "M". */
  function MoveFamily(s: string): Family {
    if s == "MOVE" then Moves
    else if s == "MOVEA" then MovesAddress
    else if s == "MOVEM" then MovesMany
    else if s == "MOVEQ" then Quick
    else if s == "MULU" then EaRegister(0xC0C0)
    else if s == "MULS" then EaRegister(0xC1C0)
    else Unknown
  }

  /** Long names that start with "B". */
  function BitFamily(s: string): Family {
    if s == "BTST" then BitField(0x0000)
    else if s == "BCHG" then BitField(0x0040)
    else if s == "BCLR" then BitField(0x0080)
    else if s == "BSET" then BitField(0x00C0)
    else Unknown
  }

  /** Branch names: "B" and two letters. */
  function BranchFamily(s: string): Family {
    if s == "BRA" then BranchOn(0x0000)
    else if s == "BSR" then BranchOn(0x0100)
    else if s == "BHI" then BranchOn(0x0200)
    else if s == "BLS" then BranchOn(0x0300)
    else if s == "BHS" then BranchOn(0x0400)
    else if s == "BLO" then BranchOn(0x0500)
    else if s == "BNE" then BranchOn(0x0600)
    else if s == "BEQ" then BranchOn(0x0700)
    else if s == "BVC" then BranchOn(0x0800)
    else if s == "BVS" then BranchOn(0x0900)
    else if s == "BPL" then BranchOn(0x0A00)
    else if s == "BMI" then BranchOn(0x0B00)
    else if s == "BGE" then BranchOn(0x0C00)
    else if s == "BLT" then BranchOn(0x0D00)
    else if s == "BGT" then BranchOn(0x0E00)
    else if s == "BLE" then BranchOn(0x0F00)
    else Unknown
  }

  function FamilyOf(s: string): Family {
    if |s| > 3 then
      if s[0] == 'M' then MoveFamily(s) else if s[0] == 'B' then BitFamily(s) else LongFamily(s)
    else if |s| == 3 && s[0] == 'B' then BranchFamily(s)
    else ShortFamily(s)
  }

  /** The name and the suffix behind its point. */
  lemma CutName(mn: string, suffix: string)
    requires '.' !in mn
    ensures Cut(mn + "." + suffix) == (mn, suffix) && Cut(mn + ("." + suffix)) == (mn, suffix)
    ensures Cut(mn) == (mn, "")
  {
    IndexOfFirst(mn, '.', suffix);
    assert mn + "." + suffix == mn + ['.'] + suffix == mn + ("." + suffix);
    var s := mn + "." + suffix;
    assert s[..|mn|] == mn && s[|mn| + 1..] == suffix;
    assert IndexOf(mn, '.') == |mn|;
  }

  function SizeBits(suffix: string): word {
    if suffix == "B" then 0x0000 else if suffix == "W" then 0x0040 else if suffix == "L" then 0x0080 else 0x00C0
  }

  lemma SizeBitsOfName(size: bv2)
    ensures SizeBits(SizeName(size)) == size as word << 6
  {
  }

  // ---- operands ----

  function At(os: seq<Operand>, i: nat): Operand {
    if i < |os| then os[i] else NO_OPERAND
  }

  function RegisterOf(o: Operand): regnum {
    if o.effectiveAddress.Some? then o.effectiveAddress.value.register
    else if o.register.Some? then o.register.value.number else 0
  }

  function ModeOf(o: Operand): bv3 {
    if o.effectiveAddress.Some? then o.effectiveAddress.value.mode else 0
  }

  /** Mode and register in bits 5 to 0. */
  function EaBits(o: Operand): word {
    (ModeOf(o) as word << 3) | RegisterOf(o) as word
  }

  /** A register in bits 11 to 9. */
  function HighRegister(o: Operand): word {
    RegisterOf(o) as word << 9
  }

  /** A destination: register in bits 11 to 9, mode in bits 8 to 6. */
  function DestinationBits(o: Operand): word {
    HighRegister(o) | (ModeOf(o) as word << 6)
  }

  /** The low eight bits of an immediate. */
  function LowValue(o: Operand): word {
    if o.immediate.Some? && o.immediate.value.value < 0x100 then ByteOf(o.immediate.value.value) as word else 0
  }

  /** The displacement byte of a short branch. */
  function ShortDisplacement(o: Operand, address: uint32): word {
    if o.branchTarget.Some? then ByteOf((o.branchTarget.value - address - 2) % 0x100) as word else 0
  }

  /** What an operand shows of its slot. */
  predicate Shows(s: Slot, o: Operand, address: uint32, end: nat) {
    match s
    case Fixed(x) => o == x
    case Ea(mode, reg, _) =>
      && o.kind == EffectiveAddressOperandKind && o.effectiveAddress.Some? && o.register.None?
      && o.effectiveAddress.value.mode == mode && o.effectiveAddress.value.register == reg
    case Data(_, _) => o.register.None?
    case BitNumber(_) => o.register.None?
    case RegisterMask(_) => o.kind == RegisterListOperandKind
    case Branch(width, short, _) =>
      && o.branchTarget.Some?
      && (width == 0 ==> o.branchTarget.value == Advance(address, end + Signed(short as int, 0x100)))
    case Reject(_) => false
  }

  predicate ShowsAll(slots: seq<Slot>, os: seq<Operand>, address: uint32, offset: nat)
    decreases |slots|
  {
    if slots == [] then os == []
    else
      var end := offset + SlotWidth(slots[0]);
      os != [] && Shows(slots[0], os[0], address, end) && ShowsAll(slots[1..], os[1..], address, end)
  }

  lemma ShowsOne(s: Slot, os: seq<Operand>, address: uint32, offset: nat)
    requires ShowsAll([s], os, address, offset)
    ensures |os| == 1 && Shows(s, os[0], address, offset + SlotWidth(s))
  {
    hide Shows;
    assert [s][1..] == [];
    assert ShowsAll([], os[1..], address, offset + SlotWidth(s));
  }

  lemma ShowsTwo(s: Slot, t: Slot, os: seq<Operand>, address: uint32, offset: nat)
    requires ShowsAll([s, t], os, address, offset)
    ensures |os| == 2 && Shows(s, os[0], address, offset + SlotWidth(s))
    ensures Shows(t, os[1], address, offset + SlotWidth(s) + SlotWidth(t))
  {
    hide Shows;
    assert [s, t][1..] == [t];
    ShowsOne(t, os[1..], address, offset + SlotWidth(s));
  }

  lemma EaSlotShows(mode: bv3, reg: regnum, size: nat, address: uint32, end: nat, field: seq<byte>)
    requires size in {1, 2, 4} && EaFault(mode, reg, size).None? && |field| == EaWidth(mode, reg, size)
    ensures Shows(Ea(mode, reg, size), ReadSlot(Ea(mode, reg, size), address, end, field), address, end)
  {
    hide DecodeAddressingMode, EaFault, EaWidth, EaContext, EaOf, WellFormedEa, EaField, Canonical;
    DecodesAsEaOf(field, mode, reg, size);
    EaEncodesDecoded(field, mode, reg, size);
    assert MeetsLayout(DecodeAddressingMode(field, mode, reg, size), |field|, mode, reg, size);
    var o := ReadSlot(Ea(mode, reg, size), address, end, field);
    assert o.effectiveAddress == Some(EaOf(field, mode, reg, size));
    assert o.kind == EffectiveAddressOperandKind && o.register.None?;
  }

  lemma SlotShows(s: Slot, address: uint32, end: nat, field: seq<byte>)
    requires SlotOk(s) && SlotFault(s).None? && |field| == SlotWidth(s)
    ensures Shows(s, ReadSlot(s, address, end, field), address, end)
  {
    hide DecodeAddressingMode, EaFault, EaWidth, EaContext, Immediate, FormatImmediate, Dec, RegisterListText,
      RegisterNames, FormatBranchTarget, Advance, LowByte, WordAt, LongAt, Signed;
    match s
    case Ea(mode, reg, size) => EaSlotShows(mode, reg, size, address, end, field);
    case Branch(width, short, _) =>
      assert ReadSlot(s, address, end, field)
          == TargetOperand(Advance(address, end + BranchDisplacement(width, short, field)));
    case Data(size, _) =>
      var value := if size == 2 then WordAt(field, 0) as int else LongAt(field, 0);
      assert ReadSlot(s, address, end, field) == DataOperand(value, size);
    case BitNumber(_) => assert ReadSlot(s, address, end, field) == BitNumberOperand(WordAt(field, 0));
    case RegisterMask(_) => assert ReadSlot(s, address, end, field) == MaskOperand(WordAt(field, 0));
    case _ =>
  }

  lemma {:induction false} SlotsShow(slots: seq<Slot>, address: uint32, data: seq<byte>, offset: nat)
    requires forall s <- slots :: SlotOk(s)
    requires offset <= |data| && Walk(slots, |data|, offset).Fits?
    ensures ShowsAll(slots, ReadSlots(slots, address, data, offset), address, offset)
  {
    hide ReadSlot, Shows, EaFault, EaWidth, EaContext;
    if slots != [] {
      var end := offset + SlotWidth(slots[0]);
      assert slots[0] in slots;
      SlotShows(slots[0], address, end, data[offset..end]);
      SlotsShow(slots[1..], address, data, end);
    }
  }

  // ---- opcodes ----

  /** The opcode word of an instruction, from its mnemonic and its operands as printed. */
  function OpcodeFor(mnemonic: string, os: seq<Operand>, address: uint32): word {
    var (name, suffix) := Cut(mnemonic);
    WordFor(FamilyOf(name), suffix, os, address)
  }

  function MoveBits(suffix: string): word {
    if suffix == "B" then 0x1000 else if suffix == "W" then 0x3000 else 0x2000
  }

  function WordFor(f: Family, suffix: string, os: seq<Operand>, address: uint32): word {
    var a, b := At(os, 0), At(os, 1);
    match f
    case Exactly(opcode) => opcode
    case Vectored => 0x4E40 | LowValue(a)
    case OneRegister => 0x4840 | RegisterOf(a) as word
    case SizedEa(opcode) => opcode | SizeBits(suffix) | EaBits(a)
    case PlainEa(opcode) => opcode | EaBits(a)
    case EaRegister(opcode) => opcode | HighRegister(b) | EaBits(a)
    case BitField(which) => (if a.register.Some? then 0x0500 else 0x0800) | which | EaBits(b)
    case ImmediateTo(opcode) => opcode | SizeBits(suffix) | EaBits(b)
    case Moves => MoveBits(suffix) | DestinationBits(b) | EaBits(a)
    case MovesAddress => MoveBits(suffix) | HighRegister(b) | 0x0040 | EaBits(a)
    case MovesMany =>
      0x4880 | (if suffix == "L" then 0x0040 else 0)
      | (if a.kind == RegisterListOperandKind then EaBits(b) else 0x0400 | EaBits(a))
    case Quick => 0x7000 | HighRegister(b) | LowValue(a)
    case Decimal(opcode) =>
      opcode | HighRegister(b) | (if a.effectiveAddress.Some? then 0x0008 else 0) | RegisterOf(a) as word
    case Directed(opcode) =>
      opcode | SizeBits(suffix)
      | (if a.effectiveAddress.Some? then HighRegister(b) | EaBits(a) else 0x0100 | HighRegister(a) | EaBits(b))
    case AddressTo(opcode) => opcode | (if suffix == "L" then 0x01C0 else 0x00C0) | HighRegister(b) | EaBits(a)
    case Compares => 0xB000 | SizeBits(suffix) | HighRegister(b) | EaBits(a)
    case ComparesMemory => 0xB108 | SizeBits(suffix) | HighRegister(b) | RegisterOf(a) as word
    case BranchOn(condition) =>
      0x6000 | condition
      | (if suffix == "W" then 0x0000 else if suffix == "L" then 0x00FF else ShortDisplacement(a, address))
    case Shifts(kind, left) =>
      0xE000 | (if left then 0x0100 else 0)
      | (if |os| == 1 then 0x0800 | (kind as word << 6) | EaBits(a)
         else (kind as word << 9) | SizeBits(suffix) | (if a.register.Some? then 0x0020 else 0) | RegisterOf(b) as word)
    case DataWords =>
      if a.immediate.Some? && a.immediate.value.value < 0x1_0000 then
        WordAt(NumberBytes(a.immediate.value.value), 0)
      else 0
    case Unknown => 0
  }

  /** An opcode with the bits cleared that its decoder ignores: bits 4 and 3 of a register shift, bits 10
      and 9 of a memory shift. */
  function CanonicalOpcode(op: word): word {
    if Lookup(op) != Some(SHIFT) then op else if RegX(op) <= 3 then op & 0xFFE7 else op & 0xF9FF
  }

  // ---- family by family ----

  /** The operands of a form, as printed, seen slot by slot. */
  predicate Displays(f: Form, os: seq<Operand>, address: uint32) {
    ShowsAll(f.slots, Ordered(f.swapped, os), address, 2)
  }

  lemma DisplaysOne(f: Form, s: Slot, os: seq<Operand>, address: uint32)
    requires f.slots == [s] && Displays(f, os, address)
    ensures |os| == 1 && Shows(s, os[0], address, 2 + SlotWidth(s))
  {
    hide Shows, ShowsAll;
    ShowsOne(s, Ordered(f.swapped, os), address, 2);
  }

  lemma DisplaysTwo(f: Form, s: Slot, t: Slot, os: seq<Operand>, address: uint32)
    requires f.slots == [s, t] && Displays(f, os, address)
    ensures |os| == 2
    ensures var (a, b) := if f.swapped then (os[1], os[0]) else (os[0], os[1]);
            Shows(s, a, address, 2 + SlotWidth(s)) && Shows(t, b, address, 2 + SlotWidth(s) + SlotWidth(t))
  {
    hide Shows, ShowsAll;
    ShowsTwo(s, t, Ordered(f.swapped, os), address, 2);
  }

  lemma EaShows(op: word, o: Operand, size: nat, address: uint32, end: nat)
    requires size in {1, 2, 4} && Shows(SourceEa(op, size), o, address, end)
    ensures EaBits(o) == op & 0x003F && o.effectiveAddress.Some? && o.register.None?
    ensures o.kind == EffectiveAddressOperandKind
  {
  }

  lemma HighRegisterShows(op: word, o: Operand, kind: RegisterKind, address: uint32, end: nat)
    requires Shows(RegisterSlot(kind, RegX(op)), o, address, end)
    ensures HighRegister(o) == op & 0x0E00 && o.effectiveAddress.None? && o.register.Some?
  {
    hide RegisterName;
  }

  lemma LowRegisterShows(op: word, o: Operand, kind: RegisterKind, address: uint32, end: nat)
    requires Shows(RegisterSlot(kind, Reg(op)), o, address, end)
    ensures RegisterOf(o) as word == op & 0x0007 && o.effectiveAddress.None? && o.register.Some?
  {
    hide RegisterName;
  }

  lemma SizeShows(op: word)
    ensures SizeBits(SizeName(SizeField(op))) == op & 0x00C0
  {
    hide SizeName, SizeBits;
    SizeBitsOfName(SizeField(op));
  }

  lemma PlainEaAssembles(name: string, code: word, op: word, os: seq<Operand>, address: uint32)
    requires '.' !in name && FamilyOf(name) == PlainEa(code) && op & 0xFFC0 == code
    requires Displays(EaForm(name, op), os, address)
    ensures OpcodeFor(name, os, address) == op
  {
    hide FamilyOf, Cut, EaBits, Displays, Shows;
    CutName(name, "");
    DisplaysOne(EaForm(name, op), SourceEa(op, 2), os, address);
    EaShows(op, os[0], 2, address, 2 + SlotWidth(SourceEa(op, 2)));
  }

  lemma SizedEaAssembles(name: string, code: word, op: word, os: seq<Operand>, address: uint32)
    requires '.' !in name && FamilyOf(name) == SizedEa(code) && op & 0xFF00 == code
    requires Displays(EaForm(name + ("." + SizeName(SizeField(op))), op), os, address)
    ensures OpcodeFor(name + ("." + SizeName(SizeField(op))), os, address) == op
  {
    hide FamilyOf, Cut, EaBits, Displays, Shows, SizeBits, SizeName;
    CutName(name, SizeName(SizeField(op)));
    DisplaysOne(EaForm(name + ("." + SizeName(SizeField(op))), op), SourceEa(op, 2), os, address);
    EaShows(op, os[0], 2, address, 2 + SlotWidth(SourceEa(op, 2)));
    SizeShows(op);
  }

  lemma EaRegisterAssembles(name: string, code: word, kind: RegisterKind, op: word, os: seq<Operand>, address: uint32)
    requires '.' !in name && FamilyOf(name) == EaRegister(code) && op & 0xF1C0 == code
    requires Displays(EaToRegisterForm(name, op, kind), os, address)
    ensures OpcodeFor(name, os, address) == op
  {
    hide FamilyOf, Cut, EaBits, HighRegister, Displays, Shows, RegisterOperand, SlotWidth;
    CutName(name, "");
    var s, t := SourceEa(op, 2), RegisterSlot(kind, RegX(op));
    DisplaysTwo(EaToRegisterForm(name, op, kind), s, t, os, address);
    EaShows(op, os[0], 2, address, 2 + SlotWidth(s));
    HighRegisterShows(op, os[1], kind, address, 2 + SlotWidth(s) + SlotWidth(t));
  }

  lemma BitsAssemble(name: string, which: word, op: word, os: seq<Operand>, address: uint32)
    requires '.' !in name && FamilyOf(name) == BitField(which)
    requires op & 0xFFC0 == 0x0500 | which || op & 0xFFC0 == 0x0800 | which
    requires which & 0x00C0 == which
    requires Displays(BitForm(name, op), os, address)
    ensures OpcodeFor(name, os, address) == op
  {
    hide FamilyOf, Cut, EaBits, Displays, RegisterOperand, SlotWidth, Shows, Direction, SourceEa;
    CutName(name, "");
    var f := BitForm(name, op);
    DisplaysTwo(f, f.slots[0], SourceEa(op, 2), os, address);
    EaShows(op, os[1], 2, address, 2 + SlotWidth(f.slots[0]) + SlotWidth(SourceEa(op, 2)));
    if Direction(op) {
      HighRegisterShows(op, os[0], DataRegister, address, 2 + SlotWidth(f.slots[0]));
    } else {
      BitNumberShows(f.slots[0], os[0], address, 2 + SlotWidth(f.slots[0]));
    }
    BitFieldWord(which, op);
  }

  lemma BitNumberShows(s: Slot, o: Operand, address: uint32, end: nat)
    requires s.BitNumber? && Shows(s, o, address, end)
    ensures o.register.None?
  {
  }

  lemma BitFieldWord(which: word, op: word)
    requires op & 0xFFC0 == 0x0500 | which || op & 0xFFC0 == 0x0800 | which
    requires which & 0x00C0 == which
    ensures (if Direction(op) then 0x0500 else 0x0800) | which | (op & 0x003F) == op
  {
  }

  lemma ImmediateAssembles(name: string, code: word, op: word, long: bool, os: seq<Operand>, address: uint32)
    requires '.' !in name && FamilyOf(name) == ImmediateTo(code) && op & 0xFF00 == code && SizeField(op) != 3
    requires Displays(ImmediateForm(name, op, long), os, address)
    ensures OpcodeFor(ImmediateForm(name, op, long).mnemonic, os, address) == op
  {
    hide FamilyOf, Cut, EaBits, Displays, Shows, SlotWidth, SizeBits, SizeName;
    CutName(name, SizeName(SizeField(op)));
    var f := ImmediateForm(name, op, long);
    DisplaysTwo(f, f.slots[0], SourceEa(op, 2), os, address);
    EaShows(op, os[1], 2, address, 2 + SlotWidth(f.slots[0]) + SlotWidth(SourceEa(op, 2)));
    SizeShows(op);
  }

  lemma DirectedWord(op: word)
    ensures (op & 0xF000) | (op & 0x00C0)
            | (if Direction(op) then 0x0100 | (op & 0x0E00) | (op & 0x003F) else (op & 0x0E00) | (op & 0x003F)) == op
  {
  }

  lemma DirectedShows(name: string, op: word, os: seq<Operand>, address: uint32)
    requires SizeField(op) != 3 && Displays(DirectedForm(name, op), os, address)
    ensures |os| == 2
    ensures var (a, b) := if Direction(op) then (os[1], os[0]) else (os[0], os[1]);
            && EaBits(a) == op & 0x003F && a.effectiveAddress.Some?
            && HighRegister(b) == op & 0x0E00 && b.effectiveAddress.None?
  {
    hide EaBits, HighRegister, Displays, Shows, SlotWidth, SizeName, RegisterOperand, Direction, Mode, Reg, RegX,
      SizeField;
    var s, t := SourceEa(op, ByteSize(SizeField(op))), RegisterSlot(DataRegister, RegX(op));
    DisplaysTwo(DirectedForm(name, op), s, t, os, address);
    var (a, b) := if Direction(op) then (os[1], os[0]) else (os[0], os[1]);
    EaShows(op, a, ByteSize(SizeField(op)), address, 2 + SlotWidth(s));
    HighRegisterShows(op, b, DataRegister, address, 2 + SlotWidth(s) + SlotWidth(t));
  }

  lemma DirectedAssembles(name: string, code: word, op: word, os: seq<Operand>, address: uint32)
    requires '.' !in name && FamilyOf(name) == Directed(code) && op & 0xF000 == code && SizeField(op) != 3
    requires Displays(DirectedForm(name, op), os, address)
    ensures OpcodeFor(DirectedForm(name, op).mnemonic, os, address) == op
  {
    hide FamilyOf, Cut, EaBits, HighRegister, Displays, SizeBits, SizeName, Direction, SizeField, RegisterSlot,
      SourceEa;
    CutName(name, SizeName(SizeField(op)));
    DirectedWord(op);
    DirectedShows(name, op, os, address);
    SizeShows(op);
  }

  lemma AddressAssembles(name: string, code: word, op: word, os: seq<Operand>, address: uint32)
    requires '.' !in name && FamilyOf(name + "A") == AddressTo(code) && op & 0xF000 == code
    requires OpMode(op) == 3 || OpMode(op) == 7
    requires Displays(AddressForm(name, op), os, address)
    ensures OpcodeFor(AddressForm(name, op).mnemonic, os, address) == op
  {
    hide FamilyOf, Cut, EaBits, HighRegister, Displays, Shows, SlotWidth, RegisterOperand;
    var long := OpMode(op) == 7;
    CutName(name + "A", if long then "L" else "W");
    assert name + "A." + (if long then "L" else "W") == (name + "A") + "." + (if long then "L" else "W");
    var s, t := SourceEa(op, if long then 4 else 2), RegisterSlot(AddressRegister, RegX(op));
    DisplaysTwo(AddressForm(name, op), s, t, os, address);
    EaShows(op, os[0], if long then 4 else 2, address, 2 + SlotWidth(s));
    HighRegisterShows(op, os[1], AddressRegister, address, 2 + SlotWidth(s) + SlotWidth(t));
  }

  lemma MoveNames()
    ensures FamilyOf("MOVE") == Moves && '.' !in "MOVE"
    ensures FamilyOf("MOVEA") == MovesAddress && '.' !in "MOVEA"
    ensures FamilyOf("MOVEM") == MovesMany && '.' !in "MOVEM"
    ensures FamilyOf("MOVEQ") == Quick && '.' !in "MOVEQ"
  {
  }

  lemma CompareNames()
    ensures FamilyOf("CMP") == Compares && '.' !in "CMP"
    ensures FamilyOf("CMPM") == ComparesMemory && '.' !in "CMPM"
  {
  }

  lemma CompareAssembles(op: word, os: seq<Operand>, address: uint32)
    requires op & 0xF000 == 0xB000 && !IsCmpm(op) && OpMode(op) < 3
    requires Displays(CmpForm(op), os, address)
    ensures OpcodeFor(CmpForm(op).mnemonic, os, address) == op
  {
    hide Cut, EaBits, HighRegister, Displays, Shows, SlotWidth, SizeBits, SizeName, RegisterOperand, IsCmpm, FamilyOf;
    CompareNames();
    CutName("CMP", SizeName(SizeField(op)));
    var s, t := SourceEa(op, ByteSize(SizeField(op))), RegisterSlot(DataRegister, RegX(op));
    assert CmpForm(op).mnemonic == "CMP" + "." + SizeName(SizeField(op));
    DisplaysTwo(CmpForm(op), s, t, os, address);
    EaShows(op, os[0], ByteSize(SizeField(op)), address, 2 + SlotWidth(s));
    HighRegisterShows(op, os[1], DataRegister, address, 2 + SlotWidth(s) + SlotWidth(t));
    SizeShows(op);
  }

  lemma BuiltShows(op: word, o: Operand, reg: regnum)
    requires o == PostIncrementOperand(reg) || o == PreDecrementOperand(reg)
    ensures o.effectiveAddress.Some? && RegisterOf(o) == reg
  {
    hide Digit;
  }

  lemma CmpmAssembles(op: word, os: seq<Operand>, address: uint32)
    requires IsCmpm(op) && Displays(CmpForm(op), os, address)
    ensures OpcodeFor(CmpForm(op).mnemonic, os, address) == op
  {
    hide Cut, Displays, SlotWidth, SizeBits, SizeName, PostIncrementOperand, FamilyOf;
    CompareNames();
    CutName("CMPM", SizeName(SizeField(op)));
    assert CmpForm(op).mnemonic == "CMPM" + "." + SizeName(SizeField(op));
    var s, t := PostIncrementOperand(Reg(op)), PostIncrementOperand(RegX(op));
    DisplaysTwo(CmpForm(op), Fixed(s), Fixed(t), os, address);
    BuiltShows(op, s, Reg(op));
    BuiltShows(op, t, RegX(op));
    SizeShows(op);
  }

  lemma DecimalAssembles(name: string, code: word, op: word, os: seq<Operand>, address: uint32)
    requires '.' !in name && FamilyOf(name) == Decimal(code) && op & 0xF1F0 == code
    requires Displays(BcdForm(name, op), os, address)
    ensures OpcodeFor(name, os, address) == op
  {
    hide FamilyOf, Cut, Displays, SlotWidth, PreDecrementOperand, RegisterOperand;
    CutName(name, "");
    var f := BcdForm(name, op);
    DisplaysTwo(f, f.slots[0], f.slots[1], os, address);
    if (op >> 3) & 0x1 == 0 {
      LowRegisterShows(op, os[0], DataRegister, address, 2 + SlotWidth(f.slots[0]));
      HighRegisterShows(op, os[1], DataRegister, address, 2 + SlotWidth(f.slots[0]) + SlotWidth(f.slots[1]));
    } else {
      BuiltShows(op, os[0], Reg(op));
      BuiltShows(op, os[1], RegX(op));
    }
  }

  lemma MoveSuffix(op: word)
    requires op & 0xF000 in {0x1000, 0x2000, 0x3000}
    ensures MoveBits(MoveSizeName(MoveSizeField(op))) == op & 0xF000 && MoveSizeField(op) != 0
  {
  }

  lemma DestinationShows(op: word, o: Operand, address: uint32, end: nat)
    requires Shows(Ea(OpMode(op), RegX(op), 2), o, address, end)
    ensures DestinationBits(o) == op & 0x0FC0
  {
  }

  lemma MoveShows(op: word, os: seq<Operand>, address: uint32)
    requires op & 0xF000 in {0x1000, 0x2000, 0x3000} && OpMode(op) != 1
    requires Displays(MoveForm(op), os, address)
    ensures |os| == 2 && EaBits(os[0]) == op & 0x003F
    ensures DestinationBits(os[1]) == op & 0x0FC0
  {
    hide EaBits, DestinationBits, Displays, Shows, SlotWidth, MoveBits, MoveSizeName, MoveSizeField, MoveByteSize,
      OpMode, RegX, Mode, Reg, RegisterOperand;
    MoveSuffix(op);
    var size := MoveSizeField(op);
    MoveSizeIs(size);
    var s, t := SourceEa(op, MoveByteSize(size)), Ea(OpMode(op), RegX(op), 2);
    DisplaysTwo(MoveForm(op), s, t, os, address);
    EaShows(op, os[0], MoveByteSize(size), address, 2 + SlotWidth(s));
    DestinationShows(op, os[1], address, 2 + SlotWidth(s) + SlotWidth(t));
  }

  lemma MoveMnemonic(op: word)
    requires MoveSizeField(op) != 0
    ensures MoveForm(op).mnemonic
            == (if OpMode(op) == 1 then "MOVEA" else "MOVE") + "." + MoveSizeName(MoveSizeField(op))
  {
    hide MoveSizeField, OpMode, MoveSizeName, SourceEa, RegisterSlot, RegX;
    assert "MOVE." == "MOVE" + "." && "MOVEA." == "MOVEA" + ".";
  }

  lemma MoveAssembles(op: word, os: seq<Operand>, address: uint32)
    requires op & 0xF000 in {0x1000, 0x2000, 0x3000} && OpMode(op) != 1
    requires Displays(MoveForm(op), os, address)
    ensures OpcodeFor(MoveForm(op).mnemonic, os, address) == op
  {
    hide Cut, EaBits, DestinationBits, Displays, FamilyOf, MoveBits, MoveSizeName, MoveSizeField, OpMode, MoveForm;
    MoveNames();
    MoveSuffix(op);
    MoveMnemonic(op);
    CutName("MOVE", MoveSizeName(MoveSizeField(op)));
    MoveShows(op, os, address);
    MoveWord(op);
  }

  lemma MoveSizeIs(size: bv2)
    ensures MoveByteSize(size) in {1, 2, 4}
  {
  }

  lemma MoveWord(op: word)
    ensures (op & 0xF000) | (op & 0x0FC0) | (op & 0x003F) == op
  {
  }

  lemma MoveaAssembles(op: word, os: seq<Operand>, address: uint32)
    requires op & 0xF000 in {0x1000, 0x2000, 0x3000} && OpMode(op) == 1 && MoveSizeField(op) != 1
    requires Displays(MoveForm(op), os, address)
    ensures OpcodeFor(MoveForm(op).mnemonic, os, address) == op
  {
    hide Cut, EaBits, HighRegister, Displays, Shows, SlotWidth, FamilyOf, MoveBits, MoveSizeName, MoveByteSize,
      RegisterOperand;
    MoveNames();
    MoveSuffix(op);
    var size := MoveSizeField(op);
    CutName("MOVEA", MoveSizeName(size));
    assert MoveForm(op).mnemonic == "MOVEA" + "." + MoveSizeName(size);
    MoveSizeIs(size);
    var s, t := SourceEa(op, MoveByteSize(size)), RegisterSlot(AddressRegister, RegX(op));
    DisplaysTwo(MoveForm(op), s, t, os, address);
    EaShows(op, os[0], MoveByteSize(size), address, 2 + SlotWidth(s));
    HighRegisterShows(op, os[1], AddressRegister, address, 2 + SlotWidth(s) + SlotWidth(t));
  }

  lemma MovemShows(op: word, os: seq<Operand>, address: uint32)
    requires Displays(MovemForm(op), os, address)
    ensures |os| == 2
    ensures if op & 0x0400 == 0 then os[0].kind == RegisterListOperandKind && EaBits(os[1]) == op & 0x003F
            else os[0].kind != RegisterListOperandKind && EaBits(os[0]) == op & 0x003F
  {
    hide Displays, SlotWidth, Mode, Reg;
    var f := MovemForm(op);
    DisplaysTwo(f, f.slots[0], f.slots[1], os, address);
    MovemBits(op);
    if Mode(op) != 0 || Reg(op) != 0 {
      EaShows(op, if f.swapped then os[0] else os[1], 2, address, 2 + SlotWidth(f.slots[0]) + SlotWidth(f.slots[1]));
    }
  }

  lemma MovemBits(op: word)
    ensures (op >> 10) & 0x1 != 0 <==> op & 0x0400 != 0
    ensures Mode(op) == 0 && Reg(op) == 0 ==> op & 0x003F == 0
    ensures EaBits(NO_OPERAND) == 0
  {
  }

  lemma MovemWord(op: word)
    requires op & 0xFB80 == 0x4880
    ensures 0x4880 | (if op & 0x0040 != 0 then 0x0040 else 0)
            | (if op & 0x0400 == 0 then op & 0x003F else 0x0400 | (op & 0x003F)) == op
  {
  }

  lemma MovemAssembles(op: word, os: seq<Operand>, address: uint32)
    requires op & 0xFB80 == 0x4880 && Displays(MovemForm(op), os, address)
    ensures OpcodeFor(MovemForm(op).mnemonic, os, address) == op
  {
    hide Cut, Displays, FamilyOf, EaBits, Mode, Reg, SourceEa;
    var suffix := if op & 0x0040 != 0 then "L" else "W";
    MoveNames();
    CutName("MOVEM", suffix);
    assert MovemForm(op).mnemonic == "MOVEM" + "." + suffix;
    MovemShows(op, os, address);
    MovemWord(op);
  }

  // ---- operands that are numbers ----

  lemma QuickAssembles(op: word, os: seq<Operand>, address: uint32)
    requires op & 0xF100 == 0x7000 && Displays(FormOf(MOVEQ, op), os, address)
    ensures OpcodeFor("MOVEQ", os, address) == op
  {
    hide Cut, Displays, FamilyOf, SlotWidth, QuickOperand, RegisterOperand, LowValue, HighRegister, Shows;
    MoveNames();
    CutName("MOVEQ", "");
    var s, t := Fixed(QuickOperand(op)), RegisterSlot(DataRegister, RegX(op));
    DisplaysTwo(FormOf(MOVEQ, op), s, t, os, address);
    HighRegisterShows(op, os[1], DataRegister, address, 2 + SlotWidth(s) + SlotWidth(t));
    QuickValue(op, os[0], address, 2 + SlotWidth(s));
  }

  lemma QuickValue(op: word, o: Operand, address: uint32, end: nat)
    requires Shows(Fixed(QuickOperand(op)), o, address, end)
    ensures LowValue(o) == op & 0x00FF
  {
    hide LowByte, ByteOf, FormatImmediateForMOVEQ, Signed, SignedImmediateValue;
    ByteOfValue(LowByte(op));
    LowByteBits(op);
  }

  lemma LowByteBits(op: word)
    ensures LowByte(op) as word == op & 0x00FF
  {
  }

  lemma TrapName()
    ensures FamilyOf("TRAP") == Vectored && '.' !in "TRAP"
  {
  }

  lemma SwapName()
    ensures FamilyOf("SWAP") == OneRegister && '.' !in "SWAP"
  {
  }

  lemma DataWordName()
    ensures FamilyOf("DC") == DataWords && '.' !in "DC"
  {
  }

  lemma TrapAssembles(op: word, os: seq<Operand>, address: uint32)
    requires op & 0xFFF0 == 0x4E40 && Displays(FormOf(TRAP, op), os, address)
    ensures OpcodeFor("TRAP", os, address) == op
  {
    hide Cut, Displays, SlotWidth, CountOperand, LowValue, FamilyOf;
    TrapName();
    CutName("TRAP", "");
    DisplaysOne(FormOf(TRAP, op), Fixed(CountOperand(Vector(op))), os, address);
    VectorValue(op);
  }

  lemma VectorValue(op: word)
    ensures LowValue(CountOperand(Vector(op))) == op & 0x000F
  {
    hide Dec, ByteOf, SignedImmediateValue, Vector;
    var b := (op & 0xF) as byte;
    VectorIs(op);
    ByteOfValue(b);
  }

  lemma VectorIs(op: word)
    ensures Vector(op) == ((op & 0xF) as byte) as int
    ensures ((op & 0xF) as byte) as word == op & 0x000F
  {
  }

  lemma SwapShows(op: word, os: seq<Operand>, address: uint32)
    requires Displays(FormOf(SWAP, op), os, address)
    ensures |os| == 1 && RegisterOf(os[0]) as word == op & 0x0007
  {
    hide Displays, SlotWidth, RegisterOperand, Shows;
    var s := RegisterSlot(DataRegister, Reg(op));
    DisplaysOne(FormOf(SWAP, op), s, os, address);
    LowRegisterShows(op, os[0], DataRegister, address, 2 + SlotWidth(s));
  }

  lemma SwapAssembles(op: word, os: seq<Operand>, address: uint32)
    requires op & 0xFFF8 == 0x4840 && Displays(FormOf(SWAP, op), os, address)
    ensures OpcodeFor("SWAP", os, address) == op
  {
    hide Cut, Displays, FamilyOf, FormOf, RegisterOf;
    SwapName();
    CutName("SWAP", "");
    SwapShows(op, os, address);
  }

  lemma DataWordShows(op: word, os: seq<Operand>, address: uint32)
    requires Displays(DataWordForm(op), os, address)
    ensures |os| == 1 && os[0].immediate.Some? && os[0].immediate.value.value == op as int
  {
    hide Displays, Hex, SignedImmediateValue;
    var f := DataWordForm(op);
    DisplaysOne(f, f.slots[0], os, address);
  }

  lemma DataWordAssembles(op: word, os: seq<Operand>, address: uint32)
    requires Displays(DataWordForm(op), os, address)
    ensures OpcodeFor("DC.W", os, address) == op
  {
    hide Displays, DataWordForm, FamilyOf, Cut, WordFor, LowValue;
    DataWordName();
    CutName("DC", "W");
    assert "DC" + "." + "W" == "DC.W";
    DataWordShows(op, os, address);
    DataWordIsWritten(op, os, address);
  }

  lemma DataWordIsWritten(op: word, os: seq<Operand>, address: uint32)
    requires |os| == 1 && os[0].immediate.Some? && os[0].immediate.value.value == op as int
    ensures WordFor(DataWords, "W", os, address) == op
  {
    hide EaBits, SizeBits, ShortDisplacement, RegisterOf, HighRegister, NumberBytes, WordAt;
    SameNumber(WordAt(NumberBytes(op as int), 0), op);
  }

  lemma SameNumber(a: word, b: word)
    requires a as int == b as int
    ensures a == b
  {
    assert (a as int) as word == a && (b as int) as word == b;
  }

  lemma ExactAssembles(name: string, op: word, os: seq<Operand>, address: uint32)
    requires '.' !in name && FamilyOf(name) == Exactly(op)
    ensures OpcodeFor(name, os, address) == op
  {
    hide FamilyOf, Cut;
    CutName(name, "");
  }

  // ---- branches ----

  lemma LowBranchNames(c: bv4)
    requires c < 8
    ensures FamilyOf(BranchName(c)) == BranchOn(c as word << 8) && '.' !in BranchName(c)
  {
  }

  lemma MiddleBranchNames(c: bv4)
    requires 8 <= c < 12
    ensures FamilyOf(BranchName(c)) == BranchOn(c as word << 8) && '.' !in BranchName(c)
  {
  }

  lemma HighBranchNames(c: bv4)
    requires c >= 12
    ensures FamilyOf(BranchName(c)) == BranchOn(c as word << 8) && '.' !in BranchName(c)
  {
  }

  lemma BranchNames(c: bv4)
    ensures FamilyOf(BranchName(c)) == BranchOn(c as word << 8) && '.' !in BranchName(c)
  {
    hide FamilyOf, BranchName;
    if c < 8 {
      LowBranchNames(c);
    } else if c < 12 {
      MiddleBranchNames(c);
    } else {
      HighBranchNames(c);
    }
  }

  lemma ByteResidue(d: int, q: int)
    ensures (d - 0x100 * q) % 0x100 == d % 0x100
  {
  }

  lemma ShortDistance(address: uint32, d: int)
    ensures (Advance(address, 2 + d) - address - 2) % 0x100 == d % 0x100
  {
    var q := (address + 2 + d) / 0x1_0000_0000;
    assert Advance(address, 2 + d) - address - 2 == d - 0x1_0000_0000 * q;
    hide Advance;
    ByteResidue(d, 0x100_0000 * q);
  }

  lemma ShortNumber(target: uint32, v: nat, address: uint32)
    requires v < 0x100 && target == Advance(address, 2 + Signed(v, 0x100))
    ensures (target - address - 2) % 0x100 == v
  {
    hide Advance;
    ShortDistance(address, Signed(v, 0x100));
  }

  lemma ShortByte(o: Operand, b: byte, address: uint32)
    requires o.branchTarget == Some(Advance(address, 2 + Signed(b as int, 0x100)))
    ensures ShortDisplacement(o, address) == b as word
  {
    hide Advance, Signed, ByteOf;
    ShortNumber(o.branchTarget.value, b as int, address);
    ByteOfValue(b);
    assert ByteOf((o.branchTarget.value - address - 2) % 0x100) == b;
  }

  lemma ShortShows(op: word, o: Operand, address: uint32)
    requires Shows(Branch(0, LowByte(op), ""), o, address, 2)
    ensures ShortDisplacement(o, address) == op & 0x00FF
  {
    hide LowByte, Advance, Signed, ShortDisplacement;
    ShortByte(o, LowByte(op), address);
    LowByteBits(op);
  }

  lemma BranchWord(op: word)
    requires op & 0xF000 == 0x6000
    ensures 0x6000 | (Condition(op) as word << 8) | (op & 0x00FF) == op
    ensures LowByte(op) == 0 ==> op & 0x00FF == 0
    ensures LowByte(op) == 0xFF ==> op & 0x00FF == 0x00FF
  {
  }

  lemma BranchAssembles(op: word, os: seq<Operand>, address: uint32)
    requires op & 0xF000 == 0x6000 && Displays(BranchForm(op), os, address)
    ensures OpcodeFor(BranchForm(op).mnemonic, os, address) == op
  {
    hide Cut, Displays, FamilyOf, BranchName, Condition, LowByte, Shows, ShortDisplacement;
    var mn, d := BranchName(Condition(op)), LowByte(op);
    BranchNames(Condition(op));
    BranchWord(op);
    var suffix := if d == 0 then "W" else if d == 0xFF then "L" else "S";
    CutName(mn, suffix);
    BranchMnemonic(op, suffix);
    if suffix == "S" {
      DisplaysOne(BranchForm(op), Branch(0, d, ""), os, address);
      ShortShows(op, os[0], address);
    }
  }

  lemma BranchMnemonic(op: word, suffix: string)
    requires suffix == if LowByte(op) == 0 then "W" else if LowByte(op) == 0xFF then "L" else "S"
    ensures BranchForm(op).mnemonic == BranchName(Condition(op)) + "." + suffix
  {
    hide BranchName, Condition, LowByte;
    var mn := BranchName(Condition(op));
    assert mn + ".W" == mn + "." + "W" && mn + ".L" == mn + "." + "L" && mn + ".S" == mn + "." + "S";
  }

  // ---- shifts ----

  function ShiftMnemonic(kind: bv2, left: bool): string {
    ShiftName(kind) + (if left then "L" else "R")
  }

  lemma ShiftNames(kind: bv2, left: bool)
    ensures FamilyOf(ShiftMnemonic(kind, left)) == Shifts(kind, left) && '.' !in ShiftMnemonic(kind, left)
  {
    hide FamilyOf;
    if kind == 0 {
      ArithmeticShiftNames();
    } else if kind == 1 {
      LogicalShiftNames();
    } else if kind == 2 {
      ExtendedRotateNames();
    } else {
      RotateNames();
    }
  }

  lemma ArithmeticShiftNames()
    ensures FamilyOf("AS" + "R") == Shifts(0, false) && FamilyOf("AS" + "L") == Shifts(0, true)
  {
    assert "AS" + "R" == "ASR" && "AS" + "L" == "ASL";
  }

  lemma LogicalShiftNames()
    ensures FamilyOf("LS" + "R") == Shifts(1, false) && FamilyOf("LS" + "L") == Shifts(1, true)
  {
    assert "LS" + "R" == "LSR" && "LS" + "L" == "LSL";
  }

  lemma ExtendedRotateNames()
    ensures FamilyOf("ROX" + "R") == Shifts(2, false) && FamilyOf("ROX" + "L") == Shifts(2, true)
  {
    assert "ROX" + "R" == "ROXR" && "ROX" + "L" == "ROXL";
  }

  lemma RotateNames()
    ensures FamilyOf("RO" + "R") == Shifts(3, false) && FamilyOf("RO" + "L") == Shifts(3, true)
  {
    assert "RO" + "R" == "ROR" && "RO" + "L" == "ROL";
  }

  lemma MemoryShiftWord(op: word)
    requires op & 0xF000 == 0xE000 && RegX(op) > 3
    ensures 0xE000 | (if Direction(op) then 0x0100 else 0) | (0x0800 | (SizeField(op) as word << 6) | (op & 0x003F))
            == op & 0xF9FF
  {
  }

  lemma MemoryShiftShows(op: word, os: seq<Operand>, address: uint32)
    requires RegX(op) > 3 && Displays(ShiftForm(op), os, address)
    ensures |os| == 1 && EaBits(os[0]) == op & 0x003F
    ensures ShiftForm(op).mnemonic == ShiftMnemonic(SizeField(op), Direction(op)) + "." + "W"
  {
    hide Displays, ShiftName, Direction, SizeField, RegX, EaBits, Shows, SlotWidth;
    var mn := ShiftMnemonic(SizeField(op), Direction(op));
    assert mn + ".W" == mn + "." + "W";
    DisplaysOne(ShiftForm(op), SourceEa(op, 2), os, address);
    EaShows(op, os[0], 2, address, 2 + SlotWidth(SourceEa(op, 2)));
  }

  lemma MemoryShiftAssembles(op: word, os: seq<Operand>, address: uint32)
    requires op & 0xF000 == 0xE000 && RegX(op) > 3 && Displays(ShiftForm(op), os, address)
    ensures OpcodeFor(ShiftForm(op).mnemonic, os, address) == op & 0xF9FF
  {
    hide Cut, Displays, FamilyOf, ShiftForm, ShiftMnemonic, Direction, SizeField, RegX, EaBits;
    ShiftNames(SizeField(op), Direction(op));
    MemoryShiftShows(op, os, address);
    CutName(ShiftMnemonic(SizeField(op), Direction(op)), "W");
    MemoryShiftWord(op);
  }

  lemma RegisterShiftWord(op: word)
    requires op & 0xF000 == 0xE000 && RegX(op) <= 3
    ensures 0xE000 | (if Direction(op) then 0x0100 else 0)
            | (((RegX(op) as bv2) as word << 9) | (op & 0x00C0)
               | (if (op >> 5) & 0x1 == 0 then 0 else 0x0020) | (op & 0x0007))
            == op & 0xFFE7
  {
  }

  lemma RegisterShiftShows(op: word, os: seq<Operand>, address: uint32)
    requires RegX(op) <= 3 && Displays(ShiftForm(op), os, address)
    ensures |os| == 2 && RegisterOf(os[1]) as word == op & 0x0007
    ensures os[0].register.Some? <==> (op >> 5) & 0x1 != 0
  {
    hide Displays, ShiftName, SizeName, Direction, SizeField, SlotWidth, RegisterName, Dec, SignedImmediateValue,
      RegX, Reg;
    var f := ShiftForm(op);
    var t := RegisterSlot(DataRegister, Reg(op));
    DisplaysTwo(f, f.slots[0], t, os, address);
    LowRegisterShows(op, os[1], DataRegister, address, 2 + SlotWidth(f.slots[0]) + SlotWidth(t));
  }

  lemma RegisterShiftMnemonic(op: word)
    requires RegX(op) <= 3
    ensures ShiftForm(op).mnemonic == ShiftMnemonic(RegX(op) as bv2, Direction(op)) + "." + SizeName(SizeField(op))
  {
    hide ShiftName, Direction, SizeField, SizeName, RegX, Reg, CountOperand, RegisterSlot, SourceEa;
  }

  lemma RegisterShiftAssembles(op: word, os: seq<Operand>, address: uint32)
    requires op & 0xF000 == 0xE000 && RegX(op) <= 3 && Displays(ShiftForm(op), os, address)
    ensures OpcodeFor(ShiftForm(op).mnemonic, os, address) == op & 0xFFE7
  {
    hide Cut, Displays, FamilyOf, ShiftForm, ShiftMnemonic, Direction, SizeField, RegX, RegisterOf, SizeName,
      SizeBits;
    ShiftNames(RegX(op) as bv2, Direction(op));
    RegisterShiftMnemonic(op);
    CutName(ShiftMnemonic(RegX(op) as bv2, Direction(op)), SizeName(SizeField(op)));
    RegisterShiftShows(op, os, address);
    SizeShows(op);
    RegisterShiftWord(op);
  }

  // ---- the names of each family ----

  lemma SizedEaNames()
    ensures FamilyOf("CLR") == SizedEa(0x4200) && '.' !in "CLR"
    ensures FamilyOf("NEG") == SizedEa(0x4400) && '.' !in "NEG"
    ensures FamilyOf("NEGX") == SizedEa(0x4000) && '.' !in "NEGX"
    ensures FamilyOf("NOT") == SizedEa(0x4600) && '.' !in "NOT"
    ensures FamilyOf("TST") == SizedEa(0x4A00) && '.' !in "TST"
  {
    hide ShortFamily, LongFamily;
    ShortSizedNames();
    LongSizedName();
  }

  lemma ShortSizedNames()
    ensures ShortFamily("CLR") == SizedEa(0x4200) && ShortFamily("NEG") == SizedEa(0x4400)
    ensures ShortFamily("NOT") == SizedEa(0x4600) && ShortFamily("TST") == SizedEa(0x4A00)
  {
  }

  lemma LongSizedName()
    ensures LongFamily("NEGX") == SizedEa(0x4000)
  {
  }

  lemma PlainEaNames()
    ensures FamilyOf("JSR") == PlainEa(0x4E80) && '.' !in "JSR"
    ensures FamilyOf("JMP") == PlainEa(0x4EC0) && '.' !in "JMP"
    ensures FamilyOf("PEA") == PlainEa(0x4840) && '.' !in "PEA"
  {
  }

  lemma EaRegisterNames()
    ensures FamilyOf("LEA") == EaRegister(0x41C0) && '.' !in "LEA"
    ensures FamilyOf("DIVU") == EaRegister(0x80C0) && '.' !in "DIVU"
    ensures FamilyOf("DIVS") == EaRegister(0x81C0) && '.' !in "DIVS"
    ensures FamilyOf("MULU") == EaRegister(0xC0C0) && '.' !in "MULU"
    ensures FamilyOf("MULS") == EaRegister(0xC1C0) && '.' !in "MULS"
  {
  }

  lemma BitFieldNames()
    ensures FamilyOf("BTST") == BitField(0x0000) && '.' !in "BTST"
    ensures FamilyOf("BCHG") == BitField(0x0040) && '.' !in "BCHG"
    ensures FamilyOf("BCLR") == BitField(0x0080) && '.' !in "BCLR"
    ensures FamilyOf("BSET") == BitField(0x00C0) && '.' !in "BSET"
  {
  }

  lemma ImmediateToNames()
    ensures FamilyOf("ADDI") == ImmediateTo(0x0600) && '.' !in "ADDI"
    ensures FamilyOf("SUBI") == ImmediateTo(0x0400) && '.' !in "SUBI"
    ensures FamilyOf("ANDI") == ImmediateTo(0x0200) && '.' !in "ANDI"
    ensures FamilyOf("ORI") == ImmediateTo(0x0000) && '.' !in "ORI"
    ensures FamilyOf("EORI") == ImmediateTo(0x0A00) && '.' !in "EORI"
    ensures FamilyOf("CMPI") == ImmediateTo(0x0C00) && '.' !in "CMPI"
  {
  }

  lemma DirectedNames()
    ensures FamilyOf("OR") == Directed(0x8000) && '.' !in "OR"
    ensures FamilyOf("AND") == Directed(0xC000) && '.' !in "AND"
    ensures FamilyOf("ADD") == Directed(0xD000) && '.' !in "ADD"
    ensures FamilyOf("SUB") == Directed(0x9000) && '.' !in "SUB"
    ensures FamilyOf("EOR") == Directed(0xB000) && '.' !in "EOR"
  {
  }

  lemma DecimalNames()
    ensures FamilyOf("SBCD") == Decimal(0x8100) && '.' !in "SBCD"
    ensures FamilyOf("ABCD") == Decimal(0xC100) && '.' !in "ABCD"
  {
  }

  lemma ExactlyNames()
    ensures FamilyOf("NOP") == Exactly(0x4E71) && '.' !in "NOP"
    ensures FamilyOf("RTS") == Exactly(0x4E75) && '.' !in "RTS"
    ensures FamilyOf("STOP") == Exactly(0x4E72) && '.' !in "STOP"
    ensures FamilyOf("TRAPV") == Exactly(0x4E76) && '.' !in "TRAPV"
  {
    hide ShortFamily, LongFamily;
    ShortExactlyNames();
    LongExactlyNames();
  }

  lemma ShortExactlyNames()
    ensures ShortFamily("NOP") == Exactly(0x4E71) && ShortFamily("RTS") == Exactly(0x4E75)
  {
  }

  lemma LongExactlyNames()
    ensures LongFamily("STOP") == Exactly(0x4E72) && LongFamily("TRAPV") == Exactly(0x4E76)
  {
  }

  lemma AddressToNames()
    ensures FamilyOf("ADD" + "A") == AddressTo(0xD000) && '.' !in "ADD"
    ensures FamilyOf("SUB" + "A") == AddressTo(0x9000) && '.' !in "SUB"
    ensures FamilyOf("CMP" + "A") == AddressTo(0xB000) && '.' !in "CMP"
  {
    assert "ADD" + "A" == "ADDA" && "SUB" + "A" == "SUBA" && "CMP" + "A" == "CMPA";
  }

  // ---- the table ----

  lemma RejectedIsNotDisplayed(fault: Fault, os: seq<Operand>, address: uint32)
    ensures !Displays(Rejected(fault), os, address)
  {
    if Displays(Rejected(fault), os, address) {
      DisplaysOne(Rejected(fault), Reject(fault), os, address);
      assert false;
    }
  }

  predicate Assembles(d: Decoder, op: word, os: seq<Operand>, address: uint32) {
    OpcodeFor(FormOf(d, op).mnemonic, os, address)
    == if d != SHIFT then op else if RegX(op) <= 3 then op & 0xFFE7 else op & 0xF9FF
  }

  lemma SizedGroupAssembles(d: Decoder, op: word, os: seq<Operand>, address: uint32)
    requires d in {CLR, NEG, NEGX, NOT, TST}
    requires AtHome(d, op) && Displays(FormOf(d, op), os, address)
    ensures Assembles(d, op, os, address)
  {
    hide FamilyOf, OpcodeFor, Displays, SizeName, SizeField, EaForm;
    SizedEaNames();
    EaFormMnemonics(op);
    match d
    case CLR => SizedEaAssembles("CLR", 0x4200, op, os, address);
    case NEG => SizedEaAssembles("NEG", 0x4400, op, os, address);
    case NEGX => SizedEaAssembles("NEGX", 0x4000, op, os, address);
    case NOT => SizedEaAssembles("NOT", 0x4600, op, os, address);
    case TST => SizedEaAssembles("TST", 0x4A00, op, os, address);
  }

  lemma PlainGroupAssembles(d: Decoder, op: word, os: seq<Operand>, address: uint32)
    requires d in {JSR, JMP, PEA}
    requires AtHome(d, op) && Displays(FormOf(d, op), os, address)
    ensures Assembles(d, op, os, address)
  {
    hide FamilyOf, OpcodeFor, Displays, SizeName, SizeField, EaForm;
    PlainEaNames();
    EaFormMnemonics(op);
    match d
    case JSR => PlainEaAssembles("JSR", 0x4E80, op, os, address);
    case JMP => PlainEaAssembles("JMP", 0x4EC0, op, os, address);
    case PEA => PlainEaAssembles("PEA", 0x4840, op, os, address);
  }

  lemma EaFormMnemonics(op: word)
    ensures forall mn: string :: EaForm(mn, op).mnemonic == mn
  {
  }

  lemma EaRegisterGroupAssembles(d: Decoder, op: word, os: seq<Operand>, address: uint32)
    requires d in {LEA, DIVU, DIVS, MULU, MULS}
    requires AtHome(d, op) && Displays(FormOf(d, op), os, address)
    ensures Assembles(d, op, os, address)
  {
    hide FamilyOf, OpcodeFor, Displays, RegisterSlot, SourceEa, PreDecrementOperand;
    EaRegisterNames();
    match d
    case LEA => EaRegisterAssembles("LEA", 0x41C0, AddressRegister, op, os, address);
    case DIVU => EaRegisterAssembles("DIVU", 0x80C0, DataRegister, op, os, address);
    case DIVS => EaRegisterAssembles("DIVS", 0x81C0, DataRegister, op, os, address);
    case MULU => EaRegisterAssembles("MULU", 0xC0C0, DataRegister, op, os, address);
    case MULS => EaRegisterAssembles("MULS", 0xC1C0, DataRegister, op, os, address);
  }

  lemma DecimalGroupAssembles(d: Decoder, op: word, os: seq<Operand>, address: uint32)
    requires d in {SBCD, ABCD}
    requires AtHome(d, op) && Displays(FormOf(d, op), os, address)
    ensures Assembles(d, op, os, address)
  {
    hide FamilyOf, OpcodeFor, Displays, RegisterSlot, SourceEa, PreDecrementOperand;
    DecimalNames();
    match d
    case SBCD => DecimalAssembles("SBCD", 0x8100, op, os, address);
    case ABCD => DecimalAssembles("ABCD", 0xC100, op, os, address);
  }

  lemma TestGroupAssembles(d: Decoder, op: word, os: seq<Operand>, address: uint32)
    requires d in {BTST, BCHG}
    requires AtHome(d, op) && Displays(FormOf(d, op), os, address)
    ensures Assembles(d, op, os, address)
  {
    hide FamilyOf, OpcodeFor, Displays, RegisterSlot, SourceEa, Direction;
    BitFieldNames();
    match d
    case BTST => BitsAssemble("BTST", 0x0000, op, os, address);
    case BCHG => BitsAssemble("BCHG", 0x0040, op, os, address);
  }

  lemma ClearGroupAssembles(d: Decoder, op: word, os: seq<Operand>, address: uint32)
    requires d in {BCLR, BSET}
    requires AtHome(d, op) && Displays(FormOf(d, op), os, address)
    ensures Assembles(d, op, os, address)
  {
    hide FamilyOf, OpcodeFor, Displays, RegisterSlot, SourceEa, Direction;
    BitFieldNames();
    match d
    case BCLR => BitsAssemble("BCLR", 0x0080, op, os, address);
    case BSET => BitsAssemble("BSET", 0x00C0, op, os, address);
  }

  lemma SizedImmediateAssembles(name: string, code: word, long: bool, op: word, os: seq<Operand>, address: uint32)
    requires '.' !in name && FamilyOf(name) == ImmediateTo(code) && op & 0xFF00 == code
    requires Displays(ImmediateForm(name, op, long), os, address)
    ensures OpcodeFor(ImmediateForm(name, op, long).mnemonic, os, address) == op
  {
    hide FamilyOf, OpcodeFor, Displays, SizeField;
    if SizeField(op) == 3 {
      RejectedIsNotDisplayed(UnknownSize(name, 3), os, address);
      assert false;
    } else {
      ImmediateAssembles(name, code, op, long, os, address);
    }
  }

  lemma ImmediateFamilyAssembles(d: Decoder, op: word, os: seq<Operand>, address: uint32)
    requires d in {ADDI, SUBI, ANDI, ORI, EORI, CMPI}
    requires AtHome(d, op) && Displays(FormOf(d, op), os, address)
    ensures Assembles(d, op, os, address)
  {
    hide FamilyOf, OpcodeFor, Displays, ImmediateForm;
    ImmediateToNames();
    match d
    case ADDI => SizedImmediateAssembles("ADDI", 0x0600, true, op, os, address);
    case SUBI => SizedImmediateAssembles("SUBI", 0x0400, true, op, os, address);
    case ANDI => SizedImmediateAssembles("ANDI", 0x0200, false, op, os, address);
    case ORI => SizedImmediateAssembles("ORI", 0x0000, false, op, os, address);
    case EORI => SizedImmediateAssembles("EORI", 0x0A00, false, op, os, address);
    case CMPI => SizedImmediateAssembles("CMPI", 0x0C00, false, op, os, address);
  }

  lemma SizedDirectedAssembles(name: string, code: word, op: word, os: seq<Operand>, address: uint32)
    requires '.' !in name && FamilyOf(name) == Directed(code) && op & 0xF000 == code
    requires Displays(DirectedForm(name, op), os, address)
    ensures OpcodeFor(DirectedForm(name, op).mnemonic, os, address) == op
  {
    hide FamilyOf, OpcodeFor, Displays, SizeField;
    if SizeField(op) == 3 {
      RejectedIsNotDisplayed(UnknownSize(name, 3), os, address);
      assert false;
    } else {
      DirectedAssembles(name, code, op, os, address);
    }
  }

  lemma ArithmeticAssembles(name: string, code: word, op: word, os: seq<Operand>, address: uint32)
    requires '.' !in name && FamilyOf(name) == Directed(code) && FamilyOf(name + "A") == AddressTo(code)
    requires op & 0xF000 == code && Displays(ArithmeticForm(name, op), os, address)
    ensures OpcodeFor(ArithmeticForm(name, op).mnemonic, os, address) == op
  {
    hide FamilyOf, OpcodeFor, Displays, OpMode, AddressForm, DirectedForm;
    if OpMode(op) == 3 || OpMode(op) == 7 {
      AddressAssembles(name, code, op, os, address);
    } else {
      SizedDirectedAssembles(name, code, op, os, address);
    }
  }

  lemma CompareGroupAssembles(op: word, os: seq<Operand>, address: uint32)
    requires op & 0xF000 == 0xB000 && Displays(CmpForm(op), os, address)
    ensures OpcodeFor(CmpForm(op).mnemonic, os, address) == op
  {
    hide FamilyOf, OpcodeFor, Displays, OpMode, IsCmpm, AddressForm, DirectedForm, PostIncrementOperand;
    AddressToNames();
    DirectedNames();
    if IsCmpm(op) {
      CmpmAssembles(op, os, address);
    } else if OpMode(op) == 3 || OpMode(op) == 7 {
      AddressAssembles("CMP", 0xB000, op, os, address);
    } else if OpMode(op) >= 4 {
      SizedDirectedAssembles("EOR", 0xB000, op, os, address);
    } else {
      CompareAssembles(op, os, address);
    }
  }

  lemma BinaryAssembles(d: Decoder, op: word, os: seq<Operand>, address: uint32)
    requires d in {OR, AND, ADD, SUB, CMP}
    requires AtHome(d, op) && Displays(FormOf(d, op), os, address)
    ensures Assembles(d, op, os, address)
  {
    hide FamilyOf, OpcodeFor, Displays, DirectedForm, ArithmeticForm, CmpForm;
    DirectedNames();
    AddressToNames();
    match d
    case OR => SizedDirectedAssembles("OR", 0x8000, op, os, address);
    case AND => SizedDirectedAssembles("AND", 0xC000, op, os, address);
    case ADD => ArithmeticAssembles("ADD", 0xD000, op, os, address);
    case SUB => ArithmeticAssembles("SUB", 0x9000, op, os, address);
    case CMP => CompareGroupAssembles(op, os, address);
  }

  lemma MoveFamilyAssembles(op: word, os: seq<Operand>, address: uint32)
    requires op & 0xF000 in {0x1000, 0x2000, 0x3000} && Displays(MoveForm(op), os, address)
    ensures OpcodeFor(MoveForm(op).mnemonic, os, address) == op
  {
    hide OpcodeFor, Displays, OpMode, MoveForm;
    if OpMode(op) != 1 {
      MoveAssembles(op, os, address);
    } else {
      ByteMoveaIsNotDisplayed(op, os, address);
      MoveaAssembles(op, os, address);
    }
  }

  lemma ByteMoveaIsNotDisplayed(op: word, os: seq<Operand>, address: uint32)
    requires OpMode(op) == 1 && Displays(MoveForm(op), os, address)
    ensures MoveSizeField(op) != 1
  {
    hide Displays, MoveSizeField, OpMode, RegisterSlot;
    if MoveSizeField(op) == 1 {
      DisplaysTwo(MoveForm(op), MoveForm(op).slots[0], Reject(ByteMovea), os, address);
      assert false;
    }
  }

  lemma OpcodeOnlyAssembles(d: Decoder, op: word, os: seq<Operand>, address: uint32)
    requires d in {NOP, RTS, STOP, TRAPV, TRAP, SWAP, MOVEQ}
    requires AtHome(d, op) && Displays(FormOf(d, op), os, address)
    ensures Assembles(d, op, os, address)
  {
    hide FamilyOf, OpcodeFor, Displays, CountOperand, QuickOperand, RegisterSlot;
    ExactlyNames();
    match d
    case NOP => ExactAssembles("NOP", op, os, address);
    case RTS => ExactAssembles("RTS", op, os, address);
    case STOP => ExactAssembles("STOP", op, os, address);
    case TRAPV => ExactAssembles("TRAPV", op, os, address);
    case TRAP => TrapAssembles(op, os, address);
    case SWAP => SwapAssembles(op, os, address);
    case MOVEQ => QuickAssembles(op, os, address);
  }

  lemma ShiftGroupAssembles(op: word, os: seq<Operand>, address: uint32)
    requires op & 0xF000 == 0xE000 && Displays(ShiftForm(op), os, address)
    ensures OpcodeFor(ShiftForm(op).mnemonic, os, address) == if RegX(op) <= 3 then op & 0xFFE7 else op & 0xF9FF
  {
    hide OpcodeFor, Displays, ShiftForm, RegX;
    if RegX(op) <= 3 {
      RegisterShiftAssembles(op, os, address);
    } else {
      MemoryShiftAssembles(op, os, address);
    }
  }

  lemma OtherAssembles(d: Decoder, op: word, os: seq<Operand>, address: uint32)
    requires d in {MOVE, MOVEM, BXX, SHIFT}
    requires AtHome(d, op) && Displays(FormOf(d, op), os, address)
    ensures Assembles(d, op, os, address)
  {
    hide OpcodeFor, Displays, MoveForm, MovemForm, BranchForm, ShiftForm, RegX, BcdForm, DirectedForm, ArithmeticForm,
      CmpForm, BitForm, ImmediateForm, EaForm, EaToRegisterForm, RegisterSlot, CountOperand, QuickOperand, SizeName;
    match d
    case MOVE => MoveFamilyAssembles(op, os, address);
    case MOVEM =>
      MovemAssembles(op, os, address);
    case BXX => BranchAssembles(op, os, address);
    case SHIFT => ShiftGroupAssembles(op, os, address);
  }

  /** The assembler gives back the opcode of every instruction in the table, up to the ignored bits. */
  lemma OpcodeAssembles(op: word, os: seq<Operand>, address: uint32)
    requires Displays(FormFor(op), os, address)
    ensures OpcodeFor(FormFor(op).mnemonic, os, address) == CanonicalOpcode(op)
  {
    hide OpcodeFor, Displays, FormOf, Lookup, AtHome, DataWordForm, RegX;
    if Lookup(op).None? {
      DataWordMnemonic(op);
      DataWordAssembles(op, os, address);
    } else {
      var d := Lookup(op).value;
      LookupIsHome(op);
      if d in {CLR, NEG, NEGX, NOT, TST} {
        SizedGroupAssembles(d, op, os, address);
      } else if d in {JSR, JMP, PEA} {
        PlainGroupAssembles(d, op, os, address);
      } else if d in {LEA, DIVU, DIVS, MULU, MULS} {
        EaRegisterGroupAssembles(d, op, os, address);
      } else if d in {SBCD, ABCD} {
        DecimalGroupAssembles(d, op, os, address);
      } else if d in {BTST, BCHG} {
        TestGroupAssembles(d, op, os, address);
      } else if d in {BCLR, BSET} {
        ClearGroupAssembles(d, op, os, address);
      } else if d in {ADDI, SUBI, ANDI, ORI, EORI, CMPI} {
        ImmediateFamilyAssembles(d, op, os, address);
      } else if d in {OR, AND, ADD, SUB, CMP} {
        BinaryAssembles(d, op, os, address);
      } else if d in {MOVE, MOVEM, BXX, SHIFT} {
        OtherAssembles(d, op, os, address);
      } else {
        OpcodeOnlyDecoders(d);
        OpcodeOnlyAssembles(d, op, os, address);
      }
    }
  }

  lemma OpcodeOnlyDecoders(d: Decoder)
    requires d !in {CLR, NEG, NEGX, NOT, TST, JSR, JMP, PEA, LEA, DIVU, DIVS, MULU, MULS, SBCD, ABCD}
    requires d !in {BTST, BCHG, BCLR, BSET, ADDI, SUBI, ANDI, ORI, EORI, CMPI, OR, AND, ADD, SUB, CMP}
    requires d !in {MOVE, MOVEM, BXX, SHIFT}
    ensures d in {NOP, RTS, STOP, TRAPV, TRAP, SWAP, MOVEQ}
  {
  }

  lemma DataWordMnemonic(op: word)
    ensures DataWordForm(op).mnemonic == "DC.W"
  {
  }
}
