/** An encoder for every instruction, the inverse of decoding: opcode and structured operands determine
    the bytes, up to the bits the decoders ignore. */
module InstructionCodec {
  import opened Wrappers
  import opened Words
  import opened Text
  import opened Model
  import opened EffectiveAddresses
  import opened RegisterLists
  import opened MaskTexts
  import opened Forms
  import opened FormLaws
  import opened Dispatch
  import opened InstructionSet
  import opened OpcodeLaws
  import opened Assembler
  import opened MoveCodec
  import opened Slices

  // ---- register masks ----

  function MaskOf(registers: seq<string>): word {
    if registers == [] then 0
    else
      var front, bit := MaskOf(registers[..|registers| - 1]), BitOf(registers[|registers| - 1]);
      if 0 <= bit < 16 then SetBit(front, bit) else front
  }

  lemma NoBit(j: nat)
    requires j < 16
    ensures !HasBit(0, j)
  {
    hide Single;
  }

  lemma {:induction false} MaskOfHasBits(registers: seq<string>, j: nat)
    requires AllNames(registers) && j < 16
    ensures HasBit(MaskOf(registers), j) <==> j in BitsOf(registers)
  {
    hide HasBit, SetBit, BitOf, IsName;
    if registers == [] {
      NoBit(j);
    } else {
      var n := |registers| - 1;
      var front, last := registers[..n], registers[n];
      assert forall i :: 0 <= i < n ==> front[i] == registers[i];
      assert AllNames(front) && IsName(last);
      MaskOfHasBits(front, j);
      NameBit(last);
      if j == BitOf(last) {
        SetBitSame(MaskOf(front), j);
      } else {
        SetBitOther(MaskOf(front), BitOf(last), j);
      }
      assert registers[n] == last;
      BitsOfFront(registers, j);
    }
  }

  lemma NameBit(name: string)
    requires IsName(name)
    ensures 0 <= BitOf(name) < 16
  {
  }

  lemma BitsOfFront(registers: seq<string>, j: int)
    requires registers != []
    ensures var n := |registers| - 1;
            j in BitsOf(registers) <==> j in BitsOf(registers[..n]) || j == BitOf(registers[n])
  {
    hide BitOf;
    var n := |registers| - 1;
    var front := registers[..n];
    assert forall i :: 0 <= i < n ==> front[i] == registers[i];
    if j in BitsOf(registers) {
      var i :| 0 <= i <= n && BitOf(registers[i]) == j;
      assert i < n ==> BitOf(front[i]) == j;
    }
    if j in BitsOf(front) {
      var i :| 0 <= i < n && BitOf(front[i]) == j;
      assert BitOf(registers[i]) == j;
    }
  }

  lemma MaskOfRegisterNames(mask: word)
    ensures MaskOf(RegisterNames(mask)) == mask
  {
    hide HasBit, MaskOf, RegisterNames, BitsOf;
    CrossesMeaning(mask);
    BitsOfRegisterNames(mask);
    forall j: nat | j < 16
      ensures HasBit(MaskOf(RegisterNames(mask)), j) <==> HasBit(mask, j)
    {
      MaskOfHasBits(RegisterNames(mask), j);
    }
    MaskOfBits(MaskOf(RegisterNames(mask)), mask);
  }

  // ---- slots ----

  /** The bytes of an immediate field. */
  function DataBytes(value: uint32, size: nat): seq<byte> {
    if size == 2 && value < 0x1_0000 then NumberBytes(value) else LongBytes(value)
  }

  /** The displacement field of a branch that ends `end` bytes behind `address`. */
  function TargetBytes(target: uint32, address: uint32, end: nat, width: nat): seq<byte> {
    var d := target - address - end;
    if width == 2 then NumberBytes(d % 0x1_0000) else if width == 4 then LongBytes(d % 0x1_0000_0000) else []
  }

  /** The bytes of a slot, from its operand. */
  function EncodeSlot(s: Slot, o: Operand, address: uint32, end: nat): seq<byte> {
    match s
    case Ea(_, _, size) =>
      if o.effectiveAddress.Some? && WellFormedEa(o.effectiveAddress.value, size) then
        EaField(o.effectiveAddress.value, size)
      else []
    case Data(size, _) => if o.immediate.Some? then DataBytes(o.immediate.value.value, size) else []
    case BitNumber(_) =>
      if o.immediate.Some? && o.immediate.value.value < 0x100 then [0, ByteOf(o.immediate.value.value)] else []
    case RegisterMask(_) => WordBytes(MaskOf(o.registerList))
    case Branch(width, _, _) =>
      if o.branchTarget.Some? then TargetBytes(o.branchTarget.value, address, end, width) else []
    case _ => []
  }

  /** A field with the bits cleared that its decoder ignores. */
  function CanonicalField(s: Slot, field: seq<byte>): (r: seq<byte>)
    ensures |r| == |field|
  {
    match s
    case Ea(mode, reg, size) => Canonical(field, mode, reg, size)
    case BitNumber(_) => if |field| == 2 then [0, field[1]] else field
    case _ => field
  }

  lemma EaSlotEncodes(mode: bv3, reg: regnum, size: nat, address: uint32, end: nat, field: seq<byte>)
    requires size in {1, 2, 4} && EaFault(mode, reg, size).None? && |field| == EaWidth(mode, reg, size)
    ensures EncodeSlot(Ea(mode, reg, size), ReadSlot(Ea(mode, reg, size), address, end, field), address, end)
            == Canonical(field, mode, reg, size)
  {
    hide DecodeAddressingMode, EaFault, EaWidth, EaOf, WellFormedEa, EaField, Canonical;
    DecodesAsEaOf(field, mode, reg, size);
    EaEncodesDecoded(field, mode, reg, size);
  }

  lemma WordDataEncodes(field: seq<byte>)
    requires |field| == 2
    ensures DataBytes(WordAt(field, 0) as int, 2) == field
  {
    hide WordAt, NumberBytes;
    FieldNumber(field);
  }

  lemma LongDataEncodes(field: seq<byte>)
    requires |field| == 4
    ensures DataBytes(LongAt(field, 0), 4) == field
  {
    hide LongAt, LongBytes;
    LongBytesInverse(field);
  }

  lemma BitNumberEncodes(field: seq<byte>)
    requires |field| == 2
    ensures LowByte(WordAt(field, 0)) as int < 0x100 && ByteOf(LowByte(WordAt(field, 0)) as int) == field[1]
  {
    hide LowByte, WordAt, ByteOf;
    LowByteOfField(field);
    ByteOfValue(field[1]);
  }

  lemma MaskEncodes(field: seq<byte>)
    requires |field| == 2
    ensures WordBytes(MaskOf(RegisterNames(WordAt(field, 0)))) == field
  {
    hide MaskOf, RegisterNames, Word, WordBytes;
    MaskOfRegisterNames(WordAt(field, 0));
    WordBytesInverse(field[0], field[1]);
  }

  lemma LongResidue(d: int, q: int)
    ensures (d - 0x1_0000_0000 * q) % 0x1_0000_0000 == d % 0x1_0000_0000
  {
  }

  lemma WordResidue(d: int, q: int)
    ensures (d - 0x1_0000 * q) % 0x1_0000 == d % 0x1_0000
  {
  }

  /** Residues of a branch distance, mod 2^32 and mod 2^16. */
  lemma DistanceResidue(address: uint32, end: nat, d: int)
    ensures (Advance(address, end + d) - address - end) % 0x1_0000_0000 == d % 0x1_0000_0000
    ensures (Advance(address, end + d) - address - end) % 0x1_0000 == d % 0x1_0000
  {
    var q := (address + end + d) / 0x1_0000_0000;
    var distance := Advance(address, end + d) - address - end;
    assert distance == d - 0x1_0000_0000 * q;
    hide Advance;
    LongResidue(d, q);
    WordResidue(d, 0x1_0000 * q);
  }

  lemma BranchEncodes(width: nat, short: byte, address: uint32, end: nat, field: seq<byte>)
    requires width in {0, 2, 4} && |field| == width
    ensures TargetBytes(Advance(address, end + BranchDisplacement(width, short, field)), address, end, width) == field
  {
    hide WordAt, LongAt, NumberBytes, LongBytes, Advance;
    DistanceResidue(address, end, BranchDisplacement(width, short, field));
    if width == 2 {
      FieldNumber(field);
    } else if width == 4 {
      LongBytesInverse(field);
    }
  }

  /** Encoding the operand of a slot gives back its field. */
  lemma SlotEncodes(s: Slot, address: uint32, end: nat, field: seq<byte>)
    requires SlotOk(s) && SlotFault(s).None? && |field| == SlotWidth(s)
    ensures EncodeSlot(s, ReadSlot(s, address, end, field), address, end) == CanonicalField(s, field)
  {
    hide DecodeAddressingMode, EaFault, EaWidth, EaContext, WordAt, LongAt, LowByte, WellFormedEa, EaField, Canonical,
      DataBytes, TargetBytes, MaskOf, RegisterNames, RegisterListText, SignedImmediateValue, FormatImmediate,
      FormatBranchTarget, Dec, Advance, BranchDisplacement, ByteOf, WordBytes;
    match s
    case Ea(mode, reg, size) => EaSlotEncodes(mode, reg, size, address, end, field);
    case Data(size, _) =>
      if size == 2 {
        WordDataEncodes(field);
      } else {
        LongDataEncodes(field);
      }
    case BitNumber(_) => BitNumberEncodes(field);
    case RegisterMask(_) => MaskEncodes(field);
    case Branch(width, short, _) => BranchEncodes(width, short, address, end, field);
    case _ =>
  }

  // ---- instructions ----

  function EncodeSlots(slots: seq<Slot>, os: seq<Operand>, address: uint32, offset: nat): seq<byte> {
    if slots == [] || os == [] then []
    else
      var end := offset + SlotWidth(slots[0]);
      EncodeSlot(slots[0], os[0], address, end) + EncodeSlots(slots[1..], os[1..], address, end)
  }

  /** The fields of a walk, one behind the other, with the ignored bits cleared. */
  function CanonicalFields(slots: seq<Slot>, data: seq<byte>, offset: nat): (r: seq<byte>)
    requires offset <= |data| && Walk(slots, |data|, offset).Fits?
    ensures |r| == Walk(slots, |data|, offset).end - offset
  {
    if slots == [] then []
    else
      var end := offset + SlotWidth(slots[0]);
      CanonicalField(slots[0], data[offset..end]) + CanonicalFields(slots[1..], data, end)
  }

  lemma {:induction false} SlotsEncode(slots: seq<Slot>, address: uint32, data: seq<byte>, offset: nat)
    requires forall s <- slots :: SlotOk(s)
    requires offset <= |data| && Walk(slots, |data|, offset).Fits?
    ensures EncodeSlots(slots, ReadSlots(slots, address, data, offset), address, offset)
            == CanonicalFields(slots, data, offset)
  {
    hide ReadSlot, EncodeSlot, CanonicalField, EaFault, EaWidth, EaContext;
    if slots != [] {
      var end := offset + SlotWidth(slots[0]);
      assert slots[0] in slots;
      SlotEncodes(slots[0], address, end, data[offset..end]);
      SlotsEncode(slots[1..], address, data, end);
    }
  }

  /** The instruction with this opcode and these operands at this address. */
  function Encode(op: word, address: uint32, operands: seq<Operand>): seq<byte> {
    var f := FormFor(op);
    WordBytes(op) + EncodeSlots(f.slots, Ordered(f.swapped, operands), address, 2)
  }

  /** The bytes of an instruction with the ignored bits cleared. */
  function CanonicalBytes(bytes: seq<byte>): (r: seq<byte>)
    requires |bytes| >= 2 && Walk(FormFor(WordAt(bytes, 0)).slots, |bytes|, 2).Fits?
  {
    bytes[..2] + CanonicalFields(FormFor(WordAt(bytes, 0)).slots, bytes, 2)
  }

  /** Slice decoding in terms of the walk. */
  lemma SliceIsWalk(data: seq<byte>, address: uint32, opts: Options)
    requires |data| >= 2
    ensures var f := FormFor(WordAt(data, 0));
            var w := Walk(f.slots, |data|, 2);
            && (Slice(data, address, opts).Decoding? <==> w.Fits?)
            && (w.Fits? ==>
                  && 2 <= w.end <= |data|
                  && var os := Ordered(f.swapped, ReadSlots(f.slots, address, data, 2));
                  Slice(data, address, opts)
                  == Decoding(Finalized(Assemble(address, WordAt(data, 0), data[..w.end], f.mnemonic, os), opts)))
  {
    hide FormFor, ReadSlots, Finalized, Assemble;
    WalkBounds(FormFor(WordAt(data, 0)).slots, |data|, 2);
  }

  /** A record over other bytes differs in the opcode, the bytes and their words only. */
  lemma AssembledOver(address: uint32, o1: word, o2: word, b1: seq<byte>, b2: seq<byte>, mnemonic: string,
                      os: seq<Operand>, opts: Options)
    requires 2 <= |b1| == |b2|
    ensures var d := Finalized(Assemble(address, o1, b1, mnemonic, os), opts);
            && Finalized(Assemble(address, o2, b2, mnemonic, os), opts)
               == d.(opcode := o2, bytes := b2, extensionWords := WordsOf(b2[2..]))
            && d.bytes == b1 && d.opcode == o1 && d.metadata.operands == os && d.mnemonic == mnemonic
            && d.address == address
  {
    hide Join, Texts, Cut, FirstTarget, AllImmediates, WordsOf, Rendered;
  }

  /** Opcode, address and structured operands of a decoded instruction, of whatever kind, determine its
      bytes: encoding them gives the bytes back, up to the bits the decoder ignores. */
  lemma EncodesDecoded(data: seq<byte>, address: uint32, opts: Options)
    requires Slice(data, address, opts).Decoding?
    ensures var d := Slice(data, address, opts).inst;
            && |d.bytes| >= 2 && WordAt(d.bytes, 0) == d.opcode
            && Walk(FormFor(d.opcode).slots, |d.bytes|, 2).Fits?
            && Encode(d.opcode, address, d.metadata.operands) == CanonicalBytes(d.bytes)
  {
    hide FormFor, Slice, Finalized, Assemble, Ordered, ReadSlots, CanonicalFields, EncodeSlots, Word, WordBytes;
    SliceHasOpcode(data, address, opts);
    SliceIsWalk(data, address, opts);
    var op, f := WordAt(data, 0), FormFor(WordAt(data, 0));
    var os := ReadSlots(f.slots, address, data, 2);
    WalkBounds(f.slots, |data|, 2);
    var end := Walk(f.slots, |data|, 2).end;
    WalkThreshold(f.slots, |data|, 2);
    WalkThreshold(f.slots, end, 2);
    SlotsEncode(f.slots, address, data, 2);
    CanonicalOfFront(f.slots, data, 2, end);
    OrderedTwice(f.swapped, os);
    WordBytesInverse(data[0], data[1]);
    AssembledOver(address, op, op, data[..end], data[..end], f.mnemonic, Ordered(f.swapped, os), opts);
  }

  lemma OrderedTwice(swapped: bool, os: seq<Operand>)
    ensures Ordered(swapped, Ordered(swapped, os)) == os
  {
  }

  lemma {:induction false} CanonicalOfFront(slots: seq<Slot>, data: seq<byte>, offset: nat, n: nat)
    requires offset <= n <= |data|
    requires Walk(slots, |data|, offset).Fits? && Walk(slots, n, offset).Fits?
    ensures CanonicalFields(slots, data[..n], offset) == CanonicalFields(slots, data, offset)
  {
    hide CanonicalField, EaFault, EaWidth, EaContext;
    if slots != [] {
      var end := offset + SlotWidth(slots[0]);
      CanonicalOfFront(slots[1..], data, end, n);
      assert data[..n][offset..end] == data[offset..end];
    }
  }

  // ---- the ignored bits ----

  lemma IndexIgnores(hi: byte, lo: byte)
    ensures DecodeIndexWord(Word(hi & 0xF8, lo)) == DecodeIndexWord(Word(hi, lo))
  {
    hide Word;
    IndexBits(hi, lo);
    IndexBits(hi & 0xF8, lo);
    HighByteFields(hi);
  }

  lemma HighByteFields(hi: byte)
    ensures (hi & 0xF8) & 0x80 == hi & 0x80 && (hi & 0xF8) & 0x08 == hi & 0x08
    ensures ((hi & 0xF8) >> 4) & 0x7 == (hi >> 4) & 0x7
  {
  }

  /** Clearing the ignored bits of an address field changes nothing in what it denotes or prints. */
  lemma CanonicalEaDecodes(field: seq<byte>, mode: bv3, reg: regnum, size: nat)
    requires size in {1, 2, 4} && EaFault(mode, reg, size).None? && |field| == EaWidth(mode, reg, size)
    ensures DecodeAddressingMode(Canonical(field, mode, reg, size), mode, reg, size)
            == DecodeAddressingMode(field, mode, reg, size)
  {
    hide Hex, Dec, DecInt, Parenthesised, IndexText, FormatImmediate, Digit, LowByte, DecodeIndexWord, Word, LongAt,
      Signed, MeetsLayout, Immediate;
    if mode == 6 || (mode == 7 && reg == 3) {
      IndexIgnores(field[0], field[1]);
    } else if mode == 7 && reg == 4 && size == 1 {
      IndexBits(field[0], field[1]);
      IndexBits(0, field[1]);
    }
  }

  lemma CanonicalSlotReads(s: Slot, address: uint32, end: nat, field: seq<byte>)
    requires SlotOk(s) && SlotFault(s).None? && |field| == SlotWidth(s)
    ensures ReadSlot(s, address, end, CanonicalField(s, field)) == ReadSlot(s, address, end, field)
  {
    hide DecodeAddressingMode, EaFault, EaWidth, EaContext, Canonical, LowByte, Word, LongAt, Immediate,
      FormatImmediate, Dec, RegisterListText, RegisterNames, FormatBranchTarget, Advance;
    match s
    case Ea(mode, reg, size) => CanonicalEaDecodes(field, mode, reg, size);
    case BitNumber(_) =>
      IndexBits(field[0], field[1]);
      IndexBits(0, field[1]);
    case _ =>
  }

  /** Reading canonical fields gives the same operands. */
  lemma {:induction false} CanonicalSlotsRead(slots: seq<Slot>, address: uint32, data: seq<byte>, clean: seq<byte>,
                                              offset: nat)
    requires forall s <- slots :: SlotOk(s)
    requires offset <= |data| && Walk(slots, |data|, offset).Fits?
    requires offset <= |clean| && Walk(slots, |clean|, offset).Fits?
    requires offset <= Walk(slots, |data|, offset).end <= |clean|
    requires clean[offset..Walk(slots, |data|, offset).end] == CanonicalFields(slots, data, offset)
    ensures ReadSlots(slots, address, clean, offset) == ReadSlots(slots, address, data, offset)
  {
    hide ReadSlot, CanonicalField, EaFault, EaWidth, EaContext;
    if slots != [] {
      var end := offset + SlotWidth(slots[0]);
      var last := Walk(slots, |data|, offset).end;
      assert slots[0] in slots;
      WalkBounds(slots[1..], |data|, end);
      assert clean[offset..last][..end - offset] == clean[offset..end];
      assert clean[offset..last][end - offset..] == clean[end..last];
      CanonicalSlotReads(slots[0], address, end, data[offset..end]);
      CanonicalSlotsRead(slots[1..], address, data, clean, end);
    }
  }

  /** Clean fields behind an opcode of the same form decode to the same instruction: same size, names,
      operands, text and metadata, whatever follows. */
  lemma DecodesUnder(data: seq<byte>, address: uint32, opts: Options, op2: word, tail: seq<byte>)
    requires Slice(data, address, opts).Decoding? && |data| >= 2 && FormFor(op2) == FormFor(WordAt(data, 0))
    ensures var d := Slice(data, address, opts).inst;
            && 2 <= |d.bytes| && Walk(FormFor(op2).slots, |d.bytes|, 2).Fits?
            && var code := WordBytes(op2) + CanonicalFields(FormFor(op2).slots, d.bytes, 2);
            var r := Slice(code + tail, address, opts);
            r.Decoding? && r.inst == d.(opcode := op2, bytes := code, extensionWords := WordsOf(code[2..]))
  {
    hide FormFor, Slice, Finalized, Assemble, Ordered, ReadSlots, CanonicalFields, Word, WordBytes, WordsOf;
    SliceIsWalk(data, address, opts);
    var op, f := WordAt(data, 0), FormFor(op2);
    WalkBounds(f.slots, |data|, 2);
    var end := Walk(f.slots, |data|, 2).end;
    WalkThreshold(f.slots, |data|, 2);
    WalkThreshold(f.slots, end, 2);
    CanonicalOfFront(f.slots, data, 2, end);
    var os := Ordered(f.swapped, ReadSlots(f.slots, address, data, 2));
    AssembledOver(address, op, op2, data[..end], data[..end], f.mnemonic, os, opts);
    var code := WordBytes(op2) + CanonicalFields(f.slots, data, 2);
    WalkThreshold(f.slots, |code + tail|, 2);
    WordOfWordBytes(op2);
    assert WordAt(code + tail, 0) == WordAt(WordBytes(op2), 0);
    assert (code + tail)[2..end] == CanonicalFields(f.slots, data, 2);
    assert (code + tail)[..end] == code;
    CanonicalSlotsRead(f.slots, address, data, code + tail, 2);
    SliceIsWalk(code + tail, address, opts);
    AssembledOver(address, op, op2, data[..end], code, f.mnemonic, os, opts);
  }

  /** Decoding what was encoded gives the instruction back, whatever follows it. */
  lemma DecodesEncoded(data: seq<byte>, address: uint32, opts: Options, tail: seq<byte>)
    requires Slice(data, address, opts).Decoding?
    ensures var d := Slice(data, address, opts).inst;
            var code := Encode(d.opcode, address, d.metadata.operands);
            var r := Slice(code + tail, address, opts);
            && r.Decoding? && r.inst.bytes == code
            && r.inst == d.(bytes := code, extensionWords := WordsOf(code[2..]))
  {
    hide FormFor, Slice, CanonicalFields, Encode, Word, WordBytes, WordsOf;
    SliceHasOpcode(data, address, opts);
    EncodesDecoded(data, address, opts);
    OpcodeOfSlice(data, address, opts);
    DecodesUnder(data, address, opts, WordAt(data, 0), tail);
    var bytes := Slice(data, address, opts).inst.bytes;
    WordBytesInverse(bytes[0], bytes[1]);
    assert bytes[..2] == [bytes[0], bytes[1]];
  }

  lemma OpcodeOfSlice(data: seq<byte>, address: uint32, opts: Options)
    requires Slice(data, address, opts).Decoding? && |data| >= 2
    ensures Slice(data, address, opts).inst.opcode == WordAt(data, 0)
  {
    hide FormFor, ReadSlots, Join, Cut, WordsOf;
  }

  // ---- from mnemonic and operands ----

  lemma ShiftFormIgnores(op: word)
    ensures RegX(op) <= 3 ==> ShiftForm(op & 0xFFE7) == ShiftForm(op)
    ensures RegX(op) > 3 ==> ShiftForm(op & 0xF9FF) == ShiftForm(op)
  {
    hide ShiftName, SizeName, RegisterOperand, CountOperand;
  }

  lemma ShiftNibble(op: word)
    ensures Lookup(op) == Some(SHIFT) <==> op & 0xF000 == 0xE000
  {
    hide FirstMatch;
    if Lookup(op) == Some(SHIFT) {
      LookupIsHome(op);
    }
    if op & 0xF000 == 0xE000 {
      var bucket := [Pattern(0xF000, 0xE000, SHIFT)];
      assert ((op >> 12) & 0xF) as bv4 == 14;
      assert HighNibble(op) == 14 && OPCODE_BUCKETS[14] == bucket;
      FirstMatchHead(bucket, op);
    }
  }

  lemma FormOfShift(op: word)
    requires Lookup(op) == Some(SHIFT)
    ensures FormFor(op) == ShiftForm(op)
  {
    hide Lookup, ShiftForm;
  }

  lemma NibbleKept(op: word)
    ensures (op & 0xFFE7) & 0xF000 == op & 0xF000 && (op & 0xF9FF) & 0xF000 == op & 0xF000
  {
  }

  lemma SameShift(op: word, c: word)
    requires Lookup(op) == Some(SHIFT) && Lookup(c) == Some(SHIFT) && ShiftForm(c) == ShiftForm(op)
    ensures FormFor(c) == FormFor(op)
  {
    hide Lookup, FormFor, ShiftForm;
    FormOfShift(op);
    FormOfShift(c);
  }

  lemma RegisterShiftOpcode(op: word, c: word)
    requires Lookup(op) == Some(SHIFT) && RegX(op) <= 3 && c == op & 0xFFE7
    ensures FormFor(c) == FormFor(op)
  {
    hide Lookup, ShiftForm, RegX, FormFor;
    ShiftNibble(op);
    NibbleKept(op);
    ShiftFormIgnores(op);
    ShiftNibble(c);
    SameShift(op, c);
  }

  lemma MemoryShiftOpcode(op: word, c: word)
    requires Lookup(op) == Some(SHIFT) && RegX(op) > 3 && c == op & 0xF9FF
    ensures FormFor(c) == FormFor(op)
  {
    hide Lookup, ShiftForm, RegX, FormFor;
    ShiftNibble(op);
    NibbleKept(op);
    ShiftFormIgnores(op);
    ShiftNibble(c);
    SameShift(op, c);
  }

  /** The ignored opcode bits change nothing in the form. */
  lemma CanonicalOpcodeForm(op: word)
    ensures FormFor(CanonicalOpcode(op)) == FormFor(op)
  {
    hide Lookup, FormFor, RegX;
    if Lookup(op) == Some(SHIFT) {
      if RegX(op) <= 3 {
        RegisterShiftOpcode(op, op & 0xFFE7);
      } else {
        MemoryShiftOpcode(op, op & 0xF9FF);
      }
    }
  }

  /** The bytes of an instruction with all ignored bits cleared, those of the opcode included. */
  function NormalBytes(bytes: seq<byte>): seq<byte>
    requires |bytes| >= 2 && Walk(FormFor(WordAt(bytes, 0)).slots, |bytes|, 2).Fits?
  {
    WordBytes(CanonicalOpcode(WordAt(bytes, 0))) + CanonicalFields(FormFor(WordAt(bytes, 0)).slots, bytes, 2)
  }

  /** The instruction with this mnemonic and these operands at this address. */
  function AssembleInstruction(mnemonic: string, operands: seq<Operand>, address: uint32): seq<byte> {
    Encode(OpcodeFor(mnemonic, operands, address), address, operands)
  }

  /** The opcode of a decoded instruction follows from its mnemonic and its operands. */
  lemma OpcodeOfDecoded(data: seq<byte>, address: uint32, opts: Options)
    requires Slice(data, address, opts).Decoding?
    ensures var d := Slice(data, address, opts).inst;
            OpcodeFor(d.mnemonic, d.metadata.operands, address) == CanonicalOpcode(d.opcode)
  {
    hide FormFor, Slice, Finalized, Assemble, Ordered, ReadSlots, OpcodeFor, CanonicalOpcode, ShowsAll;
    SliceHasOpcode(data, address, opts);
    SliceIsWalk(data, address, opts);
    var op, f := WordAt(data, 0), FormFor(WordAt(data, 0));
    var os := ReadSlots(f.slots, address, data, 2);
    var end := Walk(f.slots, |data|, 2).end;
    AssembledOver(address, op, op, data[..end], data[..end], f.mnemonic, Ordered(f.swapped, os), opts);
    SlotsShow(f.slots, address, data, 2);
    OrderedTwice(f.swapped, os);
    OpcodeAssembles(op, Ordered(f.swapped, os), address);
  }

  /** Assembling mnemonic and structured operands of a decoded instruction, of whatever kind, gives back its
      bytes, up to the bits the decoders ignore. */
  lemma AssemblesDecoded(data: seq<byte>, address: uint32, opts: Options)
    requires Slice(data, address, opts).Decoding?
    ensures var d := Slice(data, address, opts).inst;
            && |d.bytes| >= 2 && WordAt(d.bytes, 0) == d.opcode
            && Walk(FormFor(d.opcode).slots, |d.bytes|, 2).Fits?
            && AssembleInstruction(d.mnemonic, d.metadata.operands, address) == NormalBytes(d.bytes)
  {
    hide FormFor, Slice, EncodeSlots, CanonicalFields, OpcodeFor, CanonicalOpcode, Ordered, Word, WordBytes;
    EncodesDecoded(data, address, opts);
    OpcodeOfDecoded(data, address, opts);
    var d := Slice(data, address, opts).inst;
    CanonicalOpcodeForm(d.opcode);
    assert Encode(d.opcode, address, d.metadata.operands)[2..] == CanonicalBytes(d.bytes)[2..];
    var f := FormFor(d.opcode);
    assert CanonicalBytes(d.bytes)[2..] == CanonicalFields(f.slots, d.bytes, 2);
  }

  /** Disassembling what was assembled gives the instruction back, whatever follows it. */
  lemma DisassemblesAssembled(data: seq<byte>, address: uint32, opts: Options, tail: seq<byte>)
    requires Slice(data, address, opts).Decoding?
    ensures var d := Slice(data, address, opts).inst;
            var code := AssembleInstruction(d.mnemonic, d.metadata.operands, address);
            var r := Slice(code + tail, address, opts);
            && r.Decoding?
            && r.inst == d.(opcode := CanonicalOpcode(d.opcode), bytes := code, extensionWords := WordsOf(code[2..]))
  {
    hide FormFor, Slice, CanonicalFields, AssembleInstruction, CanonicalOpcode, Word, WordBytes, WordsOf;
    SliceHasOpcode(data, address, opts);
    AssemblesDecoded(data, address, opts);
    OpcodeOfSlice(data, address, opts);
    CanonicalOpcodeForm(WordAt(data, 0));
    DecodesUnder(data, address, opts, CanonicalOpcode(WordAt(data, 0)), tail);
  }

  /** Two decoded instructions at one address have the same mnemonic and operands exactly when their bytes
      agree up to the ignored bits. */
  lemma OperandsDetermineBytes(d1: seq<byte>, d2: seq<byte>, address: uint32)
    requires Slice(d1, address, None).Decoding? && Slice(d2, address, None).Decoding?
    ensures var a, b := Slice(d1, address, None).inst, Slice(d2, address, None).inst;
            && |a.bytes| >= 2 && Walk(FormFor(WordAt(a.bytes, 0)).slots, |a.bytes|, 2).Fits?
            && |b.bytes| >= 2 && Walk(FormFor(WordAt(b.bytes, 0)).slots, |b.bytes|, 2).Fits?
            && (a.mnemonic == b.mnemonic && a.metadata.operands == b.metadata.operands <==>
                NormalBytes(a.bytes) == NormalBytes(b.bytes))
  {
    hide FormFor, Slice, AssembleInstruction, NormalBytes;
    AssemblesDecoded(d1, address, None);
    AssemblesDecoded(d2, address, None);
    DisassemblesAssembled(d1, address, None, []);
    DisassemblesAssembled(d2, address, None, []);
    var a, b := Slice(d1, address, None).inst, Slice(d2, address, None).inst;
    if NormalBytes(a.bytes) == NormalBytes(b.bytes) {
      assert NormalBytes(a.bytes) + [] == NormalBytes(b.bytes) + [];
    }
  }
}
