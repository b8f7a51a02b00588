/** An encoder for effective addresses and MOVE instructions, the inverse of their decoders. */
module MoveCodec {
  import opened Wrappers
  import opened Words
  import opened Text
  import opened Model
  import opened EffectiveAddresses
  import opened Forms
  import opened InstructionSet
  import opened Dispatch
  import opened OpcodeLaws
  import opened Decoders
  import opened Slices

  // ---- effective addresses ----

  predicate WellFormedIndex(x: IndexRegister) {
    x.register.kind in {DataRegister, AddressRegister} && x.size in {"W", "L"}
  }

  function ImmediateRange(size: nat): nat {
    if size == 1 then 0x100 else if size == 2 then 0x1_0000 else 0x1_0000_0000
  }

  /** The structured addresses a 68000 operand of this size can have. */
  predicate WellFormedEa(ea: EffectiveAddress, size: nat) {
    var reg := ea.register;
    match ea.kind
    case DataRegisterDirect => ea == RegisterEa(DataRegisterDirect, 0, reg, DataRegister)
    case AddressRegisterDirect => ea == RegisterEa(AddressRegisterDirect, 1, reg, AddressRegister)
    case AddressIndirect => ea == RegisterEa(AddressIndirect, 2, reg, AddressRegister)
    case PostIncrement => ea == RegisterEa(PostIncrement, 3, reg, AddressRegister)
    case PreDecrement => ea == RegisterEa(PreDecrement, 4, reg, AddressRegister)
    case Displacement =>
      && ea.displacement.Some? && -0x8000 <= ea.displacement.value < 0x8000
      && ea == DisplacementEa(Displacement, 5, reg, Register(AddressRegister, reg), ea.displacement.value, None)
    case Index =>
      && ea.displacement.Some? && -0x80 <= ea.displacement.value < 0x80
      && ea.index.Some? && WellFormedIndex(ea.index.value)
      && ea == DisplacementEa(Index, 6, reg, Register(AddressRegister, reg), ea.displacement.value, ea.index)
    case AbsoluteShort =>
      ea.absoluteAddress.Some? && ea.absoluteAddress.value < 0x1_0000
      && ea == AbsoluteEa(AbsoluteShort, 0, ea.absoluteAddress.value)
    case AbsoluteLong =>
      ea.absoluteAddress.Some? && ea == AbsoluteEa(AbsoluteLong, 1, ea.absoluteAddress.value)
    case PCDisplacement =>
      && ea.displacement.Some? && -0x8000 <= ea.displacement.value < 0x8000
      && ea == DisplacementEa(PCDisplacement, 7, 2, Register(ProgramCounter, 0), ea.displacement.value, None)
    case PCIndex =>
      && ea.displacement.Some? && -0x80 <= ea.displacement.value < 0x80
      && ea.index.Some? && WellFormedIndex(ea.index.value)
      && ea == DisplacementEa(PCIndex, 7, 3, Register(ProgramCounter, 0), ea.displacement.value, ea.index)
    case ImmediateData =>
      && ea.immediate.Some? && ea.immediate.value.value < ImmediateRange(size)
      && ea == ImmediateEa(ea.immediate.value.value, size)
  }

  function LongBytes(n: uint32): (b: seq<byte>)
    ensures |b| == 4 && LongAt(b, 0) == n
  {
    var hi, lo := NumberBytes(n / 0x1_0000), NumberBytes(n % 0x1_0000);
    assert WordAt(hi + lo, 0) == WordAt(hi, 0) && WordAt(hi + lo, 2) == WordAt(lo, 0);
    hi + lo
  }

  /** High byte of a brief extension word; bits 10 to 8 are zero. */
  function IndexHighByte(x: IndexRegister): byte {
    (if x.register.kind == AddressRegister then 0x80 else 0)
    | (x.register.number as byte << 4)
    | (if x.size == "L" then 0x08 else 0)
  }

  function IndexBytes(x: IndexRegister, d: int): (b: seq<byte>)
    ensures |b| == 2
  {
    [IndexHighByte(x), ByteOf(d % 0x100)]
  }

  /** Extension words of an operand. */
  function EaField(ea: EffectiveAddress, size: nat): seq<byte>
    requires WellFormedEa(ea, size)
  {
    match ea.kind
    case Displacement => NumberBytes(ea.displacement.value % 0x1_0000)
    case PCDisplacement => NumberBytes(ea.displacement.value % 0x1_0000)
    case Index => IndexBytes(ea.index.value, ea.displacement.value)
    case PCIndex => IndexBytes(ea.index.value, ea.displacement.value)
    case AbsoluteShort => NumberBytes(ea.absoluteAddress.value)
    case AbsoluteLong => LongBytes(ea.absoluteAddress.value)
    case ImmediateData =>
      if size in {1, 2} then NumberBytes(ea.immediate.value.value) else LongBytes(ea.immediate.value.value)
    case _ => []
  }

  lemma SignedInverse(d: int, range: int)
    requires range in {0x100, 0x1_0000} && -range <= 2 * d < range
    ensures 0 <= d % range < range && Signed(d % range, range) == d
  {
    if d >= 0 {
      assert d % range == d;
    } else {
      assert d % range == d + range;
    }
  }

  lemma IndexWordInverse(x: IndexRegister, d: int)
    requires WellFormedIndex(x) && -0x80 <= d < 0x80
    ensures var (t, r, z, v) := DecodeIndexWord(WordAt(IndexBytes(x, d), 0));
            IndexRegister(Register(ParseIndexRegisterKind(t), r), [z]) == x && v == d
  {
    SignedInverse(d, 0x100);
    IndexBits(IndexHighByte(x), ByteOf(d % 0x100));
  }

  lemma IndexBits(hi: byte, lo: byte)
    ensures var w := Word(hi, lo);
            && LowByte(w) == lo
            && ((w >> 15) & 0x1 == 1 <==> hi & 0x80 != 0)
            && ((w >> 11) & 0x1 == 1 <==> hi & 0x08 != 0)
            && ((w >> 12) & 0x7) as regnum == ((hi >> 4) & 0x7) as regnum
  {
  }

  /** The structured half of DecodeAddressingMode. */
  function EaOf(field: seq<byte>, mode: bv3, reg: regnum, size: nat): EffectiveAddress
    requires size in {1, 2, 4} && EaFault(mode, reg, size).None? && |field| == EaWidth(mode, reg, size)
  {
    if mode == 0 then RegisterEa(DataRegisterDirect, 0, reg, DataRegister)
    else if mode == 1 then RegisterEa(AddressRegisterDirect, 1, reg, AddressRegister)
    else if mode == 2 then RegisterEa(AddressIndirect, 2, reg, AddressRegister)
    else if mode == 3 then RegisterEa(PostIncrement, 3, reg, AddressRegister)
    else if mode == 4 then RegisterEa(PreDecrement, 4, reg, AddressRegister)
    else if mode == 5 then
      DisplacementEa(Displacement, 5, reg, Register(AddressRegister, reg), WordDisplacement(field), None)
    else if mode == 6 then
      DisplacementEa(Index, 6, reg, Register(AddressRegister, reg), ByteDisplacement(field),
                     Some(IndexRegisterOf(field)))
    else if reg == 0 then AbsoluteEa(AbsoluteShort, 0, WordAt(field, 0) as int)
    else if reg == 1 then AbsoluteEa(AbsoluteLong, 1, LongAt(field, 0))
    else if reg == 2 then
      DisplacementEa(PCDisplacement, 7, 2, Register(ProgramCounter, 0), WordDisplacement(field), None)
    else if reg == 3 then
      DisplacementEa(PCIndex, 7, 3, Register(ProgramCounter, 0), ByteDisplacement(field), Some(IndexRegisterOf(field)))
    else
      ImmediateEa(if size == 4 then LongAt(field, 0)
                  else if size == 2 then WordAt(field, 0) as int else LowByte(WordAt(field, 0)) as int, size)
  }

  function WordDisplacement(field: seq<byte>): int
    requires |field| == 2
  {
    Signed(WordAt(field, 0) as int, 0x1_0000)
  }

  function ByteDisplacement(field: seq<byte>): int
    requires |field| == 2
  {
    DecodeIndexWord(WordAt(field, 0)).3
  }

  function IndexRegisterOf(field: seq<byte>): IndexRegister
    requires |field| == 2
  {
    var (t, r, z, _) := DecodeIndexWord(WordAt(field, 0));
    IndexRegister(Register(ParseIndexRegisterKind(t), r), [z])
  }

  lemma DecodesAsEaOf(field: seq<byte>, mode: bv3, reg: regnum, size: nat)
    requires size in {1, 2, 4} && EaFault(mode, reg, size).None? && |field| == EaWidth(mode, reg, size)
    ensures DecodeAddressingMode(field, mode, reg, size).Ok?
    ensures DecodeAddressingMode(field, mode, reg, size).value.operand.effectiveAddress
            == Some(EaOf(field, mode, reg, size))
  {
    hide Hex, Dec, DecInt, Parenthesised, IndexText, FormatImmediate, Digit, LowByte, DecodeIndexWord, WordAt, LongAt,
      Signed, MeetsLayout, DecodeMode7, Immediate;
    if mode == 7 {
      Mode7DecodesAsEaOf(field, reg, size);
    }
  }

  lemma Mode7DecodesAsEaOf(field: seq<byte>, reg: regnum, size: nat)
    requires size in {1, 2, 4} && EaFault(7, reg, size).None? && |field| == EaWidth(7, reg, size)
    ensures DecodeMode7(field, reg, size).Ok?
    ensures DecodeMode7(field, reg, size).value.operand.effectiveAddress == Some(EaOf(field, 7, reg, size))
  {
    hide Hex, Dec, DecInt, Parenthesised, IndexText, FormatImmediate, Digit, LowByte, DecodeIndexWord, WordAt, LongAt,
      Signed, MeetsLayout, Immediate;
  }

  /** This operand's own extension words denote this address. */
  predicate Denotes(field: seq<byte>, ea: EffectiveAddress, size: nat) {
    && size in {1, 2, 4}
    && EaFault(ea.mode, ea.register, size).None?
    && |field| == EaWidth(ea.mode, ea.register, size)
    && EaOf(field, ea.mode, ea.register, size) == ea
  }

  lemma DisplacementDenotes(ea: EffectiveAddress, size: nat)
    requires size in {1, 2, 4} && WellFormedEa(ea, size) && ea.kind in {Displacement, PCDisplacement}
    ensures Denotes(EaField(ea, size), ea, size)
  {
    hide IndexRegisterOf, ByteDisplacement, WordAt, LongAt, Signed, LowByte, NumberBytes, LongBytes;
    SignedInverse(ea.displacement.value, 0x1_0000);
  }

  lemma IndexDenotes(ea: EffectiveAddress, size: nat)
    requires size in {1, 2, 4} && WellFormedEa(ea, size) && ea.kind in {Index, PCIndex}
    ensures Denotes(EaField(ea, size), ea, size)
  {
    hide DecodeIndexWord, IndexBytes, WordAt, LongAt, Signed, LowByte;
    IndexWordInverse(ea.index.value, ea.displacement.value);
  }

  lemma ImmediateDenotes(ea: EffectiveAddress, size: nat)
    requires size in {1, 2, 4} && WellFormedEa(ea, size) && ea.kind == ImmediateData
    ensures Denotes(EaField(ea, size), ea, size)
  {
    hide DecodeIndexWord, WordAt, LongAt, Signed, LowByte, SignedImmediateValue, IndexRegisterOf, ByteDisplacement;
    if size == 1 {
      LowByteOfNumber(ea.immediate.value.value);
    }
  }

  lemma LowByteOfNumber(n: int)
    requires 0 <= n < 0x100
    ensures LowByte(WordAt(NumberBytes(n), 0)) as int == n
  {
    IndexBits(ByteOf(n / 0x100), ByteOf(n % 0x100));
  }

  lemma AbsoluteDenotes(ea: EffectiveAddress, size: nat)
    requires size in {1, 2, 4} && WellFormedEa(ea, size) && ea.kind in {AbsoluteShort, AbsoluteLong}
    ensures Denotes(EaField(ea, size), ea, size)
  {
    hide WordAt, LongAt, NumberBytes, LongBytes, LowByte, IndexRegisterOf, ByteDisplacement, WordDisplacement;
  }

  lemma DirectDenotes(ea: EffectiveAddress, size: nat)
    requires size in {1, 2, 4} && WellFormedEa(ea, size)
    requires ea.kind in {DataRegisterDirect, AddressRegisterDirect, AddressIndirect, PostIncrement, PreDecrement}
    ensures EaField(ea, size) == [] && Denotes([], ea, size)
  {
    hide WordAt, LongAt, NumberBytes, LongBytes, LowByte, IndexRegisterOf, ByteDisplacement, WordDisplacement;
  }

  /** The extension words of a well-formed address denote the address. */
  lemma EaDecodesEncoded(ea: EffectiveAddress, size: nat)
    requires size in {1, 2, 4} && WellFormedEa(ea, size)
    ensures Denotes(EaField(ea, size), ea, size)
  {
    hide Denotes, EaField, WellFormedIndex, Immediate;
    match ea.kind
    case Displacement => DisplacementDenotes(ea, size);
    case PCDisplacement => DisplacementDenotes(ea, size);
    case Index => IndexDenotes(ea, size);
    case PCIndex => IndexDenotes(ea, size);
    case AbsoluteShort => AbsoluteDenotes(ea, size);
    case AbsoluteLong => AbsoluteDenotes(ea, size);
    case ImmediateData => ImmediateDenotes(ea, size);
    case _ => DirectDenotes(ea, size);
  }

  /** What re-encoding normalises: bits 10 to 8 of an index word and the high byte of a byte immediate
      are ignored by the decoder. */
  function Canonical(field: seq<byte>, mode: bv3, reg: regnum, size: nat): seq<byte> {
    if |field| == 2 && (mode == 6 || (mode == 7 && reg == 3)) then [field[0] & 0xF8, field[1]]
    else if |field| == 2 && mode == 7 && reg == 4 && size == 1 then [0, field[1]]
    else field
  }

  lemma IndexBackBits(hi: byte, lo: byte)
    ensures var (t, r, z, d) := DecodeIndexWord(Word(hi, lo));
            && WellFormedIndex(IndexRegister(Register(ParseIndexRegisterKind(t), r), [z]))
            && IndexHighByte(IndexRegister(Register(ParseIndexRegisterKind(t), r), [z])) == hi & 0xF8
            && d % 0x100 == lo as int && -0x80 <= d < 0x80
  {
    IndexBits(hi, lo);
    assert "L"[0] == 'L' && "W"[0] == 'W';
    assert ['L'] == "L" && ['W'] == "W" && ['W'] != "L";
    HighByteBits(hi);
  }

  lemma HighByteBits(hi: byte)
    ensures hi & 0xF8 == (hi & 0x80) | ((((hi >> 4) & 0x7) as regnum) as byte << 4) | (hi & 0x08)
    ensures hi & 0x80 == 0 || hi & 0x80 == 0x80
    ensures hi & 0x08 == 0 || hi & 0x08 == 0x08
  {
  }

  lemma HalvesOfLong(hi: int, lo: int)
    requires 0 <= hi && 0 <= lo < 0x1_0000
    ensures (0x1_0000 * hi + lo) / 0x1_0000 == hi && (0x1_0000 * hi + lo) % 0x1_0000 == lo
  {
  }

  lemma LongHalves(field: seq<byte>)
    requires |field| == 4
    ensures var n := LongAt(field, 0);
            && n / 0x1_0000 == WordAt(field[..2], 0) as int
            && n % 0x1_0000 == WordAt(field[2..], 0) as int
  {
    hide Word;
    HalvesOfLong(WordAt(field, 0) as int, WordAt(field, 2) as int);
  }

  lemma LongBytesInverse(field: seq<byte>)
    requires |field| == 4
    ensures LongBytes(LongAt(field, 0)) == field
  {
    hide NumberBytes, WordAt, LongAt;
    LongHalves(field);
    FieldNumber(field[..2]);
    FieldNumber(field[2..]);
    assert field == field[..2] + field[2..];
  }

  lemma ByteNumberBytes(b: byte)
    ensures NumberBytes(b as int) == [0, b]
  {
    hide Word, NumberBytes;
    WordValue(0, b);
    NumberBytesInverse(0, b);
  }

  /** The denoted address is well formed and encodes back to the given extension words. */
  predicate EncodesBack(field: seq<byte>, mode: bv3, reg: regnum, size: nat)
    requires size in {1, 2, 4} && EaFault(mode, reg, size).None? && |field| == EaWidth(mode, reg, size)
  {
    var ea := EaOf(field, mode, reg, size);
    && WellFormedEa(ea, size) && ea.mode == mode && ea.register == reg
    && EaField(ea, size) == Canonical(field, mode, reg, size)
  }

  lemma FieldNumber(field: seq<byte>)
    requires |field| == 2
    ensures NumberBytes(WordAt(field, 0) as int) == field
  {
    NumberBytesInverse(field[0], field[1]);
    assert field == [field[0], field[1]];
  }

  lemma LowByteOfField(field: seq<byte>)
    requires |field| == 2
    ensures LowByte(WordAt(field, 0)) == field[1]
  {
    IndexBits(field[0], field[1]);
  }

  lemma WellFormedDisplacement(ea: EffectiveAddress, n: nat, size: nat)
    requires n < 0x1_0000
    requires var d := Signed(n, 0x1_0000);
             || ea == DisplacementEa(Displacement, 5, ea.register, Register(AddressRegister, ea.register), d, None)
             || ea == DisplacementEa(PCDisplacement, 7, 2, Register(ProgramCounter, 0), d, None)
    ensures WellFormedEa(ea, size) && EaField(ea, size) == NumberBytes(n)
  {
    hide NumberBytes, WellFormedIndex, Signed;
  }

  lemma EaOfDisplacement(field: seq<byte>, mode: bv3, reg: regnum, size: nat)
    requires size in {1, 2, 4} && |field| == 2 && (mode == 5 || (mode == 7 && reg == 2))
    ensures var d := Signed(WordAt(field, 0) as int, 0x1_0000);
            EaOf(field, mode, reg, size)
            == if mode == 5 then DisplacementEa(Displacement, 5, reg, Register(AddressRegister, reg), d, None)
               else DisplacementEa(PCDisplacement, 7, 2, Register(ProgramCounter, 0), d, None)
  {
    hide IndexRegisterOf, ByteDisplacement, LowByte, LongAt, WordAt, DisplacementEa, Signed;
  }

  lemma DisplacementEncodesBack(field: seq<byte>, mode: bv3, reg: regnum, size: nat)
    requires size in {1, 2, 4} && |field| == 2 && (mode == 5 || (mode == 7 && reg == 2))
    ensures EncodesBack(field, mode, reg, size)
  {
    hide WordAt, NumberBytes, EaOf, WellFormedEa, EaField, Signed;
    FieldNumber(field);
    EaOfDisplacement(field, mode, reg, size);
    WellFormedDisplacement(EaOf(field, mode, reg, size), WordAt(field, 0) as int, size);
  }

  lemma DirectEncodesBack(mode: bv3, reg: regnum, size: nat)
    requires size in {1, 2, 4} && mode < 5
    ensures EncodesBack([], mode, reg, size)
  {
    hide WordAt, LongAt, LowByte, IndexRegisterOf, ByteDisplacement, WordDisplacement, Immediate, LongBytes,
      NumberBytes, IndexBytes, WellFormedIndex;
  }

  lemma WellFormedShort(n: nat, size: nat)
    requires n < 0x1_0000
    ensures WellFormedEa(AbsoluteEa(AbsoluteShort, 0, n), size)
    ensures EaField(AbsoluteEa(AbsoluteShort, 0, n), size) == NumberBytes(n)
  {
    hide NumberBytes, WellFormedIndex;
  }

  lemma EaOfShort(field: seq<byte>, size: nat)
    requires size in {1, 2, 4} && |field| == 2
    ensures EaOf(field, 7, 0, size) == AbsoluteEa(AbsoluteShort, 0, WordAt(field, 0) as int)
  {
    hide IndexRegisterOf, ByteDisplacement, LowByte, LongAt, WordAt, WordDisplacement, AbsoluteEa;
  }

  lemma ShortEncodesBack(field: seq<byte>, size: nat)
    requires size in {1, 2, 4} && |field| == 2
    ensures EncodesBack(field, 7, 0, size)
  {
    hide WordAt, NumberBytes, EaOf, WellFormedEa, EaField;
    FieldNumber(field);
    EaOfShort(field, size);
    WellFormedShort(WordAt(field, 0) as int, size);
  }

  lemma EaOfIndexed(field: seq<byte>, mode: bv3, reg: regnum, size: nat)
    requires size in {1, 2, 4} && |field| == 2 && (mode == 6 || (mode == 7 && reg == 3))
    ensures var d, x := ByteDisplacement(field), Some(IndexRegisterOf(field));
            EaOf(field, mode, reg, size)
            == if mode == 6 then DisplacementEa(Index, 6, reg, Register(AddressRegister, reg), d, x)
               else DisplacementEa(PCIndex, 7, 3, Register(ProgramCounter, 0), d, x)
  {
    hide IndexRegisterOf, ByteDisplacement, LowByte, LongAt, WordAt, DisplacementEa, WordDisplacement;
  }

  lemma IndexBytesBack(field: seq<byte>)
    requires |field| == 2
    ensures WellFormedIndex(IndexRegisterOf(field)) && -0x80 <= ByteDisplacement(field) < 0x80
    ensures IndexBytes(IndexRegisterOf(field), ByteDisplacement(field)) == [field[0] & 0xF8, field[1]]
  {
    hide WellFormedIndex, IndexHighByte, Word, DecodeIndexWord, ByteOf;
    IndexBackBits(field[0], field[1]);
    ByteOfValue(field[1]);
  }

  lemma WellFormedIndexed(ea: EffectiveAddress, x: IndexRegister, d: int, size: nat)
    requires WellFormedIndex(x) && -0x80 <= d < 0x80
    requires || ea == DisplacementEa(Index, 6, ea.register, Register(AddressRegister, ea.register), d, Some(x))
             || ea == DisplacementEa(PCIndex, 7, 3, Register(ProgramCounter, 0), d, Some(x))
    ensures WellFormedEa(ea, size) && EaField(ea, size) == IndexBytes(x, d)
  {
    hide WellFormedIndex, IndexBytes;
  }

  lemma IndexEncodesBack(field: seq<byte>, mode: bv3, reg: regnum, size: nat)
    requires size in {1, 2, 4} && |field| == 2 && (mode == 6 || (mode == 7 && reg == 3))
    ensures EncodesBack(field, mode, reg, size)
  {
    hide EaOf, WellFormedEa, EaField, IndexBytes, IndexRegisterOf, ByteDisplacement, WellFormedIndex;
    EaOfIndexed(field, mode, reg, size);
    IndexBytesBack(field);
    WellFormedIndexed(EaOf(field, mode, reg, size), IndexRegisterOf(field), ByteDisplacement(field), size);
  }

  lemma LongEncodesBack(field: seq<byte>, reg: regnum, size: nat)
    requires size in {1, 2, 4} && (reg == 1 || (reg == 4 && size == 4)) && |field| == 4
    ensures EncodesBack(field, 7, reg, size)
  {
    hide LongAt, LongBytes, SignedImmediateValue;
    LongBytesInverse(field);
  }

  lemma ImmediateEncodesBack(field: seq<byte>, size: nat)
    requires size in {1, 2} && |field| == 2
    ensures EncodesBack(field, 7, 4, size)
  {
    hide SignedImmediateValue, IndexRegisterOf, ByteDisplacement, WordDisplacement, LowByte, WordAt, LongAt,
      NumberBytes, LongBytes;
    if size == 2 {
      FieldNumber(field);
    } else {
      LowByteOfField(field);
      ByteNumberBytes(field[1]);
    }
  }

  /** Every denoted address is well formed, and re-encoding it gives back its extension words. */
  lemma EaEncodesDecoded(field: seq<byte>, mode: bv3, reg: regnum, size: nat)
    requires size in {1, 2, 4} && EaFault(mode, reg, size).None? && |field| == EaWidth(mode, reg, size)
    ensures EncodesBack(field, mode, reg, size)
  {
    hide EncodesBack;
    if mode < 5 {
      assert field == [];
      DirectEncodesBack(mode, reg, size);
    } else if mode == 5 || (mode == 7 && reg == 2) {
      DisplacementEncodesBack(field, mode, reg, size);
    } else if mode == 7 && reg == 0 {
      ShortEncodesBack(field, size);
    } else if mode == 6 || reg == 3 {
      IndexEncodesBack(field, mode, reg, size);
    } else if reg == 1 || size == 4 {
      LongEncodesBack(field, reg, size);
    } else {
      ImmediateEncodesBack(field, size);
    }
  }

  // ---- MOVE and MOVEA ----

  function MoveSizeBits(size: nat): bv2 {
    if size == 1 then 1 else if size == 2 then 3 else 2
  }

  /** 00ss ddd mmm MMM sss: destination register and mode, source mode and register. */
  function MoveOpcode(size: bv2, srcMode: bv3, srcReg: regnum, dstMode: bv3, dstReg: regnum): word {
    (size as word << 12) | (dstReg as word << 9) | (dstMode as word << 6) | (srcMode as word << 3) | srcReg as word
  }

  lemma MoveOpcodeFields(size: bv2, srcMode: bv3, srcReg: regnum, dstMode: bv3, dstReg: regnum)
    ensures var op := MoveOpcode(size, srcMode, srcReg, dstMode, dstReg);
            && MoveSizeField(op) == size && Mode(op) == srcMode && Reg(op) == srcReg
            && OpMode(op) == dstMode && RegX(op) == dstReg && op & 0xC000 == 0
  {
  }

  lemma MoveOpcodeOfFields(op: word)
    requires op & 0xC000 == 0
    ensures MoveOpcode(MoveSizeField(op), Mode(op), Reg(op), OpMode(op), RegX(op)) == op
  {
  }

  /** The three MOVE buckets are the opcodes with two leading zeros and a size. */
  lemma LookupMove(op: word)
    requires op & 0xC000 == 0 && MoveSizeField(op) != 0
    ensures Lookup(op) == Some(MOVE)
  {
    hide FirstMatch, HighNibble, MoveSizeField, Matches;
    MoveNibble(op);
    MoveBuckets();
    FirstMatchHead(OPCODE_BUCKETS[HighNibble(op)], op);
  }

  lemma MoveBuckets()
    ensures OPCODE_BUCKETS[1] == [Pattern(0xF000, 0x1000, MOVE)]
    ensures OPCODE_BUCKETS[2] == [Pattern(0xF000, 0x2000, MOVE)]
    ensures OPCODE_BUCKETS[3] == [Pattern(0xF000, 0x3000, MOVE)]
  {
  }

  lemma FirstMatchHead(patterns: seq<Pattern>, op: word)
    requires patterns != [] && Matches(patterns[0], op)
    ensures FirstMatch(patterns, op) == Some(patterns[0].decoder)
  {
    hide Matches;
    FirstWithinStable(patterns, 1, |patterns|, op);
  }

  lemma MoveNibble(op: word)
    requires op & 0xC000 == 0 && MoveSizeField(op) != 0
    ensures HighNibble(op) in {1, 2, 3}
    ensures HighNibble(op) == 1 ==> Matches(Pattern(0xF000, 0x1000, MOVE), op)
    ensures HighNibble(op) == 2 ==> Matches(Pattern(0xF000, 0x2000, MOVE), op)
    ensures HighNibble(op) == 3 ==> Matches(Pattern(0xF000, 0x3000, MOVE), op)
  {
    assert ((op >> 12) & 0xF) as bv4 in {1, 2, 3};
    assert ((op >> 12) & 0xF) as bv4 == 1 ==> op & 0xF000 == 0x1000;
    assert ((op >> 12) & 0xF) as bv4 == 2 ==> op & 0xF000 == 0x2000;
    assert ((op >> 12) & 0xF) as bv4 == 3 ==> op & 0xF000 == 0x3000;
  }

  /** MOVE.size src, dst. An address-register destination is a MOVEA and has no extension words. */
  function EncodeMove(size: nat, src: EffectiveAddress, dst: EffectiveAddress): seq<byte>
    requires size in {1, 2, 4} && WellFormedEa(src, size) && WellFormedEa(dst, 2)
  {
    WordBytes(MoveOpcode(MoveSizeBits(size), src.mode, src.register, dst.mode, dst.register))
    + EaField(src, size) + EaField(dst, 2)
  }

  /** Fetching an operand whose extension words lie at `offset`. */
  lemma EaSlotStep(data: seq<byte>, address: uint32, offset: nat, mode: bv3, reg: regnum, size: nat)
    requires size in {1, 2, 4} && EaFault(mode, reg, size).None? && offset + EaWidth(mode, reg, size) <= |data|
    ensures var end := offset + EaWidth(mode, reg, size);
            var r := Step(Ea(mode, reg, size), address, data, offset);
            && r.Ok? && r.value.offset == end
            && r.value.operand.effectiveAddress == Some(EaOf(data[offset..end], mode, reg, size))
  {
    hide DecodeAddressingMode, EaFault, EaWidth, EaOf, EaContext;
    DecodesAsEaOf(data[offset..offset + EaWidth(mode, reg, size)], mode, reg, size);
  }

  /** Decoding an encoded MOVE gives back both addresses, whatever follows it; byte-size MOVEA is the one
      combination that is refused. */
  lemma MoveDecodesEncoded(size: nat, src: EffectiveAddress, dst: EffectiveAddress, tail: seq<byte>, address: uint32)
    requires size in {1, 2, 4} && WellFormedEa(src, size) && WellFormedEa(dst, 2)
    ensures var code := EncodeMove(size, src, dst);
            var r := Slice(code + tail, address, None);
            if size == 1 && dst.kind == AddressRegisterDirect then r == Failed(ByteMovea)
            else
              && r.Decoding? && r.inst.bytes == code && |r.inst.metadata.operands| == 2
              && r.inst.metadata.operands[0].effectiveAddress == Some(src)
              && (if dst.kind == AddressRegisterDirect then
                    && r.inst.mnemonic == "MOVEA." + MoveSizeName(MoveSizeBits(size))
                    && r.inst.metadata.operands[1] == RegisterOperand(AddressRegister, dst.register)
                  else
                    && r.inst.mnemonic == "MOVE." + MoveSizeName(MoveSizeBits(size))
                    && r.inst.metadata.operands[1].effectiveAddress == Some(dst))
  {
    hide EaField, EaOf, EaFault, EaWidth, EaContext, WellFormedEa, Step, Lookup, Interpret, MoveOpcode, WordBytes,
      WordAt, RegisterOperand, MoveForm;
    var op := MoveOpcode(MoveSizeBits(size), src.mode, src.register, dst.mode, dst.register);
    var data := EncodeMove(size, src, dst) + tail;
    EncodedLayout(size, src, dst, tail);
    MoveOpcodeFields(MoveSizeBits(size), src.mode, src.register, dst.mode, dst.register);
    LookupMove(op);
    var mid := 2 + |EaField(src, size)|;
    EaDecodesEncoded(src, size);
    EaDecodesEncoded(dst, 2);
    MoveFormSlots(op, size);
    InterpretTwo(MoveForm(op), MoveForm(op).slots[0], MoveForm(op).slots[1], address, op, data);
    EaSlotStep(data, address, 2, src.mode, src.register, size);
    AddressModeOne(dst);
    if dst.mode == 1 {
      if size == 1 {
        RejectStep(ByteMovea, address, data, mid);
      } else {
        FixedStep(RegisterOperand(AddressRegister, dst.register), address, data, mid);
      }
    } else {
      EaSlotStep(data, address, mid, dst.mode, dst.register, 2);
    }
  }

  lemma AddressModeOne(ea: EffectiveAddress)
    requires WellFormedEa(ea, 2)
    ensures ea.mode == 1 <==> ea.kind == AddressRegisterDirect
    ensures ea.mode == 1 ==> EaField(ea, 2) == []
  {
  }

  lemma EncodedLayout(size: nat, src: EffectiveAddress, dst: EffectiveAddress, tail: seq<byte>)
    requires size in {1, 2, 4} && WellFormedEa(src, size) && WellFormedEa(dst, 2)
    ensures var op := MoveOpcode(MoveSizeBits(size), src.mode, src.register, dst.mode, dst.register);
            var code := EncodeMove(size, src, dst);
            var data := code + tail;
            var mid := 2 + |EaField(src, size)|;
            var end := mid + |EaField(dst, 2)|;
            && |code| == end <= |data| && data[..end] == code && WordAt(data, 0) == op
            && data[2..mid] == EaField(src, size) && data[mid..end] == EaField(dst, 2)
  {
    hide EaField, MoveOpcode, WordBytes, WellFormedEa;
    var op := MoveOpcode(MoveSizeBits(size), src.mode, src.register, dst.mode, dst.register);
    WordOfWordBytes(op);
    var data := EncodeMove(size, src, dst) + tail;
    assert WordAt(data, 0) == WordAt(WordBytes(op), 0);
  }

  lemma MoveFormSlots(op: word, size: nat)
    requires size in {1, 2, 4} && MoveSizeField(op) == MoveSizeBits(size)
    ensures var f := MoveForm(op);
            && |f.slots| == 2 && f.slots == [f.slots[0], f.slots[1]] && !f.swapped
            && f.slots[0] == Ea(Mode(op), Reg(op), size)
            && f.slots[1] == (if OpMode(op) != 1 then Ea(OpMode(op), RegX(op), 2)
                              else if size == 1 then Reject(ByteMovea)
                              else Fixed(RegisterOperand(AddressRegister, RegX(op))))
            && (OpMode(op) != 1 ==> f.mnemonic == "MOVE." + MoveSizeName(MoveSizeBits(size)))
            && (OpMode(op) == 1 ==> f.mnemonic == "MOVEA." + MoveSizeName(MoveSizeBits(size)))
  {
    hide Mode, Reg, OpMode, RegX, MoveSizeField, RegisterOperand;
  }

  /** The extension words of a MOVE with the ignored bits cleared. */
  function CanonicalMove(bytes: seq<byte>): seq<byte>
    requires |bytes| >= 2
  {
    var op := WordAt(bytes, 0);
    var size := MoveByteSize(MoveSizeField(op));
    var mid := 2 + EaWidth(Mode(op), Reg(op), size);
    if mid > |bytes| then bytes
    else
      bytes[..2] + Canonical(bytes[2..mid], Mode(op), Reg(op), size) + Canonical(bytes[mid..], OpMode(op), RegX(op), 2)
  }

  /** The destination of a decoded MOVE or MOVEA, as an effective address. */
  function DestinationOf(d: Decoded): Option<EffectiveAddress>
    requires |d.metadata.operands| == 2
  {
    var o := d.metadata.operands[1];
    if o.register.Some? then Some(RegisterEa(AddressRegisterDirect, 1, o.register.value.number, AddressRegister))
    else o.effectiveAddress
  }

  /** Both operands are well-formed addresses whose encoding is the canonical form of the bytes. */
  predicate Reencodes(d: Decoded) {
    var size := MoveByteSize(MoveSizeField(d.opcode));
    && |d.metadata.operands| == 2 && |d.bytes| >= 2
    && d.metadata.operands[0].effectiveAddress.Some? && DestinationOf(d).Some?
    && var src, dst := d.metadata.operands[0].effectiveAddress.value, DestinationOf(d).value;
    && WellFormedEa(src, size) && WellFormedEa(dst, 2)
    && EncodeMove(size, src, dst) == CanonicalMove(d.bytes)
  }

  /** Re-encoding a decoded MOVE or MOVEA gives back its bytes, up to the bits the decoder ignores. */
  lemma MoveEncodesDecoded(data: seq<byte>, address: uint32)
    requires |data| >= 2 && Lookup(WordAt(data, 0)) == Some(MOVE) && Slice(data, address, None).Decoding?
    ensures Reencodes(Slice(data, address, None).inst)
  {
    hide Lookup, Interpret, WordAt, MoveForm, Reencodes;
    var op := WordAt(data, 0);
    MoveHasSize(op);
    if OpMode(op) == 1 {
      MoveaReencodes(data, address);
    } else {
      PlainMoveReencodes(data, address);
    }
  }

  /** What a decoded MOVEA consists of. */
  lemma MoveaParts(data: seq<byte>, address: uint32, op: word, size: nat)
    requires |data| >= 2 && op == WordAt(data, 0) && OpMode(op) == 1
    requires size in {1, 2, 4} && MoveSizeField(op) == MoveSizeBits(size)
    requires Interpret(MoveForm(op), address, op, data).Ok?
    ensures var mid := 2 + EaWidth(Mode(op), Reg(op), size);
            && size != 1 && EaFault(Mode(op), Reg(op), size).None? && mid <= |data|
            && var d := Interpret(MoveForm(op), address, op, data).value;
            && d.opcode == op && d.bytes == data[..mid] && |d.metadata.operands| == 2
            && d.metadata.operands[0].effectiveAddress == Some(EaOf(data[2..mid], Mode(op), Reg(op), size))
            && d.metadata.operands[1] == RegisterOperand(AddressRegister, RegX(op))
  {
    hide EaOf, EaFault, EaWidth, EaContext, Step, Interpret, WordAt, MoveForm, RegisterOperand;
    MoveFormSlots(op, size);
    var f := MoveForm(op);
    InterpretTwo(f, f.slots[0], f.slots[1], address, op, data);
    SourceStepOk(data, address, 2, Mode(op), Reg(op), size);
    var mid := 2 + EaWidth(Mode(op), Reg(op), size);
    EaSlotStep(data, address, 2, Mode(op), Reg(op), size);
    if size == 1 {
      RejectStep(ByteMovea, address, data, mid);
      assert false;
    }
    FixedStep(RegisterOperand(AddressRegister, RegX(op)), address, data, mid);
  }

  lemma MoveaReencodes(data: seq<byte>, address: uint32)
    requires |data| >= 2 && var op := WordAt(data, 0); op & 0xC000 == 0 && MoveSizeField(op) != 0 && OpMode(op) == 1
    requires Interpret(MoveForm(WordAt(data, 0)), address, WordAt(data, 0), data).Ok?
    ensures Reencodes(Interpret(MoveForm(WordAt(data, 0)), address, WordAt(data, 0), data).value)
  {
    hide EaField, EaOf, EaFault, EaWidth, EaContext, WellFormedEa, Interpret, WordAt, MoveForm, Canonical,
      CanonicalMove, EncodeMove, Mode, Reg, OpMode, RegX, MoveSizeField, MoveSizeBits, MoveByteSize;
    var op := WordAt(data, 0);
    var size := MoveByteSize(MoveSizeField(op));
    MoveSizes(op);
    MoveaParts(data, address, op, size);
    var mid := 2 + EaWidth(Mode(op), Reg(op), size);
    EaEncodesDecoded(data[2..mid], Mode(op), Reg(op), size);
    MoveaDestination(RegX(op));
    assert data[mid..mid] == [];
    Reassemble(op, size, data, mid, mid, EaOf(data[2..mid], Mode(op), Reg(op), size),
               RegisterEa(AddressRegisterDirect, 1, RegX(op), AddressRegister));
  }

  /** What a decoded MOVE consists of. */
  lemma PlainMoveParts(data: seq<byte>, address: uint32, op: word, size: nat)
    requires |data| >= 2 && op == WordAt(data, 0) && OpMode(op) != 1
    requires size in {1, 2, 4} && MoveSizeField(op) == MoveSizeBits(size)
    requires Interpret(MoveForm(op), address, op, data).Ok?
    ensures var mid := 2 + EaWidth(Mode(op), Reg(op), size);
            var end := mid + EaWidth(OpMode(op), RegX(op), 2);
            && EaFault(Mode(op), Reg(op), size).None? && EaFault(OpMode(op), RegX(op), 2).None? && end <= |data|
            && var d := Interpret(MoveForm(op), address, op, data).value;
            && d.opcode == op && d.bytes == data[..end] && |d.metadata.operands| == 2
            && d.metadata.operands[0].effectiveAddress == Some(EaOf(data[2..mid], Mode(op), Reg(op), size))
            && d.metadata.operands[1].effectiveAddress == Some(EaOf(data[mid..end], OpMode(op), RegX(op), 2))
            && d.metadata.operands[1].register.None?
  {
    hide EaOf, EaFault, EaWidth, EaContext, Step, Interpret, WordAt, MoveForm;
    MoveFormSlots(op, size);
    var f := MoveForm(op);
    InterpretTwo(f, f.slots[0], f.slots[1], address, op, data);
    SourceStepOk(data, address, 2, Mode(op), Reg(op), size);
    var mid := 2 + EaWidth(Mode(op), Reg(op), size);
    EaSlotStep(data, address, 2, Mode(op), Reg(op), size);
    SourceStepOk(data, address, mid, OpMode(op), RegX(op), 2);
    EaSlotStep(data, address, mid, OpMode(op), RegX(op), 2);
    NoRegister(data, address, mid, OpMode(op), RegX(op));
  }

  lemma PlainMoveReencodes(data: seq<byte>, address: uint32)
    requires |data| >= 2 && var op := WordAt(data, 0); op & 0xC000 == 0 && MoveSizeField(op) != 0 && OpMode(op) != 1
    requires Interpret(MoveForm(WordAt(data, 0)), address, WordAt(data, 0), data).Ok?
    ensures Reencodes(Interpret(MoveForm(WordAt(data, 0)), address, WordAt(data, 0), data).value)
  {
    hide EaField, EaOf, EaFault, EaWidth, EaContext, WellFormedEa, Interpret, WordAt, MoveForm, Canonical,
      CanonicalMove, EncodeMove;
    var op := WordAt(data, 0);
    var size := MoveByteSize(MoveSizeField(op));
    MoveSizes(op);
    PlainMoveParts(data, address, op, size);
    var mid := 2 + EaWidth(Mode(op), Reg(op), size);
    var end := mid + EaWidth(OpMode(op), RegX(op), 2);
    EaEncodesDecoded(data[2..mid], Mode(op), Reg(op), size);
    EaEncodesDecoded(data[mid..end], OpMode(op), RegX(op), 2);
    Reassemble(op, size, data, mid, end, EaOf(data[2..mid], Mode(op), Reg(op), size),
               EaOf(data[mid..end], OpMode(op), RegX(op), 2));
  }

  lemma MoveSizes(op: word)
    requires MoveSizeField(op) != 0
    ensures var size := MoveByteSize(MoveSizeField(op));
            size in {1, 2, 4} && MoveSizeField(op) == MoveSizeBits(size)
  {
    hide MoveSizeField;
  }

  lemma SourceStepOk(data: seq<byte>, address: uint32, offset: nat, mode: bv3, reg: regnum, size: nat)
    requires size in {1, 2, 4} && offset <= |data|
    ensures Step(Ea(mode, reg, size), address, data, offset).Ok? <==>
            EaFault(mode, reg, size).None? && offset + EaWidth(mode, reg, size) <= |data|
  {
    hide DecodeAddressingMode, EaFault, EaWidth, EaContext;
  }

  lemma NoRegister(data: seq<byte>, address: uint32, offset: nat, mode: bv3, reg: regnum)
    requires offset <= |data| && Step(Ea(mode, reg, 2), address, data, offset).Ok?
    ensures Step(Ea(mode, reg, 2), address, data, offset).value.operand.register.None?
  {
    hide DecodeAddressingMode, EaFault, EaWidth, EaContext;
    var end := offset + EaWidth(mode, reg, 2);
    assert MeetsLayout(DecodeAddressingMode(data[offset..end], mode, reg, 2), |data[offset..end]|, mode, reg, 2);
  }

  lemma MoveaDestination(reg: regnum)
    ensures var ea := RegisterEa(AddressRegisterDirect, 1, reg, AddressRegister);
            WellFormedEa(ea, 2) && EaField(ea, 2) == []
    ensures Canonical([], 1, reg, 2) == []
  {
  }

  lemma Reassemble(op: word, size: nat, data: seq<byte>, mid: nat, end: nat, src: EffectiveAddress,
                   dst: EffectiveAddress)
    requires 2 <= mid <= end <= |data| && op == WordAt(data, 0) && op & 0xC000 == 0
    requires size in {1, 2, 4} && MoveSizeField(op) == MoveSizeBits(size) && size == MoveByteSize(MoveSizeField(op))
    requires WellFormedEa(src, size) && WellFormedEa(dst, 2)
    requires src.mode == Mode(op) && src.register == Reg(op) && dst.mode == OpMode(op) && dst.register == RegX(op)
    requires mid == 2 + EaWidth(Mode(op), Reg(op), size)
    requires EaField(src, size) == Canonical(data[2..mid], Mode(op), Reg(op), size)
    requires EaField(dst, 2) == Canonical(data[mid..end], OpMode(op), RegX(op), 2)
    ensures EncodeMove(size, src, dst) == CanonicalMove(data[..end])
  {
    hide EaField, EaWidth, WellFormedEa, MoveOpcode, Canonical, MoveSizeField, Mode, Reg, OpMode, RegX, WordBytes,
      Word;
    MoveOpcodeOfFields(op);
    WordBytesInverse(data[0], data[1]);
    var bytes := data[..end];
    assert WordAt(bytes, 0) == op;
    assert bytes[..2] == [data[0], data[1]];
    assert bytes[2..mid] == data[2..mid] && bytes[mid..] == data[mid..end];
  }
}
