/** addressing.go: the effective-address decoder. */
module EffectiveAddresses {
  import opened Wrappers
  import opened Words
  import opened Text
  import opened Model

  datatype EaParts = EaParts(text: string, extraWords: nat, operand: Operand)

  function RequireLength(data: seq<byte>, need: nat, context: string): Result<(), DecodeError> {
    if |data| >= need then Ok(()) else Err(NeedMore(need - |data|, context))
  }

  // ---- layout: what the mode and register fields alone decide ----

  function EaFault(mode: bv3, reg: regnum, size: nat): Option<Fault> {
    if mode == 7 && reg >= 5 then Some(UnknownAddressingMode(mode, reg))
    else if mode == 7 && reg == 4 && size !in {1, 2, 4} then Some(UnsupportedImmediateSize(size))
    else None
  }

  function EaWidth(mode: bv3, reg: regnum, size: nat): nat {
    if mode < 5 || (mode == 7 && reg >= 5) then 0
    else if mode == 7 && (reg == 1 || (reg == 4 && size == 4)) then 4
    else 2
  }

  function EaContext(mode: bv3, reg: regnum, size: nat): string {
    if mode == 5 then "displacement"
    else if mode == 6 then "index extension word"
    else if reg == 0 then "absolute short address"
    else if reg == 1 then "absolute long address"
    else if reg == 2 then "pc displacement"
    else if reg == 3 then "pc index extension word"
    else if size == 4 then "long immediate"
    else "immediate"
  }

  // ---- text ----

  /** Decimal below 100, otherwise hexadecimal at the operand width. */
  function FormatImmediate(value: uint32, size: nat): string {
    if value < 100 then Dec(value)
    else if size == 1 then "$" + Hex(value % 0x100, 2)
    else if size == 2 then "$" + Hex(value % 0x1_0000, 4)
    else if size == 4 then "$" + Hex(value, 8)
    else "$" + HexShort(value)
  }

  function FormatImmediateForMOVEQ(value: int): string {
    if value < 0 then "-$" + HexShort(-value)
    else if value < 100 then Dec(value)
    else "$" + HexShort(value)
  }

  /** (register letter, register number, size letter, displacement) of a brief extension word. */
  function DecodeIndexWord(indexWord: word): (string, regnum, char, int) {
    (if (indexWord >> 15) & 0x1 == 1 then "A" else "D",
     ((indexWord >> 12) & 0x7) as regnum,
     if (indexWord >> 11) & 0x1 == 1 then 'L' else 'W',
     Signed(LowByte(indexWord) as int, 0x100))
  }

  function ParseIndexRegisterKind(indexType: string): RegisterKind {
    if indexType == "A" then AddressRegister else DataRegister
  }

  /** "(%d," and what follows the displacement. */
  function Parenthesised(d: int, rest: string): string {
    "(" + DecInt(d) + "," + rest
  }

  /** "%s%d.%c)" */
  function IndexText(indexType: string, indexReg: regnum, indexSize: char): string {
    indexType + [Digit(indexReg as int)] + "." + [indexSize] + ")"
  }

  // ---- decoder ----

  function RegisterEa(kind: EffectiveAddressKind, mode: bv3, reg: regnum, base: RegisterKind): EffectiveAddress {
    EffectiveAddress(kind, mode, reg, Some(Register(base, reg)), None, None, None, None, None)
  }

  function DisplacementEa(kind: EffectiveAddressKind, mode: bv3, reg: regnum, base: Register, d: int,
                          index: Option<IndexRegister>): EffectiveAddress {
    EffectiveAddress(kind, mode, reg, Some(base), Some(d), None, None, None, index)
  }

  function AbsoluteEa(kind: EffectiveAddressKind, reg: regnum, address: uint32): EffectiveAddress {
    EffectiveAddress(kind, 7, reg, None, None, Some(address), Some(address), None, None)
  }

  function ImmediateEa(value: uint32, size: nat): EffectiveAddress {
    EffectiveAddress(ImmediateData, 7, 4, None, None, None, None, Some(Immediate(value, size)), None)
  }

  function Parts(text: string, extraWords: nat, ea: EffectiveAddress): Result<EaParts, DecodeError> {
    Ok(EaParts(text, extraWords, EffectiveAddressOperand(text, ea)))
  }

  /** The outcome of one effective address as far as the field layout decides it: an error the
      opcode forces, a shortage, or success over exactly the announced bytes. */
  predicate MeetsLayout(r: Result<EaParts, DecodeError>, have: nat, mode: bv3, reg: regnum, size: nat) {
    var width := EaWidth(mode, reg, size);
    if EaFault(mode, reg, size).Some? then r == Err(Hard(EaFault(mode, reg, size).value))
    else if have < width then r == Err(NeedMore(width - have, EaContext(mode, reg, size)))
    else
      && r.Ok?
      && 2 * r.value.extraWords == width
      && r.value.operand.text == r.value.text
      && r.value.operand.effectiveAddress.Some?
      && r.value.operand == EffectiveAddressOperand(r.value.text, r.value.operand.effectiveAddress.value)
  }

  /** `data` starts at the extension words of this operand. */
  function DecodeAddressingMode(data: seq<byte>, mode: bv3, reg: regnum, size: nat): (r: Result<EaParts, DecodeError>)
    ensures MeetsLayout(r, |data|, mode, reg, size)
  {
    var n := [Digit(reg as int)];
    if mode == 0 then Parts("D" + n, 0, RegisterEa(DataRegisterDirect, mode, reg, DataRegister))
    else if mode == 1 then Parts("A" + n, 0, RegisterEa(AddressRegisterDirect, mode, reg, AddressRegister))
    else if mode == 2 then Parts("(A" + n + ")", 0, RegisterEa(AddressIndirect, mode, reg, AddressRegister))
    else if mode == 3 then Parts("(A" + n + ")+", 0, RegisterEa(PostIncrement, mode, reg, AddressRegister))
    else if mode == 4 then Parts("-(A" + n + ")", 0, RegisterEa(PreDecrement, mode, reg, AddressRegister))
    else if mode == 5 then
      var _ :- RequireLength(data, 2, "displacement");
      var d := Signed(WordAt(data, 0) as int, 0x1_0000);
      Parts(Parenthesised(d, "A" + n + ")"), 1,
            DisplacementEa(Displacement, mode, reg, Register(AddressRegister, reg), d, None))
    else if mode == 6 then
      var _ :- RequireLength(data, 2, "index extension word");
      var (indexType, indexReg, indexSize, d) := DecodeIndexWord(WordAt(data, 0));
      Parts(Parenthesised(d, "A" + n + "," + IndexText(indexType, indexReg, indexSize)), 1,
            DisplacementEa(Index, mode, reg, Register(AddressRegister, reg), d,
                           Some(IndexRegister(Register(ParseIndexRegisterKind(indexType), indexReg), [indexSize]))))
    else
      DecodeMode7(data, reg, size)
  }

  /** Mode 7: the register field selects the form. */
  function DecodeMode7(data: seq<byte>, reg: regnum, size: nat): (r: Result<EaParts, DecodeError>)
    ensures MeetsLayout(r, |data|, 7, reg, size)
  {
    if reg == 0 then
      var _ :- RequireLength(data, 2, "absolute short address");
      var address := WordAt(data, 0) as int;
      Parts("$" + Hex(address, 4), 1, AbsoluteEa(AbsoluteShort, reg, address))
    else if reg == 1 then
      var _ :- RequireLength(data, 4, "absolute long address");
      var address := LongAt(data, 0);
      Parts("$" + Hex(address, 8), 2, AbsoluteEa(AbsoluteLong, reg, address))
    else if reg == 2 then
      var _ :- RequireLength(data, 2, "pc displacement");
      var d := Signed(WordAt(data, 0) as int, 0x1_0000);
      Parts(Parenthesised(d, "PC)"), 1,
            DisplacementEa(PCDisplacement, 7, reg, Register(ProgramCounter, 0), d, None))
    else if reg == 3 then
      var _ :- RequireLength(data, 2, "pc index extension word");
      var (indexType, indexReg, indexSize, d) := DecodeIndexWord(WordAt(data, 0));
      Parts(Parenthesised(d, "PC," + IndexText(indexType, indexReg, indexSize)), 1,
            DisplacementEa(PCIndex, 7, reg, Register(ProgramCounter, 0), d,
                           Some(IndexRegister(Register(ParseIndexRegisterKind(indexType), indexReg), [indexSize]))))
    else if reg == 4 then
      DecodeImmediateMode(data, size)
    else
      Err(Hard(UnknownAddressingMode(7, reg)))
  }

  /** Mode 7.4: a byte immediate occupies the low half of its extension word. */
  function DecodeImmediateMode(data: seq<byte>, size: nat): (r: Result<EaParts, DecodeError>)
    ensures MeetsLayout(r, |data|, 7, 4, size)
  {
    if size == 4 then
      var _ :- RequireLength(data, 4, "long immediate");
      var value := LongAt(data, 0);
      Parts("#" + FormatImmediate(value, size), 2, ImmediateEa(value, size))
    else if size == 1 || size == 2 then
      var _ :- RequireLength(data, 2, "immediate");
      var w := WordAt(data, 0);
      var value := if size == 1 then LowByte(w) as int else w as int;
      Parts("#" + FormatImmediate(value, size), 1, ImmediateEa(value, size))
    else
      Err(Hard(UnsupportedImmediateSize(size)))
  }

  /** Only the bytes of the extension words themselves are read. */
  lemma EaReadsItsField(data: seq<byte>, mode: bv3, reg: regnum, size: nat)
    requires EaFault(mode, reg, size).None? && EaWidth(mode, reg, size) <= |data|
    ensures DecodeAddressingMode(data, mode, reg, size)
            == DecodeAddressingMode(data[..EaWidth(mode, reg, size)], mode, reg, size)
  {
    var field := data[..EaWidth(mode, reg, size)];
    assert |field| >= 2 ==> WordAt(field, 0) == WordAt(data, 0);
    assert |field| >= 4 ==> LongAt(field, 0) == LongAt(data, 0);
  }
}
