/** A parser for operand text, the inverse of the effective-address printer. */
module EaText {
  import opened Wrappers
  import opened Words
  import opened Text
  import opened Model
  import opened EffectiveAddresses

  // ---- which notation is printed ----

  predicate Decimal(s: string) {
    s != [] && (forall c <- s :: IsDigit(c)) && (|s| > 1 ==> s[0] != '0')
  }

  /** "$" and this many hexadecimal digits. */
  predicate Hexadecimal(s: string, digits: nat) {
    |s| == 1 + digits && s[0] == '$' && forall c <- s[1..] :: IsHexDigit(c)
  }

  lemma DecimalNotation(n: nat)
    ensures Decimal(Dec(n))
  {
    if n == 0 {
      assert |Dec(0)| == 1;
    }
  }

  lemma HexNotation(n: nat, width: nat)
    ensures Hexadecimal("$" + Hex(n, width), width)
  {
    assert ("$" + Hex(n, width))[1..] == Hex(n, width);
  }

  // ---- a parser ----

  predicate IsRegisterDigit(c: char) {
    '0' <= c <= '7'
  }

  function ParseRegister(c: char): regnum {
    if DigitValue(c) < 8 then DigitValue(c) as regnum else 0
  }

  lemma ParseRegisterInverse(reg: regnum)
    ensures ParseRegister(Digit(reg as int)) == reg && IsRegisterDigit(Digit(reg as int))
  {
    DigitInverse(reg as int);
    assert (reg as int) as regnum == reg;
  }

  /** "D3.L)" */
  predicate IsIndex(s: string) {
    && |s| == 5 && (s[0] == 'D' || s[0] == 'A') && IsRegisterDigit(s[1]) && s[2] == '.' && (s[3] == 'W' || s[3] == 'L')
    && s[4] == ')'
  }

  function ParseIndex(s: string): IndexRegister
    requires |s| >= 4
  {
    IndexRegister(Register(ParseIndexRegisterKind(s[..1]), ParseRegister(s[1])), s[3..4])
  }

  /** A number behind "#": decimal, or "$" and hexadecimal digits. */
  predicate IsNumber(s: string) {
    Decimal(s) || (|s| > 1 && Hexadecimal(s, |s| - 1))
  }

  function ParseImmediate(s: string): nat {
    if s != [] && s[0] == '$' then ParseHex(s[1..]) else ParseDec(s)
  }

  /** A displacement: decimal, with a sign when negative. */
  predicate IsDisplacement(s: string) {
    Decimal(s) || (|s| > 1 && s[0] == '-' && Decimal(s[1..]))
  }

  function ParseAfterDisplacement(d: int, rest: string): Option<EffectiveAddress> {
    if rest == "PC)" then Some(DisplacementEa(PCDisplacement, 7, 2, Register(ProgramCounter, 0), d, None))
    else if |rest| == 8 && rest[..3] == "PC," && IsIndex(rest[3..]) then
      Some(DisplacementEa(PCIndex, 7, 3, Register(ProgramCounter, 0), d, Some(ParseIndex(rest[3..]))))
    else if |rest| < 3 || rest[0] != 'A' || !IsRegisterDigit(rest[1]) then None
    else
      var reg := ParseRegister(rest[1]);
      if |rest| == 3 && rest[2] == ')' then
        Some(DisplacementEa(Displacement, 5, reg, Register(AddressRegister, reg), d, None))
      else if |rest| == 8 && rest[2] == ',' && IsIndex(rest[3..]) then
        Some(DisplacementEa(Index, 6, reg, Register(AddressRegister, reg), d, Some(ParseIndex(rest[3..]))))
      else None
  }

  /** The address an operand text denotes, given the operand size; None for any text outside the syntax. */
  function ParseEa(s: string, size: nat): Option<EffectiveAddress> {
    if |s| < 2 then None
    else if s[0] == 'D' then
      if |s| == 2 && IsRegisterDigit(s[1]) then
        Some(RegisterEa(DataRegisterDirect, 0, ParseRegister(s[1]), DataRegister))
      else None
    else if s[0] == 'A' then
      if |s| == 2 && IsRegisterDigit(s[1]) then
        Some(RegisterEa(AddressRegisterDirect, 1, ParseRegister(s[1]), AddressRegister))
      else None
    else if s[0] == '-' then
      if |s| == 5 && s[1] == '(' && s[2] == 'A' && IsRegisterDigit(s[3]) && s[4] == ')' then
        Some(RegisterEa(PreDecrement, 4, ParseRegister(s[3]), AddressRegister))
      else None
    else if s[0] == '$' then
      var n := ParseHex(s[1..]);
      if n >= 0x1_0000_0000 then None
      else if Hexadecimal(s, 4) then Some(AbsoluteEa(AbsoluteShort, 0, n))
      else if Hexadecimal(s, 8) then Some(AbsoluteEa(AbsoluteLong, 1, n))
      else None
    else if s[0] == '#' then
      var n := ParseImmediate(s[1..]);
      if n >= 0x1_0000_0000 || !IsNumber(s[1..]) then None else Some(ImmediateEa(n, size))
    else if s[0] != '(' then None
    else if s[1] == 'A' then
      if |s| < 4 || !IsRegisterDigit(s[2]) || s[3] != ')' then None
      else if |s| == 4 then Some(RegisterEa(AddressIndirect, 2, ParseRegister(s[2]), AddressRegister))
      else if |s| == 5 && s[4] == '+' then Some(RegisterEa(PostIncrement, 3, ParseRegister(s[2]), AddressRegister))
      else None
    else
      var comma := IndexOf(s, ',');
      if comma == |s| || comma == 0 || !IsDisplacement(s[1..comma]) then None
      else ParseAfterDisplacement(ParseInt(s[1..comma]), s[comma + 1..])
  }

  lemma DecimalImmediate(n: nat)
    ensures ParseImmediate(Dec(n)) == n
  {
    assert Dec(n)[0] in Dec(n);
    ParseDecInverse(n);
  }

  lemma HexImmediate(n: nat, width: nat)
    requires n < HexRange(width)
    ensures ParseImmediate("$" + Hex(n, width)) == n
  {
    ParseHexInverse(n, width);
    assert ("$" + Hex(n, width))[1..] == Hex(n, width);
  }

  lemma ImmediateInverse(value: uint32, size: nat)
    requires size == 1 ==> value < 0x100
    requires size == 2 ==> value < 0x1_0000
    ensures ParseImmediate(FormatImmediate(value, size)) == value
  {
    hide Hex, HexShort, Dec, ParseImmediate, HexRange;
    if value < 100 {
      DecimalImmediate(value);
    } else if size in {1, 2, 4} {
      assert value < HexRange(2 * size) by { HexRanges(); }
      assert FormatImmediate(value, size) == "$" + Hex(value, 2 * size);
      HexImmediate(value, 2 * size);
    } else {
      assert FormatImmediate(value, size) == "$" + HexShort(value);
      HexShortImmediate(value);
    }
  }

  lemma HexShortImmediate(n: nat)
    ensures ParseImmediate("$" + HexShort(n)) == n
  {
    ParseHexShortInverse(n);
    assert ("$" + HexShort(n))[1..] == HexShort(n);
  }

  /** MOVEQ prints a sign in front of "$", and never prints a negative number in decimal. */
  function ParseMoveqImmediate(s: string): int {
    if s != [] && s[0] == '-' then 0 - ParseImmediate(s[1..]) else ParseImmediate(s)
  }

  lemma MoveqImmediateInverse(value: int)
    ensures ParseMoveqImmediate(FormatImmediateForMOVEQ(value)) == value
  {
    var s := FormatImmediateForMOVEQ(value);
    if 0 <= value < 100 {
      assert s[0] in Dec(value);
      DecimalImmediate(value);
    } else {
      var m := if value < 0 then -value else value;
      ParseHexShortInverse(m);
      assert ("$" + HexShort(m))[1..] == HexShort(m);
      assert value < 0 ==> s[1..] == "$" + HexShort(m);
    }
  }

  /** Absolute addresses print in hexadecimal, short ones with four digits and long ones with eight. */
  lemma AbsoluteNotation(data: seq<byte>, reg: regnum, size: nat)
    requires reg < 2 && DecodeMode7(data, reg, size).Ok?
    ensures Hexadecimal(DecodeMode7(data, reg, size).value.text, if reg == 0 then 4 else 8)
  {
    hide Hex, Hexadecimal;
    if reg == 0 {
      HexNotation(WordAt(data, 0) as int, 4);
    } else {
      HexNotation(LongAt(data, 0), 8);
    }
  }

  /** Immediates below 100 print in decimal, all others in hexadecimal at the width of the operand. */
  lemma ImmediateNotation(value: uint32, size: nat)
    ensures value < 100 ==> Decimal(FormatImmediate(value, size))
    ensures value >= 100 && size in {1, 2, 4} ==> Hexadecimal(FormatImmediate(value, size), 2 * size)
    ensures value >= 100 && size !in {1, 2, 4} ==>
              FormatImmediate(value, size)[0] == '$' && |FormatImmediate(value, size)| > 1
              && FormatImmediate(value, size)[1] != '0'
  {
    hide Dec, Hex, HexShort, Decimal, Hexadecimal;
    if value < 100 {
      DecimalNotation(value);
    } else {
      HexNotation(value % 0x100, 2);
      HexNotation(value % 0x1_0000, 4);
      HexNotation(value, 8);
    }
  }

  /** MOVEQ prints negative values as "-$" and digits, small ones in decimal, the others as "$" and digits,
      without leading zeros. */
  lemma MoveqNotation(value: int)
    ensures var s := FormatImmediateForMOVEQ(value);
            && (value < 0 ==> |s| > 2 && s[..2] == "-$" && s[2] != '0')
            && (0 <= value < 100 ==> Decimal(s))
            && (value >= 100 ==> |s| > 1 && s[0] == '$' && s[1] != '0')
  {
    hide Dec, HexShort, Decimal;
    if 0 <= value < 100 {
      DecimalNotation(value);
    } else if value < 0 {
      assert FormatImmediateForMOVEQ(value)[..2] == "-$";
    }
  }

  lemma DirectText(mode: bv3, reg: regnum, size: nat)
    requires mode < 5
    ensures DecodeAddressingMode([], mode, reg, size).Ok?
    ensures var parts := DecodeAddressingMode([], mode, reg, size).value;
            ParseEa(parts.text, size) == parts.operand.effectiveAddress
  {
    ParseRegisterInverse(reg);
  }

  lemma AbsoluteText(n: uint32, width: nat, size: nat)
    requires width == 4 || width == 8
    requires width == 4 ==> n < 0x1_0000
    ensures ParseEa("$" + Hex(n, width), size)
            == Some(if width == 4 then AbsoluteEa(AbsoluteShort, 0, n) else AbsoluteEa(AbsoluteLong, 1, n))
  {
    hide Hex, ParseHex, HexRange, ParseDec, ParseInt, ParseImmediate, Hexadecimal;
    HexRanges();
    ParseHexInverse(n, width);
    HexNotation(n, width);
    HexWidth("$" + Hex(n, width), 8);
    assert ("$" + Hex(n, width))[1..] == Hex(n, width);
  }

  lemma HexWidth(s: string, width: nat)
    ensures Hexadecimal(s, width) ==> |s| == 1 + width
    ensures Hexadecimal(s, 4) ==> |s| == 5
  {
  }

  lemma NumberNotation(value: uint32, size: nat)
    ensures IsNumber(FormatImmediate(value, size))
  {
    hide Dec, Hex, HexShort, Decimal, Hexadecimal;
    if value < 100 {
      DecimalNotation(value);
    } else {
      HexNotation(value % 0x100, 2);
      HexNotation(value % 0x1_0000, 4);
      HexNotation(value, 8);
      HexShortNotation(value);
    }
  }

  lemma HexShortNotation(n: nat)
    ensures Hexadecimal("$" + HexShort(n), |HexShort(n)|)
  {
    assert ("$" + HexShort(n))[1..] == HexShort(n);
  }

  lemma DisplacementNotation(d: int)
    ensures IsDisplacement(DecInt(d))
  {
    hide Dec, Decimal;
    DecimalNotation(if d < 0 then -d else d);
    assert ("-" + Dec(if d < 0 then -d else d))[1..] == Dec(if d < 0 then -d else d);
  }

  lemma ImmediateText(value: uint32, size: nat)
    requires size == 1 ==> value < 0x100
    requires size == 2 ==> value < 0x1_0000
    ensures ParseEa("#" + FormatImmediate(value, size), size) == Some(ImmediateEa(value, size))
  {
    hide FormatImmediate, ParseImmediate, IsNumber;
    ImmediateInverse(value, size);
    NumberNotation(value, size);
    NumberIsNonEmpty(FormatImmediate(value, size));
    assert ("#" + FormatImmediate(value, size))[1..] == FormatImmediate(value, size);
  }

  lemma NumberIsNonEmpty(s: string)
    requires IsNumber(s)
    ensures s != []
  {
  }

  lemma CommaText(d: int, rest: string, size: nat)
    ensures ParseEa(Parenthesised(d, rest), size) == ParseAfterDisplacement(d, rest)
  {
    hide ParseAfterDisplacement, ParseHex, ParseDec, ParseInt, DecInt, ParseImmediate, ImmediateEa, AbsoluteEa,
      ParseRegister, IsDisplacement, IsNumber, Hexadecimal;
    DisplacementNotation(d);
    var head := "(" + DecInt(d);
    var s := Parenthesised(d, rest);
    IndexOfFirst(head, ',', rest);
    assert s[1] == DecInt(d)[0];
    assert s[1..|head|] == DecInt(d);
    assert s[|head| + 1..] == rest;
    ParseIntInverse(d);
  }

  lemma ParseIndexText(prefix: string, t: string, r: regnum, z: char)
    requires |prefix| == 3 && t in {"D", "A"} && z in {'W', 'L'}
    ensures |prefix + IndexText(t, r, z)| == 8 && IsIndex((prefix + IndexText(t, r, z))[3..])
    ensures ParseIndex((prefix + IndexText(t, r, z))[3..])
            == IndexRegister(Register(ParseIndexRegisterKind(t), r), [z])
  {
    var s := IndexText(t, r, z);
    assert (prefix + s)[3..] == s;
    assert s[..1] == t && s[3..4] == [z];
    ParseRegisterInverse(r);
  }

  lemma DisplacementText(d: int, reg: regnum, size: nat)
    ensures ParseEa(Parenthesised(d, "A" + [Digit(reg as int)] + ")"), size)
            == Some(DisplacementEa(Displacement, 5, reg, Register(AddressRegister, reg), d, None))
  {
    CommaText(d, "A" + [Digit(reg as int)] + ")", size);
    ParseRegisterInverse(reg);
  }

  lemma IndexedText(d: int, reg: regnum, t: string, r: regnum, z: char, size: nat)
    requires t in {"D", "A"} && z in {'W', 'L'}
    ensures ParseEa(Parenthesised(d, "A" + [Digit(reg as int)] + "," + IndexText(t, r, z)), size)
            == Some(DisplacementEa(Index, 6, reg, Register(AddressRegister, reg), d,
                                   Some(IndexRegister(Register(ParseIndexRegisterKind(t), r), [z]))))
  {
    hide ParseEa, Parenthesised, IndexText, ParseIndex, IsIndex, IsRegisterDigit, ParseRegister;
    var prefix := "A" + [Digit(reg as int)] + ",";
    var rest := prefix + IndexText(t, r, z);
    CommaText(d, rest, size);
    ParseIndexText(prefix, t, r, z);
    ParseRegisterInverse(reg);
    assert rest[0] == 'A' && rest[1] == Digit(reg as int) && rest[2] == ',';
    assert rest != "PC)" && rest[..3] != "PC,";
  }

  lemma PcIndexedText(d: int, t: string, r: regnum, z: char, size: nat)
    requires t in {"D", "A"} && z in {'W', 'L'}
    ensures ParseEa(Parenthesised(d, "PC," + IndexText(t, r, z)), size)
            == Some(DisplacementEa(PCIndex, 7, 3, Register(ProgramCounter, 0), d,
                                   Some(IndexRegister(Register(ParseIndexRegisterKind(t), r), [z]))))
  {
    CommaText(d, "PC," + IndexText(t, r, z), size);
    ParseIndexText("PC,", t, r, z);
  }

  /** Printing then parsing an effective address gives back the structured address, for all twelve
      forms and all extension words. */
  lemma EaTextRoundTrip(data: seq<byte>, mode: bv3, reg: regnum, size: nat)
    requires DecodeAddressingMode(data, mode, reg, size).Ok?
    ensures var parts := DecodeAddressingMode(data, mode, reg, size).value;
            ParseEa(parts.text, size) == parts.operand.effectiveAddress
  {
    hide ParseEa, DecodeIndexWord, WordAt, LongAt;
    if mode < 5 {
      DirectText(mode, reg, size);
    } else if mode == 5 {
      DisplacementText(Signed(WordAt(data, 0) as int, 0x1_0000), reg, size);
    } else if mode == 6 {
      IndexedRoundTrip(data, reg, size);
    } else if reg == 4 {
      ImmediateRoundTrip(data, size);
    } else if reg < 2 {
      AbsoluteRoundTrip(data, reg, size);
    } else {
      PcRoundTrip(data, reg, size);
    }
  }

  lemma IndexedRoundTrip(data: seq<byte>, reg: regnum, size: nat)
    requires |data| >= 2
    ensures var parts := DecodeAddressingMode(data, 6, reg, size);
            parts.Ok? && ParseEa(parts.value.text, size) == parts.value.operand.effectiveAddress
  {
    hide ParseEa;
    var (t, r, z, d) := DecodeIndexWord(WordAt(data, 0));
    IndexedText(d, reg, t, r, z, size);
  }

  lemma ImmediateRoundTrip(data: seq<byte>, size: nat)
    requires DecodeImmediateMode(data, size).Ok?
    ensures var parts := DecodeImmediateMode(data, size).value;
            ParseEa(parts.text, size) == parts.operand.effectiveAddress
  {
    if size == 4 {
      ImmediateText(LongAt(data, 0), 4);
    } else if size == 2 {
      ImmediateText(WordAt(data, 0) as int, 2);
    } else {
      ImmediateText(LowByte(WordAt(data, 0)) as int, 1);
    }
  }

  lemma AbsoluteRoundTrip(data: seq<byte>, reg: regnum, size: nat)
    requires reg < 2 && DecodeMode7(data, reg, size).Ok?
    ensures var parts := DecodeMode7(data, reg, size).value;
            ParseEa(parts.text, size) == parts.operand.effectiveAddress
  {
    if reg == 0 {
      AbsoluteText(WordAt(data, 0) as int, 4, size);
    } else {
      AbsoluteText(LongAt(data, 0), 8, size);
    }
  }

  lemma PcRoundTrip(data: seq<byte>, reg: regnum, size: nat)
    requires 2 <= reg < 4 && DecodeMode7(data, reg, size).Ok?
    ensures var parts := DecodeMode7(data, reg, size).value;
            ParseEa(parts.text, size) == parts.operand.effectiveAddress
  {
    if reg == 2 {
      CommaText(Signed(WordAt(data, 0) as int, 0x1_0000), "PC)", size);
    } else {
      var (t, r, z, d) := DecodeIndexWord(WordAt(data, 0));
      PcIndexedText(d, t, r, z, size);
    }
  }

  /** Hence two decoded operands of one size that print alike are the same operand. */
  lemma EaTextInjective(d1: seq<byte>, m1: bv3, r1: regnum, d2: seq<byte>, m2: bv3, r2: regnum, size: nat)
    requires DecodeAddressingMode(d1, m1, r1, size).Ok? && DecodeAddressingMode(d2, m2, r2, size).Ok?
    requires DecodeAddressingMode(d1, m1, r1, size).value.text == DecodeAddressingMode(d2, m2, r2, size).value.text
    ensures DecodeAddressingMode(d1, m1, r1, size).value.operand == DecodeAddressingMode(d2, m2, r2, size).value.operand
  {
    EaTextRoundTrip(d1, m1, r1, size);
    EaTextRoundTrip(d2, m2, r2, size);
  }
}
