/** The digit printers behind the format verbs %d, %X, %02X, %04X and %08X, their inverses, and the
    ", "-join of operand texts. */
module Text {

  predicate IsDigit(c: char) {
    '0' <= c <= '9'
  }

  function Digit(n: nat): (c: char)
    requires n < 10
    ensures IsDigit(c)
  {
    ('0' as int + n) as char
  }

  function DigitValue(c: char): (n: nat)
    ensures IsDigit(c) ==> n < 10 && Digit(n) == c
  {
    if IsDigit(c) then c as int - '0' as int else 0
  }

  lemma DigitInverse(n: nat)
    requires n < 10
    ensures DigitValue(Digit(n)) == n
  {
  }

  /** %d of a non-negative number. */
  function Dec(n: nat): (s: string)
    ensures s != [] && forall c <- s :: IsDigit(c)
    ensures n > 0 ==> s[0] != '0'
  {
    if n < 10 then [Digit(n)] else Dec(n / 10) + [Digit(n % 10)]
  }

  /** %d */
  function DecInt(n: int): (s: string)
    ensures s != [] && (s[0] == '-' || IsDigit(s[0])) && forall c <- s :: c == '-' || IsDigit(c)
  {
    if n < 0 then "-" + Dec(-n) else Dec(n)
  }

  function ParseDec(s: string): nat {
    if s == [] then 0 else 10 * ParseDec(s[..|s| - 1]) + DigitValue(s[|s| - 1])
  }

  function ParseInt(s: string): int {
    if s != [] && s[0] == '-' then 0 - ParseDec(s[1..]) else ParseDec(s)
  }

  lemma {:induction false} ParseDecInverse(n: nat)
    ensures ParseDec(Dec(n)) == n
  {
    DigitInverse(n % 10);
    if n < 10 {
      assert Dec(n)[..0] == [];
    } else {
      ParseDecInverse(n / 10);
      assert Dec(n)[..|Dec(n)| - 1] == Dec(n / 10);
    }
  }

  lemma ParseIntInverse(n: int)
    ensures ParseInt(DecInt(n)) == n
  {
    var digits := Dec(if n < 0 then -n else n);
    ParseDecInverse(if n < 0 then -n else n);
    ParseIntOfDigits(digits);
  }

  lemma ParseIntOfDigits(digits: string)
    requires digits != [] && forall c <- digits :: IsDigit(c)
    ensures ParseInt(digits) == ParseDec(digits)
    ensures ParseInt("-" + digits) == 0 - ParseDec(digits)
  {
    assert digits[0] in digits;
    assert ("-" + digits)[1..] == digits;
  }

  predicate IsHexDigit(c: char) {
    IsDigit(c) || 'A' <= c <= 'F'
  }

  function HexDigit(n: nat): (c: char)
    requires n < 16
    ensures IsHexDigit(c)
  {
    if n < 10 then Digit(n) else ('A' as int + n - 10) as char
  }

  function HexValue(c: char): nat {
    if IsDigit(c) then c as int - '0' as int else if 'A' <= c <= 'F' then c as int - 'A' as int + 10 else 0
  }

  lemma HexDigitInverse(n: nat)
    requires n < 16
    ensures HexValue(HexDigit(n)) == n
  {
  }

  /** The last `width` hexadecimal digits: %02X, %04X and %08X of a number that fits. */
  function Hex(n: nat, width: nat): (s: string)
    ensures |s| == width && forall c <- s :: IsHexDigit(c)
  {
    if width == 0 then "" else Hex(n / 16, width - 1) + [HexDigit(n % 16)]
  }

  /** %X, the digits without leading zeros. */
  function HexShort(n: nat): (s: string)
    ensures s != [] && forall c <- s :: IsHexDigit(c)
    ensures n > 0 ==> s[0] != '0'
  {
    if n < 16 then [HexDigit(n)] else HexShort(n / 16) + [HexDigit(n % 16)]
  }

  function ParseHex(s: string): nat {
    if s == [] then 0 else 16 * ParseHex(s[..|s| - 1]) + HexValue(s[|s| - 1])
  }

  function HexRange(width: nat): nat {
    if width == 0 then 1 else 16 * HexRange(width - 1)
  }

  lemma HexRanges()
    ensures HexRange(2) == 0x100 && HexRange(4) == 0x1_0000 && HexRange(8) == 0x1_0000_0000
  {
    assert HexRange(2) == 0x100;
    assert HexRange(4) == 0x100 * HexRange(2);
    assert HexRange(6) == 0x100 * HexRange(4);
    assert HexRange(8) == 0x100 * HexRange(6);
  }

  lemma {:induction false} ParseHexInverse(n: nat, width: nat)
    requires n < HexRange(width)
    ensures ParseHex(Hex(n, width)) == n
  {
    if width > 0 {
      ParseHexInverse(n / 16, width - 1);
      HexDigitInverse(n % 16);
      assert Hex(n, width)[..width - 1] == Hex(n / 16, width - 1);
    }
  }

  lemma {:induction false} ParseHexShortInverse(n: nat)
    ensures ParseHex(HexShort(n)) == n
  {
    HexDigitInverse(n % 16);
    var s := HexShort(n);
    if n < 16 {
      assert s[..0] == [];
    } else {
      ParseHexShortInverse(n / 16);
      assert s[..|s| - 1] == HexShort(n / 16);
    }
  }

  /** Position of the first `c`, or the length. */
  function IndexOf(s: string, c: char): (i: nat)
    ensures i <= |s|
    ensures i < |s| ==> s[i] == c
    ensures forall j :: 0 <= j < i ==> s[j] != c
  {
    if s == [] || s[0] == c then 0 else 1 + IndexOf(s[1..], c)
  }

  lemma IndexOfFirst(a: string, c: char, b: string)
    requires c !in a
    ensures IndexOf(a + [c] + b, c) == |a|
  {
    var s := a + [c] + b;
    assert s[|a|] == c;
    assert forall j :: 0 <= j < |a| ==> s[j] == a[j];
  }

  // ---- joining operand texts ----

  function JoinTail(parts: seq<string>): string {
    if parts == [] then "" else ", " + parts[0] + JoinTail(parts[1..])
  }

  function Join(parts: seq<string>): string {
    if parts == [] then "" else parts[0] + JoinTail(parts[1..])
  }

  lemma JoinOne(a: string)
    ensures Join([a]) == a
  {
  }

  lemma JoinTwo(a: string, b: string)
    ensures Join([a, b]) == a + ", " + b
  {
    assert [a, b][1..] == [b];
    assert JoinTail([b]) == ", " + b;
  }

  /** disasm.go: joinOperands. */
  method JoinOperands(parts: seq<string>) returns (out: string)
    ensures out == Join(parts)
  {
    if |parts| == 0 {
      return "";
    }
    out := parts[0];
    for i := 1 to |parts|
      invariant out + JoinTail(parts[i..]) == Join(parts)
    {
      assert parts[i..][1..] == parts[i + 1..];
      assert out + (", " + parts[i] + JoinTail(parts[i + 1..])) == (out + ", " + parts[i]) + JoinTail(parts[i + 1..]);
      out := out + ", " + parts[i];
    }
  }

  predicate NoSpace(s: string) {
    ' ' !in s
  }

  /** Cuts an operand string back into operand texts at each ", ". */
  function Split(s: string): (parts: seq<string>)
    ensures parts != []
    decreases |s|
  {
    var i := IndexOf(s, ' ');
    if i < |s| && i > 0 && s[i - 1] == ',' then [s[..i - 1]] + Split(s[i + 1..]) else [s]
  }

  lemma SplitStep(first: string, tail: string)
    requires NoSpace(first)
    ensures Split(first + ", " + tail) == [first] + Split(tail)
  {
    var s := first + ", " + tail;
    assert s == (first + ",") + [' '] + tail;
    IndexOfFirst(first + ",", ' ', tail);
    assert s[..|first|] == first && s[|first| + 2..] == tail;
  }

  lemma JoinStep(parts: seq<string>)
    requires |parts| > 1
    ensures Join(parts) == parts[0] + ", " + Join(parts[1..])
  {
    var rest := parts[1..];
    assert parts[0] + (", " + rest[0] + JoinTail(rest[1..])) == parts[0] + ", " + (rest[0] + JoinTail(rest[1..]));
  }

  /** The join of at least one operand text can be cut back uniquely. */
  lemma {:induction false} SplitJoin(parts: seq<string>)
    requires parts != []
    requires forall p <- parts :: NoSpace(p)
    ensures Split(Join(parts)) == parts
  {
    hide NoSpace, JoinTail;
    assert parts[0] in parts;
    if |parts| == 1 {
      SplitOne(parts[0]);
      JoinOne(parts[0]);
      assert parts == [parts[0]];
    } else {
      hide Split;
      JoinStep(parts);
      SplitStep(parts[0], Join(parts[1..]));
      SplitJoin(parts[1..]);
    }
  }

  lemma SplitOne(s: string)
    requires NoSpace(s)
    ensures Split(s) == [s]
  {
    assert IndexOf(s, ' ') == |s|;
  }
}
