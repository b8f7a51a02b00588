/** Machine integers of the decoder: raw bytes and words are bit vectors, because the code masks and
    shifts them; numeric values (addresses, displacements, immediates) are bounded integers, because
    the code adds and prints them. */
module Words {
  type byte = bv8
  type word = bv16
  type uint32 = x: int | 0 <= x < 0x1_0000_0000

  /** binary.BigEndian.Uint16 on two bytes. */
  function Word(hi: byte, lo: byte): word {
    (hi as word << 8) | lo as word
  }

  function WordAt(data: seq<byte>, offset: nat): word
    requires offset + 2 <= |data|
  {
    Word(data[offset], data[offset + 1])
  }

  /** binary.BigEndian.Uint32 at `offset`, as a number. */
  function LongAt(data: seq<byte>, offset: nat): uint32
    requires offset + 4 <= |data|
  {
    0x1_0000 * (WordAt(data, offset) as int) + WordAt(data, offset + 2) as int
  }

  /** Two's complement reading of an 8-, 16- or 32-bit number, `range` being 2 to that power. */
  function Signed(value: int, range: int): (r: int)
    requires range in {0x100, 0x1_0000, 0x1_0000_0000} && 0 <= value < range
    ensures -range <= 2 * r < range
    ensures r % range == value
  {
    if 2 * value < range then value else value - range
  }

  /** uint32 addition of an offset or a signed displacement: wraps at 2^32. */
  function Advance(address: uint32, n: int): uint32 {
    (address + n) % 0x1_0000_0000
  }

  lemma AdvanceAdvance(a: uint32, m: int, n: int)
    ensures Advance(Advance(a, m), n) == Advance(a, m + n)
  {
  }

  function LowByte(w: word): byte {
    (w & 0xFF) as byte
  }

  function WordBytes(w: word): (b: seq<byte>)
    ensures |b| == 2
  {
    [((w >> 8) & 0xFF) as byte, LowByte(w)]
  }

  lemma WordBytesInverse(hi: byte, lo: byte)
    ensures WordBytes(Word(hi, lo)) == [hi, lo]
  {
  }

  lemma WordOfWordBytes(w: word)
    ensures WordAt(WordBytes(w), 0) == w
  {
  }

  /** The bit pattern and the number read the same two bytes. */
  lemma WordValue(hi: byte, lo: byte)
    ensures Word(hi, lo) as int == 0x100 * (hi as int) + lo as int
  {
    assert (hi as word << 8) as int == 0x100 * (hi as int);
    assert (lo as word) as int == lo as int;
    assert ((hi as word << 8) | lo as word) as int == (hi as word << 8) as int + (lo as word) as int;
  }

  /** Big-endian bytes of a 16-bit number. */
  function NumberBytes(n: int): (b: seq<byte>)
    requires 0 <= n < 0x1_0000
    ensures |b| == 2
    ensures WordAt(b, 0) as int == n
  {
    var hi, lo := ByteOf(n / 0x100), ByteOf(n % 0x100);
    WordOfNumber(n, hi, lo);
    [hi, lo]
  }

  lemma WordOfNumber(n: int, hi: byte, lo: byte)
    requires hi as int == n / 0x100 && lo as int == n % 0x100
    ensures WordAt([hi, lo], 0) as int == n
  {
    hide Word;
    WordValue(hi, lo);
  }

  /** byte(n) for a number in range. */
  function ByteOf(n: int): (b: byte)
    requires 0 <= n < 0x100
    ensures b as int == n
  {
    if n == 0 then 0 else NextByte(ByteOf(n - 1)); ByteOf(n - 1) + 1
  }

  lemma NextByte(b: byte)
    requires b as int < 0xFF
    ensures (b + 1) as int == b as int + 1
  {
  }

  lemma ByteOfValue(b: byte)
    ensures ByteOf(b as int) == b
  {
    var c := ByteOf(b as int);
    assert (c as int) as byte == c && (b as int) as byte == b;
  }

  lemma NumberBytesInverse(hi: byte, lo: byte)
    ensures NumberBytes(Word(hi, lo) as int) == [hi, lo]
  {
    hide Word, ByteOf;
    WordValue(hi, lo);
    var n := Word(hi, lo) as int;
    assert n / 0x100 == hi as int && n % 0x100 == lo as int;
    ByteOfValue(hi);
    ByteOfValue(lo);
  }

  // ---- numbers by their bytes ----

  /** The number that bytes spell, most significant first. */
  function BigEndian(b: seq<byte>): nat {
    if b == [] then 0 else 0x100 * BigEndian(b[..|b| - 1]) + b[|b| - 1] as int
  }

  lemma BigEndianByte(b: byte)
    ensures BigEndian([b]) == b as int
  {
    assert [b][..0] == [];
  }

  lemma BigEndianWord(b: seq<byte>)
    requires |b| == 2
    ensures BigEndian(b) == WordAt(b, 0) as int
  {
    hide Word;
    assert b[..1] == [b[0]];
    BigEndianByte(b[0]);
    WordValue(b[0], b[1]);
  }

  lemma BigEndianLong(b: seq<byte>)
    requires |b| == 4
    ensures BigEndian(b) == LongAt(b, 0)
  {
    hide Word;
    var front := b[..3];
    assert front[..2] == b[..2] && front[2] == b[2];
    BigEndianWord(b[..2]);
    assert WordAt(b[..2], 0) == WordAt(b, 0);
    assert BigEndian(front) == 0x100 * BigEndian(b[..2]) + b[2] as int;
    WordValue(b[2], b[3]);
  }

  /** s is the two's complement reading of v: the number around zero that is v modulo `range`. */
  predicate Extends(s: int, v: int, range: int) {
    range > 0 && -range <= 2 * s < range && s % range == v
  }

  lemma SignedExtends(v: int, range: int)
    requires range in {0x100, 0x1_0000, 0x1_0000_0000} && 0 <= v < range
    ensures Extends(Signed(v, range), v, range)
  {
  }

  /** collectExtensionWords on the bytes behind the opcode; an odd byte at the end is dropped. */
  function WordsOf(b: seq<byte>): (ws: seq<word>)
    ensures |ws| == |b| / 2
    ensures forall i :: 0 <= i < |ws| ==> ws[i] == WordAt(b, 2 * i)
  {
    if |b| < 2 then [] else [WordAt(b, 0)] + WordsOf(b[2..])
  }

  function BytesOf(ws: seq<word>): seq<byte> {
    if ws == [] then [] else WordBytes(ws[0]) + BytesOf(ws[1..])
  }

  lemma {:induction false} BytesOfWordsOf(b: seq<byte>)
    requires |b| % 2 == 0
    ensures BytesOf(WordsOf(b)) == b
  {
    if b != [] {
      BytesOfWordsOf(b[2..]);
      WordBytesInverse(b[0], b[1]);
      assert WordsOf(b)[1..] == WordsOf(b[2..]);
      assert b == [b[0], b[1]] + b[2..];
    }
  }

  /** common.go: the loop that gathers the extension words of an instruction. */
  method CollectExtensionWords(data: seq<byte>) returns (words: seq<word>)
    ensures words == if |data| <= 2 then [] else WordsOf(data[2..])
  {
    if |data| <= 2 {
      return [];
    }
    var extBytes := data[2..];
    words := [];
    var i := 0;
    while i + 1 < |extBytes|
      invariant 0 <= i <= |extBytes| && i % 2 == 0
      invariant words == WordsOf(extBytes)[..i / 2]
    {
      words := words + [WordAt(extBytes, i)];
      i := i + 2;
    }
  }
}
