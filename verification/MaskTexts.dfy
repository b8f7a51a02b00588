/** Which MOVEM masks their printed text determines, whoever reads it. */
module MaskTexts {
  import opened Words
  import opened RegisterLists

  // ---- bits ----

  lemma SingleBits()
    ensures Single(0) == 0x1 && Single(1) == 0x2 && Single(2) == 0x4 && Single(3) == 0x8
    ensures Single(4) == 0x10 && Single(5) == 0x20 && Single(6) == 0x40 && Single(7) == 0x80
    ensures Single(8) == 0x100 && Single(9) == 0x200 && Single(10) == 0x400 && Single(11) == 0x800
    ensures Single(12) == 0x1000 && Single(13) == 0x2000 && Single(14) == 0x4000 && Single(15) == 0x8000
  {
  }

  lemma SinglesApart(i: nat, j: nat)
    requires i < 16 && j < 16 && i != j
    ensures Single(i) & Single(j) == 0
  {
    hide Single;
    SingleBits();
  }

  lemma SingleIsSet(i: nat)
    requires i < 16
    ensures Single(i) != 0
  {
    hide Single;
    SingleBits();
  }

  function SetBit(mask: word, i: nat): (r: word)
    requires i < 16
  {
    mask | Single(i)
  }

  function ClearBit(mask: word, i: nat): word
    requires i < 16
  {
    mask & !Single(i)
  }

  lemma OrKeeps(m: word, a: word)
    ensures (m | a) & a == a
  {
  }

  /** The bits two words share. */
  function Shared(a: word, b: word): word {
    a & b
  }

  lemma OrApart(m: word, a: word, b: word)
    requires Shared(a, b) == 0
    ensures Shared(m | a, b) == Shared(m, b)
  {
  }

  lemma AndApart(m: word, a: word, b: word)
    requires Shared(a, b) == 0
    ensures Shared(m & !a, b) == Shared(m, b)
  {
  }

  lemma HasBitIsShared(mask: word, i: nat)
    requires i < 16
    ensures HasBit(mask, i) <==> Shared(mask, Single(i)) != 0
  {
    hide Single;
  }

  lemma SharedSingles(i: nat, j: nat)
    requires i < 16 && j < 16 && i != j
    ensures Shared(Single(i), Single(j)) == 0
  {
    hide Single;
    SinglesApart(i, j);
  }

  lemma AndNot(m: word, a: word)
    ensures (m & !a) & a == 0
  {
  }

  lemma SetBitSame(mask: word, i: nat)
    requires i < 16
    ensures HasBit(SetBit(mask, i), i)
  {
    hide Single;
    SingleIsSet(i);
    OrKeeps(mask, Single(i));
  }

  lemma SetBitOther(mask: word, i: nat, j: nat)
    requires i < 16 && j < 16 && i != j
    ensures HasBit(SetBit(mask, i), j) <==> HasBit(mask, j)
  {
    hide Single, Shared, HasBit;
    SharedSingles(i, j);
    OrApart(mask, Single(i), Single(j));
    HasBitIsShared(mask, j);
    HasBitIsShared(SetBit(mask, i), j);
  }

  lemma ClearBitSame(mask: word, i: nat)
    requires i < 16
    ensures !HasBit(ClearBit(mask, i), i)
  {
    hide Single;
    AndNot(mask, Single(i));
  }

  lemma ClearBitOther(mask: word, i: nat, j: nat)
    requires i < 16 && j < 16 && i != j
    ensures HasBit(ClearBit(mask, i), j) <==> HasBit(mask, j)
  {
    hide Single, Shared, HasBit;
    SharedSingles(i, j);
    AndApart(mask, Single(i), Single(j));
    HasBitIsShared(mask, j);
    HasBitIsShared(ClearBit(mask, i), j);
  }

  /** The mask with register bit `from` moved to `to`. */
  function Moved(mask: word, from: nat, to: nat): word
    requires from < 16 && to < 16
  {
    SetBit(ClearBit(mask, from), to)
  }

  lemma BitsOfMoved(mask: word, from: nat, to: nat, j: nat)
    requires from < 16 && to < 16 && from != to && j < 16
    ensures HasBit(Moved(mask, from, to), j) <==> j == to || (j != from && HasBit(mask, j))
  {
    hide HasBit, SetBit, ClearBit;
    if j == to {
      SetBitSame(ClearBit(mask, from), to);
    } else {
      SetBitOther(ClearBit(mask, from), to, j);
      if j == from {
        ClearBitSame(mask, from);
      } else {
        ClearBitOther(mask, from, j);
      }
    }
  }

  // ---- names of a mask ----

  lemma {:induction false} NamesSplit(mask: word, lo: nat, mid: nat, hi: nat)
    requires lo <= mid <= hi <= 16
    ensures Names(mask, lo, hi) == Names(mask, lo, mid) + Names(mask, mid, hi)
  {
    hide HasBit;
    if mid < hi {
      NamesSplit(mask, lo, mid, hi - 1);
    }
  }

  lemma {:induction false} SameNames(m1: word, m2: word, lo: nat, hi: nat)
    requires hi <= 16 && forall i :: lo <= i < hi ==> HasBit(m1, i) == HasBit(m2, i)
    ensures Names(m1, lo, hi) == Names(m2, lo, hi)
  {
    hide HasBit;
    if lo < hi {
      SameNames(m1, m2, lo, hi - 1);
    }
  }

  lemma {:induction false} NoNames(mask: word, lo: nat, hi: nat)
    requires hi <= 16 && forall i :: lo <= i < hi ==> !HasBit(mask, i)
    ensures Names(mask, lo, hi) == []
  {
    hide HasBit;
    if lo < hi {
      NoNames(mask, lo, hi - 1);
    }
  }

  lemma OneName(mask: word, i: nat)
    requires i < 16 && HasBit(mask, i)
    ensures Names(mask, i, i + 1) == [NameOf(i)]
  {
    hide HasBit, NameOf;
    assert Names(mask, i, i) == [];
  }

  /** Only bit t separates the two halves of the list: no D register from `dFrom` on, no A register
      below bit `aTo`. */
  predicate Gap(mask: word, dFrom: nat, aTo: nat)
    requires dFrom <= 8 <= aTo <= 16
  {
    && (forall i :: dFrom <= i < 8 ==> !HasBit(mask, i))
    && (forall i :: 8 <= i < aTo ==> !HasBit(mask, i))
  }

  /** D register t is the last of x; y has A register t instead, and it is the first. */
  predicate Twins(x: word, y: word, t: nat)
    requires t < 8
  {
    && HasBit(x, t) && Gap(x, t + 1, 9 + t) && HasBit(y, 8 + t) && Gap(y, t, 8 + t)
    && (forall i :: 0 <= i < 16 && (i < t || 9 + t <= i) ==> HasBit(x, i) == HasBit(y, i))
  }

  lemma TwinNames(x: word, y: word, t: nat)
    requires t < 8 && Twins(x, y, t)
    ensures RegisterNames(x) == Names(x, 0, t) + [NameOf(t)] + Names(x, 9 + t, 16)
    ensures RegisterNames(y) == Names(x, 0, t) + [NameOf(8 + t)] + Names(x, 9 + t, 16)
  {
    hide HasBit, NameOf, Names;
    NamesSplit(x, 0, t, 8);
    NamesSplit(x, t, t + 1, 8);
    OneName(x, t);
    NoNames(x, t + 1, 8);
    NamesSplit(x, 8, 9 + t, 16);
    NoNames(x, 8, 9 + t);
    NamesSplit(y, 0, t, 8);
    NoNames(y, t, 8);
    SameNames(x, y, 0, t);
    NamesSplit(y, 8, 8 + t, 16);
    NoNames(y, 8, 8 + t);
    NamesSplit(y, 8 + t, 9 + t, 16);
    OneName(y, 8 + t);
    SameNames(x, y, 9 + t, 16);
  }

  // ---- what a list leaves unprinted ----

  predicate SameDigits(a: seq<string>, b: seq<string>) {
    |a| == |b| && AllNames(a) && AllNames(b)
    && forall i :: 0 <= i < |a| ==> ExtractRegNum(a[i]) == ExtractRegNum(b[i])
  }

  /** The name at position p is neither first nor last of its run. */
  predicate Inner(registers: seq<string>, p: nat) {
    && 0 < p < |registers| - 1
    && Consecutive(registers[p - 1], registers[p]) && Consecutive(registers[p], registers[p + 1])
  }

  lemma {:induction false} SameRunEnd(a: seq<string>, b: seq<string>, j: nat)
    requires SameDigits(a, b) && 1 <= j <= |a|
    ensures RunEnd(a, j) == RunEnd(b, j)
    decreases |a| - j
  {
    hide ExtractRegNum, IsName;
    if j < |a| && Consecutive(a[j - 1], a[j]) {
      SameRunEnd(a, b, j + 1);
    }
  }

  lemma RunIsNotCutAt(a: seq<string>, p: nat, j: nat)
    requires Inner(a, p) && 1 <= j <= |a|
    ensures RunEnd(a, j) != p && RunEnd(a, j) != p + 1
  {
    hide Consecutive, RunEnd;
    RunIsMaximal(a, j);
  }

  /** The letter of an inner name is not printed. */
  lemma {:induction false} InnerIsUnprinted(a: seq<string>, b: seq<string>, p: nat, i: nat)
    requires SameDigits(a, b) && Inner(a, p) && i <= |a| && i != p
    requires forall k :: 0 <= k < |a| && k != p ==> a[k] == b[k]
    ensures Runs(a, i) == Runs(b, i)
    decreases |a| - i
  {
    hide ExtractRegNum, IsName, RunEnd, Consecutive;
    if i < |a| {
      var end := RunEnd(a, i + 1);
      SameRunEnd(a, b, i + 1);
      RunIsNotCutAt(a, p, i + 1);
      InnerIsUnprinted(a, b, p, end);
      assert a[i] == b[i] && a[end - 1] == b[end - 1];
    }
  }

  /** Lists that print alike differ only in inner names. */
  lemma {:induction false} DifferenceIsInner(a: seq<string>, b: seq<string>, i: nat, k: nat)
    requires SameDigits(a, b) && i <= k < |a| && a[k] != b[k] && Runs(a, i) == Runs(b, i)
    ensures k != i && Inner(a, k)
    decreases |a| - i
  {
    hide ExtractRegNum, IsName, RunEnd, Consecutive;
    var end := RunEnd(a, i + 1);
    SameRunEnd(a, b, i + 1);
    RunIsMaximal(a, i + 1);
    assert Runs(a, i)[0] == Run(a[i], a[end - 1]) && Runs(b, i)[0] == Run(b[i], b[end - 1]);
    if k >= end {
      assert Runs(a, i)[1..] == Runs(a, end) && Runs(b, i)[1..] == Runs(b, end);
      DifferenceIsInner(a, b, end, k);
    }
  }

  // ---- masks that share their text ----

  lemma {:induction false} HighestIsLast(mask: word, lo: nat, hi: nat)
    requires hi <= 16
    ensures var r := Highest(mask, lo, hi);
            && (r >= 0 ==> HasBit(mask, r))
            && (forall i :: lo <= i < hi && r < i ==> !HasBit(mask, i))
  {
    hide HasBit;
    if lo < hi {
      HighestIsLast(mask, lo, hi - 1);
    }
  }

  lemma {:induction false} LowestIsFirst(mask: word, lo: nat, hi: nat)
    requires hi <= 16
    ensures var r := Lowest(mask, lo, hi);
            && (r >= 0 ==> HasBit(mask, r))
            && (forall i :: lo <= i < hi && (r < 0 || i < r) ==> !HasBit(mask, i))
  {
    hide HasBit;
    if lo < hi {
      LowestIsFirst(mask, lo, hi - 1);
    }
  }

  /** A run goes from D to A registers, and goes on before the last D or behind the first A register. */
  predicate Ambiguous(mask: word) {
    var h, l := Highest(mask, 0, 8), Lowest(mask, 8, 16);
    Crosses(mask) && ((h > 0 && HasBit(mask, h - 1)) || (l < 15 && HasBit(mask, l + 1)))
  }

  /** Around the register that separates twins the list has neighbours in the same run. */
  lemma TwinNeighbours(x: word, y: word, t: nat)
    requires 0 < t < 7 && Twins(x, y, t) && HasBit(x, t - 1) && HasBit(x, 9 + t)
    ensures var p := |Names(x, 0, t)|;
            var a, b := RegisterNames(x), RegisterNames(y);
            && |a| == |b| && 0 < p < |a| - 1
            && a[p - 1] == NameOf(t - 1) && a[p] == NameOf(t) && a[p + 1] == NameOf(9 + t) && b[p] == NameOf(8 + t)
            && (forall k :: 0 <= k < |a| && k != p ==> a[k] == b[k])
  {
    hide HasBit, NameOf, Names, RegisterNames;
    TwinNames(x, y, t);
    NamesSplit(x, 0, t - 1, t);
    OneName(x, t - 1);
    NamesSplit(x, 9 + t, 10 + t, 16);
    OneName(x, 9 + t);
  }

  lemma TwinsPrintAlike(x: word, y: word, t: nat)
    requires 0 < t < 7 && Twins(x, y, t) && HasBit(x, t - 1) && HasBit(x, 9 + t)
    ensures x != y && RegisterListText(x) == RegisterListText(y)
  {
    hide HasBit, Names, AppendRuns, Runs;
    TwinNeighbours(x, y, t);
    var p := |Names(x, 0, t)|;
    InnerIsUnprinted(RegisterNames(x), RegisterNames(y), p, 0);
  }

  lemma AmbiguousHasTwin(mask: word) returns (other: word)
    requires Ambiguous(mask)
    ensures other != mask && RegisterListText(other) == RegisterListText(mask)
  {
    hide HasBit, Highest, Lowest, RegisterListText, Moved;
    var h, l := Highest(mask, 0, 8), Lowest(mask, 8, 16);
    HighestIsLast(mask, 0, 8);
    LowestIsFirst(mask, 8, 16);
    if h > 0 && HasBit(mask, h - 1) {
      other := Moved(mask, h, 8 + h);
      forall j: nat | j < 16
        ensures HasBit(other, j) <==> j == 8 + h || (j != h && HasBit(mask, j))
      {
        BitsOfMoved(mask, h, 8 + h, j);
      }
      TwinsPrintAlike(mask, other, h);
    } else {
      other := Moved(mask, l, l - 8);
      forall j: nat | j < 16
        ensures HasBit(other, j) <==> j == l - 8 || (j != l && HasBit(mask, j))
      {
        BitsOfMoved(mask, l, l - 8, j);
      }
      TwinsPrintAlike(other, mask, l - 8);
    }
  }

  /** Masks that print alike list the same numbers. */
  lemma AlikeDigits(m1: word, m2: word)
    requires RegisterListText(m1) == RegisterListText(m2)
    ensures var a, b := RegisterNames(m1), RegisterNames(m2);
            SameDigits(a, b) && Runs(a, 0) == Runs(b, 0)
  {
    hide Names, HasBit, AppendRuns, Runs, RegisterNames;
    var a, b := RegisterNames(m1), RegisterNames(m2);
    CrossesMeaning(m1);
    CrossesMeaning(m2);
    RunsAreNamed(a, 0);
    RunsAreNamed(b, 0);
    ReadRunsInverse(Runs(a, 0));
    ReadRunsInverse(Runs(b, 0));
    CompressionKeepsNumbers(a);
    CompressionKeepsNumbers(b);
  }

  /** Letters of the names of a mask: D registers first. */
  lemma LettersOf(mask: word, k: nat)
    requires k < |RegisterNames(mask)|
    ensures AllNames(RegisterNames(mask))
    ensures RegisterNames(mask)[k][0] == if k < |Names(mask, 0, 8)| then 'D' else 'A'
  {
    hide Names, HasBit;
    NamesLetter(mask, 0, 8);
    NamesLetter(mask, 8, 16);
  }

  lemma NameHasBit(mask: word, k: nat)
    requires k < |RegisterNames(mask)|
    ensures var b := BitOf(RegisterNames(mask)[k]);
            0 <= b < 16 && HasBit(mask, b)
  {
    hide Names, HasBit, BitOf;
    BitsOfRegisterNames(mask);
    assert BitOf(RegisterNames(mask)[k]) in BitsOf(RegisterNames(mask));
  }

  lemma DifferenceAt(m1: word, m2: word) returns (k: nat)
    requires m1 != m2 && SameDigits(RegisterNames(m1), RegisterNames(m2))
    ensures var n1, n2 := |Names(m1, 0, 8)|, |Names(m2, 0, 8)|;
            && n1 != n2 && k == (if n1 < n2 then n1 else n1 - 1) && k < |RegisterNames(m1)|
    ensures RegisterNames(m1)[k] != RegisterNames(m2)[k]
  {
    hide Names, HasBit, RegisterNames;
    var a, b := RegisterNames(m1), RegisterNames(m2);
    var n1, n2 := |Names(m1, 0, 8)|, |Names(m2, 0, 8)|;
    if n1 == n2 {
      forall i | 0 <= i < |a|
        ensures a[i] == b[i]
      {
        LettersOf(m1, i);
        LettersOf(m2, i);
        NumberedName(a[i]);
        NumberedName(b[i]);
      }
      BitsOfRegisterNames(m1);
      BitsOfRegisterNames(m2);
      MaskOfBits(m1, m2);
      assert false;
    }
    NamesLength(m1);
    NamesLength(m2);
    k := if n1 < n2 then n1 else n1 - 1;
    LettersOf(m1, k);
    LettersOf(m2, k);
  }

  lemma NamesLength(mask: word)
    ensures |Names(mask, 0, 8)| <= |RegisterNames(mask)|
  {
    hide Names;
  }

  /** An inner name next to the border: the run crosses there and goes on. */
  lemma InnerAtBorder(mask: word, k: nat)
    requires Inner(RegisterNames(mask), k)
    requires k == |Names(mask, 0, 8)| || k == |Names(mask, 0, 8)| - 1
    ensures Ambiguous(mask)
  {
    hide Names, HasBit, Highest, Lowest, Consecutive;
    var a, n := RegisterNames(mask), |Names(mask, 0, 8)|;
    BorderNames(mask);
    LettersOf(mask, k - 1);
    LettersOf(mask, k + 1);
    NameHasBit(mask, k - 1);
    NameHasBit(mask, k + 1);
    ConsecutiveBits(a[k - 1], a[k]);
    ConsecutiveBits(a[k], a[k + 1]);
  }

  /** The names on both sides of the border. */
  lemma BorderNames(mask: word)
    requires 0 < |Names(mask, 0, 8)| < |RegisterNames(mask)|
    ensures var n := |Names(mask, 0, 8)|;
            && Highest(mask, 0, 8) >= 0 && RegisterNames(mask)[n - 1] == NameOf(Highest(mask, 0, 8))
            && Lowest(mask, 8, 16) >= 8 && RegisterNames(mask)[n] == NameOf(Lowest(mask, 8, 16))
  {
    hide Names, HasBit, Highest, Lowest, NameOf;
    NamesEnds(mask, 0, 8);
    NamesEnds(mask, 8, 16);
  }

  lemma ConsecutiveBits(a: string, b: string)
    requires IsName(a) && IsName(b) && Consecutive(a, b)
    ensures BitOf(b) == BitOf(a) + (if a[0] == b[0] then 1 else if a[0] == 'D' then 9 else -7)
  {
  }

  /** The text of a mask is shared by another mask exactly when the mask is ambiguous. */
  lemma TextIsSharedIff(mask: word)
    ensures (exists other :: other != mask && RegisterListText(other) == RegisterListText(mask)) <==> Ambiguous(mask)
  {
    hide RegisterListText, Ambiguous, RegisterNames, Names;
    if Ambiguous(mask) {
      var other := AmbiguousHasTwin(mask);
    }
    forall other | other != mask && RegisterListText(other) == RegisterListText(mask)
      ensures Ambiguous(mask)
    {
      AlikeDigits(mask, other);
      var k := DifferenceAt(mask, other);
      DifferenceIsInner(RegisterNames(mask), RegisterNames(other), 0, k);
      InnerAtBorder(mask, k);
    }
  }

  /** The text of a mask that does not cross is no other mask's text, crossing or not. */
  lemma UncrossedTextIsInjective(m1: word, m2: word)
    requires !Crosses(m1) && RegisterListText(m1) == RegisterListText(m2)
    ensures m1 == m2
  {
    hide RegisterListText, Crosses;
    TextIsSharedIff(m1);
  }

  // ---- instances ----

  /** Two crossing masks that print alike: D0/D1/A2 and D0/A1/A2. */
  lemma CrossingIsAmbiguous()
    ensures RegisterListText(0x0403) == RegisterListText(0x0601) == "D0-A2"
    ensures Crosses(0x0403) && Crosses(0x0601)
  {
    NamesOfFirst();
    NamesOfSecond();
    assert Consecutive("D0", "D1") && Consecutive("D1", "A2") && "D0" != "A2";
    RunOfThree("D0", "D1", "A2");
    assert Consecutive("D0", "A1") && Consecutive("A1", "A2");
    RunOfThree("D0", "A1", "A2");
    SpanText();
  }

  lemma SpanText()
    ensures "D0" + "-" + "A2" == "D0-A2"
  {
  }

  lemma NamesOfFirst()
    ensures RegisterNames(0x0403) == ["D0", "D1", "A2"] && Crosses(0x0403)
  {
    assert Names(0x0403, 0, 8) == ["D0", "D1"];
    assert Names(0x0403, 8, 11) == ["A2"];
    assert Names(0x0403, 8, 16) == Names(0x0403, 8, 11);
    assert Highest(0x0403, 0, 8) == 1;
    assert Lowest(0x0403, 8, 11) == 10;
  }

  lemma NamesOfSecond()
    ensures RegisterNames(0x0601) == ["D0", "A1", "A2"] && Crosses(0x0601)
  {
    assert Names(0x0601, 0, 8) == ["D0"];
    assert Names(0x0601, 8, 11) == ["A1", "A2"];
    assert Names(0x0601, 8, 16) == Names(0x0601, 8, 11);
    assert Highest(0x0601, 0, 8) == 0;
    assert Lowest(0x0601, 8, 11) == 9;
  }

  lemma RunOfThree(a: string, b: string, c: string)
    requires Consecutive(a, b) && Consecutive(b, c) && a != c
    ensures AppendRuns("", Runs([a, b, c], 0)) == a + "-" + c
  {
    var s := [a, b, c];
    assert RunEnd(s, 3) == 3;
    assert RunEnd(s, 2) == 3;
    assert RunEnd(s, 1) == 3;
    assert Runs(s, 3) == [];
    assert Separated("") + RunText(Run(a, c)) == a + "-" + c;
    AppendNextRun("", a + "-" + c, s, 0);
  }

  /** A crossing mask whose text is its own: D0/A1. */
  lemma CrossingCanBeUnique(other: word)
    ensures Crosses(0x0201) && RegisterListText(0x0201) == "D0-A1"
    ensures RegisterListText(other) == RegisterListText(0x0201) ==> other == 0x0201
  {
    hide RegisterListText, Ambiguous;
    UniqueNames();
    RunOfTwo("D0", "A1");
    TextIsSharedIff(0x0201);
  }

  lemma UniqueNames()
    ensures RegisterListText(0x0201) == AppendRuns("", Runs(["D0", "A1"], 0))
    ensures Crosses(0x0201) && !Ambiguous(0x0201)
  {
    hide AppendRuns, Runs;
    assert Names(0x0201, 0, 8) == ["D0"];
    assert Names(0x0201, 8, 10) == ["A1"];
    assert Names(0x0201, 8, 16) == Names(0x0201, 8, 10);
    assert Highest(0x0201, 0, 8) == 0;
    assert Lowest(0x0201, 8, 10) == 9;
    assert Lowest(0x0201, 8, 16) == 9;
    assert ["D0"] + ["A1"] == ["D0", "A1"];
  }

  lemma RunOfTwo(a: string, b: string)
    requires Consecutive(a, b) && a != b
    ensures AppendRuns("", Runs([a, b], 0)) == a + "-" + b
  {
    var s := [a, b];
    assert RunEnd(s, 2) == 2;
    assert RunEnd(s, 1) == 2;
    assert Runs(s, 2) == [];
    assert Separated("") + RunText(Run(a, b)) == a + "-" + b;
    AppendNextRun("", a + "-" + b, s, 0);
  }
}
