/** types.go: the two-level jump table. */
module Dispatch {
  import opened Wrappers
  import opened Words
  import opened InstructionSet

  datatype Pattern = Pattern(mask: word, value: word, decoder: Decoder)

  /** The masked bits of the opcode are these. */
  predicate Has(opcode: word, mask: word, value: word) {
    opcode & mask == value
  }

  predicate Matches(p: Pattern, opcode: word) {
    Has(opcode, p.mask, p.value)
  }

  /** Decoder of the first match among the first n patterns. */
  function FirstWithin(patterns: seq<Pattern>, n: nat, opcode: word): Option<Decoder>
    requires n <= |patterns|
  {
    if n == 0 then None
    else if FirstWithin(patterns, n - 1, opcode).Some? then FirstWithin(patterns, n - 1, opcode)
    else if Matches(patterns[n - 1], opcode) then Some(patterns[n - 1].decoder)
    else None
  }

  function FirstMatch(patterns: seq<Pattern>, opcode: word): Option<Decoder> {
    FirstWithin(patterns, |patterns|, opcode)
  }

  function Flatten(table: seq<seq<Pattern>>): seq<Pattern> {
    if table == [] then [] else table[0] + Flatten(table[1..])
  }

  function HighNibble(w: word): (n: nat)
    ensures n < 16
  {
    (((w >> 12) & 0xF) as bv4) as int
  }

  /** Every pattern of bucket k tests the whole high nibble and wants it to be k. */
  predicate WellFormed(table: seq<seq<Pattern>>) {
    && |table| == 16
    && forall k, i :: 0 <= k < 16 && 0 <= i < |table[k]| ==> InBucket(table[k][i], k)
  }

  predicate InBucket(p: Pattern, k: int) {
    p.mask & 0xF000 == 0xF000 && HighNibble(p.value) == k
  }

  /** A match stays the first one when more patterns are looked at. */
  lemma {:induction false} FirstWithinStable(patterns: seq<Pattern>, m: nat, n: nat, opcode: word)
    requires m <= n <= |patterns| && FirstWithin(patterns, m, opcode).Some?
    ensures FirstWithin(patterns, n, opcode) == FirstWithin(patterns, m, opcode)
  {
    hide Matches;
    if m < n {
      FirstWithinStable(patterns, m, n - 1, opcode);
    }
  }

  /** There is no first match exactly when there is no match. */
  lemma {:induction false} NoneMatches(patterns: seq<Pattern>, n: nat, opcode: word)
    requires n <= |patterns|
    ensures FirstWithin(patterns, n, opcode).None? <==> forall i :: 0 <= i < n ==> !Matches(patterns[i], opcode)
  {
    hide Matches;
    if n > 0 {
      NoneMatches(patterns, n - 1, opcode);
    }
  }

  lemma {:induction false} FirstIsMember(patterns: seq<Pattern>, n: nat, opcode: word) returns (i: nat)
    requires n <= |patterns| && FirstWithin(patterns, n, opcode).Some?
    ensures i < n && Matches(patterns[i], opcode) && FirstWithin(patterns, n, opcode) == Some(patterns[i].decoder)
  {
    hide Matches;
    if FirstWithin(patterns, n - 1, opcode).Some? {
      i := FirstIsMember(patterns, n - 1, opcode);
    } else {
      i := n - 1;
    }
  }

  lemma {:induction false} FirstWithinFront(a: seq<Pattern>, b: seq<Pattern>, n: nat, opcode: word)
    requires n <= |a|
    ensures FirstWithin(a + b, n, opcode) == FirstWithin(a, n, opcode)
  {
    hide Matches;
    if n > 0 {
      FirstWithinFront(a, b, n - 1, opcode);
    }
  }

  lemma {:induction false} FirstWithinConcat(a: seq<Pattern>, b: seq<Pattern>, n: nat, opcode: word)
    requires n <= |b|
    ensures FirstWithin(a + b, |a| + n, opcode)
            == if FirstMatch(a, opcode).Some? then FirstMatch(a, opcode) else FirstWithin(b, n, opcode)
  {
    hide Matches;
    if n == 0 {
      FirstWithinFront(a, b, |a|, opcode);
    } else {
      FirstWithinConcat(a, b, n - 1, opcode);
      assert (a + b)[|a| + n - 1] == b[n - 1];
    }
  }

  lemma FirstMatchConcat(a: seq<Pattern>, b: seq<Pattern>, opcode: word)
    ensures FirstMatch(a + b, opcode)
            == if FirstMatch(a, opcode).Some? then FirstMatch(a, opcode) else FirstMatch(b, opcode)
  {
    FirstWithinConcat(a, b, |b|, opcode);
  }

  lemma MatchFixesNibble(p: Pattern, opcode: word, k: int)
    requires InBucket(p, k) && Matches(p, opcode)
    ensures HighNibble(opcode) == k
  {
    assert (opcode >> 12) & 0xF == (p.value >> 12) & 0xF;
  }

  lemma ForeignBucket(bucket: seq<Pattern>, k: int, opcode: word)
    requires forall i :: 0 <= i < |bucket| ==> InBucket(bucket[i], k)
    requires HighNibble(opcode) != k
    ensures FirstMatch(bucket, opcode).None?
  {
    hide Matches, InBucket, HighNibble;
    if FirstMatch(bucket, opcode).Some? {
      var i := FirstIsMember(bucket, |bucket|, opcode);
      MatchFixesNibble(bucket[i], opcode, k);
    }
  }

  /** The buckets from k on, scanned in one go, find what the bucket of the high nibble finds. */
  lemma {:induction false} ScanFrom(table: seq<seq<Pattern>>, k: nat, opcode: word)
    requires WellFormed(table) && k <= 16
    ensures FirstMatch(Flatten(table[k..]), opcode)
            == if HighNibble(opcode) < k then None else FirstMatch(table[HighNibble(opcode)], opcode)
    decreases 16 - k
  {
    hide Matches, InBucket, HighNibble;
    if k < 16 {
      assert table[k..][1..] == table[k + 1..];
      FirstMatchConcat(table[k], Flatten(table[k + 1..]), opcode);
      ScanFrom(table, k + 1, opcode);
      if HighNibble(opcode) != k {
        ForeignBucket(table[k], k, opcode);
      }
    }
  }

  /** For every well-formed table the jump table agrees with a linear scan of the flattened table. */
  lemma BucketsEqualLinearScan(table: seq<seq<Pattern>>, opcode: word)
    requires WellFormed(table)
    ensures FirstMatch(table[HighNibble(opcode)], opcode) == FirstMatch(Flatten(table), opcode)
  {
    ScanFrom(table, 0, opcode);
    assert table[0..] == table;
  }

  /** A pattern can match at all exactly when its value lies within its mask. */
  lemma MatchableIff(p: Pattern)
    ensures (exists opcode :: Matches(p, opcode)) <==> p.value & p.mask == p.value
  {
    if p.value & p.mask == p.value {
      assert Matches(p, p.value);
    } else {
      forall opcode
        ensures !Matches(p, opcode)
      {
        assert (opcode & p.mask) & p.mask == opcode & p.mask;
      }
    }
  }

  /** Deleting an unmatchable pattern changes no lookup. */
  lemma UnmatchablePattern(before: seq<Pattern>, p: Pattern, after: seq<Pattern>, opcode: word)
    requires p.value & p.mask != p.value
    ensures FirstMatch(before + [p] + after, opcode) == FirstMatch(before + after, opcode)
  {
    MatchableIff(p);
    assert before + [p] + after == before + ([p] + after);
    FirstMatchConcat(before, [p] + after, opcode);
    FirstMatchConcat([p], after, opcode);
    FirstMatchConcat(before, after, opcode);
    NoneMatches([p], 1, opcode);
  }

  // ---- the table of the repository ----

  const BUCKET_0: seq<Pattern> := [
    Pattern(0xFFC0, 0x0500, BTST), Pattern(0xFFC0, 0x0800, BTST),
    Pattern(0xFFC0, 0x0540, BCHG), Pattern(0xFFC0, 0x0840, BCHG),
    Pattern(0xFFC0, 0x0580, BCLR), Pattern(0xFFC0, 0x0880, BCLR),
    Pattern(0xFFC0, 0x05C0, BSET), Pattern(0xFFC0, 0x08C0, BSET),
    Pattern(0xFF00, 0x0600, ADDI), Pattern(0xFF00, 0x0400, SUBI), Pattern(0xFF00, 0x0200, ANDI),
    Pattern(0xFF00, 0x0000, ORI), Pattern(0xFF00, 0x0A00, EORI), Pattern(0xFF00, 0x0C00, CMPI)]

  const BUCKET_4: seq<Pattern> := [
    Pattern(0xFFFF, 0x4E71, NOP), Pattern(0xFFFF, 0x4E75, RTS), Pattern(0xFFFF, 0x4E72, STOP),
    Pattern(0xFFFF, 0x4E76, TRAPV), Pattern(0xFFF0, 0x4E40, TRAP),
    Pattern(0xFB80, 0x4880, MOVEM), Pattern(0xFB80, 0x4C80, MOVEM),
    Pattern(0xFF00, 0x4200, CLR), Pattern(0xFF00, 0x4400, NEG), Pattern(0xFF00, 0x4000, NEGX),
    Pattern(0xFF00, 0x4600, NOT), Pattern(0xFF00, 0x4A00, TST),
    Pattern(0xFFC0, 0x4E80, JSR), Pattern(0xFFC0, 0x4EC0, JMP), Pattern(0xF1C0, 0x41C0, LEA),
    Pattern(0xFFF8, 0x4840, SWAP), Pattern(0xFFC0, 0x4840, PEA)]

  const BUCKET_8: seq<Pattern> := [
    Pattern(0xF1F0, 0x8100, SBCD), Pattern(0xF1C0, 0x80C0, DIVU), Pattern(0xF1C0, 0x81C0, DIVS),
    Pattern(0xF000, 0x8000, OR)]

  const BUCKET_C: seq<Pattern> := [
    Pattern(0xF1F0, 0xC100, ABCD), Pattern(0xF1C0, 0xC0C0, MULU), Pattern(0xF1C0, 0xC1C0, MULS),
    Pattern(0xF000, 0xC000, AND)]

  const OPCODE_BUCKETS: seq<seq<Pattern>> := [
    BUCKET_0,
    [Pattern(0xF000, 0x1000, MOVE)],
    [Pattern(0xF000, 0x2000, MOVE)],
    [Pattern(0xF000, 0x3000, MOVE)],
    BUCKET_4,
    [],
    [Pattern(0xF000, 0x6000, BXX)],
    [Pattern(0xF100, 0x7000, MOVEQ)],
    BUCKET_8,
    [Pattern(0xF000, 0x9000, SUB)],
    [],
    [Pattern(0xF000, 0xB000, CMP)],
    BUCKET_C,
    [Pattern(0xF000, 0xD000, ADD)],
    [Pattern(0xF000, 0xE000, SHIFT)],
    []]

  function Lookup(opcode: word): Option<Decoder> {
    FirstMatch(OPCODE_BUCKETS[HighNibble(opcode)], opcode)
  }

  method FindDecoder(opcode: word) returns (d: Option<Decoder>)
    ensures d == Lookup(opcode)
  {
    hide Matches, Has, HighNibble;
    var bucket := OPCODE_BUCKETS[HighNibble(opcode)];
    for i := 0 to |bucket|
      invariant FirstWithin(bucket, i, opcode).None?
    {
      if Matches(bucket[i], opcode) {
        FirstWithinStable(bucket, i + 1, |bucket|, opcode);
        return Some(bucket[i].decoder);
      }
    }
    return None;
  }

  method FlattenOpcodeBuckets(table: seq<seq<Pattern>>) returns (flat: seq<Pattern>)
    ensures flat == Flatten(table)
  {
    flat := [];
    for i := 0 to |table|
      invariant flat + Flatten(table[i..]) == Flatten(table)
    {
      assert table[i..][1..] == table[i + 1..];
      assert flat + (table[i] + Flatten(table[i + 1..])) == (flat + table[i]) + Flatten(table[i + 1..]);
      flat := flat + table[i];
    }
  }

  lemma BucketsWellFormed()
    ensures WellFormed(OPCODE_BUCKETS)
  {
    assert forall i :: 0 <= i < |BUCKET_0| ==> InBucket(BUCKET_0[i], 0);
    assert forall i :: 0 <= i < |BUCKET_4| ==> InBucket(BUCKET_4[i], 4);
    assert forall i :: 0 <= i < |BUCKET_8| ==> InBucket(BUCKET_8[i], 8);
    assert forall i :: 0 <= i < |BUCKET_C| ==> InBucket(BUCKET_C[i], 12);
  }

  lemma LookupIsLinearScan(opcode: word)
    ensures Lookup(opcode) == FirstMatch(Flatten(OPCODE_BUCKETS), opcode)
  {
    BucketsWellFormed();
    BucketsEqualLinearScan(OPCODE_BUCKETS, opcode);
  }

  /** The second MOVEM pattern demands a bit its mask clears: no opcode reaches it, and the table without
      it decides the same. Its opcodes are served by the first pattern, which ignores that bit. */
  lemma SecondMovemPatternIsDead(opcode: word)
    ensures !Matches(BUCKET_4[6], opcode)
    ensures FirstMatch(BUCKET_4, opcode) == FirstMatch(BUCKET_4[..6] + BUCKET_4[7..], opcode)
    ensures opcode & 0xFF80 == 0x4C80 ==> Matches(BUCKET_4[5], opcode)
  {
    assert BUCKET_4[6] == Pattern(0xFB80, 0x4C80, MOVEM) && BUCKET_4[5] == Pattern(0xFB80, 0x4880, MOVEM);
    MatchableIff(BUCKET_4[6]);
    UnmatchablePattern(BUCKET_4[..6], BUCKET_4[6], BUCKET_4[7..], opcode);
    assert BUCKET_4 == BUCKET_4[..6] + [BUCKET_4[6]] + BUCKET_4[7..];
    assert opcode & 0xFF80 == 0x4C80 ==> opcode & 0xFB80 == 0x4880;
  }

  lemma RegisterBitPatterns(i: nat, opcode: word)
    requires i < |BUCKET_0| && Matches(BUCKET_0[i], opcode) && opcode & 0x0100 != 0
    ensures opcode & 0xFF00 == 0x0500 && BUCKET_0[i].decoder in {BTST, BCHG, BCLR, BSET}
  {
    var p := BUCKET_0[i];
    assert p.mask in {0xFFC0, 0xFF00};
    assert p.mask == 0xFF00 ==> p.value & 0x0100 == 0;
    assert || p.value & 0x0100 == 0
           || (p.value & 0xFF00 == 0x0500 && p.mask == 0xFFC0 && p.decoder in {BTST, BCHG, BCLR, BSET});
  }

  /** The bit operations on a register number have a register field, but only D2 is in the table: with any
      other register the word has no decoder at all. */
  lemma RegisterBitOpsAreD2Only(opcode: word)
    requires HighNibble(opcode) == 0 && opcode & 0x0100 != 0
    ensures Lookup(opcode).Some? <==> RegX(opcode) == 2
    ensures Lookup(opcode).Some? ==> Lookup(opcode).value in {BTST, BCHG, BCLR, BSET}
  {
    hide FirstWithin, Matches;
    assert OPCODE_BUCKETS[0] == BUCKET_0;
    if Lookup(opcode).Some? {
      var i := FirstIsMember(BUCKET_0, |BUCKET_0|, opcode);
      RegisterBitPatterns(i, opcode);
    }
    RegisterField(opcode);
    if RegX(opcode) == 2 {
      var i := RegisterBitIndex(opcode);
      NoneMatches(BUCKET_0, |BUCKET_0|, opcode);
    }
  }

  lemma RegisterField(opcode: word)
    requires HighNibble(opcode) == 0 && opcode & 0x0100 != 0
    ensures opcode & 0xFF00 == 0x0500 <==> RegX(opcode) == 2
  {
    assert ((opcode >> 12) & 0xF) as bv4 == 0;
  }

  lemma RegisterBitIndex(opcode: word) returns (i: nat)
    requires opcode & 0xFF00 == 0x0500
    ensures i < |BUCKET_0| && Matches(BUCKET_0[i], opcode)
  {
    var kind := (opcode >> 6) & 0x3;
    if kind == 0 {
      i := 0;
      assert opcode & 0xFFC0 == 0x0500;
    } else if kind == 1 {
      i := 2;
      assert opcode & 0xFFC0 == 0x0540;
    } else if kind == 2 {
      i := 4;
      assert opcode & 0xFFC0 == 0x0580;
    } else {
      i := 6;
      assert opcode & 0xFFC0 == 0x05C0;
    }
  }
}
