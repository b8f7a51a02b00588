/** What the jump table decides, stated from opcode bits alone: which decoder gets which opcode. */
module TableLaws {
  import opened Wrappers
  import opened Words
  import opened InstructionSet
  import opened Dispatch
  import opened OpcodeLaws

  /** The opcode also has the bits of a narrower instruction, which has precedence: SWAP is PEA of a data
      register, and division, multiplication and decimal arithmetic are carved out of OR and AND. */
  predicate Dominated(d: Decoder, op: word) {
    || (d == PEA && AtHome(SWAP, op))
    || (d == OR && (AtHome(SBCD, op) || AtHome(DIVU, op) || AtHome(DIVS, op)))
    || (d == AND && (AtHome(ABCD, op) || AtHome(MULU, op) || AtHome(MULS, op)))
  }

  predicate Claims(d: Decoder, op: word) {
    AtHome(d, op) && !Dominated(d, op)
  }

  // ---- the opcodes a decoder claims reach it ----

  /** The first match is at position i. */
  lemma FirstAt(bucket: seq<Pattern>, i: nat, op: word)
    requires i < |bucket| && Matches(bucket[i], op) && forall j :: 0 <= j < i ==> !Matches(bucket[j], op)
    ensures FirstMatch(bucket, op) == Some(bucket[i].decoder)
  {
    hide Matches;
    NoneMatches(bucket, i, op);
    FirstWithinStable(bucket, i + 1, |bucket|, op);
  }

  predicate FirstOf(bucket: seq<Pattern>, i: nat, d: Decoder, op: word) {
    && i < |bucket| && bucket[i].decoder == d && Matches(bucket[i], op)
    && forall j :: 0 <= j < i ==> !Matches(bucket[j], op)
  }

  lemma TestAndChange(d: Decoder, op: word) returns (i: nat)
    requires d in {BTST, BCHG} && AtHome(d, op)
    ensures FirstOf(BUCKET_0, i, d, op) && op & 0xF000 == 0x0000
  {
    var register := op & 0x0F00 == 0x0500;
    if d == BTST {
      i := if register then 0 else 1;
    } else {
      i := if register then 2 else 3;
    }
  }

  lemma ClearAndSet(d: Decoder, op: word) returns (i: nat)
    requires d in {BCLR, BSET} && AtHome(d, op)
    ensures FirstOf(BUCKET_0, i, d, op) && op & 0xF000 == 0x0000
  {
    var register := op & 0x0F00 == 0x0500;
    if d == BCLR {
      i := if register then 4 else 5;
    } else {
      i := if register then 6 else 7;
    }
  }

  lemma ArithmeticImmediates(d: Decoder, op: word) returns (i: nat)
    requires d in {ADDI, SUBI, ANDI} && AtHome(d, op)
    ensures FirstOf(BUCKET_0, i, d, op) && op & 0xF000 == 0x0000
  {
    match d
    case ADDI => i := 8;
    case SUBI => i := 9;
    case ANDI => i := 10;
  }

  lemma LogicalImmediates(d: Decoder, op: word) returns (i: nat)
    requires d in {ORI, EORI, CMPI} && AtHome(d, op)
    ensures FirstOf(BUCKET_0, i, d, op) && op & 0xF000 == 0x0000
  {
    match d
    case ORI => i := 11;
    case EORI => i := 12;
    case CMPI => i := 13;
  }

  lemma ExactOperations(d: Decoder, op: word) returns (i: nat)
    requires d in {NOP, RTS, STOP, TRAPV, TRAP, MOVEM} && AtHome(d, op)
    ensures FirstOf(BUCKET_4, i, d, op) && op & 0xF000 == 0x4000
  {
    match d
    case NOP => i := 0;
    case RTS => i := 1;
    case STOP => i := 2;
    case TRAPV => i := 3;
    case TRAP => i := 4;
    case MOVEM => i := 5;
  }

  lemma SizedOperations(d: Decoder, op: word) returns (i: nat)
    requires d in {CLR, NEG, NEGX, NOT, TST} && AtHome(d, op)
    ensures FirstOf(BUCKET_4, i, d, op) && op & 0xF000 == 0x4000
  {
    match d
    case CLR => i := 7;
    case NEG => i := 8;
    case NEGX => i := 9;
    case NOT => i := 10;
    case TST => i := 11;
  }

  lemma Jumps(d: Decoder, op: word) returns (i: nat)
    requires d in {JSR, JMP, LEA} && AtHome(d, op)
    ensures FirstOf(BUCKET_4, i, d, op) && op & 0xF000 == 0x4000
  {
    match d
    case JSR => i := 12;
    case JMP => i := 13;
    case LEA => i := 14;
  }

  lemma SwapOrPea(d: Decoder, op: word) returns (i: nat)
    requires d in {SWAP, PEA} && Claims(d, op)
    ensures FirstOf(BUCKET_4, i, d, op) && op & 0xF000 == 0x4000
  {
    i := if d == SWAP then 15 else 16;
  }

  lemma Divisions(d: Decoder, op: word) returns (i: nat)
    requires d in {SBCD, DIVU, DIVS} && AtHome(d, op)
    ensures FirstOf(BUCKET_8, i, d, op) && op & 0xF000 == 0x8000
  {
    match d
    case SBCD => i := 0;
    case DIVU => i := 1;
    case DIVS => i := 2;
  }

  lemma OrIsLast(op: word)
    requires Claims(OR, op)
    ensures FirstOf(BUCKET_8, 3, OR, op) && op & 0xF000 == 0x8000
  {
    hide Matches, AtHome;
    OrGroupLeadsHome(op);
    DivisionPatterns(op);
    OrNibble(op);
  }

  lemma Multiplications(d: Decoder, op: word) returns (i: nat)
    requires d in {ABCD, MULU, MULS} && AtHome(d, op)
    ensures FirstOf(BUCKET_C, i, d, op) && op & 0xF000 == 0xC000
  {
    match d
    case ABCD => i := 0;
    case MULU => i := 1;
    case MULS => i := 2;
  }

  lemma AndIsLast(op: word)
    requires Claims(AND, op)
    ensures FirstOf(BUCKET_C, 3, AND, op) && op & 0xF000 == 0xC000
  {
    hide Matches, AtHome;
    AndGroupLeadsHome(op);
    MultiplicationPatterns(op);
    AndNibble(op);
  }

  lemma SingleGroup(d: Decoder, op: word)
    requires d in {MOVE, BXX, MOVEQ, SUB, CMP, ADD, SHIFT} && AtHome(d, op)
    ensures FirstOf(OPCODE_BUCKETS[HighNibble(op)], 0, d, op)
  {
    hide Matches, HighNibble;
    Nibbles(op);
    if d == MOVE {
      MoveBucketMatches(op);
    } else {
      SingleMatches(d, op);
    }
  }

  lemma MoveBucketMatches(op: word)
    requires AtHome(MOVE, op)
    ensures op & 0xF000 == 0x1000 ==> Matches(Pattern(0xF000, 0x1000, MOVE), op)
    ensures op & 0xF000 == 0x2000 ==> Matches(Pattern(0xF000, 0x2000, MOVE), op)
    ensures op & 0xF000 == 0x3000 ==> Matches(Pattern(0xF000, 0x3000, MOVE), op)
    ensures op & 0xF000 in {0x1000, 0x2000, 0x3000}
  {
  }

  lemma SingleMatches(d: Decoder, op: word)
    requires d in {BXX, MOVEQ, SUB, CMP, ADD, SHIFT} && AtHome(d, op)
    ensures d == BXX ==> op & 0xF000 == 0x6000 && Matches(Pattern(0xF000, 0x6000, BXX), op)
    ensures d == MOVEQ ==> op & 0xF000 == 0x7000 && Matches(Pattern(0xF100, 0x7000, MOVEQ), op)
    ensures d == SUB ==> op & 0xF000 == 0x9000 && Matches(Pattern(0xF000, 0x9000, SUB), op)
    ensures d == CMP ==> op & 0xF000 == 0xB000 && Matches(Pattern(0xF000, 0xB000, CMP), op)
    ensures d == ADD ==> op & 0xF000 == 0xD000 && Matches(Pattern(0xF000, 0xD000, ADD), op)
    ensures d == SHIFT ==> op & 0xF000 == 0xE000 && Matches(Pattern(0xF000, 0xE000, SHIFT), op)
  {
  }

  lemma Nibbles(op: word)
    ensures op & 0xF000 == 0x0000 ==> HighNibble(op) == 0
    ensures op & 0xF000 == 0x1000 ==> HighNibble(op) == 1
    ensures op & 0xF000 == 0x2000 ==> HighNibble(op) == 2
    ensures op & 0xF000 == 0x3000 ==> HighNibble(op) == 3
    ensures op & 0xF000 == 0x4000 ==> HighNibble(op) == 4
    ensures op & 0xF000 == 0x6000 ==> HighNibble(op) == 6
    ensures op & 0xF000 == 0x7000 ==> HighNibble(op) == 7
    ensures op & 0xF000 == 0x8000 ==> HighNibble(op) == 8
    ensures op & 0xF000 == 0x9000 ==> HighNibble(op) == 9
    ensures op & 0xF000 == 0xB000 ==> HighNibble(op) == 11
    ensures op & 0xF000 == 0xC000 ==> HighNibble(op) == 12
    ensures op & 0xF000 == 0xD000 ==> HighNibble(op) == 13
    ensures op & 0xF000 == 0xE000 ==> HighNibble(op) == 14
  {
    var n := ((op >> 12) & 0xF) as bv4;
    assert op & 0xF000 == (n as word) << 12;
  }

  lemma ClaimReaches(d: Decoder, op: word)
    requires Claims(d, op)
    ensures Lookup(op) == Some(d)
  {
    hide Matches, HighNibble, AtHome, FirstMatch;
    Nibbles(op);
    var i: nat;
    if d in {BTST, BCHG} {
      i := TestAndChange(d, op);
    } else if d in {BCLR, BSET} {
      i := ClearAndSet(d, op);
    } else if d in {ADDI, SUBI, ANDI} {
      i := ArithmeticImmediates(d, op);
    } else if d in {ORI, EORI, CMPI} {
      i := LogicalImmediates(d, op);
    } else if d in {NOP, RTS, STOP, TRAPV, TRAP, MOVEM} {
      i := ExactOperations(d, op);
    } else if d in {CLR, NEG, NEGX, NOT, TST} {
      i := SizedOperations(d, op);
    } else if d in {JSR, JMP, LEA} {
      i := Jumps(d, op);
    } else if d in {SWAP, PEA} {
      i := SwapOrPea(d, op);
    } else if d in {SBCD, DIVU, DIVS} {
      i := Divisions(d, op);
    } else if d in {ABCD, MULU, MULS} {
      i := Multiplications(d, op);
    } else if d == OR {
      i := 3;
      OrIsLast(op);
    } else if d == AND {
      i := 3;
      AndIsLast(op);
    } else {
      i := 0;
      SingleGroup(d, op);
    }
    assert FirstOf(OPCODE_BUCKETS[HighNibble(op)], i, d, op);
    FirstAt(OPCODE_BUCKETS[HighNibble(op)], i, op);
  }

  // ---- and no others do ----

  /** A decoder at the end of its bucket decides only if the ones before it fail. */
  lemma LastDecides(bucket: seq<Pattern>, n: nat, op: word)
    requires n < |bucket| && FirstMatch(bucket, op) == Some(bucket[n].decoder)
    requires forall i :: 0 <= i < n ==> bucket[i].decoder != bucket[n].decoder
    ensures forall i :: 0 <= i < n ==> !Matches(bucket[i], op)
  {
    hide Matches;
    NoneMatches(bucket, n, op);
    if FirstWithin(bucket, n, op).Some? {
      FirstWithinStable(bucket, n, |bucket|, op);
      var i := FirstIsMember(bucket, n, op);
      assert false;
    }
  }

  lemma PeaIsNotSwap(op: word)
    requires Lookup(op) == Some(PEA)
    ensures !AtHome(SWAP, op)
  {
    hide FirstMatch, HighNibble;
    LookupIsHome(op);
    Nibbles(op);
    PeaNibble(op);
    LastDecides(BUCKET_4, 16, op);
    SwapPattern(op);
  }

  lemma PeaNibble(op: word)
    requires AtHome(PEA, op)
    ensures op & 0xF000 == 0x4000
  {
  }

  lemma SwapPattern(op: word)
    ensures AtHome(SWAP, op) ==> Matches(BUCKET_4[15], op)
  {
    hide Has;
  }

  lemma OrIsNotNarrower(op: word)
    requires Lookup(op) == Some(OR)
    ensures !Dominated(OR, op)
  {
    hide FirstMatch, HighNibble, AtHome;
    LookupIsHome(op);
    Nibbles(op);
    OrNibble(op);
    LastDecides(BUCKET_8, 3, op);
    DivisionPatterns(op);
  }

  lemma OrNibble(op: word)
    requires AtHome(OR, op)
    ensures op & 0xF000 == 0x8000
  {
  }

  lemma DivisionPatterns(op: word)
    ensures AtHome(SBCD, op) ==> Matches(BUCKET_8[0], op)
    ensures AtHome(DIVU, op) ==> Matches(BUCKET_8[1], op)
    ensures AtHome(DIVS, op) ==> Matches(BUCKET_8[2], op)
    ensures AtHome(OR, op) ==> Matches(BUCKET_8[3], op)
  {
    hide Has;
  }

  lemma AndIsNotNarrower(op: word)
    requires Lookup(op) == Some(AND)
    ensures !Dominated(AND, op)
  {
    hide FirstMatch, HighNibble, AtHome;
    LookupIsHome(op);
    Nibbles(op);
    AndNibble(op);
    LastDecides(BUCKET_C, 3, op);
    MultiplicationPatterns(op);
  }

  lemma AndNibble(op: word)
    requires AtHome(AND, op)
    ensures op & 0xF000 == 0xC000
  {
  }

  lemma MultiplicationPatterns(op: word)
    ensures AtHome(ABCD, op) ==> Matches(BUCKET_C[0], op)
    ensures AtHome(MULU, op) ==> Matches(BUCKET_C[1], op)
    ensures AtHome(MULS, op) ==> Matches(BUCKET_C[2], op)
    ensures AtHome(AND, op) ==> Matches(BUCKET_C[3], op)
  {
    hide Has;
  }

  /** An opcode reaches a decoder exactly when it has the decoder's bits and no narrower instruction with
      precedence claims it. */
  lemma LookupIff(op: word, d: Decoder)
    ensures Lookup(op) == Some(d) <==> AtHome(d, op) && !Dominated(d, op)
  {
    hide Lookup, AtHome;
    if Lookup(op) == Some(d) {
      LookupIsHome(op);
      if d == PEA {
        PeaIsNotSwap(op);
      } else if d == OR {
        OrIsNotNarrower(op);
      } else if d == AND {
        AndIsNotNarrower(op);
      }
    }
    if AtHome(d, op) && !Dominated(d, op) {
      ClaimReaches(d, op);
    }
  }

  lemma NarrowerIsNotDominated(op: word)
    ensures forall d :: d !in {PEA, OR, AND} ==> !Dominated(d, op)
  {
    hide AtHome;
  }

  /** An opcode has no decoder exactly when it has the bits of none. */
  lemma LookupNoneIff(op: word)
    ensures Lookup(op).None? <==> forall d :: !AtHome(d, op)
  {
    hide Lookup, AtHome;
    forall d
      ensures AtHome(d, op) ==> Lookup(op).Some?
      ensures Lookup(op) == Some(d) ==> AtHome(d, op)
    {
      LookupIff(op, d);
      if AtHome(d, op) && Dominated(d, op) {
        NarrowerIsNotDominated(op);
        LookupIff(op, SWAP);
        LookupIff(op, SBCD);
        LookupIff(op, DIVU);
        LookupIff(op, DIVS);
        LookupIff(op, ABCD);
        LookupIff(op, MULU);
        LookupIff(op, MULS);
      }
    }
  }
}
