/** Laws of every form: how outcomes react to more bytes and to relocation. */
module FormLaws {
  import opened Wrappers
  import opened Words
  import opened Text
  import opened Model
  import opened EffectiveAddresses
  import opened RegisterLists
  import opened Forms

  // ---- length ----

  function TotalWidth(slots: seq<Slot>): nat {
    if slots == [] then 0 else SlotWidth(slots[0]) + TotalWidth(slots[1..])
  }

  function FirstFault(slots: seq<Slot>): Option<Fault> {
    if slots == [] then None
    else if SlotFault(slots[0]).Some? then SlotFault(slots[0])
    else FirstFault(slots[1..])
  }

  /** The bytes a walk must see before it can report the fault, or finish. */
  function DecisiveWidth(slots: seq<Slot>): nat {
    if slots == [] || SlotFault(slots[0]).Some? then 0 else SlotWidth(slots[0]) + DecisiveWidth(slots[1..])
  }

  /** Number of slots whose bytes are present. */
  function Filled(slots: seq<Slot>, have: nat, offset: nat): (n: nat)
    ensures n <= |slots|
  {
    if slots == [] || SlotFault(slots[0]).Some? || have < offset + SlotWidth(slots[0]) then 0
    else 1 + Filled(slots[1..], have, offset + SlotWidth(slots[0]))
  }

  /** The outcome class is a threshold test on the length: below the decisive width the walk asks for
      more, from there on it reports the fault of the form or fits. */
  lemma {:induction false} WalkThreshold(slots: seq<Slot>, have: nat, offset: nat)
    requires offset <= have
    ensures Walk(slots, have, offset).Short? <==> have < offset + DecisiveWidth(slots)
    ensures have >= offset + DecisiveWidth(slots) ==>
              Walk(slots, have, offset)
              == if FirstFault(slots).Some? then Bad(FirstFault(slots).value) else Fits(offset + TotalWidth(slots))
    ensures FirstFault(slots).None? ==> DecisiveWidth(slots) == TotalWidth(slots)
  {
    hide EaFault, EaWidth, EaContext;
    if slots != [] && SlotFault(slots[0]).None? {
      var end := offset + SlotWidth(slots[0]);
      if end <= have {
        WalkThreshold(slots[1..], have, end);
      } else {
        WalkThreshold(slots[1..], end, end);
      }
    }
  }

  /** A shortage names the end of one field: it stays the same shortage until that field is complete,
      and the next shortage, if any, is about a later field. */
  lemma {:induction false} WalkShortage(slots: seq<Slot>, have: nat, more: nat, offset: nat)
    requires offset <= have <= more && Walk(slots, have, offset).Short?
    ensures var w := Walk(slots, have, offset);
            && w.missing >= 1
            && have + w.missing <= offset + DecisiveWidth(slots)
            && (more < have + w.missing ==> Walk(slots, more, offset) == Short(have + w.missing - more, w.context))
            && (more >= have + w.missing ==>
                  && Filled(slots, more, offset) > Filled(slots, have, offset)
                  && (Walk(slots, more, offset).Short? ==>
                        more + Walk(slots, more, offset).missing > have + w.missing))
  {
    hide EaFault, EaWidth, EaContext;
    var end := offset + SlotWidth(slots[0]);
    if end <= have {
      WalkShortage(slots[1..], have, more, end);
    } else if end <= more && Walk(slots[1..], more, end).Short? {
      WalkShortage(slots[1..], more, more, end);
    }
  }

  lemma {:induction false} WalkStable(slots: seq<Slot>, have: nat, more: nat, offset: nat)
    requires offset <= have <= more && !Walk(slots, have, offset).Short?
    ensures Walk(slots, more, offset) == Walk(slots, have, offset)
  {
    WalkThreshold(slots, have, offset);
    WalkThreshold(slots, more, offset);
  }

  lemma {:induction false} ReadSlotsStable(slots: seq<Slot>, address: uint32, data: seq<byte>, more: seq<byte>,
                                           offset: nat)
    requires forall s <- slots :: SlotOk(s)
    requires offset <= |data| && Walk(slots, |data|, offset).Fits?
    ensures Walk(slots, |data + more|, offset).Fits?
    ensures ReadSlots(slots, address, data + more, offset) == ReadSlots(slots, address, data, offset)
  {
    hide ReadSlot, EaFault, EaWidth, EaContext;
    WalkStable(slots, |data|, |data + more|, offset);
    if slots != [] {
      var end := offset + SlotWidth(slots[0]);
      ReadSlotsStable(slots[1..], address, data, more, end);
      assert (data + more)[offset..end] == data[offset..end];
    }
  }

  /** Appending bytes changes neither a success, in any field, nor a hard error. */
  lemma InterpretStable(f: Form, address: uint32, opcode: word, data: seq<byte>, more: seq<byte>)
    requires FormOk(f) && |data| >= 2
    requires Interpret(f, address, opcode, data).Ok? || Interpret(f, address, opcode, data).error.Hard?
    ensures Interpret(f, address, opcode, data + more) == Interpret(f, address, opcode, data)
  {
    hide ReadSlot, EaFault, EaWidth, EaContext, Assemble;
    WalkStable(f.slots, |data|, |data + more|, 2);
    WalkBounds(f.slots, |data|, 2);
    if Walk(f.slots, |data|, 2).Fits? {
      ReadSlotsStable(f.slots, address, data, more, 2);
      var end := Walk(f.slots, |data|, 2).end;
      assert (data + more)[..end] == data[..end];
    }
  }

  lemma {:induction false} DecisiveIsShorter(slots: seq<Slot>)
    ensures DecisiveWidth(slots) <= TotalWidth(slots)
  {
    hide EaFault, EaWidth;
    if slots != [] && SlotFault(slots[0]).None? {
      DecisiveIsShorter(slots[1..]);
    }
  }

  function FormLength(f: Form): nat {
    2 + TotalWidth(f.slots)
  }

  lemma FormLengthBounds(f: Form)
    requires FormOk(f)
    ensures FormLength(f) in {2, 4, 6, 8, 10}
  {
    forall s | s in f.slots
      ensures SlotWidth(s) in {0, 2, 4}
    {
      assert SlotOk(s);
    }
    if f.slots != [] {
      assert f.slots[0] in f.slots;
      if |f.slots| == 2 {
        assert f.slots[1] in f.slots;
        assert f.slots[1..] == [f.slots[1]];
        assert TotalWidth(f.slots[1..]) == SlotWidth(f.slots[1]);
      }
    }
  }

  // ---- relocation ----

  /** The operand as seen from an address k bytes further: only branch targets move. */
  function RelocateOperand(o: Operand, k: int): Operand {
    if o.branchTarget.Some? then TargetOperand(Advance(o.branchTarget.value, k)) else o
  }

  function RelocateOperands(os: seq<Operand>, k: int): (r: seq<Operand>)
    ensures |r| == |os|
    ensures forall i :: 0 <= i < |os| ==> r[i] == RelocateOperand(os[i], k)
  {
    if os == [] then [] else [RelocateOperand(os[0], k)] + RelocateOperands(os[1..], k)
  }

  /** Address, branch targets and their text move; everything else stays. */
  function Relocate(d: Decoded, k: int): Decoded {
    var os := RelocateOperands(d.metadata.operands, k);
    d.(address := Advance(d.address, k),
       operands := Join(Texts(os)),
       metadata := d.metadata.(
         operands := os,
         branchTarget :=
           if d.metadata.branchTarget.Some? then Some(Advance(d.metadata.branchTarget.value, k)) else None))
  }

  lemma RelocateSlot(s: Slot, address: uint32, k: int, end: nat, field: seq<byte>)
    requires SlotOk(s) && SlotFault(s).None? && |field| == SlotWidth(s)
    ensures ReadSlot(s, Advance(address, k), end, field) == RelocateOperand(ReadSlot(s, address, end, field), k)
  {
    hide DecodeAddressingMode, Immediate, FormatImmediate, FormatBranchTarget, EaFault, EaWidth, EaContext,
      RegisterListText, RegisterNames, Dec, BranchDisplacement, Advance;
    if s.Branch? {
      var d := end + BranchDisplacement(s.width, s.short, field);
      AdvanceAdvance(address, k, d);
      AdvanceAdvance(address, d, k);
    } else if s.Ea? {
      EaHasNoTarget(field, s.mode, s.reg, s.size);
    }
  }

  lemma EaHasNoTarget(field: seq<byte>, mode: bv3, reg: regnum, size: nat)
    requires EaFault(mode, reg, size).None? && |field| == EaWidth(mode, reg, size)
    ensures DecodeAddressingMode(field, mode, reg, size).value.operand.branchTarget.None?
  {
    hide DecodeAddressingMode, EaFault, EaWidth, EaContext;
    assert MeetsLayout(DecodeAddressingMode(field, mode, reg, size), |field|, mode, reg, size);
  }

  lemma {:induction false} RelocateSlots(slots: seq<Slot>, address: uint32, k: int, data: seq<byte>, offset: nat)
    requires forall s <- slots :: SlotOk(s)
    requires offset <= |data| && Walk(slots, |data|, offset).Fits?
    ensures ReadSlots(slots, Advance(address, k), data, offset)
            == RelocateOperands(ReadSlots(slots, address, data, offset), k)
  {
    hide ReadSlot, RelocateOperand, EaFault, EaWidth, EaContext, Advance;
    if slots != [] {
      var end := offset + SlotWidth(slots[0]);
      RelocateSlots(slots[1..], address, k, data, end);
      assert slots[0] in slots;
      RelocateSlot(slots[0], address, k, end, data[offset..end]);
    }
  }

  /** Branch targets come from branch slots only. */
  predicate ProperTargets(os: seq<Operand>) {
    forall i :: 0 <= i < |os| && os[i].branchTarget.Some? ==> os[i] == TargetOperand(os[i].branchTarget.value)
  }

  lemma {:induction false} ReadSlotsTargets(slots: seq<Slot>, address: uint32, data: seq<byte>, offset: nat)
    requires forall s <- slots :: SlotOk(s)
    requires offset <= |data| && Walk(slots, |data|, offset).Fits?
    ensures ProperTargets(ReadSlots(slots, address, data, offset))
  {
    hide DecodeAddressingMode, FormatBranchTarget, EaFault, EaWidth, EaContext, DataOperand, BitNumberOperand,
      RegisterListText, RegisterNames, Dec, BranchDisplacement, Advance;
    if slots != [] {
      var s, end := slots[0], offset + SlotWidth(slots[0]);
      assert s in slots;
      ReadSlotsTargets(slots[1..], address, data, end);
      if s.Ea? {
        EaHasNoTarget(data[offset..end], s.mode, s.reg, s.size);
      } else if s.Data? || s.BitNumber? {
        DataHasNoTarget(s, address, end, data[offset..end]);
      }
    }
  }

  lemma DataHasNoTarget(s: Slot, address: uint32, end: nat, field: seq<byte>)
    requires SlotOk(s) && (s.Data? || s.BitNumber?) && |field| == SlotWidth(s)
    ensures ReadSlot(s, address, end, field).branchTarget.None?
  {
    hide FormatImmediate, Immediate, Dec;
  }

  lemma {:induction false} RelocateMetadata(os: seq<Operand>, k: int)
    requires ProperTargets(os)
    ensures AllImmediates(RelocateOperands(os, k)) == AllImmediates(os)
    ensures FirstTarget(RelocateOperands(os, k))
            == if FirstTarget(os).Some? then Some(Advance(FirstTarget(os).value, k)) else None
  {
    hide Advance, FormatBranchTarget;
    if os != [] {
      RelocateMetadata(os[1..], k);
      assert RelocateOperands(os, k)[1..] == RelocateOperands(os[1..], k);
    }
  }

  /** Decoding the same bytes k bytes further changes the address, the branch targets and their text,
      and nothing else; errors do not change at all. */
  lemma InterpretRelocates(f: Form, address: uint32, k: int, opcode: word, data: seq<byte>)
    requires FormOk(f) && |data| >= 2
    ensures Interpret(f, Advance(address, k), opcode, data)
            == match Interpret(f, address, opcode, data)
               case Ok(d) => Ok(Relocate(d, k))
               case Err(e) => Err(e)
  {
    hide ReadSlot, RelocateOperand, EaFault, EaWidth, EaContext, Advance, Join, Cut, WordsOf;
    WalkBounds(f.slots, |data|, 2);
    if Walk(f.slots, |data|, 2).Fits? {
      RelocateSlots(f.slots, address, k, data, 2);
      ReadSlotsTargets(f.slots, address, data, 2);
      var os := ReadSlots(f.slots, address, data, 2);
      assert ProperTargets(Ordered(f.swapped, os));
      RelocateMetadata(Ordered(f.swapped, os), k);
      OrderedRelocates(f.swapped, os, k);
    }
  }

  lemma OrderedRelocates(swapped: bool, os: seq<Operand>, k: int)
    ensures Ordered(swapped, RelocateOperands(os, k)) == RelocateOperands(Ordered(swapped, os), k)
  {
  }
}
