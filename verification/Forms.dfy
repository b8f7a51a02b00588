/** The layout view of the instruction set. A decoder of the repository is a script that demands bytes,
    reads a field and goes on; the form of an opcode lists those fields as slots, in the order in which
    they are fetched. What a script does on a buffer is then decided by walking the slots, and the walk
    looks at the length of the buffer only. The decoder methods are proved against this view. */
module Forms {
  import opened Wrappers
  import opened Words
  import opened Text
  import opened Model
  import opened EffectiveAddresses
  import opened RegisterLists

  datatype Slot =
    | Fixed(operand: Operand)                                    // decided by the opcode, no bytes
    | Ea(mode: bv3, reg: regnum, size: nat)
    | Data(size: nat, context: string)                           // immediate field
    | BitNumber(context: string)
    | RegisterMask(context: string)
    | Branch(width: nat, short: byte, context: string)           // width 0: displacement in the opcode
    | Reject(fault: Fault)

  /** `swapped`: the operands are printed in the opposite order. */
  datatype Form = Form(mnemonic: string, slots: seq<Slot>, swapped: bool)

  function SlotFault(s: Slot): Option<Fault> {
    match s
    case Ea(mode, reg, size) => EaFault(mode, reg, size)
    case Reject(fault) => Some(fault)
    case _ => None
  }

  function SlotWidth(s: Slot): nat {
    match s
    case Fixed(_) => 0
    case Ea(mode, reg, size) => EaWidth(mode, reg, size)
    case Data(size, _) => size
    case BitNumber(_) => 2
    case RegisterMask(_) => 2
    case Branch(width, _, _) => width
    case Reject(_) => 0
  }

  function SlotContext(s: Slot): string {
    match s
    case Ea(mode, reg, size) => EaContext(mode, reg, size)
    case Data(_, context) => context
    case BitNumber(context) => context
    case RegisterMask(context) => context
    case Branch(_, _, context) => context
    case _ => ""
  }

  /** Slots the instruction set uses. */
  predicate SlotOk(s: Slot) {
    match s
    case Fixed(o) => o.branchTarget.None? && NoSpace(o.text)
    case Ea(_, _, size) => size in {1, 2, 4}
    case Data(size, _) => size in {2, 4}
    case Branch(width, _, _) => width in {0, 2, 4}
    case _ => true
  }

  predicate FormOk(f: Form) {
    |f.slots| <= 2 && forall s <- f.slots :: SlotOk(s)
  }

  // ---- reading a slot ----

  function FormatBranchTarget(target: uint32): string {
    if target <= 0xFFFF then "$" + Hex(target, 4) else "$" + Hex(target, 8)
  }

  function TargetOperand(target: uint32): Operand {
    BranchOperand(FormatBranchTarget(target), target)
  }

  /** Displacement field of a branch. */
  function BranchDisplacement(width: nat, short: byte, field: seq<byte>): int
    requires |field| == width && width in {0, 2, 4}
  {
    if width == 0 then Signed(short as int, 0x100)
    else if width == 2 then Signed(WordAt(field, 0) as int, 0x1_0000)
    else Signed(LongAt(field, 0), 0x1_0000_0000)
  }

  function DataOperand(value: uint32, size: nat): Operand {
    ImmediateOperand("#" + FormatImmediate(value, size), value, size)
  }

  function BitNumberOperand(w: word): Operand {
    ImmediateOperand("#" + Dec(LowByte(w) as int), LowByte(w) as int, 1)
  }

  function MaskOperand(mask: word): Operand {
    RegisterListOperand(RegisterListText(mask), RegisterNames(mask))
  }

  /** The operand in a slot whose bytes are `field`, in an instruction that ends at offset `end`. */
  function ReadSlot(s: Slot, address: uint32, end: nat, field: seq<byte>): Operand
    requires SlotOk(s) && SlotFault(s).None? && |field| == SlotWidth(s)
  {
    match s
    case Fixed(o) => o
    case Ea(mode, reg, size) => DecodeAddressingMode(field, mode, reg, size).value.operand
    case Data(size, _) => DataOperand(if size == 2 then WordAt(field, 0) as int else LongAt(field, 0), size)
    case BitNumber(_) => BitNumberOperand(WordAt(field, 0))
    case RegisterMask(_) => MaskOperand(WordAt(field, 0))
    case Branch(width, short, _) =>
      TargetOperand(Advance(address, end + BranchDisplacement(width, short, field)))
  }

  // ---- walking a form ----

  datatype Fit = Fits(end: nat) | Short(missing: nat, context: string) | Bad(fault: Fault)

  /** How far a buffer of `have` bytes carries the walk: only the number of bytes matters. */
  function Walk(slots: seq<Slot>, have: nat, offset: nat): Fit {
    if slots == [] then Fits(offset)
    else if SlotFault(slots[0]).Some? then Bad(SlotFault(slots[0]).value)
    else
      var end := offset + SlotWidth(slots[0]);
      if have < end then Short(end - have, SlotContext(slots[0])) else Walk(slots[1..], have, end)
  }

  lemma {:induction false} WalkBounds(slots: seq<Slot>, have: nat, offset: nat)
    requires offset <= have
    ensures Walk(slots, have, offset).Fits? ==> offset <= Walk(slots, have, offset).end <= have
  {
    if slots != [] && SlotFault(slots[0]).None? && offset + SlotWidth(slots[0]) <= have {
      WalkBounds(slots[1..], have, offset + SlotWidth(slots[0]));
    }
  }

  function ReadSlots(slots: seq<Slot>, address: uint32, data: seq<byte>, offset: nat): (os: seq<Operand>)
    requires forall s <- slots :: SlotOk(s)
    requires offset <= |data| && Walk(slots, |data|, offset).Fits?
    ensures |os| == |slots|
  {
    if slots == [] then []
    else
      var end := offset + SlotWidth(slots[0]);
      [ReadSlot(slots[0], address, end, data[offset..end])] + ReadSlots(slots[1..], address, data, end)
  }

  function Ordered(swapped: bool, os: seq<Operand>): seq<Operand> {
    if swapped && |os| == 2 then [os[1], os[0]] else os
  }

  /** What decoding `data` with a form means. */
  function Interpret(f: Form, address: uint32, opcode: word, data: seq<byte>): Result<Decoded, DecodeError>
    requires FormOk(f) && |data| >= 2
  {
    match Walk(f.slots, |data|, 2)
    case Bad(fault) => Err(Hard(fault))
    case Short(missing, context) => Err(NeedMore(missing, context))
    case Fits(end) =>
      WalkBounds(f.slots, |data|, 2);
      Ok(Assemble(address, opcode, data[..end], f.mnemonic,
                  Ordered(f.swapped, ReadSlots(f.slots, address, data, 2))))
  }

  // ---- forms with no, one and two slots, spelled out ----

  lemma InterpretNone(f: Form, address: uint32, opcode: word, data: seq<byte>)
    requires FormOk(f) && f.slots == [] && |data| >= 2
    ensures Interpret(f, address, opcode, data) == Ok(Assemble(address, opcode, data[..2], f.mnemonic, []))
  {
  }

  function WalkSlot(s: Slot, have: nat, offset: nat): Fit {
    var end := offset + SlotWidth(s);
    if SlotFault(s).Some? then Bad(SlotFault(s).value)
    else if have < end then Short(end - have, SlotContext(s))
    else Fits(end)
  }

  lemma WalkOne(s: Slot, have: nat, offset: nat)
    ensures Walk([s], have, offset) == WalkSlot(s, have, offset)
  {
    assert [s][1..] == [];
  }

  lemma WalkTwo(s: Slot, t: Slot, have: nat, offset: nat)
    ensures Walk([s, t], have, offset)
            == if WalkSlot(s, have, offset).Fits? then WalkSlot(t, have, offset + SlotWidth(s))
               else WalkSlot(s, have, offset)
  {
    assert [s, t][1..] == [t];
    WalkOne(t, have, offset + SlotWidth(s));
  }

  lemma ReadOne(s: Slot, address: uint32, data: seq<byte>, offset: nat)
    requires SlotOk(s) && offset <= |data| && WalkSlot(s, |data|, offset).Fits?
    ensures Walk([s], |data|, offset).Fits?
    ensures var end := offset + SlotWidth(s);
            ReadSlots([s], address, data, offset) == [ReadSlot(s, address, end, data[offset..end])]
  {
    hide ReadSlot;
    WalkOne(s, |data|, offset);
    assert [s][1..] == [];
  }

  lemma ReadTwo(s: Slot, t: Slot, address: uint32, data: seq<byte>, offset: nat)
    requires SlotOk(s) && SlotOk(t) && offset <= |data|
    requires WalkSlot(s, |data|, offset).Fits? && WalkSlot(t, |data|, offset + SlotWidth(s)).Fits?
    ensures Walk([s, t], |data|, offset).Fits?
    ensures var mid := offset + SlotWidth(s);
            var end := mid + SlotWidth(t);
            ReadSlots([s, t], address, data, offset)
            == [ReadSlot(s, address, mid, data[offset..mid]), ReadSlot(t, address, end, data[mid..end])]
  {
    hide ReadSlot;
    WalkTwo(s, t, |data|, offset);
    ReadOne(t, address, data, offset + SlotWidth(s));
    assert [s, t][1..] == [t];
  }

  // ---- the same, one slot at a time ----

  /** An operand, its text, and the offset behind its bytes. */
  datatype Fetched = Fetched(text: string, offset: nat, operand: Operand)

  /** Fetching one slot at `offset`. */
  function Step(s: Slot, address: uint32, data: seq<byte>, offset: nat): (r: Result<Fetched, DecodeError>)
    requires SlotOk(s) && offset <= |data|
    ensures r.Ok? ==> offset <= r.value.offset <= |data| && r.value.text == r.value.operand.text
  {
    match WalkSlot(s, |data|, offset)
    case Bad(fault) => Err(Hard(fault))
    case Short(missing, context) => Err(NeedMore(missing, context))
    case Fits(end) =>
      var o := ReadSlot(s, address, end, data[offset..end]);
      Ok(Fetched(o.text, end, o))
  }

  function Pair(swapped: bool, first: Operand, second: Operand): seq<Operand> {
    if swapped then [second, first] else [first, second]
  }

  lemma InterpretOne(f: Form, s: Slot, address: uint32, opcode: word, data: seq<byte>)
    requires FormOk(f) && f.slots == [s] && |data| >= 2
    ensures SlotOk(s)
    ensures Interpret(f, address, opcode, data)
            == match Step(s, address, data, 2)
               case Err(e) => Err(e)
               case Ok(x) => Ok(Assemble(address, opcode, data[..x.offset], f.mnemonic, [x.operand]))
  {
    hide ReadSlot, Assemble, EaFault, EaWidth, EaContext;
    assert s in f.slots;
    WalkOne(s, |data|, 2);
    if WalkSlot(s, |data|, 2).Fits? {
      ReadOne(s, address, data, 2);
    }
  }

  lemma InterpretTwo(f: Form, s: Slot, t: Slot, address: uint32, opcode: word, data: seq<byte>)
    requires FormOk(f) && f.slots == [s, t] && |data| >= 2
    ensures SlotOk(s) && SlotOk(t)
    ensures Interpret(f, address, opcode, data)
            == match Step(s, address, data, 2)
               case Err(e) => Err(e)
               case Ok(x) =>
                 match Step(t, address, data, x.offset)
                 case Err(e) => Err(e)
                 case Ok(y) =>
                   Ok(Assemble(address, opcode, data[..y.offset], f.mnemonic, Pair(f.swapped, x.operand, y.operand)))
  {
    hide ReadSlot, Assemble, EaFault, EaWidth, EaContext;
    assert s in f.slots && t in f.slots;
    WalkTwo(s, t, |data|, 2);
    if WalkSlot(s, |data|, 2).Fits? && WalkSlot(t, |data|, 2 + SlotWidth(s)).Fits? {
      ReadTwo(s, t, address, data, 2);
    }
  }
}
