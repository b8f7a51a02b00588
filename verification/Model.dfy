/** The records of a decoded instruction (types.go, public_types.go) and the decode errors. A Go
    pointer field that may be nil is an Option. */
module Model {
  import opened Wrappers
  import opened Words
  import opened Text

  type regnum = bv3

  datatype RegisterKind = DataRegister | AddressRegister | ProgramCounter

  datatype Register = Register(kind: RegisterKind, number: regnum)

  /** `signed` is the int32 reading of the operand at its own width. */
  datatype ImmediateValue = ImmediateValue(value: uint32, signed: int, size: nat)

  datatype IndexRegister = IndexRegister(register: Register, size: string)

  datatype EffectiveAddressKind =
    | DataRegisterDirect | AddressRegisterDirect | AddressIndirect | PostIncrement | PreDecrement
    | Displacement | Index | AbsoluteShort | AbsoluteLong | PCDisplacement | PCIndex | ImmediateData

  datatype EffectiveAddress = EffectiveAddress(
    kind: EffectiveAddressKind,
    mode: bv3,
    register: regnum,
    base: Option<Register>,
    displacement: Option<int>,
    absoluteAddress: Option<uint32>,
    resolvedAddress: Option<uint32>,
    immediate: Option<ImmediateValue>,
    index: Option<IndexRegister>)

  datatype OperandKind =
    | NoOperandKind | RegisterKindOperand | ImmediateKindOperand | EffectiveAddressOperandKind
    | RegisterListOperandKind | BranchTargetOperandKind

  datatype Operand = Operand(
    text: string,
    kind: OperandKind,
    register: Option<Register>,
    immediate: Option<ImmediateValue>,
    effectiveAddress: Option<EffectiveAddress>,
    registerList: seq<string>,
    branchTarget: Option<uint32>)

  /** The zero Operand of the Go code. */
  const NO_OPERAND := Operand("", NoOperandKind, None, None, None, [], None)

  datatype Metadata = Metadata(
    mnemonic: string,
    mnemonicBase: string,
    sizeSuffix: string,
    operands: seq<Operand>,
    branchTarget: Option<uint32>,
    immediateValues: seq<ImmediateValue>)

  datatype Decoded = Decoded(
    address: uint32,
    opcode: word,
    mnemonic: string,
    operands: string,
    size: nat,
    bytes: seq<byte>,
    extensionWords: seq<word>,
    metadata: Metadata)

  /** Errors that more bytes cannot repair. */
  datatype Fault =
    | UnknownAddressingMode(mode: bv3, reg: regnum)
    | UnsupportedImmediateSize(size: nat)
    | UnknownSize(mnemonic: string, sizeField: bv2)
    | ByteMovea
    | UnknownMoveSize(sizeField: bv2)

  datatype DecodeError = NeedMore(missing: nat, context: string) | Hard(fault: Fault)

  // ---- operand constructors (common.go) ----

  function RegisterPrefix(kind: RegisterKind): string {
    match kind
    case AddressRegister => "A"
    case ProgramCounter => "PC"
    case DataRegister => "D"
  }

  function RegisterName(kind: RegisterKind, number: regnum): string {
    RegisterPrefix(kind) + [Digit(number as int)]
  }

  function RegisterOperand(kind: RegisterKind, number: regnum): Operand {
    NO_OPERAND.(text := RegisterName(kind, number), kind := RegisterKindOperand,
                register := Some(Register(kind, number)))
  }

  function SignedImmediateValue(value: uint32, size: nat): int {
    if size == 1 then Signed(value % 0x100, 0x100)
    else if size == 2 then Signed(value % 0x1_0000, 0x1_0000)
    else Signed(value, 0x1_0000_0000)
  }

  function Immediate(value: uint32, size: nat): ImmediateValue {
    ImmediateValue(value, SignedImmediateValue(value, size), size)
  }

  function ImmediateOperand(text: string, value: uint32, size: nat): Operand {
    NO_OPERAND.(text := text, kind := ImmediateKindOperand, immediate := Some(Immediate(value, size)))
  }

  function EffectiveAddressOperand(text: string, ea: EffectiveAddress): Operand {
    NO_OPERAND.(text := text, kind := EffectiveAddressOperandKind, effectiveAddress := Some(ea))
  }

  function RegisterListOperand(text: string, registers: seq<string>): Operand {
    NO_OPERAND.(text := text, kind := RegisterListOperandKind, registerList := registers)
  }

  function BranchOperand(text: string, target: uint32): Operand {
    NO_OPERAND.(text := text, kind := BranchTargetOperandKind, branchTarget := Some(target))
  }

  // ---- what the metadata of an instruction holds ----

  function Texts(operands: seq<Operand>): (texts: seq<string>)
    ensures |texts| == |operands|
    ensures forall i :: 0 <= i < |texts| ==> texts[i] == operands[i].text
  {
    if operands == [] then [] else [operands[0].text] + Texts(operands[1..])
  }

  /** The branch target of the first operand that has one. */
  function FirstTarget(operands: seq<Operand>): Option<uint32> {
    if operands == [] then None
    else if operands[0].branchTarget.Some? then operands[0].branchTarget
    else FirstTarget(operands[1..])
  }

  function ImmediatesOf(o: Operand): seq<ImmediateValue> {
    (if o.immediate.Some? then [o.immediate.value] else []) +
    (if o.effectiveAddress.Some? && o.effectiveAddress.value.immediate.Some?
     then [o.effectiveAddress.value.immediate.value] else [])
  }

  function AllImmediates(operands: seq<Operand>): seq<ImmediateValue> {
    if operands == [] then [] else ImmediatesOf(operands[0]) + AllImmediates(operands[1..])
  }

  /** strings.Cut at the first ".". */
  function Cut(s: string): (string, string) {
    var i := IndexOf(s, '.');
    if i < |s| then (s[..i], s[i + 1..]) else (s, "")
  }

  function MetadataOf(mnemonic: string, operands: seq<Operand>): Metadata {
    Metadata(mnemonic, Cut(mnemonic).0, Cut(mnemonic).1, operands, FirstTarget(operands), AllImmediates(operands))
  }

  /** The complete record of an instruction that occupies exactly `bytes`. */
  function Assemble(address: uint32, opcode: word, bytes: seq<byte>, mnemonic: string, operands: seq<Operand>): Decoded
    requires |bytes| >= 2
  {
    Decoded(address, opcode, mnemonic, Join(Texts(operands)), |bytes|, bytes, WordsOf(bytes[2..]),
            MetadataOf(mnemonic, operands))
  }

  // ---- what metadata hold, position by position ----

  function CountOf(o: Operand): nat {
    (if o.immediate.Some? then 1 else 0)
    + (if o.effectiveAddress.Some? && o.effectiveAddress.value.immediate.Some? then 1 else 0)
  }

  /** Number of immediates in the first i operands. */
  function CountBefore(os: seq<Operand>, i: nat): nat
    requires i <= |os|
  {
    if i == 0 then 0 else CountBefore(os, i - 1) + CountOf(os[i - 1])
  }

  lemma {:induction false} CountShifts(os: seq<Operand>, i: nat)
    requires 0 < i <= |os|
    ensures CountBefore(os, i) == CountOf(os[0]) + CountBefore(os[1..], i - 1)
  {
    hide CountOf;
    if i > 1 {
      CountShifts(os, i - 1);
    }
  }

  /** The immediates are listed operand by operand, in each the operand's own before that of its address,
      and there are no others. */
  predicate ListsImmediates(values: seq<ImmediateValue>, os: seq<Operand>) {
    && |values| == CountBefore(os, |os|)
    && forall i :: 0 <= i < |os| ==> ListsAt(values, os, i)
  }

  predicate ListsAt(values: seq<ImmediateValue>, os: seq<Operand>, i: nat)
    requires i < |os|
  {
    var o, n := os[i], CountBefore(os, i);
    && n + CountOf(o) <= |values|
    && (o.immediate.Some? ==> values[n] == o.immediate.value)
    && (o.effectiveAddress.Some? && o.effectiveAddress.value.immediate.Some? ==>
          values[n + CountOf(o) - 1] == o.effectiveAddress.value.immediate.value)
  }

  lemma ListsShifts(head: Operand, values: seq<ImmediateValue>, os: seq<Operand>, i: nat)
    requires os != [] && os[0] == head && 0 < i < |os| && ListsAt(values, os[1..], i - 1)
    ensures ListsAt(ImmediatesOf(head) + values, os, i)
  {
    CountShifts(os, i);
  }

  lemma {:induction false} ImmediatesAreListed(os: seq<Operand>)
    ensures ListsImmediates(AllImmediates(os), os)
  {
    if os != [] {
      ImmediatesAreListed(os[1..]);
      CountShifts(os, |os|);
      forall i | 0 <= i < |os|
        ensures ListsAt(AllImmediates(os), os, i)
      {
        if i > 0 {
          ListsShifts(os[0], AllImmediates(os[1..]), os, i);
        }
      }
    }
  }

  /** The branch target is that of the first operand that has one. */
  predicate IsFirstTarget(target: Option<uint32>, os: seq<Operand>) {
    match target
    case None => forall o <- os :: o.branchTarget.None?
    case Some(_) =>
      exists i :: 0 <= i < |os| && os[i].branchTarget == target && forall j :: 0 <= j < i ==> os[j].branchTarget.None?
  }

  lemma {:induction false} FirstTargetIsFirst(os: seq<Operand>)
    ensures IsFirstTarget(FirstTarget(os), os)
  {
    if os != [] && os[0].branchTarget.None? {
      FirstTargetIsFirst(os[1..]);
      if FirstTarget(os).Some? {
        var i :| 0 <= i < |os[1..]| && os[1..][i].branchTarget == FirstTarget(os)
                 && forall j :: 0 <= j < i ==> os[1..][j].branchTarget.None?;
        assert os[i + 1].branchTarget == FirstTarget(os);
        assert forall j :: 0 <= j < i + 1 ==> os[j].branchTarget.None? by {
          forall j | 0 <= j < i + 1
            ensures os[j].branchTarget.None?
          {
            assert j > 0 ==> os[j] == os[1..][j - 1];
          }
        }
      }
    }
  }

  /** Base and suffix are the mnemonic before and behind its first point. */
  predicate SplitsAtPoint(mnemonic: string, base: string, suffix: string) {
    '.' !in base && if '.' in mnemonic then mnemonic == base + "." + suffix else mnemonic == base && suffix == ""
  }

  lemma CutSplits(mnemonic: string)
    ensures SplitsAtPoint(mnemonic, Cut(mnemonic).0, Cut(mnemonic).1)
  {
    var i := IndexOf(mnemonic, '.');
    if i < |mnemonic| {
      assert mnemonic == mnemonic[..i] + [mnemonic[i]] + mnemonic[i + 1..];
    }
  }

  predicate MetadataMeans(m: Metadata, mnemonic: string, os: seq<Operand>) {
    && m.mnemonic == mnemonic && SplitsAtPoint(mnemonic, m.mnemonicBase, m.sizeSuffix) && m.operands == os
    && IsFirstTarget(m.branchTarget, os) && ListsImmediates(m.immediateValues, os)
  }

  lemma MetadataMeaning(mnemonic: string, os: seq<Operand>)
    ensures MetadataMeans(MetadataOf(mnemonic, os), mnemonic, os)
  {
    hide SplitsAtPoint, IsFirstTarget, ListsImmediates, Cut;
    CutSplits(mnemonic);
    FirstTargetIsFirst(os);
    ImmediatesAreListed(os);
  }
}
