/** The forms of all opcodes the decoders know: one line of fields for each decoder. */
module InstructionSet {
  import opened Words
  import opened Text
  import opened Model
  import opened EffectiveAddresses
  import opened Forms

  /** The decoder functions of the jump table. */
  datatype Decoder =
    | BTST | BCHG | BCLR | BSET | ADDI | SUBI | ANDI | ORI | EORI | CMPI
    | MOVE | NOP | RTS | STOP | TRAPV | TRAP | MOVEM | CLR | NEG | NEGX | NOT | TST
    | JSR | JMP | LEA | SWAP | PEA | BXX | MOVEQ | SBCD | DIVU | DIVS | OR
    | SUB | CMP | ABCD | MULU | MULS | AND | ADD | SHIFT

  // ---- opcode fields ----

  function Reg(op: word): regnum {
    (op & 0x7) as regnum
  }

  function Mode(op: word): bv3 {
    ((op >> 3) & 0x7) as bv3
  }

  function SizeField(op: word): bv2 {
    ((op >> 6) & 0x3) as bv2
  }

  function OpMode(op: word): bv3 {
    ((op >> 6) & 0x7) as bv3
  }

  function RegX(op: word): regnum {
    ((op >> 9) & 0x7) as regnum
  }

  function Condition(op: word): bv4 {
    ((op >> 8) & 0xF) as bv4
  }

  predicate Direction(op: word) {
    (op >> 8) & 0x1 != 0
  }

  // ---- names ----

  function SizeName(size: bv2): string {
    if size == 0 then "B" else if size == 1 then "W" else if size == 2 then "L" else "?"
  }

  function ByteSize(size: bv2): nat {
    if size == 0 then 1 else if size == 1 then 2 else 4
  }

  const BRANCH_NAMES: seq<string> :=
    ["BRA", "BSR", "BHI", "BLS", "BHS", "BLO", "BNE", "BEQ",
     "BVC", "BVS", "BPL", "BMI", "BGE", "BLT", "BGT", "BLE"]

  function BranchName(condition: bv4): string {
    BRANCH_NAMES[condition as int]
  }

  function ShiftName(kind: bv2): string {
    if kind == 0 then "AS" else if kind == 1 then "LS" else if kind == 2 then "ROX" else "RO"
  }

  // ---- slots ----

  function SourceEa(op: word, size: nat): (s: Slot)
    requires size in {1, 2, 4}
    ensures SlotOk(s)
  {
    Ea(Mode(op), Reg(op), size)
  }

  function RegisterSlot(kind: RegisterKind, number: regnum): (s: Slot)
    ensures SlotOk(s)
  {
    Fixed(RegisterOperand(kind, number))
  }

  /** Address-register operands that CMPM, ABCD and SBCD build themselves: the mode field stays 0. */
  function BareEaOperand(text: string, kind: EffectiveAddressKind, reg: regnum): Operand {
    EffectiveAddressOperand(text, RegisterEa(kind, 0, reg, AddressRegister))
  }

  function PostIncrementOperand(reg: regnum): (o: Operand)
    ensures SlotOk(Fixed(o))
  {
    BareEaOperand("(A" + [Digit(reg as int)] + ")+", PostIncrement, reg)
  }

  function PreDecrementOperand(reg: regnum): (o: Operand)
    ensures SlotOk(Fixed(o))
  {
    BareEaOperand("-(A" + [Digit(reg as int)] + ")", PreDecrement, reg)
  }

  /** A number printed in decimal. */
  function CountOperand(n: nat): (o: Operand)
    requires n < 0x100
    ensures SlotOk(Fixed(o))
  {
    ImmediateOperand("#" + Dec(n), n, 1)
  }

  function QuickOperand(op: word): (o: Operand)
    ensures SlotOk(Fixed(o))
  {
    ImmediateOperand("#" + FormatImmediateForMOVEQ(Signed(LowByte(op) as int, 0x100)), LowByte(op) as int, 1)
  }

  // ---- forms ----

  function Rejected(fault: Fault): (f: Form)
    ensures FormOk(f)
  {
    Form("", [Reject(fault)], false)
  }

  function DirectedForm(mn: string, op: word): (f: Form)
    ensures FormOk(f)
  {
    if SizeField(op) == 3 then Rejected(UnknownSize(mn, 3))
    else
      Form(mn + "." + SizeName(SizeField(op)),
           [SourceEa(op, ByteSize(SizeField(op))), RegisterSlot(DataRegister, RegX(op))], Direction(op))
  }

  /** ADDA, SUBA and CMPA. */
  function AddressForm(mn: string, op: word): (f: Form)
    ensures FormOk(f)
  {
    Form(mn + "A." + (if OpMode(op) == 7 then "L" else "W"),
         [SourceEa(op, if OpMode(op) == 7 then 4 else 2), RegisterSlot(AddressRegister, RegX(op))], false)
  }

  function ArithmeticForm(mn: string, op: word): (f: Form)
    ensures FormOk(f)
  {
    if OpMode(op) == 3 || OpMode(op) == 7 then AddressForm(mn, op) else DirectedForm(mn, op)
  }

  function ImmediateForm(mn: string, op: word, longImmediate: bool): (f: Form)
    ensures FormOk(f)
  {
    if SizeField(op) == 3 then Rejected(UnknownSize(mn, 3))
    else
      Form(mn + "." + SizeName(SizeField(op)),
           [Data(if SizeField(op) == 2 && longImmediate then 4 else 2, mn + " immediate"), SourceEa(op, 2)], false)
  }

  function BitForm(mn: string, op: word): (f: Form)
    ensures FormOk(f)
  {
    Form(mn,
         [if Direction(op) then RegisterSlot(DataRegister, RegX(op)) else BitNumber(mn + " immediate bit number"),
          SourceEa(op, 2)], false)
  }

  predicate IsCmpm(op: word) {
    op & 0xF138 == 0xB108
  }

  function CmpForm(op: word): (f: Form)
    ensures FormOk(f)
  {
    if IsCmpm(op) then
      Form("CMPM." + SizeName(SizeField(op)),
           [Fixed(PostIncrementOperand(Reg(op))), Fixed(PostIncrementOperand(RegX(op)))], false)
    else if OpMode(op) == 3 || OpMode(op) == 7 then AddressForm("CMP", op)
    else if OpMode(op) >= 4 then DirectedForm("EOR", op)
    else
      Form("CMP." + SizeName(SizeField(op)),
           [SourceEa(op, ByteSize(SizeField(op))), RegisterSlot(DataRegister, RegX(op))], false)
  }

  function MoveSizeField(op: word): bv2 {
    ((op >> 12) & 0x3) as bv2
  }

  function MoveSizeName(size: bv2): string {
    if size == 1 then "B" else if size == 3 then "W" else "L"
  }

  function MoveByteSize(size: bv2): nat {
    if size == 1 then 1 else if size == 3 then 2 else 4
  }

  function MoveForm(op: word): (f: Form)
    ensures FormOk(f)
  {
    var size := MoveSizeField(op);
    var source := SourceEa(op, MoveByteSize(size));
    if size == 0 then Rejected(UnknownMoveSize(size))
    else if OpMode(op) == 1 then
      Form("MOVEA." + MoveSizeName(size),
           [source, if size == 1 then Reject(ByteMovea) else RegisterSlot(AddressRegister, RegX(op))], false)
    else
      Form("MOVE." + MoveSizeName(size), [source, Ea(OpMode(op), RegX(op), 2)], false)
  }

  function MovemForm(op: word): (f: Form)
    ensures FormOk(f)
  {
    Form("MOVEM." + (if op & 0x0040 != 0 then "L" else "W"),
         [RegisterMask("MOVEM register list"),
          if Mode(op) != 0 || Reg(op) != 0 then SourceEa(op, 2) else Fixed(NO_OPERAND)],
         (op >> 10) & 0x1 != 0)
  }

  function EaForm(mn: string, op: word): (f: Form)
    ensures FormOk(f)
  {
    Form(mn, [SourceEa(op, 2)], false)
  }

  function EaToRegisterForm(mn: string, op: word, kind: RegisterKind): (f: Form)
    ensures FormOk(f)
  {
    Form(mn, [SourceEa(op, 2), RegisterSlot(kind, RegX(op))], false)
  }

  function BranchForm(op: word): (f: Form)
    ensures FormOk(f)
  {
    var mn, d := BranchName(Condition(op)), LowByte(op);
    if d == 0 then Form(mn + ".W", [Branch(2, d, mn + ".W displacement")], false)
    else if d == 0xFF then Form(mn + ".L", [Branch(4, d, mn + ".L displacement")], false)
    else Form(mn + ".S", [Branch(0, d, "")], false)
  }

  function BcdForm(mn: string, op: word): (f: Form)
    ensures FormOk(f)
  {
    if (op >> 3) & 0x1 == 0 then
      Form(mn, [RegisterSlot(DataRegister, Reg(op)), RegisterSlot(DataRegister, RegX(op))], false)
    else
      Form(mn, [Fixed(PreDecrementOperand(Reg(op))), Fixed(PreDecrementOperand(RegX(op)))], false)
  }

  /** The kind of a register shift, and its count, come from the same bits 9 to 11. */
  function ShiftForm(op: word): (f: Form)
    ensures FormOk(f)
  {
    var direction := if Direction(op) then "L" else "R";
    if RegX(op) > 3 then
      Form(ShiftName(SizeField(op)) + direction + ".W", [SourceEa(op, 2)], false)
    else
      Form(ShiftName(RegX(op) as bv2) + direction + "." + SizeName(SizeField(op)),
           [if (op >> 5) & 0x1 == 0 then Fixed(CountOperand(if RegX(op) == 0 then 8 else RegX(op) as int))
            else RegisterSlot(DataRegister, RegX(op)),
            RegisterSlot(DataRegister, Reg(op))], false)
  }

  function FormOf(d: Decoder, op: word): (f: Form)
    ensures FormOk(f)
  {
    match d
    case BTST => BitForm("BTST", op)
    case BCHG => BitForm("BCHG", op)
    case BCLR => BitForm("BCLR", op)
    case BSET => BitForm("BSET", op)
    case ADDI => ImmediateForm("ADDI", op, true)
    case SUBI => ImmediateForm("SUBI", op, true)
    case ANDI => ImmediateForm("ANDI", op, false)
    case ORI => ImmediateForm("ORI", op, false)
    case EORI => ImmediateForm("EORI", op, false)
    case CMPI => ImmediateForm("CMPI", op, false)
    case MOVE => MoveForm(op)
    case NOP => Form("NOP", [], false)
    case RTS => Form("RTS", [], false)
    case TRAPV => Form("TRAPV", [], false)
    case STOP => Form("STOP", [Data(2, "STOP immediate")], false)
    case TRAP => Form("TRAP", [Fixed(CountOperand(Vector(op)))], false)
    case MOVEM => MovemForm(op)
    case CLR => EaForm("CLR" + ("." + SizeName(SizeField(op))), op)
    case NEG => EaForm("NEG" + ("." + SizeName(SizeField(op))), op)
    case NEGX => EaForm("NEGX" + ("." + SizeName(SizeField(op))), op)
    case NOT => EaForm("NOT" + ("." + SizeName(SizeField(op))), op)
    case TST => EaForm("TST" + ("." + SizeName(SizeField(op))), op)
    case JSR => EaForm("JSR", op)
    case JMP => EaForm("JMP", op)
    case PEA => EaForm("PEA", op)
    case LEA => EaToRegisterForm("LEA", op, AddressRegister)
    case SWAP => Form("SWAP", [RegisterSlot(DataRegister, Reg(op))], false)
    case BXX => BranchForm(op)
    case MOVEQ => Form("MOVEQ", [Fixed(QuickOperand(op)), RegisterSlot(DataRegister, RegX(op))], false)
    case SBCD => BcdForm("SBCD", op)
    case ABCD => BcdForm("ABCD", op)
    case DIVU => EaToRegisterForm("DIVU", op, DataRegister)
    case DIVS => EaToRegisterForm("DIVS", op, DataRegister)
    case MULU => EaToRegisterForm("MULU", op, DataRegister)
    case MULS => EaToRegisterForm("MULS", op, DataRegister)
    case OR => DirectedForm("OR", op)
    case AND => DirectedForm("AND", op)
    case ADD => ArithmeticForm("ADD", op)
    case SUB => ArithmeticForm("SUB", op)
    case CMP => CmpForm(op)
    case SHIFT => ShiftForm(op)
  }

  function Vector(op: word): (v: nat)
    ensures v < 16
  {
    ((op & 0xF) as bv4) as int
  }

  function DataWordOperand(op: word): (o: Operand)
    ensures SlotOk(Fixed(o))
  {
    ImmediateOperand("$" + Hex(op as int, 4), op as int, 2)
  }

  /** An opcode without decoder becomes a data word. */
  function DataWordForm(op: word): (f: Form)
    ensures FormOk(f)
  {
    Form("DC.W", [Fixed(DataWordOperand(op))], false)
  }
}
