/** disasm.go: the public record, symbolized text, and what decoding a byte slice means. */
module Slices {
  import opened Wrappers
  import opened Words
  import opened Text
  import opened Model
  import opened EffectiveAddresses
  import opened RegisterLists
  import opened Forms
  import opened FormLaws
  import opened InstructionSet
  import opened Dispatch
  import opened OpcodeLaws
  import opened Decoders

  type Symbolizer = uint32 -> Option<string>

  /** DecodeOptions: the symbolizer may be nil. */
  type Options = Option<Symbolizer>

  datatype Outcome =
    | Decoding(inst: Decoded)
    | Partial(address: uint32, have: nat, missing: int, context: string)
    | Failed(fault: Fault)

  // ---- symbolization ----

  function FormatOperand(operand: Operand, symbolize: Symbolizer): string {
    if operand.branchTarget.Some? && symbolize(operand.branchTarget.value).Some? then
      symbolize(operand.branchTarget.value).value
    else if operand.effectiveAddress.None? then operand.text
    else
      var ea := operand.effectiveAddress.value;
      if ea.resolvedAddress.Some? && symbolize(ea.resolvedAddress.value).Some? then
        symbolize(ea.resolvedAddress.value).value
      else if ea.absoluteAddress.Some? && symbolize(ea.absoluteAddress.value).Some? then
        symbolize(ea.absoluteAddress.value).value
      else operand.text
  }

  function Rendered(operands: seq<Operand>, symbolize: Symbolizer): (texts: seq<string>)
    ensures |texts| == |operands|
    ensures forall i :: 0 <= i < |texts| ==> texts[i] == FormatOperand(operands[i], symbolize)
  {
    if operands == [] then [] else [FormatOperand(operands[0], symbolize)] + Rendered(operands[1..], symbolize)
  }

  method FormatOperands(operands: seq<Operand>, symbolize: Symbolizer) returns (text: string)
    ensures text == Join(Rendered(operands, symbolize))
  {
    hide FormatOperand, Join;
    var rendered: seq<string> := [];
    for i := 0 to |operands|
      invariant |rendered| == i
      invariant forall k :: 0 <= k < i ==> rendered[k] == FormatOperand(operands[k], symbolize)
    {
      rendered := rendered + [FormatOperand(operands[i], symbolize)];
    }
    assert rendered == Rendered(operands, symbolize);
    text := JoinOperands(rendered);
  }

  function Finalized(d: Decoded, opts: Options): Decoded {
    if opts.Some? && d.metadata.operands != [] then
      d.(operands := Join(Rendered(d.metadata.operands, opts.value)))
    else d
  }

  /** The public copy of a filled record. */
  method FinalizeInstruction(inst: Instruction, opts: Options) returns (d: Decoded)
    ensures d == Finalized(inst.View(), opts)
  {
    d := inst.View();
    if opts.Some? && |d.metadata.operands| > 0 {
      var text := FormatOperands(d.metadata.operands, opts.value);
      d := d.(operands := text);
    }
  }

  // ---- decoding a slice ----

  /** Decoding a byte slice, as a function of the bytes. */
  function Slice(data: seq<byte>, address: uint32, opts: Options): Outcome {
    if |data| < 2 then Partial(address, |data|, 2 - |data|, "opcode")
    else
      match Interpret(FormFor(WordAt(data, 0)), address, WordAt(data, 0), data)
      case Ok(d) => Decoding(Finalized(d, opts))
      case Err(NeedMore(missing, context)) => Partial(address, |data|, missing, context)
      case Err(Hard(fault)) => Failed(fault)
  }

  lemma SliceHasOpcode(data: seq<byte>, address: uint32, opts: Options)
    requires !Slice(data, address, opts).Partial?
    ensures |data| >= 2
  {
  }

  // ---- laws of slice decoding ----

  /** Success and hard errors do not depend on what follows: only NeedMore is unstable. */
  lemma SliceStable(data: seq<byte>, more: seq<byte>, address: uint32, opts: Options)
    requires !Slice(data, address, opts).Partial?
    ensures Slice(data + more, address, opts) == Slice(data, address, opts)
  {
    hide Interpret, FormFor, Finalized;
    var op := WordAt(data, 0);
    assert WordAt(data + more, 0) == op;
    InterpretStable(FormFor(op), address, op, data, more);
  }

  /** The opcode word alone decides the length: decoding succeeds exactly from that length on, and then
      takes exactly those bytes. An erroneous opcode never decodes. */
  lemma SliceLength(data: seq<byte>, address: uint32, opts: Options)
    requires |data| >= 2
    ensures match OpcodeLength(WordAt(data, 0))
            case None => !Slice(data, address, opts).Decoding?
            case Some(length) =>
              && 2 <= length <= 10 && length % 2 == 0
              && (Slice(data, address, opts).Decoding? <==> |data| >= length)
              && (|data| >= length ==>
                    var d := Slice(data, address, opts).inst;
                    && d.size == length && d.bytes == data[..length]
                    && d.address == address && d.opcode == WordAt(data, 0))
              && (|data| < length ==> Slice(data, address, opts).Partial?)
  {
    hide FormFor, HardFault, ReadSlots, Ordered, MetadataOf, Join, Rendered, WordsOf;
    var op := WordAt(data, 0);
    FaultOfForm(op);
    OpcodeLengthBounds(op);
    WalkThreshold(FormFor(op).slots, |data|, 2);
    WalkBounds(FormFor(op).slots, |data|, 2);
  }

  /** Some continuation of the opcode word is a hard error exactly when the opcode is in one of the three
      error classes, and then the fault is the one of the class. */
  lemma HardErrorsExactly(op: word, address: uint32, opts: Options, fault: Fault)
    ensures (exists data: seq<byte> ::
              |data| >= 2 && WordAt(data, 0) == op && Slice(data, address, opts) == Failed(fault))
            <==> HardFault(op) == Some(fault)
  {
    hide FormFor, HardFault, WordBytes, Word;
    var slots := FormFor(op).slots;
    FaultOfForm(op);
    forall data: seq<byte> | |data| >= 2 && WordAt(data, 0) == op && Slice(data, address, opts) == Failed(fault)
      ensures HardFault(op) == Some(fault)
    {
      WalkThreshold(slots, |data|, 2);
    }
    if HardFault(op) == Some(fault) {
      var data := WordBytes(op) + seq(DecisiveWidth(slots), _ => 0 as byte);
      WordOfWordBytes(op);
      WalkThreshold(slots, |data|, 2);
      assert WordAt(data, 0) == WordAt(WordBytes(op), 0);
    }
  }

  /** A partial error names the end of the first field that does not fit. Any continuation that is still
      shorter reports the same end and the same context; one that reaches it gets strictly further. */
  lemma PartialIsPrecise(data: seq<byte>, more: seq<byte>, address: uint32, opts: Options)
    requires Slice(data, address, opts).Partial?
    ensures var p := Slice(data, address, opts);
            var q := Slice(data + more, address, opts);
            && p.address == address && p.have == |data| && p.missing >= 1
            && (|more| < p.missing ==> q == Partial(address, |data| + |more|, p.missing - |more|, p.context))
            && (|more| >= p.missing && q.Partial? ==> q.have + q.missing > p.have + p.missing)
  {
    hide FormFor, ReadSlots;
    if |data| >= 2 {
      assert WordAt(data + more, 0) == WordAt(data, 0);
      WalkShortage(FormFor(WordAt(data, 0)).slots, |data|, |data + more|, 2);
    } else if |data + more| >= 2 {
      var whole := data + more;
      if Slice(whole, address, opts).Partial? {
        WalkShortage(FormFor(WordAt(whole, 0)).slots, |whole|, |whole|, 2);
      }
    }
  }

  /** Big-endian serialisation of the opcode and the extension words gives back the bytes, and the bytes
      are the front of the input. */
  lemma WordsAreTheBytes(data: seq<byte>, address: uint32, opts: Options)
    requires Slice(data, address, opts).Decoding?
    ensures var d := Slice(data, address, opts).inst;
            && d.size <= |data| && d.bytes == data[..d.size]
            && WordBytes(d.opcode) + BytesOf(d.extensionWords) == d.bytes
  {
    hide FormFor, ReadSlots, Ordered, MetadataOf, Join, Rendered, WordBytes, Word, OpcodeLength;
    SliceLength(data, address, opts);
    var d := Slice(data, address, opts).inst;
    assert d.extensionWords == WordsOf(d.bytes[2..]) by {
      WalkBounds(FormFor(WordAt(data, 0)).slots, |data|, 2);
    }
    BytesOfWordsOf(d.bytes[2..]);
    WordBytesInverse(data[0], data[1]);
    assert d.bytes == [data[0], data[1]] + d.bytes[2..];
  }

  /** In every decoded instruction the metadata repeat the mnemonic, split at its point, and collect targets
      and immediates from the operands in order. */
  lemma MetadataIsCollected(data: seq<byte>, address: uint32, opts: Options)
    requires Slice(data, address, opts).Decoding?
    ensures var d := Slice(data, address, opts).inst;
            && d.metadata == MetadataOf(d.mnemonic, d.metadata.operands)
            && MetadataMeans(d.metadata, d.mnemonic, d.metadata.operands)
  {
    hide FormFor, ReadSlots, Ordered, Join, Rendered, Cut, FirstTarget, AllImmediates, MetadataMeans;
    WalkBounds(FormFor(WordAt(data, 0)).slots, |data|, 2);
    var d := Slice(data, address, opts).inst;
    MetadataMeaning(d.mnemonic, d.metadata.operands);
  }

  // ---- text ----

  lemma SlotTextHasNoSpace(s: Slot, address: uint32, end: nat, field: seq<byte>)
    requires SlotOk(s) && SlotFault(s).None? && |field| == SlotWidth(s)
    ensures NoSpace(ReadSlot(s, address, end, field).text)
  {
    hide EaFault, EaWidth, EaContext, DecodeAddressingMode, Immediate, Advance, BranchDisplacement, LowByte,
      RegisterNames, FormatImmediate, RegisterListText, Dec, Hex;
    match s
    case Ea(mode, reg, size) => EaTextHasNoSpace(field, mode, reg, size);
    case RegisterMask(_) => ListTextHasNoSpace(WordAt(field, 0));
    case Data(size, _) => ImmediateHasNoSpace(if size == 2 then WordAt(field, 0) as int else LongAt(field, 0), size);
    case _ =>
  }

  lemma ImmediateHasNoSpace(value: uint32, size: nat)
    ensures NoSpace(FormatImmediate(value, size))
  {
    hide Dec, Hex, HexShort;
  }

  lemma EaTextHasNoSpace(field: seq<byte>, mode: bv3, reg: regnum, size: nat)
    requires DecodeAddressingMode(field, mode, reg, size).Ok?
    ensures NoSpace(DecodeAddressingMode(field, mode, reg, size).value.operand.text)
  {
    hide Dec, Hex, Immediate, FormatImmediate, DecInt, LowByte, Signed, WordAt, LongAt, DecodeMode7, MeetsLayout,
      Digit;
    assert MeetsLayout(DecodeAddressingMode(field, mode, reg, size), |field|, mode, reg, size);
    if mode == 7 {
      Mode7HasNoSpace(field, reg, size);
    }
  }

  lemma Mode7HasNoSpace(field: seq<byte>, reg: regnum, size: nat)
    requires DecodeMode7(field, reg, size).Ok?
    ensures NoSpace(DecodeMode7(field, reg, size).value.operand.text)
  {
    hide Dec, Hex, Immediate, FormatImmediate, DecInt, LowByte, Signed, WordAt, LongAt, MeetsLayout, Digit;
    if reg == 4 {
      if size == 4 {
        ImmediateHasNoSpace(LongAt(field, 0), 4);
      } else if size == 2 {
        ImmediateHasNoSpace(WordAt(field, 0) as int, 2);
      } else {
        ImmediateHasNoSpace(LowByte(WordAt(field, 0)) as int, 1);
      }
    }
  }

  lemma ListTextHasNoSpace(mask: word)
    ensures NoSpace(RegisterListText(mask))
  {
    hide Names, Runs;
    RunsAreNamed(RegisterNames(mask), 0);
    RunsHaveNoSpace("", Runs(RegisterNames(mask), 0));
  }

  lemma {:induction false} RunsHaveNoSpace(result: string, runs: seq<Run>)
    requires NoSpace(result) && NamedRuns(runs)
    ensures NoSpace(AppendRuns(result, runs))
    decreases |runs|
  {
    if runs != [] {
      assert IsName(runs[0].first) && IsName(runs[0].last);
      RunsHaveNoSpace(Separated(result) + RunText(runs[0]), runs[1..]);
    }
  }

  lemma {:induction false} SlotTextsHaveNoSpace(slots: seq<Slot>, address: uint32, data: seq<byte>, offset: nat)
    requires forall s <- slots :: SlotOk(s)
    requires offset <= |data| && Walk(slots, |data|, offset).Fits?
    ensures forall i :: 0 <= i < |slots| ==> NoSpace(ReadSlots(slots, address, data, offset)[i].text)
  {
    hide ReadSlot, EaFault, EaWidth, EaContext, NoSpace;
    if slots != [] {
      var end := offset + SlotWidth(slots[0]);
      assert slots[0] in slots;
      SlotTextHasNoSpace(slots[0], address, end, data[offset..end]);
      SlotTextsHaveNoSpace(slots[1..], address, data, end);
    }
  }

  /** Without a symbolizer the operand string is the join of the operand texts, for every decoded
      instruction, and cutting it at ", " gives the texts back. */
  lemma TextAgreesWithStructure(data: seq<byte>, address: uint32)
    requires Slice(data, address, None).Decoding?
    ensures var d := Slice(data, address, None).inst;
            && d.operands == Join(Texts(d.metadata.operands))
            && (d.metadata.operands != [] ==> Split(d.operands) == Texts(d.metadata.operands))
  {
    hide FormFor, ReadSlots, Join, Split, Cut, FirstTarget, AllImmediates, NoSpace, WordsOf;
    var slots := FormFor(WordAt(data, 0)).slots;
    WalkBounds(slots, |data|, 2);
    SlotTextsHaveNoSpace(slots, address, data, 2);
    var d := Slice(data, address, None).inst;
    if d.metadata.operands != [] {
      SplitJoin(Texts(d.metadata.operands));
    }
  }

  /** The symbolizer knows none of the addresses of an operand. */
  predicate Unresolved(o: Operand, symbolize: Symbolizer) {
    && (o.branchTarget.Some? ==> symbolize(o.branchTarget.value).None?)
    && (o.effectiveAddress.Some? ==>
          && (o.effectiveAddress.value.resolvedAddress.Some? ==>
                symbolize(o.effectiveAddress.value.resolvedAddress.value).None?)
          && (o.effectiveAddress.value.absoluteAddress.Some? ==>
                symbolize(o.effectiveAddress.value.absoluteAddress.value).None?))
  }

  function ResolvedOf(o: Operand): Option<uint32> {
    if o.effectiveAddress.Some? then o.effectiveAddress.value.resolvedAddress else None
  }

  function AbsoluteOf(o: Operand): Option<uint32> {
    if o.effectiveAddress.Some? then o.effectiveAddress.value.absoluteAddress else None
  }

  predicate Knows(symbolize: Symbolizer, address: Option<uint32>) {
    address.Some? && symbolize(address.value).Some?
  }

  /** What an operand prints as: the symbol of its branch target, else of its resolved address, else of its
      absolute address, and its own text when the symbolizer knows none of them. */
  predicate PrintsAs(o: Operand, symbolize: Symbolizer, text: string) {
    var target, resolved, absolute := o.branchTarget, ResolvedOf(o), AbsoluteOf(o);
    && (Knows(symbolize, target) ==> symbolize(target.value) == Some(text))
    && (!Knows(symbolize, target) && Knows(symbolize, resolved) ==> symbolize(resolved.value) == Some(text))
    && (!Knows(symbolize, target) && !Knows(symbolize, resolved) && Knows(symbolize, absolute) ==>
          symbolize(absolute.value) == Some(text))
    && (!Knows(symbolize, target) && !Knows(symbolize, resolved) && !Knows(symbolize, absolute) ==> text == o.text)
  }

  lemma FormatPrints(o: Operand, symbolize: Symbolizer)
    ensures PrintsAs(o, symbolize, FormatOperand(o, symbolize))
  {
  }

  /** Symbolization changes the operand string only: it is the join of what the operands print as. */
  lemma SymbolizationRefines(data: seq<byte>, address: uint32, symbolize: Symbolizer)
    requires Slice(data, address, None).Decoding?
    ensures var raw := Slice(data, address, None).inst;
            var os := raw.metadata.operands;
            && Slice(data, address, Some(symbolize)).Decoding?
            && var d := Slice(data, address, Some(symbolize)).inst;
            && d == raw.(operands := d.operands)
            && d.operands == Join(Rendered(os, symbolize))
            && (forall i :: 0 <= i < |os| ==> PrintsAs(os[i], symbolize, Rendered(os, symbolize)[i]))
            && (forall i :: 0 <= i < |os| && Unresolved(os[i], symbolize) ==> Rendered(os, symbolize)[i] == os[i].text)
            && ((forall i :: 0 <= i < |os| ==> Unresolved(os[i], symbolize)) ==> d == raw)
  {
    hide FormFor, Interpret, Join, Texts, FormatOperand, PrintsAs;
    TextAgreesWithStructure(data, address);
    var raw := Slice(data, address, None).inst;
    var os := raw.metadata.operands;
    forall i | 0 <= i < |os|
      ensures PrintsAs(os[i], symbolize, Rendered(os, symbolize)[i])
    {
      FormatPrints(os[i], symbolize);
    }
    forall i | 0 <= i < |os| && Unresolved(os[i], symbolize)
      ensures Rendered(os, symbolize)[i] == os[i].text
    {
      UnresolvedKeepsText(os[i], symbolize);
    }
    if forall i :: 0 <= i < |os| ==> Unresolved(os[i], symbolize) {
      assert Rendered(os, symbolize) == Texts(os);
    }
    if os == [] {
      assert Rendered(os, symbolize) == Texts(os);
    }
  }

  /** An instruction with one operand that prints as a symbol prints as that symbol. */
  lemma OnlyOperandPrints(data: seq<byte>, address: uint32, symbolize: Symbolizer, o: Operand, symbol: string)
    requires Slice(data, address, None).Decoding? && Slice(data, address, None).inst.metadata.operands == [o]
    requires forall text :: PrintsAs(o, symbolize, text) ==> text == symbol
    ensures Slice(data, address, Some(symbolize)).Decoding?
    ensures Slice(data, address, Some(symbolize)).inst.operands == symbol
  {
    hide Slice, PrintsAs, Join;
    SymbolizationRefines(data, address, symbolize);
    var texts := Rendered([o], symbolize);
    assert PrintsAs([o][0], symbolize, texts[0]);
    assert texts == [symbol];
    JoinOne(symbol);
  }

  /** A branch to a known target prints the symbol. */
  lemma KnownBranchPrintsSymbol(data: seq<byte>, address: uint32, symbolize: Symbolizer)
    requires |data| >= 2 && Lookup(WordAt(data, 0)) == Some(BXX) && Slice(data, address, None).Decoding?
    requires Knows(symbolize, Slice(data, address, None).inst.metadata.branchTarget)
    ensures Slice(data, address, Some(symbolize)).Decoding?
    ensures Some(Slice(data, address, Some(symbolize)).inst.operands)
            == symbolize(Slice(data, address, None).inst.metadata.branchTarget.value)
  {
    hide Slice, Lookup, WordAt;
    BranchTarget(data, address);
    BranchOperandOf(data, address);
    var d := Slice(data, address, None).inst;
    OnlyOperandPrints(data, address, symbolize, d.metadata.operands[0], symbolize(d.metadata.branchTarget.value).value);
  }

  lemma BranchOperandOf(data: seq<byte>, address: uint32)
    requires |data| >= 2 && Lookup(WordAt(data, 0)) == Some(BXX) && Slice(data, address, None).Decoding?
    ensures var d := Slice(data, address, None).inst;
            && d.metadata.operands == [d.metadata.operands[0]]
            && d.metadata.operands[0].branchTarget == d.metadata.branchTarget
  {
    hide Lookup, BranchForm, Interpret, WordAt;
    InterpretBranchOperand(WordAt(data, 0), address, data);
  }

  lemma InterpretBranchOperand(op: word, address: uint32, data: seq<byte>)
    requires |data| >= 2 && op == WordAt(data, 0) && Interpret(BranchForm(op), address, op, data).Ok?
    ensures var d := Interpret(BranchForm(op), address, op, data).value;
            && |d.metadata.operands| == 1 && d.metadata.operands[0].branchTarget == d.metadata.branchTarget
            && d.metadata.operands == [d.metadata.operands[0]]
  {
    hide BranchName, Advance, FormatBranchTarget, Step, Interpret, LowByte, BranchDisplacement, Word, Cut, WordsOf,
      AllImmediates, Join, Texts;
    var f := BranchForm(op);
    var s := f.slots[0];
    InterpretOne(f, s, address, op, data);
    BranchStep(data, address, 2, s.width, s.short, s.context);
  }

  lemma UnresolvedKeepsText(o: Operand, symbolize: Symbolizer)
    ensures Unresolved(o, symbolize) ==> FormatOperand(o, symbolize) == o.text
  {
  }

  // ---- relocation ----

  function RelocateOutcome(r: Outcome, k: int): Outcome {
    match r
    case Decoding(d) => Decoding(Relocate(d, k))
    case Partial(address, have, missing, context) => Partial(Advance(address, k), have, missing, context)
    case Failed(fault) => Failed(fault)
  }

  /** The same bytes k further on decode to the same instruction with address and targets moved by k. */
  lemma SliceRelocates(data: seq<byte>, address: uint32, k: int)
    ensures Slice(data, Advance(address, k), None) == RelocateOutcome(Slice(data, address, None), k)
  {
    hide FormFor, Interpret, Relocate;
    if |data| >= 2 {
      InterpretRelocates(FormFor(WordAt(data, 0)), address, k, WordAt(data, 0), data);
    }
  }

  /** Where the displacement of a branch lies, as the number its bytes spell and the range of that number:
      the low opcode byte, or the word or long word behind it when that byte is 0 or 0xFF. */
  function BranchField(data: seq<byte>): (nat, int)
    requires |data| >= 2 && (data[1] == 0 ==> |data| >= 4) && (data[1] == 0xFF ==> |data| >= 6)
  {
    if data[1] == 0 then (BigEndian(data[2..4]), 0x1_0000)
    else if data[1] == 0xFF then (BigEndian(data[2..6]), 0x1_0000_0000)
    else (data[1] as int, 0x100)
  }

  /** Bcc, BRA and BSR: the low opcode byte gives the size, and the target is the address of the next
      instruction plus the sign-extended displacement, mod 2^32, in metadata and text. */
  lemma BranchTarget(data: seq<byte>, address: uint32)
    requires |data| >= 2 && Lookup(WordAt(data, 0)) == Some(BXX)
    requires Slice(data, address, None).Decoding?
    ensures var d := Slice(data, address, None).inst;
            && d.size == (if data[1] == 0 then 4 else if data[1] == 0xFF then 6 else 2) <= |data|
            && |d.bytes| == d.size && d.metadata.branchTarget.Some?
            && var target := d.metadata.branchTarget.value;
            && (exists x :: Extends(x, BranchField(data).0, BranchField(data).1)
                            && target == (address + d.size + x) % 0x1_0000_0000)
            && d.operands == "$" + Hex(target, if target <= 0xFFFF then 4 else 8)
  {
    hide Lookup, BranchForm, Interpret, BranchDisplacement, LowByte, WordAt, BigEndian, Extends, Hex;
    InterpretBranch(WordAt(data, 0), address, data);
    var d := Slice(data, address, None).inst;
    BranchLowByte(data);
    var field := data[2..d.size];
    DisplacementExtends(data, field);
    assert d.metadata.branchTarget == Some(Advance(address, d.size + BranchDisplacement(|field|, data[1], field)));
  }

  lemma BranchLowByte(data: seq<byte>)
    requires |data| >= 2
    ensures LowByte(WordAt(data, 0)) == data[1]
  {
  }

  /** What BranchDisplacement reads is the sign extension of the number in its bytes. */
  lemma DisplacementExtends(data: seq<byte>, field: seq<byte>)
    requires |data| >= 2
    requires |field| == if data[1] == 0 then 2 else if data[1] == 0xFF then 4 else 0
    requires 2 + |field| <= |data| && field == data[2..2 + |field|]
    ensures Extends(BranchDisplacement(|field|, data[1], field), BranchField(data).0, BranchField(data).1)
  {
    hide BigEndian, Extends, WordAt, LongAt, Signed;
    if data[1] == 0 {
      BigEndianWord(field);
      SignedExtends(WordAt(field, 0) as int, 0x1_0000);
    } else if data[1] == 0xFF {
      BigEndianLong(field);
      SignedExtends(LongAt(field, 0), 0x1_0000_0000);
    } else {
      SignedExtends(data[1] as int, 0x100);
    }
  }

  lemma InterpretBranch(op: word, address: uint32, data: seq<byte>)
    requires |data| >= 2 && op == WordAt(data, 0) && Interpret(BranchForm(op), address, op, data).Ok?
    ensures var d := Interpret(BranchForm(op), address, op, data).value;
            && d.size == (if LowByte(op) == 0 then 4 else if LowByte(op) == 0xFF then 6 else 2) <= |data|
            && |d.bytes| == d.size
            && d.metadata.branchTarget
               == Some(Advance(address, d.size + BranchDisplacement(d.size - 2, LowByte(op), data[2..d.size])))
            && d.operands == FormatBranchTarget(d.metadata.branchTarget.value)
  {
    hide Lookup, BranchName, Advance, FormatBranchTarget, Step, Interpret, LowByte, Assemble, BranchDisplacement,
      Word;
    var f := BranchForm(op);
    var s := f.slots[0];
    InterpretOne(f, s, address, op, data);
    BranchStep(data, address, 2, s.width, s.short, s.context);
    var end := 2 + s.width;
    var displacement := BranchDisplacement(s.width, s.short, data[2..end]);
    AssembleTarget(address, op, data[..end], f.mnemonic, Advance(address, end + displacement));
  }

  lemma AssembleTarget(address: uint32, op: word, bytes: seq<byte>, mnemonic: string, target: uint32)
    requires |bytes| >= 2
    ensures var d := Assemble(address, op, bytes, mnemonic, [TargetOperand(target)]);
            && d.size == |d.bytes| && d.bytes == bytes && d.metadata.branchTarget == Some(target)
            && d.operands == FormatBranchTarget(target)
  {
    hide FormatBranchTarget, Cut, WordsOf, AllImmediates, Join, Texts;
    JoinOperandTexts(TargetOperand(target), NO_OPERAND);
  }
}
