/** disasm.go: the restartable decoder and the range loop, proved against slice decoding. */
module Driver {
  import opened Wrappers
  import opened Words
  import opened Text
  import opened Model
  import opened Forms
  import opened FormLaws
  import opened InstructionSet
  import opened Dispatch
  import opened OpcodeLaws
  import opened Decoders
  import opened Slices
  import opened Readers

  /** Bytes that settle what an opcode decodes to: the whole instruction, or the fields before its error. */
  function Demand(op: word): nat {
    2 + DecisiveWidth(FormFor(op).slots)
  }

  /** Bytes that settle this buffer: the opcode word, then what the opcode demands. */
  function Need(buffer: seq<byte>): nat {
    if |buffer| < 2 then 2 else Demand(WordAt(buffer, 0))
  }

  /** An opcode without decoder: the record is written out by hand. */
  method DataWord(data: seq<byte>, address: uint32, opcode: word, opts: Options) returns (d: Decoded)
    requires |data| >= 2 && Lookup(opcode).None?
    ensures Interpret(FormFor(opcode), address, opcode, data).Ok?
    ensures d == Finalized(Interpret(FormFor(opcode), address, opcode, data).value, opts)
  {
    hide Lookup, FormFor, DataWordForm, Interpret, Hex, Finalized, Signed, Immediate;
    var text := "$" + Hex(opcode as int, 4);
    var value := ImmediateValue(opcode as int, Signed(opcode as int, 0x1_0000), 2);
    var operand := NO_OPERAND.(text := text, kind := ImmediateKindOperand, immediate := Some(value));
    var inst := new Instruction(address, opcode, data[..2]);
    inst.mnemonic := "DC.W";
    inst.operands := text;
    inst.size := 2;
    inst.extensionWords := [];
    inst.metadata := Metadata("DC.W", "DC", "W", [operand], None, [value]);
    NoDecoder(opcode);
    WordImmediate(opcode as int);
    DataWordRecord(data, address, opcode, operand, value);
    d := FinalizeInstruction(inst, opts);
  }

  /** What the data-word form means, spelled out. */
  lemma DataWordRecord(data: seq<byte>, address: uint32, opcode: word, operand: Operand, value: ImmediateValue)
    requires |data| >= 2 && operand == DataWordOperand(opcode)
    requires operand.immediate == Some(value) && operand.effectiveAddress.None? && operand.branchTarget.None?
    ensures Interpret(DataWordForm(opcode), address, opcode, data)
            == Ok(Decoded(address, opcode, "DC.W", operand.text, 2, data[..2], [],
                          Metadata("DC.W", "DC", "W", [operand], None, [value])))
  {
    hide Interpret, Step, DataWordOperand, Join, Texts, SlotOk, MetadataOf;
    InterpretOne(DataWordForm(opcode), Fixed(operand), address, opcode, data);
    FixedStep(operand, address, data, 2);
    JoinOperandTexts(operand, operand);
    DataWordMetadata(operand, value);
  }

  lemma WordImmediate(n: nat)
    requires n < 0x1_0000
    ensures Immediate(n, 2) == ImmediateValue(n, Signed(n, 0x1_0000), 2)
  {
  }

  lemma DataWordMetadata(operand: Operand, value: ImmediateValue)
    requires operand.immediate == Some(value) && operand.effectiveAddress.None? && operand.branchTarget.None?
    ensures MetadataOf("DC.W", [operand]) == Metadata("DC.W", "DC", "W", [operand], None, [value])
  {
    assert "DC.W" == "DC" + ['.'] + "W";
    IndexOfFirst("DC", '.', "W");
    assert "DC.W"[..2] == "DC" && "DC.W"[3..] == "W";
    assert [operand][1..] == [];
    assert ImmediatesOf(operand) == [value];
    assert AllImmediates([operand]) == [value];
    assert FirstTarget([operand]) == None;
  }

  /** Number of fields whose bytes are in the buffer. */
  function Progress(buffer: seq<byte>): (n: nat)
    requires |buffer| >= 2
    ensures n <= 2
  {
    Filled(FormFor(WordAt(buffer, 0)).slots, |buffer|, 2)
  }

  /** What a refill after a shortage achieves: the same shortage with fewer missing bytes, or one more
      complete field. */
  lemma Refill(data: seq<byte>, filled: seq<byte>, address: uint32, opts: Options)
    requires |data| >= 2 && data <= filled && Slice(data, address, opts).Partial?
    ensures var p := Slice(data, address, opts);
            && p.address == address && p.have == |data| && p.missing >= 1
            && |data| + p.missing <= Need(data) <= 10
            && Need(filled) == Need(data) && WordAt(filled, 0) == WordAt(data, 0)
            && (|filled| < |data| + p.missing ==>
                  Slice(filled, address, opts) == Partial(address, |filled|, |data| + p.missing - |filled|, p.context))
            && (|filled| >= |data| + p.missing ==> Progress(filled) > Progress(data))
  {
    hide FormFor, ReadSlots, Word;
    var op := WordAt(data, 0);
    var more := filled[|data|..];
    assert filled == data + more;
    WalkShortage(FormFor(op).slots, |data|, |filled|, 2);
    DemandBounds(op);
    PartialIsPrecise(data, more, address, opts);
  }

  lemma DemandBounds(op: word)
    ensures 2 <= Demand(op) <= 10
  {
    hide FormFor;
    OpcodeLengthBounds(op);
    DecisiveIsShorter(FormFor(op).slots);
  }

  /** One number of bytes, given by the opcode, separates partial errors from final results. */
  lemma NeedIsExact(data: seq<byte>, address: uint32, opts: Options)
    ensures Slice(data, address, opts).Partial? <==> |data| < Need(data)
    ensures Slice(data, address, opts).Decoding? ==> Slice(data, address, opts).inst.size == Need(data)
  {
    hide FormFor, ReadSlots, Ordered, Finalized, Assemble;
    if |data| >= 2 {
      var slots := FormFor(WordAt(data, 0)).slots;
      WalkThreshold(slots, |data|, 2);
      if Slice(data, address, opts).Decoding? {
        SliceLength(data, address, opts);
        FaultOfForm(WordAt(data, 0));
      }
    }
  }

  /** Decodes one instruction, refilling the buffer from the reader as often as a decoder asks for more.
      `buffer` is the buffer at the end and `calls` counts the decoder calls. Whatever the reader does, the
      result is that of slice decoding on the final buffer; the buffer holds what was delivered, never more
      than the opcode needs; and a decoder runs at most three times. */
  method DecodeInstruction(initial: seq<byte>, address: uint32, reader: Reader?, opts: Options)
    returns (result: Outcome, ghost buffer: seq<byte>, ghost calls: nat)
    modifies reader
    ensures result == Slice(buffer, address, opts)
    ensures reader == null ==> buffer == initial
    ensures reader != null ==> Delivered(reader, address, initial, buffer, Need(buffer), old(reader.log), reader.log)
    ensures |buffer| <= |initial| || |buffer| <= Need(buffer)
    ensures reader != null && reader.exhaustive && result.Partial? ==> !reader.mapped(Advance(address, |buffer|))
    ensures calls <= 3
  {
    hide Interpret, Finalized, Lookup, FormFor, Delivered, Advance, Progress;
    var data := initial;
    calls := 0;
    if reader != null {
      NothingDelivered(reader, address, data, 2, reader.log);
    }
    if |data| < 2 {
      if reader == null {
        return Partial(address, |data|, 2 - |data|, "opcode"), data, calls;
      }
      var failed;
      data, failed := ReadUntil(data, address, reader, 2);
      if failed {
        return Partial(address, |data|, 2 - |data|, "opcode"), data, calls;
      }
    }
    var opcode := WordAt(data, 0);
    NeedAtLeastTwo(data);
    if reader != null {
      WiderLimit(reader, address, initial, data, 2, Need(data), old(reader.log), reader.log);
    }
    var decoder := FindDecoder(opcode);
    if decoder.None? {
      var d := DataWord(data, address, opcode, opts);
      return Decoding(d), data, calls;
    }
    while true
      invariant |data| >= 2 && WordAt(data, 0) == opcode && calls <= Progress(data)
      invariant reader == null ==> data == initial
      invariant reader != null ==> Delivered(reader, address, initial, data, Need(data), old(reader.log), reader.log)
      invariant |data| <= |initial| || |data| <= Need(data)
      decreases 10 - |data|
    {
      var inst := new Instruction(address, opcode, data[..2]);
      var r := Run(decoder.value, data, opcode, inst);
      calls := calls + 1;
      FormOfLookup(opcode, decoder.value);
      if r.Ok? {
        var d := FinalizeInstruction(inst, opts);
        return Decoding(d), data, calls;
      }
      if r.error.Hard? {
        return Failed(r.error.fault), data, calls;
      }
      var requiredLen := |data| + r.error.missing;
      if reader == null {
        return Partial(address, |data|, requiredLen - |data|, r.error.context), data, calls;
      }
      ghost var before, l1 := data, reader.log;
      Refill(data, data, address, opts);
      var failed;
      data, failed := ReadUntil(data, address, reader, requiredLen);
      PrefixOfDelivered(reader, address, before, data, requiredLen, l1, reader.log);
      Refill(before, data, address, opts);
      WiderLimit(reader, address, before, data, requiredLen, Need(data), l1, reader.log);
      DeliveredTwice(reader, address, initial, before, data, Need(before), Need(data), old(reader.log), l1, reader.log);
      if failed {
        return Partial(address, |data|, requiredLen - |data|, r.error.context), data, calls;
      }
    }
  }

  lemma FormOfLookup(opcode: word, d: Decoder)
    requires Lookup(opcode) == Some(d)
    ensures FormFor(opcode) == FormOf(d, opcode)
  {
    hide Lookup, DataWordForm, FormOf;
  }

  lemma NoDecoder(opcode: word)
    requires Lookup(opcode).None?
    ensures FormFor(opcode) == DataWordForm(opcode)
  {
    hide Lookup, DataWordForm, FormOf;
  }

  lemma NeedAtLeastTwo(data: seq<byte>)
    ensures 2 <= Need(data) <= 10
  {
    hide Demand;
    if |data| >= 2 {
      DemandBounds(WordAt(data, 0));
    }
  }

  lemma PrefixOfDelivered(reader: Reader, address: uint32, before: seq<byte>, after: seq<byte>, limit: nat, l0: Log,
                          l1: Log)
    requires Delivered(reader, address, before, after, limit, l0, l1)
    ensures before <= after
  {
  }

  lemma WiderLimit(reader: Reader, address: uint32, before: seq<byte>, after: seq<byte>, m: nat, n: nat, l0: Log,
                   l1: Log)
    requires Delivered(reader, address, before, after, m, l0, l1) && m <= n
    ensures Delivered(reader, address, before, after, n, l0, l1)
  {
    hide Advance, Window, Addresses;
    assert Reach(address, |before|, m) <= Reach(address, |before|, n);
  }

  /** Decode and DecodeWithOptions: no reader. */
  method DecodeSlice(data: seq<byte>, address: uint32, opts: Options) returns (result: Outcome)
    ensures result == Slice(data, address, opts)
  {
    ghost var buffer, calls;
    result, buffer, calls := DecodeInstruction(data, address, null, opts);
  }

  /** What the first word of a memory at this address demands. */
  ghost function DemandAt(memory: uint32 -> byte, address: uint32): nat {
    Need(Window(memory, address, 2))
  }

  /** DecodeReaderAt and DecodeFunc. However short the reads and wherever they fail: the result is that of
      slice decoding the n bytes fetched, each once and in order; n is what the opcode demands, or less when
      the error is partial; and nothing behind that is asked for. A final result is that of every longer
      slice of the memory. An exhaustive reader ends in a partial error only where its memory ends: when
      exactly k bytes are mapped the result is that of slice decoding those k bytes, and when the opcode's
      demand is mapped it is final. */
  method DecodeReader(reader: Reader, address: uint32, opts: Options) returns (result: Outcome)
    modifies reader
    ensures var demand := DemandAt(reader.memory, address);
            var n := if result.Partial? then result.have else demand;
            && 2 <= demand <= 10
            && (if result.Partial? then n < demand else result.Decoding? ==> n == result.inst.size)
            && reader.log.fetched == old(reader.log).fetched + Addresses(address, n)
            && reader.log.asked <= old(reader.log).asked + Reach(address, 0, if n < 2 then 2 else demand)
            && result == Slice(Window(reader.memory, address, n), address, opts)
    ensures !result.Partial? ==>
              forall k: nat :: k >= DemandAt(reader.memory, address) ==>
                Slice(Window(reader.memory, address, k), address, opts) == result
    ensures reader.exhaustive ==>
              forall k: nat :: AllMapped(reader.mapped, address, 0, k) && !reader.mapped(Advance(address, k)) ==>
                result == Slice(Window(reader.memory, address, k), address, opts)
    ensures reader.exhaustive && result.Partial? ==> !reader.mapped(Advance(address, result.have))
    ensures reader.exhaustive ==>
              forall k: nat :: k >= DemandAt(reader.memory, address) && AllMapped(reader.mapped, address, 0, k) ==>
                !result.Partial? && result == Slice(Window(reader.memory, address, k), address, opts)
  {
    hide Slice, Need, Reach, Addresses;
    ghost var buffer, calls;
    result, buffer, calls := DecodeInstruction([], address, reader, opts);
    assert Advance(address, 0) == address;
    assert buffer == Window(reader.memory, address, |buffer|);
    NeedAtLeastTwo(Window(reader.memory, address, 2));
    NeedIsExact(buffer, address, opts);
    NeedOfWindow(reader.memory, address, |buffer|);
    if result.Partial? {
      PartialHave(buffer, address, opts);
    } else {
      forall k: nat | k >= |buffer|
        ensures Slice(Window(reader.memory, address, k), address, opts) == result
      {
        LongerWindow(reader.memory, address, |buffer|, k);
        SliceStable(buffer, Window(reader.memory, Advance(address, |buffer|), k - |buffer|), address, opts);
      }
    }
    if reader.exhaustive {
      forall k: nat | AllMapped(reader.mapped, address, 0, k) && !reader.mapped(Advance(address, k))
        ensures result == Slice(Window(reader.memory, address, k), address, opts)
      {
        assert k >= |buffer|;
        if result.Partial? {
          assert k == |buffer|;
        }
      }
    }
  }

  /** Every window that holds the opcode word needs the same. */
  lemma NeedOfWindow(memory: uint32 -> byte, address: uint32, n: nat)
    ensures Need(Window(memory, address, n)) == if n < 2 then 2 else DemandAt(memory, address)
  {
    hide Demand;
    if n >= 2 {
      assert WordAt(Window(memory, address, n), 0) == WordAt(Window(memory, address, 2), 0);
    }
  }

  lemma LongerWindow(memory: uint32 -> byte, address: uint32, m: nat, n: nat)
    requires m <= n
    ensures Window(memory, address, n) == Window(memory, address, m) + Window(memory, Advance(address, m), n - m)
  {
    WindowConcat(memory, address, m, n - m);
  }

  lemma PartialHave(data: seq<byte>, address: uint32, opts: Options)
    requires Slice(data, address, opts).Partial?
    ensures Slice(data, address, opts).have == |data|
  {
    hide Interpret, FormFor;
  }
}
