/** The copies a record goes through on its way to the caller (types.go: cloneOperands; disasm.go:
    finalizeInstruction), on the heap: every pointer of the Go structures is a cell, every slice a window
    on an array. A copy has the value of the original and shares no storage with it. */
module Copies {
  import opened Wrappers
  import opened Words
  import opened Text
  import opened Model
  import opened Slices

  /** What a Go pointer points to. */
  class Cell<T> {
    var value: T

    constructor (value: T)
      ensures this.value == value
    {
      this.value := value;
    }
  }

  /** A Go slice: a part of an array, or nil. The range loop decodes from the middle of its buffer. */
  datatype View<T> = View(store: array?<T>, start: nat, length: nat)

  type Window<T> = v: View<T> | (if v.store == null then v.length == 0 else v.start + v.length <= v.store.Length)
    witness View(null, 0, 0)

  datatype EaRecord = EaRecord(
    kind: EffectiveAddressKind,
    mode: bv3,
    register: regnum,
    base: Cell?<Register>,
    displacement: Cell?<int>,
    absoluteAddress: Cell?<uint32>,
    resolvedAddress: Cell?<uint32>,
    immediate: Cell?<ImmediateValue>,
    index: Cell?<IndexRegister>)

  datatype OperandRecord = OperandRecord(
    text: string,
    kind: OperandKind,
    register: Cell?<Register>,
    immediate: Cell?<ImmediateValue>,
    effectiveAddress: Cell?<EaRecord>,
    registerList: Window<string>,
    branchTarget: Cell?<uint32>)

  // ---- values and storage ----

  function One(o: object?): set<object> {
    if o == null then {} else {o}
  }

  function Load<T>(c: Cell?<T>): Option<T>
    reads One(c)
  {
    if c == null then None else Some(c.value)
  }

  function Items<T>(w: Window<T>): (s: seq<T>)
    reads One(w.store)
    ensures |s| == w.length
  {
    if w.store == null then [] else w.store[w.start..w.start + w.length]
  }

  function EaStorage(ea: EaRecord): set<object> {
    One(ea.base) + One(ea.displacement) + One(ea.absoluteAddress) + One(ea.resolvedAddress) + One(ea.immediate)
    + One(ea.index)
  }

  function EaValue(ea: EaRecord): EffectiveAddress
    reads EaStorage(ea)
  {
    EffectiveAddress(ea.kind, ea.mode, ea.register, Load(ea.base), Load(ea.displacement), Load(ea.absoluteAddress),
                     Load(ea.resolvedAddress), Load(ea.immediate), Load(ea.index))
  }

  function PointedStorage(c: Cell?<EaRecord>): set<object>
    reads One(c)
  {
    if c == null then {} else {c} + EaStorage(c.value)
  }

  function PointedValue(c: Cell?<EaRecord>): Option<EffectiveAddress>
    reads One(c), PointedStorage(c)
  {
    if c == null then None else Some(EaValue(c.value))
  }

  /** Every object reachable from an operand. */
  function Storage(o: OperandRecord): set<object>
    reads One(o.effectiveAddress)
  {
    One(o.register) + One(o.immediate) + One(o.registerList.store) + One(o.branchTarget)
    + PointedStorage(o.effectiveAddress)
  }

  /** The operand as a value. */
  function OperandValue(o: OperandRecord): Operand
    reads One(o.effectiveAddress), Storage(o)
  {
    Operand(o.text, o.kind, Load(o.register), Load(o.immediate), PointedValue(o.effectiveAddress),
            Items(o.registerList), Load(o.branchTarget))
  }

  // ---- copying ----

  method CloneCell<T>(c: Cell?<T>) returns (d: Cell?<T>)
    ensures Load(d) == Load(c)
    ensures fresh(One(d))
  {
    if c == null {
      return null;
    }
    d := new Cell<T>(c.value);
  }

  /** The three numbers of an effective address. */
  method CloneNumbers(ea: EaRecord) returns (d: Cell?<int>, a: Cell?<uint32>, r: Cell?<uint32>)
    ensures Load(d) == Load(ea.displacement)
    ensures Load(a) == Load(ea.absoluteAddress) && Load(r) == Load(ea.resolvedAddress)
    ensures fresh(One(d)) && fresh(One(a)) && fresh(One(r))
  {
    d := CloneCell(ea.displacement);
    a := CloneCell(ea.absoluteAddress);
    r := CloneCell(ea.resolvedAddress);
  }

  method CloneParts(ea: EaRecord) returns (b: Cell?<Register>, m: Cell?<ImmediateValue>, x: Cell?<IndexRegister>)
    ensures Load(b) == Load(ea.base) && Load(m) == Load(ea.immediate) && Load(x) == Load(ea.index)
    ensures fresh(One(b)) && fresh(One(m)) && fresh(One(x))
  {
    b := CloneCell(ea.base);
    m := CloneCell(ea.immediate);
    x := CloneCell(ea.index);
  }

  method CloneEffectiveAddress(ea: EaRecord) returns (copy: EaRecord)
    ensures EaValue(copy) == EaValue(ea)
    ensures fresh(EaStorage(copy))
  {
    var base, immediate, index := CloneParts(ea);
    var displacement, absolute, resolved := CloneNumbers(ea);
    copy := EaRecord(ea.kind, ea.mode, ea.register, base, displacement, absolute, resolved, immediate, index);
  }

  /** append([]T(nil), w...): also how bytes and words leave the caller's buffer. */
  method CopyItems<T>(w: Window<T>) returns (copy: Window<T>)
    ensures Items(copy) == Items(w)
    ensures fresh(One(copy.store))
  {
    if w.length == 0 {
      return View(null, 0, 0);
    }
    var store := new T[w.length](i requires 0 <= i < w.length && w.store != null && w.start + w.length <= w.store.Length
                                   reads One(w.store) => w.store[w.start + i]);
    copy := View(store, 0, w.length);
  }

  method CloneEaCell(c: Cell?<EaRecord>) returns (d: Cell?<EaRecord>)
    ensures PointedValue(d) == PointedValue(c)
    ensures fresh(PointedStorage(d))
  {
    if c == null {
      return null;
    }
    var ea := CloneEffectiveAddress(c.value);
    d := new Cell<EaRecord>(ea);
  }

  method CloneOperand(operand: OperandRecord) returns (cloned: OperandRecord)
    ensures OperandValue(cloned) == OperandValue(operand)
    ensures fresh(Storage(cloned))
  {
    hide PointedValue, PointedStorage;
    var register := CloneCell(operand.register);
    var immediate := CloneCell(operand.immediate);
    var registerList := CopyItems(operand.registerList);
    var branchTarget := CloneCell(operand.branchTarget);
    var effectiveAddress := CloneEaCell(operand.effectiveAddress);
    cloned := OperandRecord(operand.text, operand.kind, register, immediate, effectiveAddress, registerList,
                            branchTarget);
  }

  /** A copy leaves all operands that exist as they are. */
  method CloneBeside(operand: OperandRecord, ghost others: seq<OperandRecord>) returns (cloned: OperandRecord)
    ensures OperandValue(cloned) == old(OperandValue(operand)) && fresh(Storage(cloned))
    ensures forall k :: 0 <= k < |others| ==> OperandValue(others[k]) == old(OperandValue(others[k]))
    ensures forall k :: 0 <= k < |others| ==> Storage(others[k]) == old(Storage(others[k]))
  {
    cloned := CloneOperand(operand);
  }

  // ---- operand lists ----

  /** Storing a record in an array that no operand uses leaves all operands as they are. */
  method StoreOperand(dst: array<OperandRecord>, i: nat, o: OperandRecord, ghost others: seq<OperandRecord>)
    requires i < dst.Length && forall k :: 0 <= k < |others| ==> dst !in Storage(others[k])
    modifies dst
    ensures dst[..] == old(dst[..])[i := o]
    ensures forall k :: 0 <= k < |others| ==> OperandValue(others[k]) == old(OperandValue(others[k]))
    ensures forall k :: 0 <= k < |others| ==> Storage(others[k]) == old(Storage(others[k]))
  {
    dst[i] := o;
  }

  /** One round of cloneOperands: slot i gets its copy, everything else stays. */
  method CloneInto(src: seq<OperandRecord>, dst: array<OperandRecord>, i: nat)
    requires i < |src| == dst.Length
    requires forall k :: 0 <= k < |src| ==> dst !in Storage(src[k])
    requires forall k :: 0 <= k < i ==> dst !in Storage(dst[k])
    modifies dst
    ensures dst[..i] == old(dst[..i])
    ensures OperandValue(dst[i]) == old(OperandValue(src[i])) && fresh(Storage(dst[i]))
    ensures forall k :: 0 <= k < i ==>
              OperandValue(dst[k]) == old(OperandValue(dst[k])) && Storage(dst[k]) == old(Storage(dst[k]))
    ensures forall k :: 0 <= k < |src| ==>
              OperandValue(src[k]) == old(OperandValue(src[k])) && Storage(src[k]) == old(Storage(src[k]))
  {
    hide OperandValue, Storage;
    ghost var done := dst[..i];
    var cloned := CloneBeside(src[i], done + src);
    assert forall k :: 0 <= k < i ==> (done + src)[k] == done[k] == dst[k];
    assert forall k :: 0 <= k < |src| ==> (done + src)[i + k] == src[k];
    ghost var all := done + src + [cloned];
    assert forall k :: 0 <= k < |done + src| ==> all[k] == (done + src)[k];
    assert all[|done + src|] == cloned;
    StoreOperand(dst, i, cloned, all);
    assert dst[..i] == done;
    assert forall k :: 0 <= k < i ==> all[k] == dst[k];
    assert forall k :: 0 <= k < |src| ==> all[i + k] == src[k];
  }

  /** What an operand reaches exists already. */
  lemma AllAllocated(records: seq<OperandRecord>)
    ensures forall k :: 0 <= k < |records| ==> allocated(Storage(records[k]))
  {
  }

  const ZERO_OPERAND := OperandRecord("", NoOperandKind, null, null, null, View(null, 0, 0), null)

  /** The operands of a record, copied: the same values in the same order, in storage of their own. */
  method CloneOperands(src: Window<OperandRecord>) returns (dst: Window<OperandRecord>)
    ensures dst.length == src.length && fresh(One(dst.store))
    ensures forall i :: 0 <= i < dst.length ==> OperandValue(Items(dst)[i]) == old(OperandValue(Items(src)[i]))
    ensures forall i :: 0 <= i < dst.length ==> fresh(Storage(Items(dst)[i]))
  {
    hide OperandValue, Storage;
    if src.length == 0 {
      return View(null, 0, 0);
    }
    var records := src.store[src.start..src.start + src.length];
    AllAllocated(records);
    var store := NewOperands(records, src.length);
    for i := 0 to src.length
      invariant forall k :: 0 <= k < |records| ==> OperandValue(records[k]) == old(OperandValue(records[k]))
      invariant forall k :: 0 <= k < |records| ==> store !in Storage(records[k])
      invariant forall k :: 0 <= k < i ==> OperandValue(store[k]) == old(OperandValue(records[k]))
      invariant forall k :: 0 <= k < i ==> fresh(Storage(store[k])) && store !in Storage(store[k])
    {
      CloneInto(records, store, i);
    }
    dst := View(store, 0, src.length);
  }

  method NewOperands(ghost others: seq<OperandRecord>, n: nat) returns (store: array<OperandRecord>)
    ensures store.Length == n && fresh(store)
    ensures forall k :: 0 <= k < |others| ==> OperandValue(others[k]) == old(OperandValue(others[k]))
    ensures forall k :: 0 <= k < |others| ==> Storage(others[k]) == old(Storage(others[k]))
  {
    store := new OperandRecord[n](_ => ZERO_OPERAND);
  }

  // ---- whole records ----

  datatype MetadataRecord = MetadataRecord(
    mnemonic: string,
    mnemonicBase: string,
    sizeSuffix: string,
    operands: Window<OperandRecord>,
    branchTarget: Cell?<uint32>,
    immediateValues: Window<ImmediateValue>)

  /** An instruction as it lies in memory. In the decoder's record the bytes are a window on the buffer
      that was decoded. */
  datatype InstructionRecord = InstructionRecord(
    address: uint32,
    opcode: word,
    mnemonic: string,
    operands: string,
    size: nat,
    bytes: Window<byte>,
    extensionWords: Window<word>,
    metadata: MetadataRecord)

  /** The cells of the effective addresses of some operands. */
  function Pointers(os: seq<OperandRecord>): set<object> {
    set i, x | 0 <= i < |os| && x in One(os[i].effectiveAddress) :: x
  }

  function AllStorage(os: seq<OperandRecord>): set<object>
    reads Pointers(os)
  {
    set i, x | 0 <= i < |os| && x in Storage(os[i]) :: x
  }

  function OperandValues(os: seq<OperandRecord>): (values: seq<Operand>)
    reads Pointers(os), AllStorage(os)
    ensures |values| == |os|
    ensures forall i :: 0 <= i < |os| ==> values[i] == OperandValue(os[i])
  {
    if os == [] then []
    else
      var n := |os| - 1;
      assert forall i :: 0 <= i < n ==> os[..n][i] == os[i];
      OperandValues(os[..n]) + [OperandValue(os[n])]
  }

  function MetadataStorage(m: MetadataRecord): set<object>
    reads One(m.operands.store), Pointers(Items(m.operands))
  {
    One(m.operands.store) + One(m.branchTarget) + One(m.immediateValues.store) + AllStorage(Items(m.operands))
  }

  function MetadataValue(m: MetadataRecord): Metadata
    reads One(m.operands.store), Pointers(Items(m.operands)), MetadataStorage(m)
  {
    Metadata(m.mnemonic, m.mnemonicBase, m.sizeSuffix, OperandValues(Items(m.operands)), Load(m.branchTarget),
             Items(m.immediateValues))
  }

  /** Every object reachable from a record. */
  function RecordStorage(r: InstructionRecord): set<object>
    reads One(r.metadata.operands.store), Pointers(Items(r.metadata.operands))
  {
    One(r.bytes.store) + One(r.extensionWords.store) + MetadataStorage(r.metadata)
  }

  /** The record as a value. */
  function RecordValue(r: InstructionRecord): Decoded
    reads One(r.metadata.operands.store), Pointers(Items(r.metadata.operands)), RecordStorage(r)
  {
    Decoded(r.address, r.opcode, r.mnemonic, r.operands, r.size, Items(r.bytes), Items(r.extensionWords),
            MetadataValue(r.metadata))
  }

  // ---- disasm.go: finalizeInstruction ----

  /** The parts of the metadata that hold no operands; the operands stay as they are. */
  method CopyScalars(m: MetadataRecord) returns (target: Cell?<uint32>, immediates: Window<ImmediateValue>)
    ensures Load(target) == old(Load(m.branchTarget)) && fresh(One(target))
    ensures Items(immediates) == old(Items(m.immediateValues)) && fresh(One(immediates.store))
    ensures Items(m.operands) == old(Items(m.operands))
    ensures forall k :: 0 <= k < m.operands.length ==>
              OperandValue(Items(m.operands)[k]) == old(OperandValue(Items(m.operands)[k]))
  {
    target := CloneCell(m.branchTarget);
    immediates := CopyItems(m.immediateValues);
  }

  method ConvertMetadata(m: MetadataRecord) returns (converted: MetadataRecord)
    ensures MetadataValue(converted) == old(MetadataValue(m))
    ensures fresh(MetadataStorage(converted))
    ensures converted.operands.length == m.operands.length
  {
    hide OperandValue, Storage;
    var target, immediates := CopyScalars(m);
    var operands := CloneOperands(m.operands);
    converted := MetadataRecord(m.mnemonic, m.mnemonicBase, m.sizeSuffix, operands, target, immediates);
    assert OperandValues(Items(operands)) == old(OperandValues(Items(m.operands)));
  }

  /** Bytes and words leave the decoder's record; its metadata stay as they are. */
  method CopyWords(r: InstructionRecord) returns (bytes: Window<byte>, words: Window<word>)
    ensures Items(bytes) == old(Items(r.bytes)) && fresh(One(bytes.store))
    ensures Items(words) == old(Items(r.extensionWords)) && fresh(One(words.store))
    ensures Items(r.metadata.operands) == old(Items(r.metadata.operands))
    ensures Load(r.metadata.branchTarget) == old(Load(r.metadata.branchTarget))
    ensures Items(r.metadata.immediateValues) == old(Items(r.metadata.immediateValues))
    ensures forall k :: 0 <= k < r.metadata.operands.length ==>
              OperandValue(Items(r.metadata.operands)[k]) == old(OperandValue(Items(r.metadata.operands)[k]))
  {
    bytes := CopyItems(r.bytes);
    words := CopyItems(r.extensionWords);
  }

  /** Allocating the cell leaves what the record reaches as it is. */
  method NewRecord(r: InstructionRecord) returns (c: Cell<InstructionRecord>)
    ensures fresh(c) && c.value == r
    ensures Items(r.bytes) == old(Items(r.bytes)) && Items(r.extensionWords) == old(Items(r.extensionWords))
    ensures Items(r.metadata.operands) == old(Items(r.metadata.operands))
    ensures Load(r.metadata.branchTarget) == old(Load(r.metadata.branchTarget))
    ensures Items(r.metadata.immediateValues) == old(Items(r.metadata.immediateValues))
    ensures forall k :: 0 <= k < r.metadata.operands.length ==>
              OperandValue(Items(r.metadata.operands)[k]) == old(OperandValue(Items(r.metadata.operands)[k]))
    ensures forall k :: 0 <= k < r.metadata.operands.length ==>
              Storage(Items(r.metadata.operands)[k]) == old(Storage(Items(r.metadata.operands)[k]))
  {
    c := new Cell<InstructionRecord>(r);
  }

  method CopyMetadata(r: InstructionRecord) returns (bytes: Window<byte>, words: Window<word>, metadata: MetadataRecord)
    ensures Items(bytes) == old(Items(r.bytes)) && fresh(One(bytes.store))
    ensures Items(words) == old(Items(r.extensionWords)) && fresh(One(words.store))
    ensures MetadataValue(metadata) == old(MetadataValue(r.metadata)) && fresh(MetadataStorage(metadata))
    ensures metadata.operands.length == r.metadata.operands.length
  {
    hide OperandValue, Storage;
    bytes, words := CopyWords(r);
    assert OperandValues(Items(r.metadata.operands)) == old(OperandValues(Items(r.metadata.operands)));
    assert MetadataValue(r.metadata) == old(MetadataValue(r.metadata));
    metadata := ConvertMetadata(r.metadata);
  }

  /** The same for the record as a whole. */
  method BoxRecord(r: InstructionRecord) returns (c: Cell<InstructionRecord>)
    ensures fresh(c) && c.value == r
    ensures RecordValue(r) == old(RecordValue(r)) && RecordStorage(r) == old(RecordStorage(r))
  {
    hide OperandValue, Storage;
    c := NewRecord(r);
    assert OperandValues(Items(r.metadata.operands)) == old(OperandValues(Items(r.metadata.operands)));
    assert AllStorage(Items(r.metadata.operands)) == old(AllStorage(Items(r.metadata.operands)));
  }

  /** The instruction handed to the caller: its value is that of the decoder's record, symbolized, and every
      object it reaches is new. So it shares nothing with the decoder's record, nor with the buffer that
      record is a window on. */
  method FinalizeInstruction(source: Cell<InstructionRecord>, opts: Options) returns (inst: Cell<InstructionRecord>)
    ensures RecordValue(inst.value) == Finalized(old(RecordValue(source.value)), opts)
    ensures fresh(inst) && fresh(RecordStorage(inst.value))
  {
    hide OperandValue, Storage, AllStorage, Rendered, Join;
    var r := source.value;
    var bytes, words, metadata := CopyMetadata(r);
    var operands := r.operands;
    if opts.Some? && metadata.operands.length > 0 {
      // what FormatOperands computes
      operands := Join(Rendered(OperandValues(Items(metadata.operands)), opts.value));
    }
    var copy := InstructionRecord(r.address, r.opcode, r.mnemonic, operands, r.size, bytes, words, metadata);
    assert RecordValue(copy) == Finalized(old(RecordValue(source.value)), opts);
    assert fresh(RecordStorage(copy));
    hide RecordValue, RecordStorage, Finalized;
    inst := BoxRecord(copy);
  }
}
