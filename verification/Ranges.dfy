/** disasm.go: sequential disassembly of a range, and what it keeps. */
module Ranges {
  import opened Wrappers
  import opened Words
  import opened Model
  import opened FormLaws
  import opened OpcodeLaws
  import opened Slices
  import opened Driver

  /** Instructions found, and the error that ended the range before its end. */
  datatype Listing = Listing(instructions: seq<Decoded>, error: Option<Outcome>)

  function Then(d: Decoded, rest: Listing): Listing {
    Listing([d] + rest.instructions, rest.error)
  }

  lemma SizeOfSlice(data: seq<byte>, address: uint32, opts: Options)
    requires Slice(data, address, opts).Decoding?
    ensures 2 <= Slice(data, address, opts).inst.size <= |data|
    ensures Slice(data, address, opts).inst.size % 2 == 0
  {
    hide Slice, OpcodeLength;
    SliceHasOpcode(data, address, opts);
    SliceLength(data, address, opts);
  }

  /** The listing of a range, instruction by instruction. */
  function Range(data: seq<byte>, start: uint32, opts: Options): Listing
    decreases |data|
  {
    if data == [] then Listing([], None)
    else
      var r := Slice(data, start, opts);
      if r.Decoding? then
        SizeOfSlice(data, start, opts);
        Then(r.inst, Range(data[r.inst.size..], Advance(start, r.inst.size), opts))
      else
        Listing([], Some(r))
  }

  function TotalSize(ds: seq<Decoded>): nat {
    if ds == [] then 0 else ds[0].size + TotalSize(ds[1..])
  }

  /** The k-th instruction is what decoding gives at its place: behind the k instructions before it. */
  predicate DecodedInPlace(ds: seq<Decoded>, k: nat, data: seq<byte>, start: uint32, opts: Options)
    requires k < |ds|
  {
    var offset := TotalSize(ds[..k]);
    offset <= |data| && Slice(data[offset..], Advance(start, offset), opts) == Decoding(ds[k])
  }

  /** A listing ends where the data end, or where decoding fails and with that failure. */
  predicate EndsInPlace(r: Listing, data: seq<byte>, start: uint32, opts: Options) {
    var offset := TotalSize(r.instructions);
    match r.error
    case None => offset == |data|
    case Some(e) =>
      offset < |data| && !e.Decoding? && Slice(data[offset..], Advance(start, offset), opts) == e
  }

  /** Every instruction of a listing is slice decoding at its place, under the given options. */
  lemma {:induction false} RangeDecodesInPlace(data: seq<byte>, start: uint32, opts: Options)
    ensures var r := Range(data, start, opts);
            && (forall k :: 0 <= k < |r.instructions| ==> DecodedInPlace(r.instructions, k, data, start, opts))
            && EndsInPlace(r, data, start, opts)
    decreases |data|
  {
    hide Slice, Advance;
    StartOfRange(data, start);
    if data != [] && Slice(data, start, opts).Decoding? {
      var d := Slice(data, start, opts).inst;
      SizeOfSlice(data, start, opts);
      var rest, next := data[d.size..], Advance(start, d.size);
      RangeDecodesInPlace(rest, next, opts);
      var tail := Range(rest, next, opts);
      var ds := Range(data, start, opts).instructions;
      assert ds == [d] + tail.instructions;
      forall k | 0 <= k < |ds|
        ensures DecodedInPlace(ds, k, data, start, opts)
      {
        if k == 0 {
          assert ds[..0] == [];
        } else {
          PlaceShifts(d, tail.instructions, k - 1, data, start, opts);
        }
      }
      EndShifts(d, tail, data, start, opts);
    }
  }

  lemma SkipTwice(data: seq<byte>, start: uint32, m: nat, n: nat)
    requires m + n <= |data|
    ensures data[m..][n..] == data[m + n..] && Advance(Advance(start, m), n) == Advance(start, m + n)
  {
    AdvanceAdvance(start, m, n);
  }

  lemma PlaceShifts(d: Decoded, tail: seq<Decoded>, k: nat, data: seq<byte>, start: uint32, opts: Options)
    requires k < |tail| && d.size <= |data|
    requires DecodedInPlace(tail, k, data[d.size..], Advance(start, d.size), opts)
    ensures DecodedInPlace([d] + tail, k + 1, data, start, opts)
  {
    hide Slice, Advance;
    var ds := [d] + tail;
    assert ds[..k + 1][0] == d && ds[..k + 1][1..] == tail[..k];
    SkipTwice(data, start, d.size, TotalSize(tail[..k]));
  }

  lemma EndShifts(d: Decoded, tail: Listing, data: seq<byte>, start: uint32, opts: Options)
    requires d.size <= |data| && EndsInPlace(tail, data[d.size..], Advance(start, d.size), opts)
    ensures EndsInPlace(Then(d, tail), data, start, opts)
  {
    hide Slice, Advance;
    assert Then(d, tail).instructions[1..] == tail.instructions;
    SkipTwice(data, start, d.size, TotalSize(tail.instructions));
  }

  method DisassembleRange(data: seq<byte>, startAddress: uint32, opts: Options) returns (listing: Listing)
    ensures listing == Range(data, startAddress, opts)
    ensures forall k :: 0 <= k < |listing.instructions| ==>
              DecodedInPlace(listing.instructions, k, data, startAddress, opts)
    ensures EndsInPlace(listing, data, startAddress, opts)
  {
    hide Slice, Advance, DecodedInPlace, EndsInPlace;
    var instructions: seq<Decoded> := [];
    var offset := 0;
    StartOfRange(data, startAddress);
    RangeDecodesInPlace(data, startAddress, opts);
    while offset < |data|
      invariant 0 <= offset <= |data|
      invariant Range(data, startAddress, opts)
                == Listing(instructions + Range(data[offset..], Advance(startAddress, offset), opts).instructions,
                           Range(data[offset..], Advance(startAddress, offset), opts).error)
    {
      var r := DecodeSlice(data[offset..], Advance(startAddress, offset), opts);
      if !r.Decoding? {
        return Listing(instructions, Some(r));
      }
      SizeOfSlice(data[offset..], Advance(startAddress, offset), opts);
      AdvanceAdvance(startAddress, offset, r.inst.size);
      assert data[offset..][r.inst.size..] == data[offset + r.inst.size..];
      instructions := instructions + [r.inst];
      offset := offset + r.inst.size;
    }
    listing := Listing(instructions, None);
  }

  lemma StartOfRange(data: seq<byte>, start: uint32)
    ensures data[0..] == data && Advance(start, 0) == start
  {
  }

  // ---- composition ----

  /** If xs disassembles completely, disassembling xs ++ ys is disassembling xs and then ys behind it. */
  lemma {:induction false} RangeComposes(xs: seq<byte>, ys: seq<byte>, start: uint32, opts: Options)
    requires Range(xs, start, opts).error.None?
    ensures var front := Range(xs, start, opts);
            var back := Range(ys, Advance(start, |xs|), opts);
            Range(xs + ys, start, opts) == Listing(front.instructions + back.instructions, back.error)
    decreases |xs|
  {
    hide Slice, Advance;
    if xs == [] {
      StartOfRange(xs, start);
      assert xs + ys == ys;
    } else {
      var d := Slice(xs, start, opts).inst;
      SizeOfSlice(xs, start, opts);
      SliceStable(xs, ys, start, opts);
      RangeComposes(xs[d.size..], ys, Advance(start, d.size), opts);
      AdvanceAdvance(start, d.size, |xs| - d.size);
      assert (xs + ys)[d.size..] == xs[d.size..] + ys;
      ThenAppend(d, Range(xs[d.size..], Advance(start, d.size), opts), Range(ys, Advance(start, |xs|), opts));
    }
  }

  lemma ThenAppend(d: Decoded, front: Listing, back: Listing)
    ensures Then(d, Listing(front.instructions + back.instructions, back.error))
            == Listing(Then(d, front).instructions + back.instructions, back.error)
  {
    assert [d] + (front.instructions + back.instructions) == ([d] + front.instructions) + back.instructions;
  }

  /** Whatever follows xs, the instructions found in xs are found again; and after a hard error nothing
      changes at all. */
  lemma {:induction false} RangeIsPrefix(xs: seq<byte>, ys: seq<byte>, start: uint32, opts: Options)
    ensures Range(xs, start, opts).instructions <= Range(xs + ys, start, opts).instructions
    ensures Range(xs, start, opts).error.Some? && !Range(xs, start, opts).error.value.Partial? ==>
              Range(xs + ys, start, opts) == Range(xs, start, opts)
    decreases |xs|
  {
    hide Slice, Advance;
    if xs != [] && !Slice(xs, start, opts).Partial? {
      SliceStable(xs, ys, start, opts);
      if Slice(xs, start, opts).Decoding? {
        var size := Slice(xs, start, opts).inst.size;
        SizeOfSlice(xs, start, opts);
        RangeIsPrefix(xs[size..], ys, Advance(start, size), opts);
        assert (xs + ys)[size..] == xs[size..] + ys;
      }
    }
  }

  // ---- tiling ----

  function AllBytes(ds: seq<Decoded>): seq<byte> {
    if ds == [] then [] else ds[0].bytes + AllBytes(ds[1..])
  }

  /** Every instruction starts where the one before it ends. */
  predicate Adjacent(ds: seq<Decoded>, start: uint32) {
    ds == [] || (ds[0].address == start && ds[0].size == |ds[0].bytes| && ds[0].size >= 2
                 && Adjacent(ds[1..], Advance(start, ds[0].size)))
  }

  /** The instructions tile the front of the input: their bytes concatenate to it, their addresses are the
      start plus the sizes before them, mod 2^32. A listing without error covers all of it. */
  lemma {:induction false} RangeTiles(data: seq<byte>, start: uint32, opts: Options)
    ensures var r := Range(data, start, opts);
            var consumed := TotalSize(r.instructions);
            && consumed <= |data| && consumed % 2 == 0
            && AllBytes(r.instructions) == data[..consumed]
            && Adjacent(r.instructions, start)
            && (r.error.None? <==> consumed == |data|)
            && (r.error.Some? ==> r.error == Some(Slice(data[consumed..], Advance(start, consumed), opts)))
    decreases |data|
  {
    hide Slice, Advance, OpcodeLength;
    StartOfRange(data, start);
    if data != [] && Slice(data, start, opts).Decoding? {
      var d := Slice(data, start, opts).inst;
      SizeOfSlice(data, start, opts);
      SliceLength(data, start, opts);
      var rest := data[d.size..];
      RangeTiles(rest, Advance(start, d.size), opts);
      var tail := Range(rest, Advance(start, d.size), opts).instructions;
      assert Range(data, start, opts).instructions[1..] == tail;
      AdvanceAdvance(start, d.size, TotalSize(tail));
      assert data[..d.size + TotalSize(tail)] == data[..d.size] + rest[..TotalSize(tail)];
      assert rest[TotalSize(tail)..] == data[d.size + TotalSize(tail)..];
    }
  }

  /** An odd number of bytes never disassembles without error. */
  lemma OddLengthFails(data: seq<byte>, start: uint32, opts: Options)
    requires |data| % 2 == 1
    ensures Range(data, start, opts).error.Some?
  {
    RangeTiles(data, start, opts);
  }

  // ---- boundaries ----

  function Sizes(ds: seq<Decoded>): seq<nat> {
    if ds == [] then [] else [ds[0].size] + Sizes(ds[1..])
  }

  /** The opcode-length walk: reads one word per instruction and skips the rest unseen. */
  function LengthWalk(data: seq<byte>): seq<nat>
    decreases |data|
  {
    if |data| < 2 then []
    else
      match OpcodeLength(WordAt(data, 0))
      case None => []
      case Some(length) => if 2 <= length <= |data| then [length] + LengthWalk(data[length..]) else []
  }

  /** Instruction boundaries are those of the opcode-length walk. */
  lemma {:induction false} BoundariesAreLengthWalk(data: seq<byte>, start: uint32, opts: Options)
    ensures Sizes(Range(data, start, opts).instructions) == LengthWalk(data)
    decreases |data|
  {
    hide Slice, Advance, OpcodeLength;
    if |data| >= 2 {
      SliceLength(data, start, opts);
      if Slice(data, start, opts).Decoding? {
        var d := Slice(data, start, opts).inst;
        BoundariesAreLengthWalk(data[d.size..], Advance(start, d.size), opts);
        assert Range(data, start, opts).instructions[1..]
            == Range(data[d.size..], Advance(start, d.size), opts).instructions;
      }
    } else if data != [] {
      if Slice(data, start, opts).Decoding? {
        SizeOfSlice(data, start, opts);
        assert false;
      }
    }
  }

  // ---- relocation ----

  function RelocateAll(ds: seq<Decoded>, k: int): seq<Decoded> {
    if ds == [] then [] else [Relocate(ds[0], k)] + RelocateAll(ds[1..], k)
  }

  function RelocateListing(r: Listing, k: int): Listing {
    Listing(RelocateAll(r.instructions, k),
            if r.error.Some? then Some(RelocateOutcome(r.error.value, k)) else None)
  }

  /** A whole range k bytes further: every address and branch target moves by k mod 2^32, nothing else. */
  lemma {:induction false} RangeRelocates(data: seq<byte>, start: uint32, k: int)
    ensures Range(data, Advance(start, k), None) == RelocateListing(Range(data, start, None), k)
    decreases |data|
  {
    hide Slice, Advance, Relocate;
    if data != [] {
      SliceRelocates(data, start, k);
      if Slice(data, start, None).Decoding? {
        var d := Slice(data, start, None).inst;
        SizeOfSlice(data, start, None);
        RelocateKeepsSize(d, k);
        RangeRelocates(data[d.size..], Advance(start, d.size), k);
        AdvanceAdvance(start, d.size, k);
        AdvanceAdvance(start, k, d.size);
        assert Range(data, start, None).instructions[1..]
            == Range(data[d.size..], Advance(start, d.size), None).instructions;
      }
    }
  }

  lemma RelocateKeepsSize(d: Decoded, k: int)
    ensures Relocate(d, k).size == d.size && Relocate(d, k).bytes == d.bytes
  {
  }
}
