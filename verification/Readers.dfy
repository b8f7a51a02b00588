/** Readers of disasm.go and the refill loop. */
module Readers {
  import opened Words

  /** What a reader has seen: the address of every byte it delivered, in order, and every address it was
      asked for. */
  datatype Log = Log(fetched: seq<uint32>, asked: set<uint32>)

  /** A source of bytes by address. It may deliver fewer bytes than asked for, and may fail at any time;
      the bytes it does deliver are those of `memory`. An exhaustive reader serves mapped addresses only
      and gives up only where the next byte is not mapped. */
  class Reader {
    const memory: uint32 -> byte
    const mapped: uint32 -> bool
    const exhaustive: bool
    ghost var log: Log

    constructor (memory: uint32 -> byte, mapped: uint32 -> bool, exhaustive: bool)
      ensures this.memory == memory && this.mapped == mapped && this.exhaustive == exhaustive && log == Log([], {})
    {
      this.memory, this.mapped, this.exhaustive := memory, mapped, exhaustive;
      this.log := Log([], {});
    }

    method ReadAtAddress(address: uint32, p: array<byte>) returns (n: nat, failed: bool)
      modifies this, p
      ensures n <= p.Length
      ensures p[..n] == Window(memory, address, n)
      ensures log == Log(old(log).fetched + Addresses(address, n), old(log).asked + Reach(address, 0, p.Length))
      ensures exhaustive ==> AllMapped(mapped, address, 0, n)
      ensures exhaustive && n < p.Length && (failed || n == 0) ==> !mapped(Advance(address, n))
    {
      n := 0;
      while n < p.Length && (exhaustive ==> mapped(Advance(address, n)))
        invariant n <= p.Length
        invariant p[..n] == Window(memory, address, n)
        invariant exhaustive ==> AllMapped(mapped, address, 0, n)
        modifies p
      {
        var stop: bool := *;
        if stop && (exhaustive ==> n > 0) {
          break;
        }
        p[n] := memory(Advance(address, n));
        assert p[..n + 1] == p[..n] + [p[n]];
        n := n + 1;
      }
      failed := *;
      if exhaustive && n < p.Length && mapped(Advance(address, n)) {
        failed := false;
      }
      log := Log(log.fetched + Addresses(address, n), log.asked + Reach(address, 0, p.Length));
    }
  }

  predicate AllMapped(mapped: uint32 -> bool, address: uint32, from: nat, to: nat) {
    forall i :: from <= i < to ==> mapped(Advance(address, i))
  }

  /** n consecutive addresses. */
  ghost function Addresses(address: uint32, n: nat): (s: seq<uint32>)
    ensures |s| == n
  {
    seq(n, i => Advance(address, i))
  }

  /** n consecutive bytes of a memory. */
  ghost function Window(memory: uint32 -> byte, address: uint32, n: nat): (s: seq<byte>)
    ensures |s| == n
  {
    seq(n, i => memory(Advance(address, i)))
  }

  /** Addresses from offset `from` up to offset `to`. */
  ghost function Reach(address: uint32, from: nat, to: nat): set<uint32> {
    set i | from <= i < to :: Advance(address, i)
  }

  /** What happened while a buffer grew from `before` to `after`: the new bytes are the memory's, each was
      fetched once and in order, nothing was asked for outside the offsets up to `limit`, and an
      exhaustive reader had all of them mapped. */
  ghost predicate Delivered(reader: Reader, address: uint32, before: seq<byte>, after: seq<byte>, limit: nat, l0: Log,
                            l1: Log) {
    && |before| <= |after|
    && after == before + Window(reader.memory, Advance(address, |before|), |after| - |before|)
    && l1.fetched == l0.fetched + Addresses(Advance(address, |before|), |after| - |before|)
    && l1.asked <= l0.asked + Reach(address, |before|, limit)
    && (reader.exhaustive ==> AllMapped(reader.mapped, address, |before|, |after|))
  }

  lemma WindowConcat(memory: uint32 -> byte, address: uint32, m: nat, n: nat)
    ensures Window(memory, address, m) + Window(memory, Advance(address, m), n) == Window(memory, address, m + n)
    ensures Addresses(address, m) + Addresses(Advance(address, m), n) == Addresses(address, m + n)
  {
    forall i | 0 <= i < n
      ensures Advance(Advance(address, m), i) == Advance(address, m + i)
    {
      AdvanceAdvance(address, m, i);
    }
  }

  lemma NothingDelivered(reader: Reader, address: uint32, data: seq<byte>, limit: nat, l: Log)
    ensures Delivered(reader, address, data, data, limit, l, l)
  {
  }

  lemma DeliveredTwice(reader: Reader, address: uint32, a: seq<byte>, b: seq<byte>, c: seq<byte>,
                       m: nat, n: nat, l0: Log, l1: Log, l2: Log)
    requires Delivered(reader, address, a, b, m, l0, l1) && Delivered(reader, address, b, c, n, l1, l2)
    requires m <= n
    ensures Delivered(reader, address, a, c, n, l0, l2)
  {
    hide Window, Addresses, Advance;
    AdvanceAdvance(address, |a|, |b| - |a|);
    WindowConcat(reader.memory, Advance(address, |a|), |b| - |a|, |c| - |b|);
  }

  /** One read call, seen from the start of the buffer. */
  lemma ChunkDelivered(reader: Reader, address: uint32, before: seq<byte>, n: nat, need: nat, l0: Log, l1: Log)
    requires |before| + n <= need
    requires l1 == Log(l0.fetched + Addresses(Advance(address, |before|), n),
                       l0.asked + Reach(Advance(address, |before|), 0, need - |before|))
    requires reader.exhaustive ==> AllMapped(reader.mapped, Advance(address, |before|), 0, n)
    ensures Delivered(reader, address, before, before + Window(reader.memory, Advance(address, |before|), n), need,
                      l0, l1)
  {
    hide Window, Addresses, Advance;
    forall i: nat
      ensures Advance(Advance(address, |before|), i) == Advance(address, |before| + i)
    {
      AdvanceAdvance(address, |before|, i);
    }
    if reader.exhaustive {
      forall i | |before| <= i < |before| + n
        ensures reader.mapped(Advance(address, i))
      {
        assert Advance(Advance(address, |before|), i - |before|) == Advance(address, i);
      }
    }
    forall i | 0 <= i < need - |before|
      ensures Advance(Advance(address, |before|), i) in Reach(address, |before|, need)
    {
      assert |before| <= |before| + i < need;
    }
  }

  method ReadUntil(data: seq<byte>, address: uint32, reader: Reader, need: nat)
    returns (filled: seq<byte>, failed: bool)
    modifies reader
    ensures Delivered(reader, address, data, filled, need, old(reader.log), reader.log)
    ensures !failed <==> |filled| >= need
    ensures |filled| <= need || filled == data
    ensures reader.exhaustive && failed ==> !reader.mapped(Advance(address, |filled|))
  {
    hide Advance, Delivered, Window, Addresses, Reach;
    filled := data;
    NothingDelivered(reader, address, data, need, reader.log);
    while |filled| < need
      invariant Delivered(reader, address, data, filled, need, old(reader.log), reader.log)
      invariant |filled| <= need || filled == data
    {
      var chunk := new byte[need - |filled|];
      ghost var before, l1 := filled, reader.log;
      var n, err := reader.ReadAtAddress(Advance(address, |filled|), chunk);
      if n > 0 {
        filled := filled + chunk[..n];
      }
      assert filled == before + Window(reader.memory, Advance(address, |before|), n);
      AdvanceAdvance(address, |before|, n);
      ChunkDelivered(reader, address, before, n, need, l1, reader.log);
      DeliveredTwice(reader, address, data, before, filled, need, need, old(reader.log), l1, reader.log);
      if |filled| >= need {
        return filled, false;
      }
      if err {
        return filled, true;
      }
      if n == 0 {
        return filled, true;
      }
    }
    failed := false;
  }
}
