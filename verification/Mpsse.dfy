/**
 The FTDI cables: the MPSSE command buffer, and the TMS and clock commands that
 the JTAG driver of the FT2232H class puts into it.

 Over every sequence of stores and flushes the bytes sent and the bytes waiting
 are proved to be exactly the bytes stored, in order; and what the driver stores
 is proved to decode to the TMS bits and the number of clocks asked for.
 */
module Mpsse {
  import Bits
  import opened Packed
  import opened Wire

  const TMS_OP: bv8 := 0x4B
  const CLOCK_BYTES: bv8 := 0x8F
  const CLOCK_BITS: bv8 := 0x8E

  // ---------------------------------------------------------------------
  // The command language
  // ---------------------------------------------------------------------

  datatype Kind = TmsKind | BytesKind | BitsKind

  function Code(k: Kind): bv8 {
    match k
    case TmsKind => TMS_OP
    case BytesKind => CLOCK_BYTES
    case BitsKind => CLOCK_BITS
  }

  /** What the chip understands. */
  predicate Known(b: bv8) {
    b == 0x4B || b == 0x8F || b == 0x8E
  }

  function KindOf(b: bv8): Kind
    requires Known(b)
  {
    if b == 0x4B then TmsKind else if b == 0x8F then BytesKind else BitsKind
  }

  lemma KindOfCode(k: Kind)
    ensures Known(Code(k)) && KindOf(Code(k)) == k
  {
  }

  function Size(k: Kind): nat {
    if k.BitsKind? then 2 else 3
  }

  /** A complete command comes first, its length field in range. */
  predicate Starts(x: seq<bv8>) {
    && x != [] && Known(x[0]) && Size(KindOf(x[0])) <= |x|
    && (KindOf(x[0]).TmsKind? ==> Bits.Value(x[1]) < 7)
    && (KindOf(x[0]).BitsKind? ==> Bits.Value(x[1]) < 8)
  }

  /** The clocks of the first command: up to seven TMS bits with TDI in bit 7, a
      count of eight clocks each, or a count of clocks. */
  function Head(x: seq<bv8>): seq<Pulse>
    requires Starts(x)
  {
    match KindOf(x[0])
    case TmsKind => TmsPulses(Bits.ByteBits(x[2])[..Bits.Value(x[1]) + 1], Driven(Bits.ByteBits(x[2])[7]))
    case BytesKind => TckPulses(8 * (Bits.Value(x[1]) + 256 * Bits.Value(x[2]) + 1))
    case BitsKind => TckPulses(Bits.Value(x[1]) + 1)
  }

  /** The clocks of a byte stream. */
  function Decoded(x: seq<bv8>): seq<Pulse>
    decreases |x|
  {
    if !Starts(x) then [] else Head(x) + Decoded(x[Size(KindOf(x[0]))..])
  }

  predicate Exact(x: seq<bv8>)
    decreases |x|
  {
    x == [] || (Starts(x) && Exact(x[Size(KindOf(x[0]))..]))
  }

  lemma HeadThenMore(x: seq<bv8>, y: seq<bv8>)
    requires Starts(x)
    ensures Starts(x + y) && Head(x + y) == Head(x)
    ensures (x + y)[0] == x[0] && (x + y)[Size(KindOf(x[0]))..] == x[Size(KindOf(x[0]))..] + y
  {
    hide Bits.ByteBits, Bits.Value, Known, KindOf, TmsPulses, TckPulses;
    var z := x + y;
    assert z[0] == x[0] && z[1] == x[1] && (|x| > 2 ==> z[2] == x[2]);
  }

  lemma Unfold(x: seq<bv8>)
    requires Starts(x)
    ensures Known(x[0]) && Size(KindOf(x[0])) <= |x| && Decoded(x) == Head(x) + Decoded(x[Size(KindOf(x[0]))..])
    ensures Exact(x) == Exact(x[Size(KindOf(x[0]))..])
  {
    hide Head, Bits.Value;
  }

  lemma Nothing()
    ensures Decoded([]) == [] && Exact([])
  {
  }

  lemma ExactStarts(x: seq<bv8>)
    requires Exact(x) && x != []
    ensures Starts(x)
  {
    hide Starts;
  }

  /** Streams of whole commands decode one after the other. */
  lemma {:induction false} DecodedAppend(x: seq<bv8>, y: seq<bv8>)
    requires Exact(x)
    ensures Decoded(x + y) == Decoded(x) + Decoded(y)
    ensures Exact(y) ==> Exact(x + y)
    decreases |x|
  {
    hide Starts, Head, Decoded, Exact;
    if x == [] {
      assert x + y == y;
      Nothing();
      assert [] + Decoded(y) == Decoded(y);
    } else {
      ExactStarts(x);
      HeadThenMore(x, y);
      Unfold(x);
      Unfold(x + y);
      var rest := x[Size(KindOf(x[0]))..];
      DecodedAppend(rest, y);
      assert Head(x) + (Decoded(rest) + Decoded(y)) == Head(x) + Decoded(rest) + Decoded(y);
    }
  }

  lemma DecodedOne(x: seq<bv8>)
    requires Starts(x) && Size(KindOf(x[0])) == |x|
    ensures Exact(x) && Decoded(x) == Head(x)
  {
    hide Starts, Head, Decoded, Exact;
    Unfold(x);
    Nothing();
    assert x[|x|..] == [] && Head(x) + [] == Head(x);
  }

  lemma TmsCommand(n: nat, b: bv8)
    requires 0 < n <= 7
    ensures var x := [Code(TmsKind), Bits.Byte(n - 1), b];
            Exact(x) && Decoded(x) == TmsPulses(Bits.ByteBits(b)[..n], Driven(Bits.ByteBits(b)[7]))
  {
    hide Bits.Byte, Bits.Value, Bits.Digits, Bits.ByteBits, Exact, Decoded, Code, Known, KindOf, TmsPulses, TckPulses;
    KindOfCode(TmsKind);
    Bits.ByteValue(n - 1);
    DecodedOne([Code(TmsKind), Bits.Byte(n - 1), b]);
  }

  lemma BytesCommand(n: nat)
    requires 0 < n <= 65536
    ensures var x := [Code(BytesKind), Bits.Byte(n - 1), Bits.Byte((n - 1) / 256)];
            Exact(x) && Decoded(x) == TckPulses(8 * n)
  {
    hide Bits.Byte, Bits.Value, Bits.Digits, Bits.ByteBits, Exact, Decoded, Code, Known, KindOf, TmsPulses, TckPulses;
    KindOfCode(BytesKind);
    Bits.ByteValue(n - 1);
    Bits.ByteValue((n - 1) / 256);
    assert (n - 1) / 256 < 256;
    DecodedOne([Code(BytesKind), Bits.Byte(n - 1), Bits.Byte((n - 1) / 256)]);
  }

  lemma BitsCommand(n: nat)
    requires 0 < n <= 8
    ensures var x := [Code(BitsKind), Bits.Byte(n - 1)];
            Exact(x) && Decoded(x) == TckPulses(n)
  {
    hide Bits.Byte, Bits.Value, Bits.Digits, Bits.ByteBits, Exact, Decoded, Code, Known, KindOf, TmsPulses, TckPulses;
    KindOfCode(BitsKind);
    Bits.ByteValue(n - 1);
    DecodedOne([Code(BitsKind), Bits.Byte(n - 1)]);
  }

  lemma NoPulses(tms: seq<bv8>, tdi: bool)
    ensures Bits.Take(tms, 0) == [] && TmsPulses([], Driven(tdi)) == [] && TckPulses(0) == []
  {
  }

  // ---------------------------------------------------------------------
  // The driver
  // ---------------------------------------------------------------------

  class FtdiJtagMPSSE {
    const buffer: array<bv8>
    var num: nat
    /** The bytes the chip has got, and whether a transfer has failed. */
    var sent: seq<bv8>
    var failed: bool
    /** Whether the chip can clock without data. */
    const fast: bool

    ghost predicate Room()
      reads this`num
    {
      buffer.Length > 0 && num <= buffer.Length
    }

    /** Everything stored so far: sent, then waiting. */
    ghost function Stream(): seq<bv8>
      requires Room()
      reads this`num, this`sent, buffer
    {
      sent + buffer[..num]
    }

    ghost predicate Valid()
      reads this`num, this`sent, this`failed, buffer
    {
      Room() && (!failed ==> Exact(Stream()))
    }

    constructor (size: nat, fast: bool)
      requires size > 0
      ensures Valid() && Stream() == [] && !failed && fresh(buffer) && this.fast == fast
    {
      buffer := new bv8[size](_ => 0);
      num, sent, failed, this.fast := 0, [], false, fast;
    }

    /** `mpsse_write`: everything waiting goes out, or the transfer fails. */
    method MpsseWrite() returns (ret: int)
      requires Room()
      modifies this`num, this`sent, this`failed
      ensures Room() && failed == (old(failed) || ret < 0)
      ensures ret >= 0 ==> num == 0 && Stream() == old(Stream()) && ret == old(num)
    {
      if num == 0 {
        return 0;
      }
      var works: bool := *;
      if !works {
        sent := *;
        failed := true;
        return -1;
      }
      sent := sent + buffer[..num];
      ret := num;
      num := 0;
    }

    method Fill(x: seq<bv8>)
      requires Room() && num + |x| <= buffer.Length
      modifies this`num, buffer
      ensures Room() && num == old(num) + |x| && Stream() == old(Stream()) + x
    {
      ghost var b := buffer[..num];
      forall i | 0 <= i < |x| {
        buffer[num + i] := x[i];
      }
      num := num + |x|;
      assert buffer[..num] == b + x;
    }

    /** `mpsse_store`: a store of any length, split wherever the buffer is full,
        puts exactly its bytes behind what was stored before. */
    method MpsseStore(x: seq<bv8>) returns (ret: int)
      requires Room()
      modifies this`num, this`sent, this`failed, buffer
      ensures Room() && failed == (old(failed) || ret < 0) && ret <= 0
      ensures ret == 0 ==> Stream() == old(Stream()) + x
    {
      var at := 0;
      if num + |x| > buffer.Length {
        if num == buffer.Length {
          ret := MpsseWrite();
          if ret < 0 {
            return;
          }
        }
        while num + (|x| - at) > buffer.Length
          invariant 0 <= at <= |x| && Room() && failed == old(failed) && (at < |x| ==> num < buffer.Length)
          invariant Stream() == old(Stream()) + x[..at]
          decreases |x| - at
        {
          var size := buffer.Length - num;
          Fill(x[at..at + size]);
          assert x[..at + size] == x[..at] + x[at..at + size];
          ret := MpsseWrite();
          if ret < 0 {
            return;
          }
          at := at + size;
        }
      }
      assert x == x[..at] + x[at..];
      if at < |x| {
        Fill(x[at..]);
      }
      ret := 0;
    }

    /** A whole command; the result of the store is not looked at. */
    method StoreCommand(x: seq<bv8>)
      requires Valid() && Exact(x)
      modifies this`num, this`sent, this`failed, buffer
      ensures Valid() && (old(failed) ==> failed)
      ensures !failed ==> Decoded(Stream()) == Decoded(old(Stream())) + Decoded(x)
    {
      hide Exact, Decoded;
      ghost var s := Stream();
      var _ := MpsseStore(x);
      if !failed { DecodedAppend(s, x); }
    }

    /** `writeTMS`: the commands decode to exactly the bits asked for. Failures are
        not reported: the result is always the length. */
    method WriteTMS(tms: seq<bv8>, len: nat, flushBuffer: bool, tdi: bool) returns (ret: int)
      requires Valid() && len <= 8 * |tms|
      modifies this`num, this`sent, this`failed, buffer
      ensures Valid() && ret == len && (old(failed) ==> failed)
      ensures !failed ==> Decoded(Stream()) == Decoded(old(Stream())) + TmsPulses(Bits.Take(tms, len), Driven(tdi))
      ensures !failed && flushBuffer && len > 0 ==> num == 0
    {
      hide Exact, Decoded, TmsPulses, Bits.Take;
      NoPulses(tms, tdi);
      if len == 0 {
        return 0;
      }
      var xfer, offset, pos := len, 0, 0;
      var iter := buffer.Length / 3;
      while xfer > 0
        invariant Valid() && xfer + offset == len && (old(failed) ==> failed)
        invariant !failed ==>
                    Decoded(Stream()) == Decoded(old(Stream())) + TmsPulses(Bits.Take(tms, offset), Driven(tdi))
      {
        var n := if xfer > 6 then 6 else xfer;
        var b := TmsByte(tms, offset, n, tdi);
        SplitBits(tms, offset, n, tdi);
        StoreTms(n, b, Bits.Take(tms, offset + n)[offset..], tdi);
        offset := offset + n;
        pos := pos + 3;
        if pos == iter * 3 {
          pos := 0;
          var _ := MpsseWrite();
        }
        xfer := xfer - n;
      }
      if flushBuffer {
        var _ := MpsseWrite();
      }
      return len;
    }

    method StoreTms(n: nat, b: bv8, ghost bits: seq<bool>, ghost tdi: bool)
      requires Valid() && 0 < n <= 6 && |bits| == n
      requires Bits.ByteBits(b)[..n] == bits && Bits.ByteBits(b)[7] == tdi
      modifies this`num, this`sent, this`failed, buffer
      ensures Valid() && (old(failed) ==> failed)
      ensures !failed ==> Decoded(Stream()) == Decoded(old(Stream())) + TmsPulses(bits, Driven(tdi))
    {
      hide Exact, Decoded, TmsPulses, Bits.Byte, Bits.ByteBits, Code;
      TmsCommand(n, b);
      StoreCommand([Code(TmsKind), Bits.Byte(n - 1), b]);
    }

    /** `toggleClk`: exactly `clkLen` clocks, in commands whose counts fit. */
    method ToggleClk(tms: bool, clkLen: nat) returns (ret: int)
      requires Valid()
      modifies this`num, this`sent, this`failed, buffer
      ensures Valid() && ret == clkLen
      ensures !failed && fast ==> Decoded(Stream()) == Decoded(old(Stream())) + TckPulses(clkLen)
      ensures !failed && !fast ==>
                Decoded(Stream()) == Decoded(old(Stream())) + TmsPulses(Bits.Repeat(tms, clkLen), Driven(true))
    {
      hide Exact, Decoded, TmsPulses, TckPulses, Bits.Take;
      if fast {
        ClockLoop(clkLen);
        ret := clkLen;
      } else {
        var levels := seq(Bytes(clkLen), _ => if tms then 0xFF as bv8 else 0);
        Bits.ConstantBytes(levels, clkLen, tms);
        ret := WriteTMS(levels, clkLen, false, true);
      }
    }

    method ClockLoop(clkLen: nat)
      requires Valid()
      modifies this`num, this`sent, this`failed, buffer
      ensures Valid()
      ensures !failed ==> Decoded(Stream()) == Decoded(old(Stream())) + TckPulses(clkLen)
    {
      hide Exact, Decoded, TmsPulses, TckPulses, Bits.Byte, Code;
      NoPulses([], false);
      var len: nat := clkLen;
      while len > 0
        invariant len <= clkLen && Valid() && (old(failed) ==> failed)
        invariant !failed ==> Decoded(Stream()) == Decoded(old(Stream())) + TckPulses(clkLen - len)
      {
        var chunk := if len > 0x80000 then 0x80000 else len;
        if chunk > 8 {
          var cycles8 := chunk / 8;
          BytesCommand(cycles8);
          TckAppend(clkLen - len, 8 * cycles8);
          StoreCommand([Code(BytesKind), Bits.Byte(cycles8 - 1), Bits.Byte((cycles8 - 1) / 256)]);
          len := len - 8 * cycles8;
        }
        if len > 0 && len < 9 {
          BitsCommand(len);
          TckAppend(clkLen - len, len);
          StoreCommand([Code(BitsKind), Bits.Byte(len - 1)]);
          len := 0;
        }
      }
    }
  }

  /** The data byte of a TMS command: the bits, the last one once more, and TDI. */
  method TmsByte(tms: seq<bv8>, offset: nat, n: nat, tdi: bool) returns (b: bv8)
    requires 0 < n <= 6 && offset + n <= 8 * |tms|
    ensures Bits.ByteBits(b)[..n] == Bits.Take(tms, offset + n)[offset..] && Bits.ByteBits(b)[7] == tdi
    ensures Bits.ByteBits(b)[n] == Bits.ByteBits(b)[n - 1] && forall i :: n < i < 7 ==> !Bits.ByteBits(b)[i]
  {
    hide Bits.Take, Bits.ByteBits, Filling, FillOne, TdiBit;
    b := TdiBit(tdi);
    FillNone(tdi);
    ghost var bits: seq<bool> := [];
    var last := false;
    for i := 0 to n
      invariant |bits| == i && Filling(b, bits, tdi)
      invariant bits == Bits.Take(tms, offset + i)[offset..]
      invariant i > 0 ==> last == Bits.Bit(tms, offset + i - 1)
    {
      last := Bits.Bit(tms, offset + i);
      TakeNext(tms, offset + i);
      FillNext(b, bits, tdi, last);
      b := FillOne(b, i, last);
      bits := bits + [last];
    }
    FillNext(b, bits, tdi, last);
    b := FillOne(b, n, last);
    FilledBits(b, bits + [last], tdi);
    var all := Bits.ByteBits(b)[..n + 1];
    assert Bits.ByteBits(b)[..n] == all[..n];
    assert bits[n - 1] == last && all[n] == last && all[n - 1] == last;
  }

  lemma SplitBits(tms: seq<bv8>, offset: nat, n: nat, tdi: bool)
    requires offset + n <= 8 * |tms|
    ensures TmsPulses(Bits.Take(tms, offset + n), Driven(tdi))
         == TmsPulses(Bits.Take(tms, offset), Driven(tdi))
            + TmsPulses(Bits.Take(tms, offset + n)[offset..], Driven(tdi))
  {
    hide Bits.Bit;
    var w := Bits.Take(tms, offset + n);
    assert w[..offset] == Bits.Take(tms, offset) && w == w[..offset] + w[offset..];
    TmsAppend(w[..offset], w[offset..], Driven(tdi));
  }
}
