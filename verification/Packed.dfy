/** Bit strings packed into bytes: cutting, joining and changing them. */
module Packed {
  import Bits
  import opened Memory

  function Bytes(n: nat): nat {
    (n + 7) / 8
  }

  lemma WholeBytes(c: nat, n: nat)
    requires c % 8 == 0
    ensures Bytes(c) + Bytes(n) == Bytes(c + n) && 8 * Bytes(c) == c
  {
  }

  lemma EnoughBytes(n: nat)
    ensures n <= 8 * Bytes(n)
  {
  }

  /** Bits packed into bytes, the unused ones clear. */
  function Pack(bits: seq<bool>): (r: seq<bv8>)
    ensures |r| == Bytes(|bits|)
  {
    seq(Bytes(|bits|), k requires 0 <= k < Bytes(|bits|) =>
      Bits.FromBits(seq(8, j requires 0 <= j < 8 => 8 * k + j < |bits| && bits[8 * k + j])))
  }

  lemma TakeOfPack(bits: seq<bool>)
    ensures Bits.Take(Pack(bits), |bits|) == bits
  {
    hide Bits.ByteBits, Bits.FromBits;
    var r := Bits.Take(Pack(bits), |bits|);
    forall i | 0 <= i < |bits| ensures r[i] == bits[i] {
      var k := i / 8;
      var s := seq(8, j requires 0 <= j < 8 => 8 * k + j < |bits| && bits[8 * k + j]);
      assert Pack(bits)[k] == Bits.FromBits(s);
      Bits.FromBitsHas(s);
      assert s[i % 8] == bits[8 * k + i % 8];
    }
  }

  /** Bits of two byte strings in a row. */
  lemma TakeAppend(x: seq<bv8>, y: seq<bv8>, n: nat)
    requires n <= 8 * |y|
    ensures Bits.Take(x + y, 8 * |x| + n) == Bits.Take(x, 8 * |x|) + Bits.Take(y, n)
  {
    hide Bits.ByteBits;
    var l, r := Bits.Take(x + y, 8 * |x| + n), Bits.Take(x, 8 * |x|) + Bits.Take(y, n);
    forall i | 0 <= i < 8 * |x| + n ensures l[i] == r[i] {
      if i >= 8 * |x| {
        assert i / 8 == |x| + (i - 8 * |x|) / 8 && i % 8 == (i - 8 * |x|) % 8;
      }
    }
  }

  /** Bits that lie in a prefix do not depend on what follows. */
  lemma TakePrefix(x: seq<bv8>, y: seq<bv8>, n: nat)
    requires n <= 8 * |x|
    ensures Bits.Take(x + y, n) == Bits.Take(x, n)
  {
    hide Bits.ByteBits;
    var l, r := Bits.Take(x + y, n), Bits.Take(x, n);
    forall i | 0 <= i < n ensures l[i] == r[i] {
      assert i / 8 < |x|;
    }
  }

  /** Bits of a window that starts at a byte. */
  lemma TakeWindow(x: seq<bv8>, from: nat, to: nat, n: nat)
    requires from <= to <= |x| && n <= 8 * (to - from)
    ensures Bits.Take(x[from..to], n) == Bits.Take(x, 8 * from + n)[8 * from..]
  {
    hide Bits.ByteBits;
    var l, r := Bits.Take(x[from..to], n), Bits.Take(x, 8 * from + n)[8 * from..];
    forall i | 0 <= i < n ensures l[i] == r[i] {
      assert (8 * from + i) / 8 == from + i / 8 && (8 * from + i) % 8 == i % 8;
    }
  }

  lemma TakeNext(s: seq<bv8>, n: nat)
    requires n < 8 * |s|
    ensures Bits.Take(s, n + 1) == Bits.Take(s, n) + [Bits.Bit(s, n)]
  {
    hide Bits.Bit;
  }

  lemma PackOne(bits: seq<bool>)
    requires |bits| == 1
    ensures |Pack(bits)| == 1 && Bits.Bit(Pack(bits), 0) == bits[0]
  {
    hide Bits.Bit;
    TakeOfPack(bits);
  }

  lemma InTheMiddle(was: seq<bv8>, at: nat, a: seq<bv8>, n: nat)
    requires at + |a| <= |was| && n <= 8 * |a|
    ensures Bits.Take(was[..at] + a + was[at + |a|..], 8 * at + n) == Bits.Take(was, 8 * at) + Bits.Take(a, n)
  {
    hide Bits.Take;
    assert was == was[..at] + was[at..];
    TakePrefix(was[..at], was[at..], 8 * at);
    TakeAppend(was[..at], a, n);
    TakePrefix(was[..at] + a, was[at + |a|..], 8 * at + n);
  }

  /** `x |= 1 << k` or `x &= ~(1 << k)`. */
  function WithBit(x: bv8, k: nat, b: bool): bv8
    requires k < 8
  {
    if b then x | Bits.Mask(k) else x & !Bits.Mask(k)
  }

  /** The same in a byte string. */
  function Put(s: seq<bv8>, n: nat, b: bool): (r: seq<bv8>)
    requires n < 8 * |s|
    ensures |r| == |s|
  {
    s[n / 8 := WithBit(s[n / 8], n % 8, b)]
  }

  lemma PutBit(s: seq<bv8>, n: nat, b: bool, j: nat)
    requires n < 8 * |s| && j < 8 * |s|
    ensures Bits.Bit(Put(s, n, b), j) == if j == n then b else Bits.Bit(s, j)
  {
    hide Bits.Bit, Bits.Mask;
    Bits.SetInBytes(s, n, j);
    Bits.ClearInBytes(s, n, j);
  }

  lemma PutAppends(s: seq<bv8>, n: nat, b: bool)
    requires n < 8 * |s|
    ensures Bits.Take(Put(s, n, b), n + 1) == Bits.Take(s, n) + [b]
  {
    hide Bits.Bit, Put;
    var l, r := Bits.Take(Put(s, n, b), n + 1), Bits.Take(s, n) + [b];
    forall j | 0 <= j < n + 1 ensures l[j] == r[j] {
      PutBit(s, n, b, j);
    }
  }

  lemma {:induction false} DigitsPrefix(n: nat, j: nat, k: nat)
    requires j <= k
    ensures Bits.Digits(n, k)[..j] == Bits.Digits(n, j)
    decreases j
  {
    if j == 0 {
    } else {
      DigitsPrefix(n / 2, j - 1, k - 1);
    }
  }

  lemma ZeroByte()
    ensures Bits.Value(0) == 0
  {
    assert Bits.ByteBits(0) == Bits.Repeat(false, 8);
    ZeroNumber(8);
  }

  lemma {:induction false} ZeroNumber(n: nat)
    ensures Bits.Number(Bits.Repeat(false, n)) == 0
  {
    if n == 0 {
    } else {
      assert Bits.Repeat(false, n)[1..] == Bits.Repeat(false, n - 1);
      ZeroNumber(n - 1);
    }
  }

  lemma SameByte()
    ensures Bits.Byte(256) == 0
  {
    assert Bits.Digits(256, 8) == [false, false, false, false, false, false, false, false];
  }

  /** `memcpy(rx + at, x, n)`. */
  method CopyInto(rx: array<bv8>, at: nat, x: seq<bv8>)
    requires at + |x| <= rx.Length
    modifies rx
    ensures rx[..] == old(rx[..at]) + x + old(rx[at + |x|..])
  {
    forall i | 0 <= i < |x| {
      rx[at + i] := x[i];
    }
  }

  /** Set or clear one bit of an array. */
  method PutInto(rx: array<bv8>, n: nat, b: bool)
    requires n < 8 * rx.Length
    modifies rx
    ensures Bits.Take(rx[..], n + 1) == Bits.Take(old(rx[..]), n) + [b]
    ensures SameFrom(old(rx[..]), rx[..], Bytes(n + 1))
  {
    hide Bits.Take, WithBit;
    PutAppends(rx[..], n, b);
    ghost var was := rx[..];
    rx[n / 8] := WithBit(rx[n / 8], n % 8, b);
    assert rx[..] == Put(was, n, b);
  }

  /** The TMS byte being filled: `bits` from the bottom, zeros, TDI at the top. */
  predicate Filling(b: bv8, bits: seq<bool>, tdi: bool) {
    var s := Bits.ByteBits(b);
    |bits| <= 7 && s[..|bits|] == bits && (forall i :: |bits| <= i < 7 ==> !s[i]) && s[7] == tdi
  }

  function TdiBit(tdi: bool): bv8 {
    if tdi then 0x80 else 0
  }

  lemma FillNone(tdi: bool)
    ensures Filling(TdiBit(tdi), [], tdi)
  {
  }

  /** `if (tms_bit) tms_buf |= 1 << idx`. */
  function FillOne(b: bv8, k: nat, bit: bool): bv8
    requires k < 8
  {
    if bit then b | Bits.Mask(k) else b
  }

  lemma FillOneBit(b: bv8, k: nat, bit: bool)
    requires k < 8 && !Bits.ByteBits(b)[k]
    ensures Bits.ByteBits(FillOne(b, k, bit)) == Bits.ByteBits(b)[k := bit]
  {
    hide Bits.ByteBits, Bits.Mask;
    Bits.OrMask(b, k);
  }

  lemma FillNext(b: bv8, bits: seq<bool>, tdi: bool, bit: bool)
    requires Filling(b, bits, tdi) && |bits| < 7
    ensures Filling(FillOne(b, |bits|, bit), bits + [bit], tdi)
  {
    hide Bits.ByteBits, FillOne;
    var k, s, t := |bits|, Bits.ByteBits(b), Bits.ByteBits(FillOne(b, |bits|, bit));
    FillOneBit(b, k, bit);
    assert t[..k] == s[..k] && t[..k + 1] == t[..k] + [t[k]];
  }

  lemma FilledBits(b: bv8, bits: seq<bool>, tdi: bool)
    requires Filling(b, bits, tdi)
    ensures Bits.ByteBits(b)[..|bits|] == bits && Bits.ByteBits(b)[7] == tdi
    ensures forall i :: |bits| <= i < 7 ==> !Bits.ByteBits(b)[i]
  {
    hide Bits.ByteBits;
  }
}
