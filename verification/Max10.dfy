/**
 Programming the internal flash of a MAX10: the sparse writer, which skips words
 of all ones and sends an address only when the device's own counter is not where
 it should be, and the verifier, which counts the words that differ.

 Against a device with an auto-incrementing address the sparse writer is proved to
 leave exactly what writing every word at its own address would, on any contents;
 on an erased region that is the data, and the verifier then counts nothing.
 */
module Max10 {
  import Bits

  const ADDR_BITS := 23
  const TWO_23 := 8388608

  /** A flash word: four bytes, least significant first. */
  type Word = w: seq<bv8> | |w| == 4 witness [0, 0, 0, 0]

  const ONES: Word := [0xFF, 0xFF, 0xFF, 0xFF]

  // ---------------------------------------------------------------------
  // The address on the wire
  // ---------------------------------------------------------------------

  /** `reverse_32`: each byte reversed, and the bytes in reverse order; the bits
      are listed from the least significant one. */
  function Reverse32(n: nat): (r: seq<bool>)
    ensures |r| == 32
  {
    Reversed(n / 16777216) + Reversed(n / 65536) + Reversed(n / 256) + Reversed(n)
  }

  function Reversed(n: nat): (r: seq<bool>)
    ensures |r| == 8
  {
    Bits.ByteBits(Bits.ReverseByte(Bits.Byte(n)))
  }

  /** The bits `max10_addr_shift` clocks: 23 bits of `reverse_32(addr) >> 9`, the
      least significant first. */
  function AddressBits(addr: nat): (r: seq<bool>)
    ensures |r| == ADDR_BITS
  {
    Reverse32(addr)[9..]
  }

  lemma {:induction false} DigitsSplit(n: nat, j: nat, k: nat, q: nat)
    requires q == Halved(n, j)
    ensures Bits.Digits(n, j + k) == Bits.Digits(n, j) + Bits.Digits(q, k)
    decreases j
  {
    if j == 0 {
    } else {
      DigitsSplit(n / 2, j - 1, k, q);
    }
  }

  function Halved(n: nat, j: nat): nat
    decreases j
  {
    if j == 0 then n else Halved(n / 2, j - 1)
  }

  lemma ByteHalved(n: nat)
    ensures Halved(n, 8) == n / 256
  {
    assert n / 2 / 2 == n / 4 && n / 4 / 2 == n / 8 && n / 8 / 2 == n / 16;
    assert Halved(n, 8) == Halved(n / 2, 7) == Halved(n / 4, 6) == Halved(n / 8, 5) == Halved(n / 16, 4);
    assert n / 16 / 2 == n / 32 && n / 32 / 2 == n / 64 && n / 64 / 2 == n / 128 && n / 128 / 2 == n / 256;
    assert Halved(n / 16, 4) == Halved(n / 32, 3) == Halved(n / 64, 2) == Halved(n / 128, 1) == Halved(n / 256, 0);
  }

  /** A number's digits, byte by byte. */
  lemma FourBytes(n: nat)
    ensures Bits.Digits(n, 32) == Bits.Digits(n, 8) + Bits.Digits(n / 256, 8)
                                  + Bits.Digits(n / 65536, 8) + Bits.Digits(n / 16777216, 8)
  {
    hide Bits.Digits, Halved;
    ByteHalved(n);
    ByteHalved(n / 256);
    ByteHalved(n / 65536);
    assert n / 256 / 256 == n / 65536 && n / 65536 / 256 == n / 16777216;
    DigitsSplit(n, 8, 24, n / 256);
    DigitsSplit(n / 256, 8, 16, n / 65536);
    DigitsSplit(n / 65536, 8, 8, n / 16777216);
  }

  lemma ReversedBits(n: nat, k: nat)
    requires k < 8
    ensures Reversed(n)[k] == Bits.Digits(n, 8)[7 - k]
  {
    hide Bits.ByteBits, Bits.ReverseByte, Bits.Byte, Bits.Digits, Bits.Value;
    Bits.ByteValue(n);
    Bits.ReverseByteReverses(Bits.Byte(n));
  }

  /** Reversing the word reverses all its bits. */
  lemma Reverse32Reverses(n: nat, k: nat)
    requires k < 32
    ensures Reverse32(n)[k] == Bits.Digits(n, 32)[31 - k]
  {
    hide Reversed, Bits.Digits;
    FourBytes(n);
    var b := if k < 8 then n / 16777216 else if k < 16 then n / 65536 else if k < 24 then n / 256 else n;
    ReversedBits(b, k % 8);
  }

  /** The address goes out most significant bit first. */
  lemma AddressMsbFirst(addr: nat, i: nat)
    requires i < ADDR_BITS
    ensures AddressBits(addr)[i] == Bits.Digits(addr, ADDR_BITS)[ADDR_BITS - 1 - i]
  {
    hide Reverse32, Bits.Digits, Halved;
    Reverse32Reverses(addr, 9 + i);
    DigitsSplit(addr, ADDR_BITS, 9, Halved(addr, ADDR_BITS));
  }

  /** The number a register holds after bits shifted in most significant first. */
  function MsbFirst(bits: seq<bool>): nat {
    if bits == [] then 0 else 2 * MsbFirst(bits[..|bits| - 1]) + if bits[|bits| - 1] then 1 else 0
  }

  lemma {:induction false} MsbFirstIs(bits: seq<bool>, digits: seq<bool>)
    requires |bits| == |digits| && forall i :: 0 <= i < |bits| ==> bits[i] == digits[|bits| - 1 - i]
    ensures MsbFirst(bits) == Bits.Number(digits)
    decreases |bits|
  {
    if bits == [] {
    } else {
      MsbFirstIs(bits[..|bits| - 1], digits[1..]);
    }
  }

  lemma Power23()
    ensures Bits.Pow2(ADDR_BITS) == TWO_23
  {
    assert Bits.Pow2(8) == 256 by { Bits.PowByte(); }
    assert Bits.Pow2(16) == 65536;
  }

  /** The device receives the address that was asked for. */
  lemma AddressArrives(addr: nat)
    requires addr < TWO_23
    ensures MsbFirst(AddressBits(addr)) == addr
  {
    hide AddressBits, MsbFirst, Bits.Number, Bits.Digits, Bits.Pow2;
    var bits, digits := AddressBits(addr), Bits.Digits(addr, ADDR_BITS);
    forall i | 0 <= i < ADDR_BITS ensures bits[i] == digits[ADDR_BITS - 1 - i] {
      AddressMsbFirst(addr, i);
    }
    MsbFirstIs(bits, digits);
    Power23();
    Bits.NumberDigits(addr, ADDR_BITS);
  }

  // ---------------------------------------------------------------------
  // Programming and comparing
  // ---------------------------------------------------------------------

  /** Programming clears bits. */
  function And(x: Word, y: Word): Word {
    [Both(x[0], y[0]), Both(x[1], y[1]), Both(x[2], y[2]), Both(x[3], y[3])]
  }

  function Both(x: bv8, y: bv8): bv8 {
    x & y
  }

  lemma AndOnes(x: Word)
    ensures And(x, ONES) == x && And(ONES, x) == x
  {
    assert x == [x[0], x[1], x[2], x[3]];
    AndFF(x[0]);
    AndFF(x[1]);
    AndFF(x[2]);
    AndFF(x[3]);
  }

  lemma AndFF(b: bv8)
    ensures b & 0xFF == b && 0xFF & b == b
  {
  }

  /** Word `k` of the data at `offset`. */
  function WordAt(cfg: seq<bv8>, offset: nat, k: nat): Word
    requires offset + 4 * k + 4 <= |cfg|
  {
    cfg[offset + 4 * k..offset + 4 * k + 4]
  }

  /** The contents after every one of `n` words is written at its own address. */
  function Written(flash: seq<Word>, base: nat, cfg: seq<bv8>, offset: nat, n: nat): (r: seq<Word>)
    requires base + n <= |flash| && offset + 4 * n <= |cfg|
    ensures |r| == |flash|
  {
    if n == 0 then flash
    else
      var f := Written(flash, base, cfg, offset, n - 1);
      f[base + n - 1 := And(f[base + n - 1], WordAt(cfg, offset, n - 1))]
  }

  /** Word by word: written words are masked by the data, all others unchanged. */
  lemma {:induction false} WrittenAt(flash: seq<Word>, base: nat, cfg: seq<bv8>, offset: nat, n: nat, a: nat)
    requires base + n <= |flash| && offset + 4 * n <= |cfg| && a < |flash|
    ensures Written(flash, base, cfg, offset, n)[a]
         == if base <= a < base + n then And(flash[a], WordAt(cfg, offset, a - base)) else flash[a]
    decreases n
  {
    hide And, WordAt;
    if n == 0 {
    } else {
      WrittenAt(flash, base, cfg, offset, n - 1, a);
      WrittenAt(flash, base, cfg, offset, n - 1, base + n - 1);
    }
  }

  /** How many of the first `n` words differ from the flash. */
  function Differing(flash: seq<Word>, base: nat, cfg: seq<bv8>, offset: nat, n: nat): nat
    requires base + n <= |flash| && offset + 4 * n <= |cfg|
  {
    if n == 0 then 0
    else Differing(flash, base, cfg, offset, n - 1)
         + if flash[base + n - 1] != WordAt(cfg, offset, n - 1) then 1 else 0
  }

  ghost predicate Erased(flash: seq<Word>, base: nat, n: nat) {
    base + n <= |flash| && forall a :: base <= a < base + n ==> flash[a] == ONES
  }

  /** On an erased region the data is stored, so that nothing differs. */
  lemma {:induction false} ErasedThenSame(flash: seq<Word>, base: nat, cfg: seq<bv8>, offset: nat, len: nat, n: nat)
    requires Erased(flash, base, len) && offset + 4 * len <= |cfg| && n <= len
    ensures Differing(Written(flash, base, cfg, offset, len), base, cfg, offset, n) == 0
    decreases n
  {
    hide And, WordAt, Written;
    if n == 0 {
    } else {
      ErasedThenSame(flash, base, cfg, offset, len, n - 1);
      WrittenAt(flash, base, cfg, offset, len, base + n - 1);
      AndOnes(WordAt(cfg, offset, n - 1));
    }
  }

  /** The count is zero exactly when every word agrees. */
  lemma {:induction false} DifferingZero(flash: seq<Word>, base: nat, cfg: seq<bv8>, offset: nat, n: nat)
    requires base + n <= |flash| && offset + 4 * n <= |cfg|
    ensures Differing(flash, base, cfg, offset, n) == 0
       <==> forall k :: 0 <= k < n ==> flash[base + k] == WordAt(cfg, offset, k)
    decreases n
  {
    hide WordAt;
    if n == 0 {
    } else {
      DifferingZero(flash, base, cfg, offset, n - 1);
    }
  }

  /** Byte by byte: the region holds what it held masked by the data, and the rest is
      as it was. */
  ghost predicate MaskedBytes(was: seq<Word>, now: seq<Word>, base: nat, cfg: seq<bv8>, offset: nat, n: nat) {
    && base + n <= |was| == |now| && offset + 4 * n <= |cfg|
    && (forall i :: 0 <= i < 4 * n ==> now[base + i / 4][i % 4] == Both(was[base + i / 4][i % 4], cfg[offset + i]))
    && forall a :: 0 <= a < |was| && !(base <= a < base + n) ==> now[a] == was[a]
  }

  /** Byte by byte: the region holds the data. */
  ghost predicate HoldsBytes(flash: seq<Word>, base: nat, cfg: seq<bv8>, offset: nat, n: nat) {
    && base + n <= |flash| && offset + 4 * n <= |cfg|
    && forall i :: 0 <= i < 4 * n ==> flash[base + i / 4][i % 4] == cfg[offset + i]
  }

  lemma WrittenBytes(flash: seq<Word>, base: nat, cfg: seq<bv8>, offset: nat, n: nat)
    requires base + n <= |flash| && offset + 4 * n <= |cfg|
    ensures MaskedBytes(flash, Written(flash, base, cfg, offset, n), base, cfg, offset, n)
  {
    hide Written, Both, And;
    var now := Written(flash, base, cfg, offset, n);
    forall i | 0 <= i < 4 * n
      ensures now[base + i / 4][i % 4] == Both(flash[base + i / 4][i % 4], cfg[offset + i])
    {
      WrittenAt(flash, base, cfg, offset, n, base + i / 4);
      AndByte(flash[base + i / 4], WordAt(cfg, offset, i / 4), i % 4);
      assert offset + 4 * (i / 4) + i % 4 == offset + i;
    }
    forall a | 0 <= a < |flash| && !(base <= a < base + n) ensures now[a] == flash[a] {
      WrittenAt(flash, base, cfg, offset, n, a);
    }
  }

  lemma AndByte(x: Word, y: Word, k: nat)
    requires k < 4
    ensures And(x, y)[k] == Both(x[k], y[k])
  {
    hide Both;
  }

  /** The count is zero exactly when every byte agrees. */
  lemma DifferingBytes(flash: seq<Word>, base: nat, cfg: seq<bv8>, offset: nat, n: nat)
    requires base + n <= |flash| && offset + 4 * n <= |cfg|
    ensures Differing(flash, base, cfg, offset, n) == 0 <==> HoldsBytes(flash, base, cfg, offset, n)
  {
    hide Differing;
    DifferingZero(flash, base, cfg, offset, n);
    if Differing(flash, base, cfg, offset, n) == 0 {
      forall i | 0 <= i < 4 * n ensures flash[base + i / 4][i % 4] == cfg[offset + i] {
        assert flash[base + i / 4] == WordAt(cfg, offset, i / 4);
        assert offset + 4 * (i / 4) + i % 4 == offset + i;
      }
    }
    if HoldsBytes(flash, base, cfg, offset, n) {
      forall k | 0 <= k < n ensures flash[base + k] == WordAt(cfg, offset, k) {
        WordBytes(flash, base, cfg, offset, n, k);
      }
    }
  }

  lemma WordBytes(flash: seq<Word>, base: nat, cfg: seq<bv8>, offset: nat, n: nat, k: nat)
    requires HoldsBytes(flash, base, cfg, offset, n) && k < n
    ensures flash[base + k] == WordAt(cfg, offset, k)
  {
    forall j | 0 <= j < 4 ensures flash[base + k][j] == WordAt(cfg, offset, k)[j] {
      var i := 4 * k + j;
      assert i / 4 == k && i % 4 == j && flash[base + i / 4][i % 4] == cfg[offset + i];
    }
  }

  // ---------------------------------------------------------------------
  // The device and the driver
  // ---------------------------------------------------------------------

  datatype Instruction = Idle | AddressShift | Program | Read

  class Altera {
    /** The flash, its address counter and the selected instruction. */
    var flash: seq<Word>
    var addr: nat
    var instr: Instruction

    ghost predicate Valid()
      reads this
    {
      |flash| <= TWO_23
    }

    /** `max10_addr_shift`. */
    method AddrShift(a: nat)
      requires a < TWO_23
      modifies this`addr, this`instr
      ensures addr == a && instr == AddressShift
    {
      instr := AddressShift;
      AddressArrives(a);
      addr := MsbFirst(AddressBits(a));
    }

    method ShiftIr(i: Instruction)
      modifies this`instr
      ensures instr == i
    {
      instr := i;
    }

    /** A 32-bit data scan: a word is programmed under Program and returned under
        Read, and the counter moves on. */
    method ShiftDr(w: Word) returns (out: Word)
      modifies this`addr, this`flash
      ensures |flash| == |old(flash)|
      ensures var a := old(addr);
              if instr == Program && a < |old(flash)| then flash == old(flash)[a := And(old(flash)[a], w)]
              else flash == old(flash)
      ensures instr == Read && old(addr) < |flash| ==> out == flash[old(addr)]
      ensures addr == (old(addr) + 1) % TWO_23
    {
      out := ONES;
      if addr < |flash| {
        if instr == Read {
          out := flash[addr];
        } else if instr == Program {
          flash := flash[addr := And(flash[addr], w)];
        }
      }
      addr := (addr + 1) % TWO_23;
    }

    /** `writeXFM`: skipping words of all ones, and sending the address only at the
        start of a group of 512 and after a skip, is as good as writing every word
        at its address. */
    method WriteXFM(cfg: seq<bv8>, base: nat, offset: nat, len: nat)
      requires Valid() && base + len <= |flash| && offset + 4 * len <= |cfg|
      modifies this
      ensures Valid() && flash == Written(old(flash), base, cfg, offset, len)
      ensures MaskedBytes(old(flash), flash, base, cfg, offset, len)
    {
      hide And, WordAt, MaskedBytes;
      WrittenBytes(flash, base, cfg, offset, len);
      var i := 0;
      while i < len
        invariant Valid() && |flash| == |old(flash)| && i % 512 == 0 && 0 <= i < len + 512
        invariant flash == Written(old(flash), base, cfg, offset, if i < len then i else len)
        decreases len - i
      {
        var max := if i + 512 <= len then 512 else len - i;
        WriteGroup(cfg, base, offset, len, i, max, old(flash));
        i := i + 512;
      }
    }

    method WriteGroup(cfg: seq<bv8>, base: nat, offset: nat, len: nat, i: nat, max: nat, ghost start: seq<Word>)
      requires Valid() && base + len <= |start| && |flash| == |start| && offset + 4 * len <= |cfg| && i + max <= len
      requires flash == Written(start, base, cfg, offset, i)
      modifies this
      ensures Valid() && |flash| == |start| && flash == Written(start, base, cfg, offset, i + max)
    {
      hide And, WordAt;
      var mustSendSir := true;
      for ii := 0 to max
        invariant Valid() && |flash| == |start|
        invariant flash == Written(start, base, cfg, offset, i + ii)
        invariant !mustSendSir ==> instr == Program && addr == (base + i + ii) % TWO_23
      {
        var data := WordAt(cfg, offset, i + ii);
        AndOnes(flash[base + i + ii]);
        if data == ONES {
          mustSendSir := true;
        } else {
          if mustSendSir {
            AddrShift(base + i + ii);
            ShiftIr(Program);
            mustSendSir := false;
          }
          var _ := ShiftDr(data);
        }
      }
    }

    /** `verifyxFM`: the number of words that differ, with nothing changed. */
    method VerifyXFM(cfg: seq<bv8>, base: nat, offset: nat, len: nat) returns (errors: nat)
      requires Valid() && base + len <= |flash| && offset + 4 * len <= |cfg|
      modifies this
      ensures flash == old(flash) && errors == Differing(flash, base, cfg, offset, len)
      ensures errors == 0 <==> HoldsBytes(flash, base, cfg, offset, len)
    {
      hide WordAt, HoldsBytes;
      DifferingBytes(flash, base, cfg, offset, len);
      errors := 0;
      var i := 0;
      while i < len
        invariant Valid() && flash == old(flash) && i % 512 == 0 && 0 <= i < len + 512
        invariant errors == Differing(flash, base, cfg, offset, if i < len then i else len)
        decreases len - i
      {
        var max := if i + 512 <= len then 512 else len - i;
        errors := VerifyGroup(cfg, base, offset, len, i, max, errors);
        i := i + 512;
      }
    }

    method VerifyGroup(cfg: seq<bv8>, base: nat, offset: nat, len: nat, i: nat, max: nat, before: nat)
      returns (errors: nat)
      requires Valid() && base + len <= |flash| && offset + 4 * len <= |cfg| && i + max <= len && base + i < TWO_23
      requires before == Differing(flash, base, cfg, offset, i)
      modifies this
      ensures flash == old(flash) && errors == Differing(flash, base, cfg, offset, i + max)
    {
      hide WordAt;
      errors := before;
      AddrShift(base + i);
      ShiftIr(Read);
      for ii := 0 to max
        invariant Valid() && flash == old(flash) && instr == Read && addr == (base + i + ii) % TWO_23
        invariant errors == Differing(flash, base, cfg, offset, i + ii)
      {
        var data := ShiftDr(ONES);
        if data != WordAt(cfg, offset, i + ii) {
          errors := errors + 1;
        }
      }
    }

    /** Programming an erased region and verifying it finds nothing wrong. */
    method WriteThenVerify(cfg: seq<bv8>, base: nat, offset: nat, len: nat) returns (errors: nat)
      requires Valid() && Erased(flash, base, len) && offset + 4 * len <= |cfg|
      modifies this
      ensures errors == 0 && HoldsBytes(flash, base, cfg, offset, len)
    {
      hide Written, Differing, HoldsBytes, MaskedBytes;
      WriteXFM(cfg, base, offset, len);
      ErasedThenSame(old(flash), base, cfg, offset, len, len);
      errors := VerifyXFM(cfg, base, offset, len);
    }
  }
}
