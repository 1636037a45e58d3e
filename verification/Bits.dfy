/** Bytes and the bit strings they carry, least significant bit first. */
module Bits {

  /** The eight bits of a byte, least significant first. */
  function ByteBits(b: bv8): (s: seq<bool>)
    ensures |s| == 8
  {
    [b & 1 != 0, b & 2 != 0, b & 4 != 0, b & 8 != 0,
     b & 16 != 0, b & 32 != 0, b & 64 != 0, b & 128 != 0]
  }

  /** Bit `i` of a byte string: the expression `s[i >> 3] & (1 << (i & 7))`. */
  function Bit(s: seq<bv8>, i: nat): bool
    requires i < 8 * |s|
  {
    ByteBits(s[i / 8])[i % 8]
  }

  /** The first `n` bits of a byte string. */
  function Take(s: seq<bv8>, n: nat): (r: seq<bool>)
    requires n <= 8 * |s|
    ensures |r| == n
    ensures forall i :: 0 <= i < n ==> r[i] == Bit(s, i)
  {
    seq(n, i requires 0 <= i < n => Bit(s, i))
  }

  /** All bits of a byte string. */
  function All(s: seq<bv8>): (r: seq<bool>)
    ensures |r| == 8 * |s|
  {
    Take(s, 8 * |s|)
  }

  function Repeat(b: bool, n: nat): (r: seq<bool>)
    ensures |r| == n
    ensures forall i :: 0 <= i < n ==> r[i] == b
  {
    seq(n, i => b)
  }

  lemma AllSnoc(s: seq<bv8>, b: bv8)
    ensures All(s + [b]) == All(s) + ByteBits(b)
  {
    forall i | 0 <= i < 8 * |s| + 8
      ensures All(s + [b])[i] == (All(s) + ByteBits(b))[i]
    {
      if i < 8 * |s| {
        assert i / 8 < |s|;
      } else {
        assert i / 8 == |s| && i % 8 == i - 8 * |s|;
      }
    }
  }

  /** Two bytes with the same bits are the same byte. */
  lemma ByteBitsInjective(a: bv8, b: bv8)
    requires ByteBits(a) == ByteBits(b)
    ensures a == b
  {
    var s, t := ByteBits(a), ByteBits(b);
    assert s[0] == t[0] && s[1] == t[1] && s[2] == t[2] && s[3] == t[3];
    assert s[4] == t[4] && s[5] == t[5] && s[6] == t[6] && s[7] == t[7];
  }

  /** Byte strings of equal length with the same bits are equal. */
  lemma AllInjective(s: seq<bv8>, t: seq<bv8>)
    requires |s| == |t| && All(s) == All(t)
    ensures s == t
  {
    forall k | 0 <= k < |s| ensures s[k] == t[k] {
      forall j | 0 <= j < 8 ensures ByteBits(s[k])[j] == ByteBits(t[k])[j] {
        assert (8 * k + j) / 8 == k && (8 * k + j) % 8 == j;
        assert All(s)[8 * k + j] == All(t)[8 * k + j];
      }
      ByteBitsInjective(s[k], t[k]);
    }
  }

  /** `1 << k` on a byte. */
  function Mask(k: nat): bv8
    requires k < 8
  {
    match k
    case 0 => 1 case 1 => 2 case 2 => 4 case 3 => 8
    case 4 => 16 case 5 => 32 case 6 => 64 case _ => 128
  }

  lemma BitIsMask(b: bv8, k: nat)
    requires k < 8
    ensures ByteBits(b)[k] == (b & Mask(k) != 0)
  {
  }

  lemma MasksDisjoint(j: nat, k: nat)
    requires j < 8 && k < 8
    ensures Mask(k) != 0 && (j != k ==> Mask(j) & Mask(k) == 0)
  {
  }

  lemma OrKeeps(b: bv8, m: bv8, n: bv8)
    ensures m & n == 0 ==> (b | m) & n == b & n && (b & !m) & n == b & n
    ensures (b | m) & m == m && (b & !m) & m == 0
  {
  }

  /** Setting a bit with `|=` changes that bit alone. */
  lemma OrMask(b: bv8, k: nat)
    requires k < 8
    ensures ByteBits(b | Mask(k)) == ByteBits(b)[k := true]
  {
    hide ByteBits, Mask;
    var s, t := ByteBits(b | Mask(k)), ByteBits(b)[k := true];
    forall j | 0 <= j < 8 ensures s[j] == t[j] {
      BitIsMask(b | Mask(k), j);
      BitIsMask(b, j);
      MasksDisjoint(k, j);
      OrKeeps(b, Mask(k), Mask(j));
    }
  }

  /** Clearing a bit with `&= ~` changes that bit alone. */
  lemma AndNotMask(b: bv8, k: nat)
    requires k < 8
    ensures ByteBits(b & !Mask(k)) == ByteBits(b)[k := false]
  {
    hide ByteBits, Mask;
    var s, t := ByteBits(b & !Mask(k)), ByteBits(b)[k := false];
    forall j | 0 <= j < 8 ensures s[j] == t[j] {
      BitIsMask(b & !Mask(k), j);
      BitIsMask(b, j);
      MasksDisjoint(k, j);
      OrKeeps(b, Mask(k), Mask(j));
    }
  }

  /** `s[i >> 3] |= 1 << (i & 7)` in a byte string. */
  lemma SetInBytes(s: seq<bv8>, i: nat, j: nat)
    requires i < 8 * |s| && j < 8 * |s|
    ensures Bit(s[i / 8 := s[i / 8] | Mask(i % 8)], j) == (j == i || Bit(s, j))
  {
    hide ByteBits, Mask;
    OrMask(s[i / 8], i % 8);
    if i / 8 == j / 8 && i % 8 == j % 8 {
      assert i == j;
    }
  }

  /** `s[i >> 3] &= ~(1 << (i & 7))` in a byte string. */
  lemma ClearInBytes(s: seq<bv8>, i: nat, j: nat)
    requires i < 8 * |s| && j < 8 * |s|
    ensures Bit(s[i / 8 := s[i / 8] & !Mask(i % 8)], j) == (j != i && Bit(s, j))
  {
    hide ByteBits, Mask;
    AndNotMask(s[i / 8], i % 8);
    if i / 8 == j / 8 && i % 8 == j % 8 {
      assert i == j;
    }
  }

  /** No bit is set from position `n` on. */
  predicate ClearFrom(s: seq<bv8>, n: nat) {
    forall i :: n <= i < 8 * |s| ==> !Bit(s, i)
  }

  /** Appending a bit to a packed string whose unused bits are clear. */
  function Push(s: seq<bv8>, n: nat, b: bool): seq<bv8>
    requires n < 8 * |s|
  {
    if b then s[n / 8 := s[n / 8] | Mask(n % 8)] else s
  }

  lemma PushAppends(s: seq<bv8>, n: nat, b: bool)
    requires n < 8 * |s| && ClearFrom(s, n)
    ensures Take(Push(s, n, b), n + 1) == Take(s, n) + [b]
    ensures ClearFrom(Push(s, n, b), n + 1)
  {
    hide Bit, Mask;
    var r := Push(s, n, b);
    forall j | 0 <= j < 8 * |s|
      ensures Bit(r, j) == ((b && j == n) || Bit(s, j))
    {
      if b { SetInBytes(s, n, j); }
    }
  }

  lemma ZeroBytesClear(s: seq<bv8>)
    requires forall k :: 0 <= k < |s| ==> s[k] == 0
    ensures ClearFrom(s, 0)
  {
  }

  /** Constant bytes give constant bits. */
  lemma ConstantBytes(s: seq<bv8>, n: nat, fill: bool)
    requires n <= 8 * |s|
    requires forall k :: 0 <= k < |s| ==> s[k] == if fill then 0xFF else 0
    ensures Take(s, n) == Repeat(fill, n)
  {
  }

  // ---------------------------------------------------------------------
  // Bits as numbers
  // ---------------------------------------------------------------------

  function Pow2(k: nat): (p: nat)
    ensures p >= 1
  {
    if k == 0 then 1 else 2 * Pow2(k - 1)
  }

  /** The number written in binary, least significant digit first. */
  function Number(s: seq<bool>): nat {
    if s == [] then 0 else (if s[0] then 1 else 0) + 2 * Number(s[1..])
  }

  /** The `k` low binary digits of `n`. */
  function Digits(n: nat, k: nat): (s: seq<bool>)
    ensures |s| == k
    decreases k
  {
    if k == 0 then [] else [n % 2 == 1] + Digits(n / 2, k - 1)
  }

  lemma {:induction false} NumberBelow(s: seq<bool>)
    ensures Number(s) < Pow2(|s|)
    decreases |s|
  {
    if s == [] {
    } else {
      NumberBelow(s[1..]);
    }
  }

  /** What the digits leave out is a multiple of the power. */
  lemma {:induction false} DigitsLeave(n: nat, k: nat) returns (q: nat)
    ensures n == Number(Digits(n, k)) + Pow2(k) * q
    decreases k
  {
    if k == 0 {
      q := n;
    } else {
      q := DigitsLeave(n / 2, k - 1);
      assert Digits(n, k)[1..] == Digits(n / 2, k - 1);
      assert 2 * (Pow2(k - 1) * q) == Pow2(k) * q;
    }
  }

  /** A number below the power survives as its digits. */
  lemma NumberDigits(n: nat, k: nat)
    requires n < Pow2(k)
    ensures Number(Digits(n, k)) == n
  {
    var q := DigitsLeave(n, k);
    Multiple(Pow2(k), q);
  }

  lemma Multiple(p: nat, q: nat)
    ensures q > 0 ==> p * q >= p
    ensures q == 0 ==> p * q == 0
  {
  }

  lemma {:induction false} DigitsNumber(s: seq<bool>)
    ensures Digits(Number(s), |s|) == s
    decreases |s|
  {
    if s == [] {
    } else {
      DigitsNumber(s[1..]);
      var n := Number(s);
      assert n / 2 == Number(s[1..]) && (n % 2 == 1) == s[0];
    }
  }

  lemma PowByte()
    ensures Pow2(8) == 256
  {
    assert Pow2(4) == 16;
  }

  /** The value of a byte. */
  function Value(b: bv8): (n: nat)
    ensures n < 256
  {
    NumberBelow(ByteBits(b));
    PowByte();
    Number(ByteBits(b))
  }

  function FromBits(s: seq<bool>): bv8
    requires |s| == 8
  {
    (if s[0] then 1 else 0) | (if s[1] then 2 else 0) | (if s[2] then 4 else 0) | (if s[3] then 8 else 0)
    | (if s[4] then 16 else 0) | (if s[5] then 32 else 0) | (if s[6] then 64 else 0) | (if s[7] then 128 else 0)
  }

  /** Truncation to a byte, `n & 0xff`. */
  function Byte(n: nat): bv8 {
    FromBits(Digits(n, 8))
  }

  lemma FromBitsHas(s: seq<bool>)
    requires |s| == 8
    ensures ByteBits(FromBits(s)) == s
  {
  }

  lemma FromBitsOf(b: bv8)
    ensures FromBits(ByteBits(b)) == b
  {
    FromBitsHas(ByteBits(b));
    ByteBitsInjective(FromBits(ByteBits(b)), b);
  }

  /** The byte of a number is the number modulo 256. */
  lemma ByteValue(n: nat)
    ensures Value(Byte(n)) == n % 256
    ensures ByteBits(Byte(n)) == Digits(n, 8)
  {
    hide ByteBits, FromBits, Digits, Number;
    FromBitsHas(Digits(n, 8));
    var q := DigitsLeave(n, 8);
    NumberBelow(Digits(n, 8));
    PowByte();
    Remainder(n, Number(Digits(n, 8)), q);
  }

  lemma Remainder(n: nat, r: nat, q: nat)
    requires n == r + 256 * q && r < 256
    ensures n % 256 == r
  {
  }

  lemma ValueInjective(a: bv8, b: bv8)
    requires Value(a) == Value(b)
    ensures a == b
  {
    hide ByteBits, Number, Digits;
    DigitsNumber(ByteBits(a));
    DigitsNumber(ByteBits(b));
    ByteBitsInjective(a, b);
  }

  /** A byte's value from its bits. */
  lemma Weights(s: seq<bool>)
    requires |s| == 8
    ensures Number(s) == One(s[0]) + 2 * One(s[1]) + 4 * One(s[2]) + 8 * One(s[3])
                         + 16 * One(s[4]) + 32 * One(s[5]) + 64 * One(s[6]) + 128 * One(s[7])
  {
    HalfWeights(s[4..]);
    var s1, s2, s3 := s[1..], s[2..], s[3..];
    assert s1[1..] == s2 && s2[1..] == s3 && s3[1..] == s[4..];
    assert Number(s3) == One(s[3]) + 2 * Number(s[4..]);
    assert Number(s2) == One(s[2]) + 2 * Number(s3);
    assert Number(s1) == One(s[1]) + 2 * Number(s2);
  }

  lemma HalfWeights(s: seq<bool>)
    requires |s| == 4
    ensures Number(s) == One(s[0]) + 2 * One(s[1]) + 4 * One(s[2]) + 8 * One(s[3])
  {
    var s1, s2, s3 := s[1..], s[2..], s[3..];
    assert s1[1..] == s2 && s2[1..] == s3 && s3[1..] == [];
    assert Number(s3) == One(s[3]);
    assert Number(s2) == One(s[2]) + 2 * Number(s3);
    assert Number(s1) == One(s[1]) + 2 * Number(s2);
  }

  function One(b: bool): nat {
    if b then 1 else 0
  }

  // ---------------------------------------------------------------------
  // Adding bytes
  // ---------------------------------------------------------------------

  function Plus(a: bv8, b: bv8): bv8 {
    a + b
  }

  /** Adding bytes is adding their values modulo 256. */
  lemma {:induction false} ValuePlus(a: bv8, b: bv8)
    ensures Value(Plus(a, b)) == (Value(a) + Value(b)) % 256
    decreases Value(b)
  {
    hide Value, Plus;
    if b == 0 {
      PlusZero(a);
      Below256(Value(a));
    } else {
      var c := Previous(b);
      PlusNext(a, c);
      ValueNext(Plus(a, c));
      ValuePlus(a, c);
      NextModulo(Value(a) + Value(c));
    }
  }

  lemma PlusZero(a: bv8)
    ensures Plus(a, 0) == a && Value(0) == 0
  {
    Weights(ByteBits(0));
  }

  lemma Below256(n: nat)
    ensures n < 256 ==> n % 256 == n
  {
  }

  lemma NextModulo(n: nat)
    ensures (n % 256 + 1) % 256 == (n + 1) % 256
  {
  }

  lemma PlusNext(a: bv8, c: bv8)
    ensures Plus(a, Plus(c, 1)) == Plus(Plus(a, c), 1)
  {
  }

  /** The byte before `b`. */
  lemma Previous(b: bv8) returns (c: bv8)
    requires b != 0
    ensures b == Plus(c, 1) && Value(b) == Value(c) + 1
  {
    hide Value;
    c := b - 1;
    ValueAsNat(b);
    ValueAsNat(c);
    NatNext(c);
  }

  lemma ValueNext(b: bv8)
    ensures Value(Plus(b, 1)) == (Value(b) + 1) % 256
  {
    hide Value;
    ValueAsNat(b);
    ValueAsNat(b + 1);
    NatNext(b);
  }

  lemma ValueAsNat(b: bv8)
    ensures Value(b) == b as nat
  {
    hide Number;
    Weights(ByteBits(b));
  }

  lemma NatNext(b: bv8)
    ensures (b + 1) as nat == if b == 0xFF then 0 else b as nat + 1
  {
  }

  // ---------------------------------------------------------------------
  // Reversing a byte
  // ---------------------------------------------------------------------

  function ReverseByte(b: bv8): bv8 {
    var c := ((b & 0xF0) >> 4) | ((b & 0x0F) << 4);
    var d := ((c & 0xCC) >> 2) | ((c & 0x33) << 2);
    ((d & 0xAA) >> 1) | ((d & 0x55) << 1)
  }

  /** The three swaps reverse the order of the bits, so doing it twice undoes it. */
  lemma ReverseByteReverses(b: bv8)
    ensures forall k :: 0 <= k < 8 ==> ByteBits(ReverseByte(b))[k] == ByteBits(b)[7 - k]
    ensures ReverseByte(ReverseByte(b)) == b
  {
    hide ReverseByte, ByteBits, Mask;
    ReverseTwice(b);
    forall k | 0 <= k < 8 ensures ByteBits(ReverseByte(b))[k] == ByteBits(b)[7 - k] {
      BitIsMask(ReverseByte(b), k);
      BitIsMask(b, 7 - k);
      ReversedMask(b, k);
    }
  }

  lemma ReversedMask(b: bv8, k: nat)
    requires k < 8
    ensures (ReverseByte(b) & Mask(k) != 0) == (b & Mask(7 - k) != 0)
  {
    hide ReverseByte;
    ReversedMasks(b);
  }

  lemma ReversedMasks(b: bv8)
    ensures var r := ReverseByte(b);
            && (r & 1 != 0) == (b & 128 != 0) && (r & 2 != 0) == (b & 64 != 0)
            && (r & 4 != 0) == (b & 32 != 0) && (r & 8 != 0) == (b & 16 != 0)
            && (r & 16 != 0) == (b & 8 != 0) && (r & 32 != 0) == (b & 4 != 0)
            && (r & 64 != 0) == (b & 2 != 0) && (r & 128 != 0) == (b & 1 != 0)
  {
  }

  lemma ReverseTwice(b: bv8)
    ensures ReverseByte(ReverseByte(b)) == b
  {
  }
}
