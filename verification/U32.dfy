/** 32-bit words as bytes, in either order. */
module U32 {
  import Bits

  const TWO_32 := 0x1_0000_0000

  /** Least significant byte first. */
  function PackU32(n: nat): (r: seq<bv8>)
    ensures |r| == 4
  {
    [Bits.Byte(n), Bits.Byte(n / 256), Bits.Byte(n / 256 / 256), Bits.Byte(n / 256 / 256 / 256)]
  }

  function UnpackU32(b: seq<bv8>): nat
    requires |b| == 4
  {
    Bits.Value(b[0]) + 256 * (Bits.Value(b[1]) + 256 * (Bits.Value(b[2]) + 256 * Bits.Value(b[3])))
  }

  lemma Recompose(n: nat, a: nat, b: nat, c: nat)
    requires n < TWO_32 && a == n / 256 && b == a / 256 && c == b / 256
    ensures n == n % 256 + 256 * (a % 256 + 256 * (b % 256 + 256 * (c % 256)))
  {
    assert a < 0x100_0000 && b < 0x1_0000 && c < 0x100;
    assert c % 256 == c;
  }

  lemma U32RoundTrip(n: nat)
    requires n < TWO_32
    ensures UnpackU32(PackU32(n)) == n
  {
    hide Bits.Byte, Bits.Value, Bits.ByteBits;
    var a := n / 256;
    var b := a / 256;
    var c := b / 256;
    Bits.ByteValue(n);
    Bits.ByteValue(a);
    Bits.ByteValue(b);
    Bits.ByteValue(c);
    Recompose(n, a, b, c);
  }

  /** Byte `k` has the weight 256 to the power of `k`. */
  lemma PackedBytes(n: nat)
    requires n < TWO_32
    ensures Bits.Value(PackU32(n)[0]) == n % 256 && Bits.Value(PackU32(n)[1]) == n / 0x100 % 256
    ensures Bits.Value(PackU32(n)[2]) == n / 0x1_0000 % 256 && Bits.Value(PackU32(n)[3]) == n / 0x100_0000
  {
    hide Bits.Byte, Bits.Value, Bits.ByteBits;
    Bits.ByteValue(n);
    Bits.ByteValue(n / 256);
    Bits.ByteValue(n / 256 / 256);
    Bits.ByteValue(n / 256 / 256 / 256);
    Divisions(n);
  }

  lemma Divisions(n: nat)
    ensures n / 256 / 256 == n / 0x1_0000 && n / 256 / 256 / 256 == n / 0x100_0000
    ensures n < TWO_32 ==> n / 0x100_0000 % 256 == n / 0x100_0000
  {
  }

  /** Most significant byte first. */
  function BigEndian(n: nat): (r: seq<bv8>)
    ensures |r| == 4
  {
    var p := PackU32(n);
    [p[3], p[2], p[1], p[0]]
  }

  function FromBigEndian(b: seq<bv8>): nat
    requires |b| == 4
  {
    UnpackU32([b[3], b[2], b[1], b[0]])
  }

  lemma BigEndianRoundTrip(n: nat)
    requires n < TWO_32
    ensures FromBigEndian(BigEndian(n)) == n
    ensures var b := BigEndian(n);
            && Bits.Value(b[0]) == n / 0x100_0000 && Bits.Value(b[1]) == n / 0x1_0000 % 256
            && Bits.Value(b[2]) == n / 0x100 % 256 && Bits.Value(b[3]) == n % 256
  {
    hide PackU32, UnpackU32, Bits.Value;
    U32RoundTrip(n);
    PackedBytes(n);
    var p, b := PackU32(n), BigEndian(n);
    assert [b[3], b[2], b[1], b[0]] == p;
  }
}
