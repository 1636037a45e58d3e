/**
 CRC-32 (IEEE 802.3, reflected polynomial 0xEDB88320) in the two forms the
 repository uses: the bit loop of the stage-2 loader and the table loop of the
 DFU suffix check.

 The table loop is proved to compute what the bit loop computes, for every byte
 sequence, and the bit loop is proved to detect every burst of damage confined
 to 32 consecutive message bits, whatever the message around it.
 */
module Crc32 {
  import Bits

  const POLY: bv32 := 0xEDB88320
  const INIT: bv32 := 0xFFFF_FFFF

  // ---------------------------------------------------------------------
  // The bit loop
  // ---------------------------------------------------------------------

  function Xor(a: bv32, b: bv32): bv32 {
    a ^ b
  }

  function Odd(w: bv32): bool {
    w & 1 == 1
  }

  function Half(w: bv32): bv32 {
    w >> 1
  }

  /** One turn of the inner loop: shift out a bit, feed the polynomial back. */
  function BitStep(c: bv32): bv32 {
    if Odd(c) then Xor(Half(c), POLY) else Half(c)
  }

  function EightSteps(c: bv32): bv32 {
    BitStep(BitStep(BitStep(BitStep(BitStep(BitStep(BitStep(BitStep(c))))))))
  }

  function ByteStep(c: bv32, b: bv8): bv32 {
    EightSteps(Xor(c, b as bv32))
  }

  /** The CRC register after the bytes of `s`, starting from `c`. */
  function Update(c: bv32, s: seq<bv8>): bv32
    decreases |s|
  {
    if s == [] then c else ByteStep(Update(c, s[..|s| - 1]), s[|s| - 1])
  }

  /** The value the loader's `crc32` reports. */
  function Crc(s: seq<bv8>): bv32 {
    !Update(INIT, s)
  }

  /** `n` turns of the inner loop. */
  function BitSteps(c: bv32, n: nat): bv32
    decreases n
  {
    if n == 0 then c else BitSteps(BitStep(c), n - 1)
  }

  /** The loader's `(crc >> 1) ^ (0xEDB88320 & -(crc & 1))`. */
  function MaskedStep(c: bv32): (r: bv32)
    ensures r == BitStep(c)
  {
    (c >> 1) ^ (POLY & (0 - (c & 1)))
  }

  method ComputeCrc(data: seq<bv8>) returns (crc: bv32)
    ensures crc == Crc(data)
  {
    hide BitStep, MaskedStep, Xor, EightSteps;
    crc := INIT;
    for i := 0 to |data|
      invariant crc == Update(INIT, data[..i])
    {
      assert data[..i + 1][..i] == data[..i];
      crc := Xor(crc, data[i] as bv32);
      ghost var start := crc;
      for j := 0 to 8
        invariant BitSteps(crc, 8 - j) == BitSteps(start, 8)
      {
        crc := MaskedStep(crc);
      }
      EightIsBitSteps(start);
    }
    assert data[..|data|] == data;
    crc := !crc;
  }

  lemma EightIsBitSteps(c: bv32)
    ensures BitSteps(c, 8) == EightSteps(c)
  {
    hide BitStep;
    var c4 := BitStep(BitStep(BitStep(BitStep(c))));
    assert BitSteps(c, 8) == BitSteps(BitStep(BitStep(c)), 6) == BitSteps(c4, 4);
    assert BitSteps(c4, 4) == BitSteps(BitStep(BitStep(c4)), 2);
  }

  // ---------------------------------------------------------------------
  // Linearity
  // ---------------------------------------------------------------------

  lemma XorAssociates(a: bv32, b: bv32, c: bv32)
    ensures Xor(Xor(a, b), c) == Xor(a, Xor(b, c))
    ensures Xor(a, b) == Xor(b, a)
  {
  }

  lemma XorRegroup(c: bv32, d: bv32, x: bv32, y: bv32)
    ensures Xor(Xor(c, x), Xor(d, y)) == Xor(Xor(c, d), Xor(x, y))
  {
    hide Xor;
    XorAssociates(c, x, Xor(d, y));
    XorAssociates(x, d, y);
    XorAssociates(d, x, y);
    XorAssociates(c, d, Xor(x, y));
  }

  lemma XorZero(c: bv32)
    ensures Xor(c, 0) == c
    ensures Xor(c, c) == 0
  {
  }

  lemma XorHalves(a: bv32, b: bv32)
    ensures Half(Xor(a, b)) == Xor(Half(a), Half(b))
    ensures Odd(Xor(a, b)) == (Odd(a) != Odd(b))
  {
  }

  /** The step is linear over XOR, which is what the table and the burst
      argument both rest on. */
  lemma BitStepLinear(a: bv32, b: bv32)
    ensures BitStep(Xor(a, b)) == Xor(BitStep(a), BitStep(b))
  {
    hide Xor, Half, Odd;
    XorHalves(a, b);
    var x, y := Half(a), Half(b);
    XorRegroup(x, y, POLY, POLY);
    XorZero(POLY);
    XorZero(Xor(x, y));
    XorAssociates(x, POLY, y);
    XorAssociates(x, y, POLY);
    XorAssociates(POLY, y, x);
  }

  lemma EightStepsLinear(a: bv32, b: bv32)
    ensures EightSteps(Xor(a, b)) == Xor(EightSteps(a), EightSteps(b))
  {
    hide BitStep, Xor;
    var a1, b1 := BitStep(a), BitStep(b);
    var a2, b2 := BitStep(a1), BitStep(b1);
    var a3, b3 := BitStep(a2), BitStep(b2);
    var a4, b4 := BitStep(a3), BitStep(b3);
    var a5, b5 := BitStep(a4), BitStep(b4);
    var a6, b6 := BitStep(a5), BitStep(b5);
    BitStepLinear(a, b);
    BitStepLinear(a1, b1);
    BitStepLinear(a2, b2);
    BitStepLinear(a3, b3);
    BitStepLinear(a4, b4);
    BitStepLinear(a5, b5);
    BitStepLinear(a6, b6);
    BitStepLinear(BitStep(a6), BitStep(b6));
  }

  // ---------------------------------------------------------------------
  // The table loop refines the bit loop
  // ---------------------------------------------------------------------

  /** The 256 constants of the DFU parser, by high and low nibble of the index. */
  function Table(i: bv8): bv32 {
    match i >> 4
    case 0 => (match i & 15
      case 0 => 0x00000000 case 1 => 0x77073096 case 2 => 0xee0e612c case 3 => 0x990951ba
      case 4 => 0x076dc419 case 5 => 0x706af48f case 6 => 0xe963a535 case 7 => 0x9e6495a3
      case 8 => 0x0edb8832 case 9 => 0x79dcb8a4 case 10 => 0xe0d5e91e case 11 => 0x97d2d988
      case 12 => 0x09b64c2b case 13 => 0x7eb17cbd case 14 => 0xe7b82d07 case _ => 0x90bf1d91)
    case 1 => (match i & 15
      case 0 => 0x1db71064 case 1 => 0x6ab020f2 case 2 => 0xf3b97148 case 3 => 0x84be41de
      case 4 => 0x1adad47d case 5 => 0x6ddde4eb case 6 => 0xf4d4b551 case 7 => 0x83d385c7
      case 8 => 0x136c9856 case 9 => 0x646ba8c0 case 10 => 0xfd62f97a case 11 => 0x8a65c9ec
      case 12 => 0x14015c4f case 13 => 0x63066cd9 case 14 => 0xfa0f3d63 case _ => 0x8d080df5)
    case 2 => (match i & 15
      case 0 => 0x3b6e20c8 case 1 => 0x4c69105e case 2 => 0xd56041e4 case 3 => 0xa2677172
      case 4 => 0x3c03e4d1 case 5 => 0x4b04d447 case 6 => 0xd20d85fd case 7 => 0xa50ab56b
      case 8 => 0x35b5a8fa case 9 => 0x42b2986c case 10 => 0xdbbbc9d6 case 11 => 0xacbcf940
      case 12 => 0x32d86ce3 case 13 => 0x45df5c75 case 14 => 0xdcd60dcf case _ => 0xabd13d59)
    case 3 => (match i & 15
      case 0 => 0x26d930ac case 1 => 0x51de003a case 2 => 0xc8d75180 case 3 => 0xbfd06116
      case 4 => 0x21b4f4b5 case 5 => 0x56b3c423 case 6 => 0xcfba9599 case 7 => 0xb8bda50f
      case 8 => 0x2802b89e case 9 => 0x5f058808 case 10 => 0xc60cd9b2 case 11 => 0xb10be924
      case 12 => 0x2f6f7c87 case 13 => 0x58684c11 case 14 => 0xc1611dab case _ => 0xb6662d3d)
    case 4 => (match i & 15
      case 0 => 0x76dc4190 case 1 => 0x01db7106 case 2 => 0x98d220bc case 3 => 0xefd5102a
      case 4 => 0x71b18589 case 5 => 0x06b6b51f case 6 => 0x9fbfe4a5 case 7 => 0xe8b8d433
      case 8 => 0x7807c9a2 case 9 => 0x0f00f934 case 10 => 0x9609a88e case 11 => 0xe10e9818
      case 12 => 0x7f6a0dbb case 13 => 0x086d3d2d case 14 => 0x91646c97 case _ => 0xe6635c01)
    case 5 => (match i & 15
      case 0 => 0x6b6b51f4 case 1 => 0x1c6c6162 case 2 => 0x856530d8 case 3 => 0xf262004e
      case 4 => 0x6c0695ed case 5 => 0x1b01a57b case 6 => 0x8208f4c1 case 7 => 0xf50fc457
      case 8 => 0x65b0d9c6 case 9 => 0x12b7e950 case 10 => 0x8bbeb8ea case 11 => 0xfcb9887c
      case 12 => 0x62dd1ddf case 13 => 0x15da2d49 case 14 => 0x8cd37cf3 case _ => 0xfbd44c65)
    case 6 => (match i & 15
      case 0 => 0x4db26158 case 1 => 0x3ab551ce case 2 => 0xa3bc0074 case 3 => 0xd4bb30e2
      case 4 => 0x4adfa541 case 5 => 0x3dd895d7 case 6 => 0xa4d1c46d case 7 => 0xd3d6f4fb
      case 8 => 0x4369e96a case 9 => 0x346ed9fc case 10 => 0xad678846 case 11 => 0xda60b8d0
      case 12 => 0x44042d73 case 13 => 0x33031de5 case 14 => 0xaa0a4c5f case _ => 0xdd0d7cc9)
    case 7 => (match i & 15
      case 0 => 0x5005713c case 1 => 0x270241aa case 2 => 0xbe0b1010 case 3 => 0xc90c2086
      case 4 => 0x5768b525 case 5 => 0x206f85b3 case 6 => 0xb966d409 case 7 => 0xce61e49f
      case 8 => 0x5edef90e case 9 => 0x29d9c998 case 10 => 0xb0d09822 case 11 => 0xc7d7a8b4
      case 12 => 0x59b33d17 case 13 => 0x2eb40d81 case 14 => 0xb7bd5c3b case _ => 0xc0ba6cad)
    case 8 => (match i & 15
      case 0 => 0xedb88320 case 1 => 0x9abfb3b6 case 2 => 0x03b6e20c case 3 => 0x74b1d29a
      case 4 => 0xead54739 case 5 => 0x9dd277af case 6 => 0x04db2615 case 7 => 0x73dc1683
      case 8 => 0xe3630b12 case 9 => 0x94643b84 case 10 => 0x0d6d6a3e case 11 => 0x7a6a5aa8
      case 12 => 0xe40ecf0b case 13 => 0x9309ff9d case 14 => 0x0a00ae27 case _ => 0x7d079eb1)
    case 9 => (match i & 15
      case 0 => 0xf00f9344 case 1 => 0x8708a3d2 case 2 => 0x1e01f268 case 3 => 0x6906c2fe
      case 4 => 0xf762575d case 5 => 0x806567cb case 6 => 0x196c3671 case 7 => 0x6e6b06e7
      case 8 => 0xfed41b76 case 9 => 0x89d32be0 case 10 => 0x10da7a5a case 11 => 0x67dd4acc
      case 12 => 0xf9b9df6f case 13 => 0x8ebeeff9 case 14 => 0x17b7be43 case _ => 0x60b08ed5)
    case 10 => (match i & 15
      case 0 => 0xd6d6a3e8 case 1 => 0xa1d1937e case 2 => 0x38d8c2c4 case 3 => 0x4fdff252
      case 4 => 0xd1bb67f1 case 5 => 0xa6bc5767 case 6 => 0x3fb506dd case 7 => 0x48b2364b
      case 8 => 0xd80d2bda case 9 => 0xaf0a1b4c case 10 => 0x36034af6 case 11 => 0x41047a60
      case 12 => 0xdf60efc3 case 13 => 0xa867df55 case 14 => 0x316e8eef case _ => 0x4669be79)
    case 11 => (match i & 15
      case 0 => 0xcb61b38c case 1 => 0xbc66831a case 2 => 0x256fd2a0 case 3 => 0x5268e236
      case 4 => 0xcc0c7795 case 5 => 0xbb0b4703 case 6 => 0x220216b9 case 7 => 0x5505262f
      case 8 => 0xc5ba3bbe case 9 => 0xb2bd0b28 case 10 => 0x2bb45a92 case 11 => 0x5cb36a04
      case 12 => 0xc2d7ffa7 case 13 => 0xb5d0cf31 case 14 => 0x2cd99e8b case _ => 0x5bdeae1d)
    case 12 => (match i & 15
      case 0 => 0x9b64c2b0 case 1 => 0xec63f226 case 2 => 0x756aa39c case 3 => 0x026d930a
      case 4 => 0x9c0906a9 case 5 => 0xeb0e363f case 6 => 0x72076785 case 7 => 0x05005713
      case 8 => 0x95bf4a82 case 9 => 0xe2b87a14 case 10 => 0x7bb12bae case 11 => 0x0cb61b38
      case 12 => 0x92d28e9b case 13 => 0xe5d5be0d case 14 => 0x7cdcefb7 case _ => 0x0bdbdf21)
    case 13 => (match i & 15
      case 0 => 0x86d3d2d4 case 1 => 0xf1d4e242 case 2 => 0x68ddb3f8 case 3 => 0x1fda836e
      case 4 => 0x81be16cd case 5 => 0xf6b9265b case 6 => 0x6fb077e1 case 7 => 0x18b74777
      case 8 => 0x88085ae6 case 9 => 0xff0f6a70 case 10 => 0x66063bca case 11 => 0x11010b5c
      case 12 => 0x8f659eff case 13 => 0xf862ae69 case 14 => 0x616bffd3 case _ => 0x166ccf45)
    case 14 => (match i & 15
      case 0 => 0xa00ae278 case 1 => 0xd70dd2ee case 2 => 0x4e048354 case 3 => 0x3903b3c2
      case 4 => 0xa7672661 case 5 => 0xd06016f7 case 6 => 0x4969474d case 7 => 0x3e6e77db
      case 8 => 0xaed16a4a case 9 => 0xd9d65adc case 10 => 0x40df0b66 case 11 => 0x37d83bf0
      case 12 => 0xa9bcae53 case 13 => 0xdebb9ec5 case 14 => 0x47b2cf7f case _ => 0x30b5ffe9)
    case _ => (match i & 15
      case 0 => 0xbdbdf21c case 1 => 0xcabac28a case 2 => 0x53b39330 case 3 => 0x24b4a3a6
      case 4 => 0xbad03605 case 5 => 0xcdd70693 case 6 => 0x54de5729 case 7 => 0x23d967bf
      case 8 => 0xb3667a2e case 9 => 0xc4614ab8 case 10 => 0x5d681b02 case 11 => 0x2a6f2b94
      case 12 => 0xb40bbe37 case 13 => 0xc30c8ea1 case 14 => 0x5a05df1b case _ => 0x2d02ef8d)
  }

  // The first row, and the head of every other row, are eight bit steps.
  lemma FirstRowA()
    ensures Table(0x00) == EightSteps(0x00)
    ensures Table(0x01) == EightSteps(0x01)
    ensures Table(0x02) == EightSteps(0x02)
    ensures Table(0x03) == EightSteps(0x03)
  {
  }

  lemma FirstRowB()
    ensures Table(0x04) == EightSteps(0x04)
    ensures Table(0x05) == EightSteps(0x05)
    ensures Table(0x06) == EightSteps(0x06)
    ensures Table(0x07) == EightSteps(0x07)
  {
  }

  lemma FirstRowC()
    ensures Table(0x08) == EightSteps(0x08)
    ensures Table(0x09) == EightSteps(0x09)
    ensures Table(0x0a) == EightSteps(0x0a)
    ensures Table(0x0b) == EightSteps(0x0b)
  {
  }

  lemma FirstRowD()
    ensures Table(0x0c) == EightSteps(0x0c)
    ensures Table(0x0d) == EightSteps(0x0d)
  {
  }

  lemma FirstRowE()
    ensures Table(0x0e) == EightSteps(0x0e)
    ensures Table(0x0f) == EightSteps(0x0f)
  {
  }

  lemma RowHeadsA()
    ensures Table(0x10) == EightSteps(0x10)
    ensures Table(0x20) == EightSteps(0x20)
    ensures Table(0x30) == EightSteps(0x30)
  {
  }

  lemma RowHeadsB()
    ensures Table(0x40) == EightSteps(0x40)
    ensures Table(0x50) == EightSteps(0x50)
    ensures Table(0x60) == EightSteps(0x60)
    ensures Table(0x70) == EightSteps(0x70)
  {
  }

  lemma RowHeadsC()
    ensures Table(0x80) == EightSteps(0x80)
    ensures Table(0x90) == EightSteps(0x90)
    ensures Table(0xa0) == EightSteps(0xa0)
    ensures Table(0xb0) == EightSteps(0xb0)
  {
  }

  lemma RowHeadsD()
    ensures Table(0xc0) == EightSteps(0xc0)
    ensures Table(0xd0) == EightSteps(0xd0)
  {
  }

  lemma RowHeadsE()
    ensures Table(0xe0) == EightSteps(0xe0)
    ensures Table(0xf0) == EightSteps(0xf0)
  {
  }

  lemma TableRow0(i: bv8)
    requires i >> 4 == 0
    ensures Table(i) == EightSteps(i as bv32)
  {
    hide Table, EightSteps;
    FirstRowA();
    FirstRowB();
    FirstRowC();
    FirstRowD();
    FirstRowE();
    if
    case i == 0 => assert i as bv32 == 0;
    case i == 1 => assert i as bv32 == 1;
    case i == 2 => assert i as bv32 == 2;
    case i == 3 => assert i as bv32 == 3;
    case i == 4 => assert i as bv32 == 4;
    case i == 5 => assert i as bv32 == 5;
    case i == 6 => assert i as bv32 == 6;
    case i == 7 => assert i as bv32 == 7;
    case i == 8 => assert i as bv32 == 8;
    case i == 9 => assert i as bv32 == 9;
    case i == 10 => assert i as bv32 == 10;
    case i == 11 => assert i as bv32 == 11;
    case i == 12 => assert i as bv32 == 12;
    case i == 13 => assert i as bv32 == 13;
    case i == 14 => assert i as bv32 == 14;
    case i == 15 => assert i as bv32 == 15;
  }

  // Every other row is the first one combined with its head.
  lemma TableRow1(i: bv8) requires i >> 4 == 1 ensures Table(i) == Xor(Table(i & 15), Table(0x10)) {}
  lemma TableRow2(i: bv8) requires i >> 4 == 2 ensures Table(i) == Xor(Table(i & 15), Table(0x20)) {}
  lemma TableRow3(i: bv8) requires i >> 4 == 3 ensures Table(i) == Xor(Table(i & 15), Table(0x30)) {}
  lemma TableRow4(i: bv8) requires i >> 4 == 4 ensures Table(i) == Xor(Table(i & 15), Table(0x40)) {}
  lemma TableRow5(i: bv8) requires i >> 4 == 5 ensures Table(i) == Xor(Table(i & 15), Table(0x50)) {}
  lemma TableRow6(i: bv8) requires i >> 4 == 6 ensures Table(i) == Xor(Table(i & 15), Table(0x60)) {}
  lemma TableRow7(i: bv8) requires i >> 4 == 7 ensures Table(i) == Xor(Table(i & 15), Table(0x70)) {}
  lemma TableRow8(i: bv8) requires i >> 4 == 8 ensures Table(i) == Xor(Table(i & 15), Table(0x80)) {}
  lemma TableRow9(i: bv8) requires i >> 4 == 9 ensures Table(i) == Xor(Table(i & 15), Table(0x90)) {}
  lemma TableRow10(i: bv8) requires i >> 4 == 10 ensures Table(i) == Xor(Table(i & 15), Table(0xa0)) {}
  lemma TableRow11(i: bv8) requires i >> 4 == 11 ensures Table(i) == Xor(Table(i & 15), Table(0xb0)) {}
  lemma TableRow12(i: bv8) requires i >> 4 == 12 ensures Table(i) == Xor(Table(i & 15), Table(0xc0)) {}
  lemma TableRow13(i: bv8) requires i >> 4 == 13 ensures Table(i) == Xor(Table(i & 15), Table(0xd0)) {}
  lemma TableRow14(i: bv8) requires i >> 4 == 14 ensures Table(i) == Xor(Table(i & 15), Table(0xe0)) {}
  lemma TableRow15(i: bv8) requires i >> 4 == 15 ensures Table(i) == Xor(Table(i & 15), Table(0xf0)) {}

  /** Bit steps respect the split of an index into row and column. */
  lemma RowParts(i: bv8, h: bv8)
    requires i & 0xF0 == h
    ensures EightSteps(i as bv32) == Xor(EightSteps((i & 15) as bv32), EightSteps(h as bv32))
  {
    hide EightSteps;
    SplitIndex(i, h);
    EightStepsLinear((i & 15) as bv32, h as bv32);
  }

  lemma SplitIndex(i: bv8, h: bv8)
    requires i & 0xF0 == h
    ensures i as bv32 == Xor((i & 15) as bv32, h as bv32)
  {
  }

  lemma TableRows1(i: bv8)
    requires 1 <= i >> 4 < 4
    ensures Table(i) == EightSteps(i as bv32)
  {
    hide Table, EightSteps, BitStep, Xor;
    RowHeadsA();
    TableRow0(i & 15);
    if
    case i >> 4 == 1 => TableRow1(i); RowParts(i, 0x10);
    case i >> 4 == 2 => TableRow2(i); RowParts(i, 0x20);
    case i >> 4 == 3 => TableRow3(i); RowParts(i, 0x30);
  }

  lemma TableRows4(i: bv8)
    requires 4 <= i >> 4 < 8
    ensures Table(i) == EightSteps(i as bv32)
  {
    hide Table, EightSteps, BitStep, Xor;
    RowHeadsB();
    TableRow0(i & 15);
    if
    case i >> 4 == 4 => TableRow4(i); RowParts(i, 0x40);
    case i >> 4 == 5 => TableRow5(i); RowParts(i, 0x50);
    case i >> 4 == 6 => TableRow6(i); RowParts(i, 0x60);
    case i >> 4 == 7 => TableRow7(i); RowParts(i, 0x70);
  }

  lemma TableRows8(i: bv8)
    requires 8 <= i >> 4 < 12
    ensures Table(i) == EightSteps(i as bv32)
  {
    hide Table, EightSteps, BitStep, Xor;
    RowHeadsC();
    TableRow0(i & 15);
    if
    case i >> 4 == 8 => TableRow8(i); RowParts(i, 0x80);
    case i >> 4 == 9 => TableRow9(i); RowParts(i, 0x90);
    case i >> 4 == 10 => TableRow10(i); RowParts(i, 0xa0);
    case i >> 4 == 11 => TableRow11(i); RowParts(i, 0xb0);
  }

  lemma TableRows12(i: bv8)
    requires 12 <= i >> 4 < 16
    ensures Table(i) == EightSteps(i as bv32)
  {
    hide Table, EightSteps, BitStep, Xor;
    RowHeadsD();
    RowHeadsE();
    TableRow0(i & 15);
    if
    case i >> 4 == 12 => TableRow12(i); RowParts(i, 0xc0);
    case i >> 4 == 13 => TableRow13(i); RowParts(i, 0xd0);
    case i >> 4 == 14 => TableRow14(i); RowParts(i, 0xe0);
    case i >> 4 == 15 => TableRow15(i); RowParts(i, 0xf0);
  }

  /** Every table entry is the effect of eight bit steps on its index. */
  lemma TableEntry(i: bv8)
    ensures Table(i) == EightSteps(i as bv32)
  {
    hide Table, EightSteps;
    if i >> 4 == 0 {
      TableRow0(i);
    } else if i >> 4 < 4 {
      TableRows1(i);
    } else if i >> 4 < 8 {
      TableRows4(i);
    } else if i >> 4 < 12 {
      TableRows8(i);
    } else {
      TableRows12(i);
    }
  }

  /** The DFU parser's step: `crc32tbl[(crc ^ byte) & 0xff] ^ (crc >> 8)`. */
  function TableStep(c: bv32, b: bv8): bv32 {
    Xor(Table(LowByte(Xor(c, b as bv32))), c >> 8)
  }

  function LowByte(x: bv32): bv8 {
    (x & 0xFF) as bv8
  }

  lemma HighPart(x: bv32)
    ensures EightSteps(x & 0xFFFF_FF00) == x >> 8
  {
  }

  lemma SplitLow(c: bv32, b: bv8, x: bv32)
    requires x == Xor(c, b as bv32)
    ensures x == Xor(LowByte(x) as bv32, x & 0xFFFF_FF00)
    ensures x >> 8 == c >> 8
  {
  }

  lemma TableStepIsByteStep(c: bv32, b: bv8)
    ensures TableStep(c, b) == ByteStep(c, b)
  {
    hide BitStep, EightSteps, Table, Xor, LowByte;
    var x := Xor(c, b as bv32);
    SplitLow(c, b, x);
    EightStepsLinear(LowByte(x) as bv32, x & 0xFFFF_FF00);
    HighPart(x);
    TableEntry(LowByte(x));
  }

  /** The DFU parser's loop ends with the register of the bit loop. */
  method ComputeDfuCrc(data: seq<bv8>) returns (crc: bv32)
    ensures crc == Update(INIT, data)
  {
    hide BitStep, EightSteps, Table, Xor, LowByte;
    crc := INIT;
    for i := 0 to |data|
      invariant crc == Update(INIT, data[..i])
    {
      assert data[..i + 1][..i] == data[..i];
      TableStepIsByteStep(crc, data[i]);
      crc := TableStep(crc, data[i]);
    }
    assert data[..|data|] == data;
  }

  // ---------------------------------------------------------------------
  // Burst errors
  // ---------------------------------------------------------------------

  function BitWord(b: bool): bv32 {
    if b then 1 else 0
  }

  /** One serial step: the message bit joins the register's low end. */
  function Feed(c: bv32, b: bool): bv32 {
    BitStep(Xor(c, BitWord(b)))
  }

  /** The register fed one message bit at a time. */
  function Serial(c: bv32, bits: seq<bool>): bv32
    decreases |bits|
  {
    if bits == [] then c else Serial(Feed(c, bits[0]), bits[1..])
  }

  lemma {:induction false} SerialAppend(c: bv32, x: seq<bool>, y: seq<bool>)
    ensures Serial(c, x + y) == Serial(Serial(c, x), y)
    decreases |x|
  {
    hide Feed;
    if x == [] {
      assert x + y == y;
    } else {
      assert (x + y)[1..] == x[1..] + y;
      SerialAppend(Feed(c, x[0]), x[1..], y);
    }
  }

  function Rest(w: bv32): bv32 {
    w & 0xFFFF_FFFE
  }

  lemma LowBitSplit(c: bv32, w: bv32)
    ensures Xor(c, w) == Xor(Xor(c, BitWord(Odd(w))), Rest(w))
  {
  }

  lemma StepWithoutFeedback(w: bv32)
    ensures BitStep(Rest(w)) == Half(w)
  {
  }

  /** Message bits above the lowest wait, shifted, for their own turn. */
  lemma Defer(c: bv32, w: bv32)
    ensures BitStep(Xor(c, w)) == Xor(Feed(c, Odd(w)), Half(w))
  {
    hide BitStep, Xor, Odd, Half, Rest;
    LowBitSplit(c, w);
    StepWithoutFeedback(w);
    BitStepLinear(Xor(c, BitWord(Odd(w))), Rest(w));
  }

  function Halved(w: bv32, k: nat): bv32
    decreases k
  {
    if k == 0 then w else Half(Halved(w, k - 1))
  }

  /** The byte's bits, read by repeated halving. */
  lemma ByteWord(b: bv8, w: bv32)
    requires w == b as bv32
    ensures Bits.ByteBits(b)[0] == Odd(w)
    ensures Bits.ByteBits(b)[1] == Odd(Half(w))
    ensures Bits.ByteBits(b)[2] == Odd(Half(Half(w)))
    ensures Bits.ByteBits(b)[3] == Odd(Half(Half(Half(w))))
    ensures Bits.ByteBits(b)[4] == Odd(Half(Half(Half(Half(w)))))
    ensures Bits.ByteBits(b)[5] == Odd(Half(Half(Half(Half(Half(w))))))
    ensures Bits.ByteBits(b)[6] == Odd(Half(Half(Half(Half(Half(Half(w)))))))
    ensures Bits.ByteBits(b)[7] == Odd(Half(Half(Half(Half(Half(Half(Half(w))))))))
    ensures Half(Half(Half(Half(Half(Half(Half(Half(w)))))))) == 0
  {
    hide Bits.ByteBits, Odd, Half;
    ByteWordLow(b, w);
    ByteWordHigh(b, w);
  }

  lemma ByteWordLow(b: bv8, w: bv32)
    requires w == b as bv32
    ensures Bits.ByteBits(b)[0] == Odd(w)
    ensures Bits.ByteBits(b)[1] == Odd(Half(w))
    ensures Bits.ByteBits(b)[2] == Odd(Half(Half(w)))
    ensures Bits.ByteBits(b)[3] == Odd(Half(Half(Half(w))))
  {
  }

  lemma ByteWordHigh(b: bv8, w: bv32)
    requires w == b as bv32
    ensures Bits.ByteBits(b)[4] == Odd(Half(Half(Half(Half(w)))))
    ensures Bits.ByteBits(b)[5] == Odd(Half(Half(Half(Half(Half(w))))))
    ensures Bits.ByteBits(b)[6] == Odd(Half(Half(Half(Half(Half(Half(w)))))))
    ensures Bits.ByteBits(b)[7] == Odd(Half(Half(Half(Half(Half(Half(Half(w))))))))
    ensures Half(Half(Half(Half(Half(Half(Half(Half(w)))))))) == 0
  {
  }

  lemma HalvedChain(w: bv32)
    ensures Halved(w, 0) == w
    ensures Halved(w, 1) == Half(w)
    ensures Halved(w, 2) == Half(Half(w))
    ensures Halved(w, 3) == Half(Half(Half(w)))
    ensures Halved(w, 4) == Half(Half(Half(Half(w))))
    ensures Halved(w, 5) == Half(Half(Half(Half(Half(w)))))
    ensures Halved(w, 6) == Half(Half(Half(Half(Half(Half(w))))))
    ensures Halved(w, 7) == Half(Half(Half(Half(Half(Half(Half(w)))))))
    ensures Halved(w, 8) == Half(Half(Half(Half(Half(Half(Half(Half(w))))))))
  {
    hide Half;
    assert Halved(w, 4) == Half(Half(Half(Half(w))));
  }

  lemma ByteBitIsOdd(b: bv8, k: nat)
    requires k <= 8
    ensures if k == 8 then Halved(b as bv32, k) == 0 else Odd(Halved(b as bv32, k)) == Bits.ByteBits(b)[k]
  {
    hide Bits.ByteBits, Odd, Half, Halved;
    var w := b as bv32;
    HalvedChain(w);
    ByteWord(b, w);
    if k < 4 {
      assert k == 0 || k == 1 || k == 2 || k == 3;
    } else {
      assert k == 4 || k == 5 || k == 6 || k == 7 || k == 8;
    }
  }

  /** After `k` bits of a byte, the remaining steps take in the bits left. */
  lemma {:induction false} ByteIsSerial(c: bv32, b: bv8, k: nat)
    requires k <= 8
    ensures BitSteps(Xor(c, Halved(b as bv32, k)), 8 - k) == Serial(c, Bits.ByteBits(b)[k..])
    decreases 8 - k
  {
    hide Bits.ByteBits, Odd, Half, Xor, BitStep, Feed;
    ByteBitIsOdd(b, k);
    var w, rest := Halved(b as bv32, k), Bits.ByteBits(b)[k..];
    if k == 8 {
      XorZero(c);
    } else {
      Defer(c, w);
      ByteIsSerial(Feed(c, Odd(w)), b, k + 1);
      assert rest[0] == Odd(w) && rest[1..] == Bits.ByteBits(b)[k + 1..];
    }
  }

  /** The byte loop is the serial register on the message's bits. */
  lemma {:induction false} UpdateIsSerial(c: bv32, s: seq<bv8>)
    ensures Update(c, s) == Serial(c, Bits.All(s))
    decreases |s|
  {
    hide BitStep, EightSteps, Xor, Feed, Bits.ByteBits;
    if s == [] {
      assert Bits.All(s) == [];
    } else {
      var p, b := s[..|s| - 1], s[|s| - 1];
      assert s == p + [b];
      UpdateIsSerial(c, p);
      Bits.AllSnoc(p, b);
      SerialAppend(c, Bits.All(p), Bits.ByteBits(b));
      var d := Update(c, p);
      ByteIsSerial(d, b, 0);
      assert Bits.ByteBits(b)[0..] == Bits.ByteBits(b);
      EightIsBitSteps(Xor(d, b as bv32));
    }
  }

  /** One step is reversible: the top bit says whether the polynomial came in. */
  lemma FeedInjective(c: bv32, d: bv32, b: bool)
    requires Feed(c, b) == Feed(d, b)
    ensures c == d
  {
  }

  /** Registers that differ stay different under a common suffix. */
  lemma {:induction false} SuffixSeparates(c: bv32, d: bv32, q: seq<bool>)
    requires c != d
    ensures Serial(c, q) != Serial(d, q)
    decreases |q|
  {
    hide Feed;
    if q == [] {
    } else {
      if Feed(c, q[0]) == Feed(d, q[0]) {
        FeedInjective(c, d, q[0]);
      }
      SuffixSeparates(Feed(c, q[0]), Feed(d, q[0]), q[1..]);
    }
  }

  /** How many times a word can be halved before it reaches one. */
  function Halvings(t: bv32): nat
    decreases t
  {
    if t <= 1 then 0 else 1 + Halvings(Half(t))
  }

  predicate IsPower(t: bv32) {
    t >= 1 && t & (t - 1) == 0
  }

  predicate AtLeast(v: bv32, t: bv32) {
    v >= t
  }

  predicate Differ(c: bv32, d: bv32, t: bv32) {
    AtLeast(Xor(c, d), t)
  }

  lemma Halve(c: bv32, d: bv32, x: bool, y: bool, t: bv32)
    requires IsPower(t) && t >= 2 && Differ(c, d, t)
    ensures Differ(Feed(c, x), Feed(d, y), Half(t))
    ensures IsPower(Half(t))
  {
    hide BitStep, Xor, IsPower, BitWord, AtLeast, Half;
    BitStepLinear(Xor(c, BitWord(x)), Xor(d, BitWord(y)));
    XorRegroup(c, d, BitWord(x), BitWord(y));
    HalveWord(Xor(c, d), x, y, t);
  }

  lemma HalveWord(v: bv32, x: bool, y: bool, t: bv32)
    requires IsPower(t) && t >= 2 && AtLeast(v, t)
    ensures AtLeast(BitStep(Xor(v, Xor(BitWord(x), BitWord(y)))), Half(t))
    ensures IsPower(Half(t))
  {
    assert Xor(BitWord(x), BitWord(y)) <= 1;
  }

  lemma DifferMeans(c: bv32, d: bv32, t: bv32)
    requires IsPower(t) && Differ(c, d, t)
    ensures c != d
  {
  }

  /** A difference of at least `t` cannot vanish within `Halvings(t)` steps,
      whatever bits the two messages carry there. */
  lemma {:induction false} WindowSeparates(c: bv32, d: bv32, x: seq<bool>, y: seq<bool>, t: bv32)
    requires |x| == |y| <= Halvings(t)
    requires IsPower(t) && Differ(c, d, t)
    ensures Serial(c, x) != Serial(d, y)
    decreases |x|
  {
    hide Feed, IsPower, Differ;
    if x == [] {
      DifferMeans(c, d, t);
    } else {
      Halve(c, d, x[0], y[0], t);
      WindowSeparates(Feed(c, x[0]), Feed(d, y[0]), x[1..], y[1..], Half(t));
    }
  }

  lemma OneStep()
    ensures Xor(BitWord(true), BitWord(false)) == 1 && Xor(BitWord(false), BitWord(true)) == 1
    ensures Xor(0, 1) == 1 && AtLeast(BitStep(1), 0x8000_0000)
  {
  }

  lemma FirstDifference(c: bv32, x: bool, y: bool)
    requires x != y
    ensures Differ(Feed(c, x), Feed(c, y), 0x8000_0000)
  {
    hide Xor, BitStep, BitWord, AtLeast;
    BitStepLinear(Xor(c, BitWord(x)), Xor(c, BitWord(y)));
    XorRegroup(c, c, BitWord(x), BitWord(y));
    XorZero(c);
    OneStep();
  }

  lemma TopBit()
    ensures Halvings(0x8000_0000) == 31 && IsPower(0x8000_0000)
  {
    assert Halvings(0x2) == 1 && Halvings(0x4) == 2 && Halvings(0x8) == 3 && Halvings(0x10) == 4;
    assert Halvings(0x20) == 5 && Halvings(0x40) == 6 && Halvings(0x80) == 7 && Halvings(0x100) == 8;
    assert Halvings(0x200) == 9 && Halvings(0x400) == 10 && Halvings(0x800) == 11 && Halvings(0x1000) == 12;
    assert Halvings(0x2000) == 13 && Halvings(0x4000) == 14 && Halvings(0x8000) == 15 && Halvings(0x10000) == 16;
    assert Halvings(0x20000) == 17 && Halvings(0x40000) == 18 && Halvings(0x80000) == 19 && Halvings(0x100000) == 20;
    assert Halvings(0x200000) == 21 && Halvings(0x400000) == 22;
    assert Halvings(0x800000) == 23 && Halvings(0x1000000) == 24;
    assert Halvings(0x2000000) == 25 && Halvings(0x4000000) == 26;
    assert Halvings(0x8000000) == 27 && Halvings(0x10000000) == 28;
    assert Halvings(0x20000000) == 29 && Halvings(0x40000000) == 30;
  }

  lemma {:induction false} BurstSeparates(c: bv32, x: seq<bool>, y: seq<bool>)
    requires |x| == |y| <= 32 && x != y
    ensures Serial(c, x) != Serial(c, y)
    decreases |x|
  {
    hide Feed, IsPower, Differ;
    assert x == [x[0]] + x[1..] && y == [y[0]] + y[1..];
    if x[0] == y[0] {
      BurstSeparates(Feed(c, x[0]), x[1..], y[1..]);
    } else {
      FirstDifference(c, x[0], y[0]);
      TopBit();
      WindowSeparates(Feed(c, x[0]), Feed(c, y[0]), x[1..], y[1..], 0x8000_0000);
    }
  }

  lemma {:induction false} BurstInBits(c: bv32, x: seq<bool>, y: seq<bool>, lo: nat, hi: nat)
    requires |x| == |y| && x != y && lo <= hi <= |x| && hi <= lo + 32
    requires x[..lo] == y[..lo] && x[hi..] == y[hi..]
    ensures Serial(c, x) != Serial(c, y)
  {
    hide Feed;
    var p, q := x[..lo], x[hi..];
    assert x == p + (x[lo..hi] + q) && y == p + (y[lo..hi] + q);
    var d := Serial(c, p);
    SerialAppend(c, p, x[lo..hi] + q);
    SerialAppend(c, p, y[lo..hi] + q);
    SerialAppend(d, x[lo..hi], q);
    SerialAppend(d, y[lo..hi], q);
    BurstSeparates(d, x[lo..hi], y[lo..hi]);
    SuffixSeparates(Serial(d, x[lo..hi]), Serial(d, y[lo..hi]), q);
  }

  lemma ComplementInjective(a: bv32, b: bv32)
    requires a != b
    ensures !a != !b
  {
    assert !(!a) == a && !(!b) == b;
  }

  lemma BurstInBytes(m: seq<bv8>, n: seq<bv8>, at: nat)
    requires |m| == |n| && m != n
    requires forall i :: 0 <= i < 8 * |m| && (i < at || at + 32 <= i) ==> Bits.Bit(m, i) == Bits.Bit(n, i)
    ensures Update(INIT, m) != Update(INIT, n)
  {
    hide Bits.Bit, Update, Serial;
    var x, y := Bits.All(m), Bits.All(n);
    if x == y { Bits.AllInjective(m, n); }
    var lo := if at < |x| then at else |x|;
    var hi := if at + 32 < |x| then at + 32 else |x|;
    assert x[..lo] == y[..lo] && x[hi..] == y[hi..];
    BurstInBits(INIT, x, y, lo, hi);
    UpdateIsSerial(INIT, m);
    UpdateIsSerial(INIT, n);
  }

  /** Damage confined to 32 consecutive bits, wherever it starts, always
      changes the CRC of a message of any length. */
  lemma BurstDetected(m: seq<bv8>, n: seq<bv8>, at: nat)
    requires |m| == |n| && m != n
    requires forall i :: 0 <= i < 8 * |m| && (i < at || at + 32 <= i) ==> Bits.Bit(m, i) == Bits.Bit(n, i)
    ensures Crc(m) != Crc(n)
  {
    hide Bits.Bit, Update;
    BurstInBytes(m, n, at);
    ComplementInjective(Update(INIT, m), Update(INIT, n));
  }

  /** In bytes: damage within four consecutive bytes is always seen. */
  lemma FourByteDamageDetected(p: seq<bv8>, x: seq<bv8>, y: seq<bv8>, q: seq<bv8>)
    requires |x| == |y| <= 4 && x != y
    ensures Crc(p + x + q) != Crc(p + y + q)
  {
    hide Bits.ByteBits, Crc;
    var m, n := p + x + q, p + y + q;
    forall i | 0 <= i < 8 * |m| && (i < 8 * |p| || 8 * |p| + 32 <= i)
      ensures Bits.Bit(m, i) == Bits.Bit(n, i)
    {
      assert m[i / 8] == n[i / 8];
    }
    assert m[|p|..|p| + |x|] == x && n[|p|..|p| + |x|] == y;
    BurstDetected(m, n, 8 * |p|);
  }

  // ---------------------------------------------------------------------
  // The initial value and the complement
  // ---------------------------------------------------------------------

  lemma {:induction false} UpdateAppend(c: bv32, s: seq<bv8>, t: seq<bv8>)
    ensures Update(c, s + t) == Update(Update(c, s), t)
    decreases |t|
  {
    hide ByteStep;
    if t == [] {
      assert s + t == s;
    } else {
      var n := |t| - 1;
      assert (s + t)[..|s| + n] == s + t[..n];
      UpdateAppend(c, s, t[..n]);
    }
  }

  lemma UpdateOne(c: bv32, b: bv8)
    ensures Update(c, [b]) == ByteStep(c, b)
  {
    hide ByteStep;
    assert [b][..0] == [];
  }

  lemma ZeroMoves()
    ensures ByteStep(INIT, 0) != INIT
  {
  }

  /** A zero byte in front of a message is seen, whatever the message: the register
      does not start from zero. */
  lemma LeadingZeroDetected(s: seq<bv8>)
    ensures Crc([0] + s) != Crc(s)
  {
    hide ByteStep, Update, Serial, Bits.All;
    var c, d := ByteStep(INIT, 0), INIT;
    ZeroMoves();
    UpdateAppend(INIT, [0], s);
    UpdateOne(INIT, 0);
    UpdateIsSerial(c, s);
    UpdateIsSerial(d, s);
    SuffixSeparates(c, d, Bits.All(s));
    ComplementInjective(Update(c, s), Update(d, s));
  }

  /** A word as four bytes, least significant first. */
  function Little(x: bv32): seq<bv8> {
    [LowByte(x), LowByte(Upper(x)), LowByte(Upper(Upper(x))), LowByte(Upper(Upper(Upper(x))))]
  }

  function Upper(x: bv32): bv32 {
    x >> 8
  }

  /** Eight steps take in the low byte of a word and leave the rest to be taken in. */
  lemma TakeIn(c: bv32, x: bv32)
    ensures EightSteps(Xor(c, x)) == Xor(ByteStep(c, LowByte(x)), Upper(x))
  {
    hide BitStep, EightSteps, Xor, LowByte;
    var low, high := LowByte(x) as bv32, x & 0xFFFF_FF00;
    WordParts(x);
    XorAssociates(c, low, high);
    EightStepsLinear(Xor(c, low), high);
    HighPart(x);
  }

  lemma WordParts(x: bv32)
    ensures x == Xor(LowByte(x) as bv32, x & 0xFFFF_FF00)
  {
  }

  lemma NothingUpper(x: bv32)
    ensures Upper(Upper(Upper(Upper(x)))) == 0
  {
  }

  /** Four bytes taken in one after the other are the word taken in at once. */
  lemma TakeInWord(c: bv32, x: bv32)
    ensures Update(c, Little(x)) == EightSteps(EightSteps(EightSteps(EightSteps(Xor(c, x)))))
  {
    hide ByteStep, EightSteps, Xor, LowByte, Upper;
    var x1 := Upper(x);
    var x2 := Upper(x1);
    var x3 := Upper(x2);
    var c1 := ByteStep(c, LowByte(x));
    var c2 := ByteStep(c1, LowByte(x1));
    var c3 := ByteStep(c2, LowByte(x2));
    TakeIn(c, x);
    TakeIn(c1, x1);
    TakeIn(c2, x2);
    TakeIn(c3, x3);
    NothingUpper(x);
    XorZero(ByteStep(c3, LowByte(x3)));
    FourBytes(c, LowByte(x), LowByte(x1), LowByte(x2), LowByte(x3));
  }

  lemma FourBytes(c: bv32, a: bv8, b: bv8, d: bv8, e: bv8)
    ensures Update(c, [a, b, d, e]) == ByteStep(ByteStep(ByteStep(ByteStep(c, a), b), d), e)
  {
    hide ByteStep;
    UpdateOne(c, a);
    assert [a, b][..1] == [a] && [a, b, d][..2] == [a, b] && [a, b, d, e][..3] == [a, b, d];
    assert Update(c, [a, b]) == ByteStep(Update(c, [a]), b);
    assert Update(c, [a, b, d]) == ByteStep(Update(c, [a, b]), d);
  }

  lemma ResidueSteps()
    ensures EightSteps(0xFFFF_FFFF) == 0x2DFD_1072 && EightSteps(0x2DFD_1072) == 0xBE26_ED00
    ensures EightSteps(0xBE26_ED00) == 0x00BE_26ED && EightSteps(0x00BE_26ED) == 0xDEBB_20E3
  {
  }

  lemma Complementary(c: bv32)
    ensures Xor(c, !c) == 0xFFFF_FFFF
  {
  }

  /** A message followed by its CRC has the same CRC as any other so made. */
  lemma Residue(s: seq<bv8>)
    ensures Crc(s + Little(Crc(s))) == 0x2144_DF1C
  {
    hide EightSteps, Xor, Little, Update;
    var c := Update(INIT, s);
    UpdateAppend(INIT, s, Little(!c));
    TakeInWord(c, !c);
    Complementary(c);
    ResidueSteps();
  }
}
