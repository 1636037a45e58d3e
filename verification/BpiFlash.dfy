/**
 Programming a parallel NOR flash: the driver `BPIFlash` against a device model
 with the Intel command set (erase sets a block to ones, programming only clears
 bits, every command is a sequence of bus writes).

 Every bus write the driver makes is proved legal in the device's command state,
 every buffered chunk stays within one block and the buffer, and a successful
 write followed by a read returns exactly the data, for every address and length
 within the device.
 */
module BpiFlash {
  import Bits
  import opened BpiBridge
  import opened U32

  const BLOCK_BYTES := 262144
  const BLOCK_WORDS := 131072
  const CAPACITY := 67108864
  const CAPACITY_WORDS := 33554432
  const BUFFER_WORDS := 512
  const BLOCKS := 256

  const READ_ARRAY := 0xFF
  const READ_STATUS := 0x70
  const CLEAR_STATUS := 0x50
  const BUFFERED_PRG := 0xE9
  const CONFIRM := 0xD0
  const BLOCK_ERASE := 0x20
  const UNLOCK_BLOCK := 0x60

  const ONES: Word := [true, true, true, true, true, true, true, true,
                       true, true, true, true, true, true, true, true]

  // ---------------------------------------------------------------------
  // The device
  // ---------------------------------------------------------------------

  datatype Mode =
    | Array | Status
    | UnlockSetup(block: nat)
    | EraseSetup(block: nat)
    | Count(block: nat)
    | Fill(block: nat, left: nat, got: seq<BusWrite>)
    | Full(block: nat, got: seq<BusWrite>)

  /** `busy` counts the status reads until the device is ready again; `failed`
      stands for the error bits of the status register. */
  datatype Chip = Chip(words: seq<Word>, mode: Mode, unlocked: set<nat>, busy: nat, failed: bool)

  /** How long an erase or program takes and whether it works; if it does not, the
      block is left with unknown contents. */
  datatype Outcome = Outcome(busy: nat, failed: bool, wreck: seq<Word>)

  function BlockOf(a: nat): nat {
    a / BLOCK_WORDS
  }

  /** The bus writes the command set defines in each state, `n` being the number
      on the data bus, as the data sheet gives it. While the device is busy it only takes a status request. */
  predicate LegalNumber(c: Chip, addr: nat, n: nat) {
    && addr < CAPACITY_WORDS
    && (c.busy > 0 ==> c.mode.Status? && n == 0x70)
    && match c.mode
       case UnlockSetup(b) => n == 0xD0 && BlockOf(addr) == b
       case EraseSetup(b) => n == 0xD0 && BlockOf(addr) == b && b in c.unlocked
       case Count(b) => n < 512 && BlockOf(addr) == b
       case Fill(b, left, _) => left > 0 && BlockOf(addr) == b
       case Full(b, _) => n == 0xD0 && BlockOf(addr) == b && b in c.unlocked
       case _ => n == 0xFF || n == 0x70 || n == 0x50 || n == 0xE9 || n == 0x20 || n == 0x60
  }

  predicate Legal(c: Chip, addr: nat, data: Word) {
    LegalNumber(c, addr, Bits.Number(data))
  }

  /** Programming clears bits. */
  function And(x: Word, y: Word): Word {
    seq(16, i requires 0 <= i < 16 => x[i] && y[i])
  }

  function Program(words: seq<Word>, ws: seq<BusWrite>): (r: seq<Word>)
    ensures |r| == |words|
    decreases |ws|
  {
    if ws == [] then words
    else
      var a := ws[0].addr;
      Program(if a < |words| then words[a := And(words[a], ws[0].data)] else words, ws[1..])
  }

  /** Words with `x` from `at` on. */
  function Placed(words: seq<Word>, at: nat, x: seq<Word>): (r: seq<Word>)
    ensures |r| == |words|
  {
    seq(|words|, i requires 0 <= i < |words| => if at <= i < at + |x| then x[i - at] else words[i])
  }

  /** Words with all ones from `lo` to `hi`. */
  function Erased(words: seq<Word>, lo: nat, hi: nat): (r: seq<Word>)
    ensures |r| == |words|
  {
    seq(|words|, i requires 0 <= i < |words| => if lo <= i < hi then ONES else words[i])
  }

  /** Two contents that agree outside `lo` to `hi`. */
  ghost predicate AgreeOutside(v: seq<Word>, w: seq<Word>, lo: nat, hi: nat) {
    && |v| == |w|
    && forall i :: 0 <= i < |v| && !(lo <= i < hi) ==> v[i] == w[i]
  }

  function Base(b: nat): nat {
    b * BLOCK_WORDS
  }

  /** The device starts an erase or program of block `b` that leads to `words`. */
  function Begin(c: Chip, b: nat, words: seq<Word>, o: Outcome): Chip {
    c.(words := if o.failed && |o.wreck| == BLOCK_WORDS then Placed(words, Base(b), o.wreck) else words,
       mode := Status, busy := o.busy, failed := c.failed || o.failed)
  }

  function BusNumber(c: Chip, addr: nat, n: nat, data: Word, o: Outcome): (r: Chip)
    requires LegalNumber(c, addr, n)
    ensures |r.words| == |c.words|
  {
    match c.mode
    case UnlockSetup(b) => c.(unlocked := c.unlocked + {b}, mode := Status)
    case EraseSetup(b) => Begin(c, b, Erased(c.words, Base(b), Base(b + 1)), o)
    case Count(b) => c.(mode := Fill(b, n + 1, []))
    case Fill(b, left, got) =>
      var got' := got + [BusWrite(addr, data)];
      c.(mode := if left == 1 then Full(b, got') else Fill(b, left - 1, got'))
    case Full(b, got) => Begin(c, b, Program(c.words, got), o)
    case _ =>
      if n == 0xFF then c.(mode := Array)
      else if n == 0x70 then c.(mode := Status)
      else if n == 0x50 then c.(failed := false)
      else if n == 0xE9 then c.(mode := Count(BlockOf(addr)))
      else if n == 0x20 then c.(mode := EraseSetup(BlockOf(addr)))
      else c.(mode := UnlockSetup(BlockOf(addr)))
  }

  /** One bus write. */
  function Bus(c: Chip, addr: nat, data: Word, o: Outcome): (r: Chip)
    requires Legal(c, addr, data)
    ensures |r.words| == |c.words|
  {
    BusNumber(c, addr, Bits.Number(data), data, o)
  }

  predicate LegalAll(c: Chip, ws: seq<BusWrite>, o: Outcome)
    decreases |ws|
  {
    ws == [] || (Legal(c, ws[0].addr, ws[0].data)
                 && LegalAll(Bus(c, ws[0].addr, ws[0].data, o), ws[1..], o))
  }

  function BusAll(c: Chip, ws: seq<BusWrite>, o: Outcome): (r: Chip)
    requires LegalAll(c, ws, o)
    ensures |r.words| == |c.words|
    decreases |ws|
  {
    if ws == [] then c else BusAll(Bus(c, ws[0].addr, ws[0].data, o), ws[1..], o)
  }

  /** The status register: bit 7 ready, bits 5, 4 and 3 errors. */
  function StatusWord(ready: bool, failed: bool): Word {
    [false, false, false, failed, failed, failed, false, ready,
     false, false, false, false, false, false, false, false]
  }

  /** What the device drives for a read at `addr`. */
  function Drives(c: Chip, addr: nat): Word {
    if c.mode.Array? && addr < |c.words| then c.words[addr] else StatusWord(c.busy == 0, c.failed)
  }

  function Answers(c: Chip): seq<bool> -> Word {
    (a: seq<bool>) => Drives(c, Bits.Number(a))
  }

  function AfterRead(c: Chip): Chip {
    if c.busy > 0 then c.(busy := c.busy - 1) else c
  }

  // ---------------------------------------------------------------------
  // Facts about the device
  // ---------------------------------------------------------------------

  lemma AndOnes(w: Word)
    ensures And(ONES, w) == w
  {
  }

  /** Programming erased words stores the data and touches nothing else. */
  lemma {:induction false} ProgramErased(words: seq<Word>, addr: nat, ws: seq<Word>)
    requires addr + |ws| <= |words|
    requires forall i :: addr <= i < addr + |ws| ==> words[i] == ONES
    ensures Program(words, BurstWrites(addr, ws)) == Placed(words, addr, ws)
    decreases |ws|
  {
    hide And, Placed, Program, BurstWrites;
    PlacedStep(words, addr, ws);
    ProgramStep(words, addr, ws);
    if ws == [] {
    } else {
      AndOnes(ws[0]);
      ProgramErased(words[addr := ws[0]], addr + 1, ws[1..]);
    }
  }

  lemma ProgramStep(words: seq<Word>, addr: nat, ws: seq<Word>)
    requires addr + |ws| <= |words|
    ensures Program(words, BurstWrites(addr, ws))
         == if ws == [] then words
            else Program(words[addr := And(words[addr], ws[0])], BurstWrites(addr + 1, ws[1..]))
  {
    hide And;
    if ws != [] {
      assert BurstWrites(addr, ws)[1..] == BurstWrites(addr + 1, ws[1..]);
    }
  }

  lemma PlacedStep(words: seq<Word>, addr: nat, ws: seq<Word>)
    requires addr + |ws| <= |words|
    ensures Placed(words, addr, ws)
         == if ws == [] then words else Placed(words[addr := ws[0]], addr + 1, ws[1..])
  {
  }

  /** Filling the buffer: every word is legal, and the buffer ends up holding them
      all in order. */
  lemma {:induction false} FillBuffer(c: Chip, b: nat, addr: nat, ws: seq<Word>, o: Outcome)
    requires ws != [] && c.mode.Fill? && c.mode.block == b && c.mode.left == |ws| && c.busy == 0
    requires Base(b) <= addr && addr + |ws| <= Base(b + 1) <= CAPACITY_WORDS
    ensures LegalAll(c, BurstWrites(addr, ws), o)
    ensures BusAll(c, BurstWrites(addr, ws), o) == c.(mode := Full(b, c.mode.got + BurstWrites(addr, ws)))
    decreases |ws|
  {
    hide Bits.Number, Begin, Program;
    InBlock(b, addr);
    var w := BurstWrites(addr, ws);
    var d := Bus(c, addr, ws[0], o);
    assert w[1..] == BurstWrites(addr + 1, ws[1..]);
    assert c.mode.got + w == c.mode.got + [w[0]] + w[1..];
    if |ws| > 1 {
      FillBuffer(d, b, addr + 1, ws[1..], o);
    } else {
      assert w == [BusWrite(addr, ws[0])];
      OneWrite(c, addr, ws[0], o);
    }
  }

  lemma InBlock(b: nat, addr: nat)
    requires Base(b) <= addr < Base(b + 1)
    ensures BlockOf(addr) == b
  {
  }

  lemma Capacity()
    ensures Bits.Pow2(ADDR_BITS) == CAPACITY_WORDS && Bits.Pow2(16) == 65536
  {
    assert Bits.Pow2(8) == 256 by { Bits.PowByte(); }
    assert Bits.Pow2(16) == 65536;
  }

  /** A 16-bit number on the data bus. */
  function Cmd(n: nat): Word {
    Bits.Digits(n, 16)
  }

  lemma CmdNumber(n: nat)
    requires n < 65536
    ensures Bits.Number(Cmd(n)) == n
  {
    Capacity();
    Bits.NumberDigits(n, 16);
  }

  // ---------------------------------------------------------------------
  // Bytes and words
  // ---------------------------------------------------------------------

  /** `(reverseByte(b0) << 8) | reverseByte(b1)`. */
  function WordOf(b0: bv8, b1: bv8): Word {
    Bits.ByteBits(Bits.ReverseByte(b1)) + Bits.ByteBits(Bits.ReverseByte(b0))
  }

  function First(w: Word): bv8 {
    Bits.ReverseByte(Bits.FromBits(w[8..]))
  }

  function Second(w: Word): bv8 {
    Bits.ReverseByte(Bits.FromBits(w[..8]))
  }

  lemma WordOfParts(b0: bv8, b1: bv8)
    ensures First(WordOf(b0, b1)) == b0 && Second(WordOf(b0, b1)) == b1
  {
    hide Bits.ReverseByte, Bits.FromBits, Bits.ByteBits;
    Bits.ReverseByteReverses(b0);
    Bits.ReverseByteReverses(b1);
    Bits.FromBitsOf(Bits.ReverseByte(b0));
    Bits.FromBitsOf(Bits.ReverseByte(b1));
    assert WordOf(b0, b1)[8..] == Bits.ByteBits(Bits.ReverseByte(b0));
    assert WordOf(b0, b1)[..8] == Bits.ByteBits(Bits.ReverseByte(b1));
  }

  /** Word `k` of the data; an odd last byte is paired with 0xFF. */
  function WordAt(data: seq<bv8>, k: nat): Word
    requires 2 * k < |data|
  {
    WordOf(data[2 * k], if 2 * k + 1 < |data| then data[2 * k + 1] else 0xFF)
  }

  /** Words `from` to `to` of the data. */
  function WordsOf(data: seq<bv8>, from: nat, to: nat): (r: seq<Word>)
    requires from <= to && 2 * to <= |data| + 1
    ensures |r| == to - from
  {
    seq<Word>(to - from, k requires 0 <= k < to - from => WordAt(data, from + k))
  }

  lemma WordsOfSnoc(data: seq<bv8>, from: nat, to: nat)
    requires from <= to && 2 * to < |data|
    ensures WordsOf(data, from, to + 1) == WordsOf(data, from, to) + [WordAt(data, to)]
  {
    hide WordAt;
  }

  function NumWords(len: nat): nat {
    (len + 1) / 2
  }

  /** Byte `i` of a read starting at byte address `addr`. */
  function ByteAt(words: seq<Word>, addr: nat, i: nat): bv8
    requires addr / 2 + i / 2 < |words|
  {
    var w := words[addr / 2 + i / 2];
    if i % 2 == 0 then First(w) else Second(w)
  }

  function ReadBack(words: seq<Word>, addr: nat, len: nat): (r: seq<bv8>)
    requires addr + len <= 2 * |words|
    ensures |r| == len
  {
    seq(len, i requires 0 <= i < len => ByteAt(words, addr, i))
  }

  /** The contents after a write: the touched blocks erased, then the words. */
  function Image(words: seq<Word>, addr: nat, data: seq<bv8>): (r: seq<Word>)
    ensures |r| == |words|
  {
    Placed(Erased(words, FirstWord(addr), EndWord(addr, |data|)), addr / 2, WordsOf(data, 0, NumWords(|data|)))
  }

  /** First word of the first block of a write, and the end of its last block. With
      nothing to write at address zero the last block number wraps around, and the
      loop goes over the whole device. */
  function FirstWord(addr: nat): nat {
    Base(addr / BLOCK_BYTES)
  }

  function EndWord(addr: nat, len: nat): nat {
    if addr + len == 0 then CAPACITY_WORDS else Base((addr + len - 1) / BLOCK_BYTES + 1)
  }

  /** Reading back what a write leaves gives the data, at any address and length. */
  lemma ImageRoundTrip(words: seq<Word>, addr: nat, data: seq<bv8>)
    requires addr + |data| <= 2 * |words|
    ensures ReadBack(Image(words, addr, data), addr, |data|) == data
  {
    hide Image, WordAt, WordOf, First, Second;
    var image := Image(words, addr, data);
    var back := ReadBack(image, addr, |data|);
    forall i | 0 <= i < |data| ensures back[i] == data[i] {
      ImageWord(words, addr, data, i / 2);
      WordParts(data, i / 2);
    }
  }

  lemma ImageWord(words: seq<Word>, addr: nat, data: seq<bv8>, k: nat)
    requires 2 * k < |data| && addr + |data| <= 2 * |words|
    ensures addr / 2 + k < |words| && Image(words, addr, data)[addr / 2 + k] == WordAt(data, k)
  {
    hide WordAt, Erased;
  }

  lemma WordParts(data: seq<bv8>, k: nat)
    requires 2 * k < |data|
    ensures First(WordAt(data, k)) == data[2 * k]
    ensures 2 * k + 1 < |data| ==> Second(WordAt(data, k)) == data[2 * k + 1]
  {
    hide WordOf, First, Second;
    WordOfParts(data[2 * k], if 2 * k + 1 < |data| then data[2 * k + 1] else 0xFF);
  }

  /** The words from byte address `addr` on carry the bytes: the first byte of each pair
      on D[15:8], the second on D[7:0], each with its most significant bit lowest. */
  ghost predicate OnBus(words: seq<Word>, addr: nat, data: seq<bv8>)
    requires addr + |data| <= 2 * |words|
  {
    forall i, j :: 0 <= i < |data| && 0 <= j < 8 ==>
      Bits.ByteBits(data[i])[j] == words[addr / 2 + i / 2][if i % 2 == 0 then 15 - j else 7 - j]
  }

  /** An odd last byte has only ones beside it. */
  ghost predicate PaddedWithOnes(words: seq<Word>, addr: nat, len: nat)
    requires addr + len <= 2 * |words|
  {
    len % 2 == 1 ==> words[addr / 2 + len / 2][..8] == seq(8, _ => true)
  }

  /** Read bytes are on the bus, and only they. */
  lemma ReadOnBus(words: seq<Word>, addr: nat, data: seq<bv8>)
    requires addr + |data| <= 2 * |words|
    ensures OnBus(words, addr, data) <==> data == ReadBack(words, addr, |data|)
  {
    hide First, Second, Bits.ByteBits;
    var back := ReadBack(words, addr, |data|);
    forall i | 0 <= i < |data|
      ensures forall j :: 0 <= j < 8 ==>
        Bits.ByteBits(back[i])[j] == words[addr / 2 + i / 2][if i % 2 == 0 then 15 - j else 7 - j]
    {
      PartBits(words[addr / 2 + i / 2]);
    }
    if OnBus(words, addr, data) {
      forall i | 0 <= i < |data| ensures data[i] == back[i] {
        assert Bits.ByteBits(data[i]) == Bits.ByteBits(back[i]);
        Bits.ByteBitsInjective(data[i], back[i]);
      }
    }
  }

  lemma PartBits(w: Word)
    ensures forall j :: 0 <= j < 8 ==>
              Bits.ByteBits(First(w))[j] == w[15 - j] && Bits.ByteBits(Second(w))[j] == w[7 - j]
  {
    hide Bits.ReverseByte, Bits.FromBits, Bits.ByteBits;
    var high, low := Bits.FromBits(w[8..]), Bits.FromBits(w[..8]);
    Bits.ReverseByteReverses(high);
    Bits.ReverseByteReverses(low);
    Bits.FromBitsHas(w[8..]);
    Bits.FromBitsHas(w[..8]);
  }

  /** What a write leaves carries the data, and an odd last byte is paired with ones. */
  lemma ImageOnBus(words: seq<Word>, addr: nat, data: seq<bv8>)
    requires addr + |data| <= 2 * |words|
    ensures OnBus(Image(words, addr, data), addr, data) && PaddedWithOnes(Image(words, addr, data), addr, |data|)
  {
    hide Image, ReadBack, OnBus, WordAt;
    ImageRoundTrip(words, addr, data);
    ReadOnBus(Image(words, addr, data), addr, data);
    if |data| % 2 == 1 {
      ImageWord(words, addr, data, |data| / 2);
      OddWord(data);
    }
  }

  lemma OddWord(data: seq<bv8>)
    requires |data| % 2 == 1
    ensures WordAt(data, |data| / 2)[..8] == seq(8, _ => true)
  {
    hide Bits.ReverseByte;
    Bits.ReverseByteReverses(0xFF);
    assert Bits.ByteBits(0xFF) == seq(8, _ => true);
    assert Bits.ByteBits(Bits.ReverseByte(0xFF)) == seq(8, _ => true);
  }

  /** Outside the touched blocks nothing changes; inside them the words not
      written are ones. */
  lemma ImageElsewhere(words: seq<Word>, addr: nat, data: seq<bv8>, i: nat)
    requires i < |words|
    requires !(addr / 2 <= i < addr / 2 + NumWords(|data|))
    ensures Image(words, addr, data)[i] == if FirstWord(addr) <= i < EndWord(addr, |data|) then ONES else words[i]
  {
  }

  /** A write of nothing changes nothing if and only if its address is a block
      boundary other than zero, or what it erases is erased already: inside a block
      it erases that block, and at address zero the whole device. */
  lemma EmptyWrite(words: seq<Word>, addr: nat)
    requires |words| == CAPACITY_WORDS && addr <= CAPACITY
    ensures Image(words, addr, []) == words
       <==> || (addr > 0 && addr % BLOCK_BYTES == 0)
            || forall i :: FirstWord(addr) <= i < EndWord(addr, 0) ==> words[i] == ONES
    ensures (addr > 0 && addr % BLOCK_BYTES == 0) <==> FirstWord(addr) >= EndWord(addr, 0)
  {
    var image := Image(words, addr, []);
    assert forall i :: 0 <= i < |words| ==>
             image[i] == if FirstWord(addr) <= i < EndWord(addr, 0) then ONES else words[i];
    EmptyRange(addr);
  }

  lemma EmptyRange(addr: nat)
    requires addr <= CAPACITY
    ensures (addr > 0 && addr % BLOCK_BYTES == 0) <==> FirstWord(addr) >= EndWord(addr, 0)
    ensures EndWord(addr, 0) <= CAPACITY_WORDS
  {
  }

  // ---------------------------------------------------------------------
  // The driver
  // ---------------------------------------------------------------------

  /** A device that does every erase and program in time. */
  predicate Good(o: Outcome) {
    !o.failed && o.busy < 500
  }

  /** A new packet: Capture-DR puts the bridge back to idle. */
  function Fresh(b: Bridge): (r: Bridge)
    requires Shaped(b)
    ensures Ready(r)
  {
    b.(phase := Idle, writes := [])
  }

  /** Ready to take a command. */
  predicate Resting(c: Chip) {
    |c.words| == CAPACITY_WORDS && c.busy == 0 && (c.mode.Array? || c.mode.Status?)
  }

  class BPIFlash {
    var chip: Chip
    var bridge: Bridge
    const hasBurst: bool
    /** Whether the device always works in time; nothing else depends on it. */
    const sound: bool

    ghost predicate Valid()
      reads this`chip, this`bridge
    {
      |chip.words| == CAPACITY_WORDS && Shaped(bridge)
    }

    constructor (words: seq<Word>, hasBurst: bool, sound: bool)
      requires |words| == CAPACITY_WORDS
      ensures Valid() && Resting(chip) && chip.words == words && !chip.failed
      ensures this.hasBurst == hasBurst && this.sound == sound
    {
      chip := Chip(words, Array, {}, 0, false);
      bridge := Bridge(Idle, 0, Zeros(4), Zeros(ADDR_BITS), Zeros(16), Zeros(16), 0, Zeros(16), Zeros(ADDR_BITS), []);
      this.hasBurst := hasBurst;
      this.sound := sound;
    }

    /** What the device does with its next erase or program. */
    method Next() returns (o: Outcome)
      ensures sound ==> Good(o)
    {
      o := *;
      if sound && !Good(o) {
        o := Outcome(0, false, []);
      }
    }

    /** Shift a packet through USER1; the device takes the writes it makes. */
    method Shift(bits: seq<bool>, ghost ws: seq<BusWrite>) returns (tdo: seq<bool>, ghost o: Outcome)
      requires Valid() && Run(Fresh(bridge), bits, Answers(chip)).writes == ws
      requires forall o :: LegalAll(chip, ws, o)
      modifies this`chip, this`bridge
      ensures Valid() && (sound ==> Good(o))
      ensures LegalAll(old(chip), ws, o) && chip == BusAll(old(chip), ws, o)
      ensures tdo == Tdo(Fresh(old(bridge)), bits, Answers(old(chip)))
    {
      hide Run, Tdo, Legal, Bus;
      var dq := Answers(chip);
      tdo := Tdo(Fresh(bridge), bits, dq);
      bridge := Run(Fresh(bridge), bits, dq);
      var outcome := Next();
      chip := BusAll(chip, bridge.writes, outcome);
      o := outcome;
    }

    /** `bpi_write` and `bpi_write_no_flush`; the packet has the low 25 bits of the
        address. */
    method BpiWrite(addr: nat, data: Word) returns (ghost o: Outcome)
      requires Valid() && Legal(chip, Masked(addr), data)
      modifies this`chip, this`bridge
      ensures Valid() && (sound ==> Good(o))
      ensures chip == Bus(old(chip), Masked(addr), data, o)
    {
      hide Run, Bits.Digits, Bits.Number, Bits.Pow2, WritePacket, PacketNumber, BusNumber, LegalNumber, Tdo;
      Capacity();
      ghost var a := Masked(addr);
      var bits := Bits.Digits(PacketNumber(CMD_WRITE, addr, Bits.Number(data)), 66);
      MaskedPacket(CMD_WRITE, addr, Bits.Number(data));
      WritePacketIsNumber(a, data);
      WritePacketWrites(Fresh(bridge), a, data, Answers(chip));
      ghost var ws := [BusWrite(a, data)];
      assert forall o :: LegalAll(chip, ws, o) by {
        forall o ensures LegalAll(chip, ws, o) { OneWrite(chip, a, data, o); }
      }
      ghost var c := chip;
      var _, out := Shift(bits, ws);
      o := out;
      OneWrite(c, a, data, o);
    }

    method Command(addr: nat, n: nat) returns (ghost o: Outcome)
      requires Valid() && n < 65536 && LegalNumber(chip, Masked(addr), n)
      modifies this`chip, this`bridge
      ensures Valid() && (sound ==> Good(o))
      ensures chip == BusNumber(old(chip), Masked(addr), n, Cmd(n), o)
    {
      hide Bits.Digits, Bits.Number, BusNumber, LegalNumber, Masked;
      CmdNumber(n);
      o := BpiWrite(addr, Cmd(n));
    }

    /** `bpi_read`. */
    method BpiRead(addr: nat) returns (w: Word)
      requires Valid() && addr < CAPACITY_WORDS
      modifies this`chip, this`bridge
      ensures Valid() && chip == AfterRead(old(chip)) && w == Drives(old(chip), addr)
    {
      hide Run, Bits.Digits, Bits.Number, Bits.Pow2, ReadPacket, PacketNumber, Tdo;
      Capacity();
      var bits := Bits.Digits(PacketNumber(CMD_READ, addr, 0), 67);
      ReadPacketIsNumber(addr);
      ReadPacketReads(Fresh(bridge), addr, Answers(chip));
      Bits.NumberDigits(addr, ADDR_BITS);
      var tdo, _ := Shift(bits, []);
      w := tdo[READ_OFFSET..READ_OFFSET + 16];
      chip := AfterRead(chip);
    }

    /** `wait_ready`: succeeds exactly when the device finishes within the polls
        allowed and reports no error, and then leaves it in read-array mode. */
    method WaitReady(timeoutMs: nat) returns (ok: bool)
      requires Valid() && chip.mode.Status?
      modifies this`chip, this`bridge
      ensures Valid() && chip.words == old(chip.words) && chip.unlocked == old(chip.unlocked)
      ensures ok <==> 10 * old(chip.busy) < timeoutMs && !old(chip.failed)
      ensures ok ==> Resting(chip) && !chip.failed
    {
      hide Bits.Digits, Begin, Program, Cmd;
      var elapsed := 0;
      var _ := Command(0, READ_STATUS);
      while elapsed < timeoutMs
        invariant Valid() && chip.mode.Status?
        invariant chip.words == old(chip.words) && chip.unlocked == old(chip.unlocked)
        invariant chip.failed == old(chip.failed)
        invariant elapsed % 10 == 0 && elapsed / 10 + chip.busy == old(chip.busy)
        decreases timeoutMs - elapsed
      {
        var sr := BpiRead(0);
        if sr[7] {
          if sr[5] || sr[4] || sr[3] {
            var _ := Command(0, CLEAR_STATUS);
            return false;
          }
          var _ := Command(0, READ_ARRAY);
          return true;
        }
        elapsed := elapsed + 10;
      }
      return false;
    }

    method UnlockBlock(addr: nat)
      requires Valid() && Resting(chip)
      modifies this`chip, this`bridge
      ensures Valid() && chip == old(chip).(unlocked := old(chip.unlocked) + {BlockOf(Masked(addr))}, mode := Status)
    {
      hide Bits.Digits, Begin, Program, Cmd;
      var _ := Command(addr, UNLOCK_BLOCK);
      var _ := Command(addr, CONFIRM);
    }

    /** `erase_block`: on success exactly the block is ones; on failure only the
        block may have changed. */
    method EraseBlock(addr: nat) returns (ok: bool)
      requires Valid() && Resting(chip) && addr % BLOCK_BYTES == 0
      modifies this`chip, this`bridge
      ensures Valid()
      ensures var b := addr / BLOCK_BYTES % BLOCKS;
              && AgreeOutside(old(chip.words), chip.words, Base(b), Base(b + 1))
              && (ok ==> chip.words == Erased(old(chip.words), Base(b), Base(b + 1)))
      ensures ok ==> Resting(chip) && !chip.failed
      ensures sound && !old(chip.failed) ==> ok
    {
      hide Bits.Digits, Program, Cmd, Masked;
      var wordAddr := addr / 2;
      MaskedBlock(addr);
      UnlockBlock(wordAddr);
      var _ := Command(wordAddr, BLOCK_ERASE);
      var _ := Command(wordAddr, CONFIRM);
      ok := WaitReady(30000);
    }

    /** The data words of a buffered program, in one burst or one packet each. */
    method SendWords(addr: nat, words: seq<Word>)
      requires Valid() && 0 < |words| <= BUFFER_WORDS
      requires chip.busy == 0 && chip.mode.Fill? && chip.mode.got == [] && chip.mode.left == |words|
      requires var b := chip.mode.block;
               Base(b) <= addr && addr + |words| <= Base(b + 1) <= CAPACITY_WORDS
      modifies this`chip, this`bridge
      ensures Valid()
      ensures chip == old(chip).(mode := Full(old(chip.mode.block), BurstWrites(addr, words)))
    {
      if hasBurst {
        SendBurst(addr, words);
      } else {
        SendPackets(addr, words);
      }
    }

    /** `bpi_burst_write`. */
    method SendBurst(addr: nat, words: seq<Word>)
      requires Valid() && 0 < |words| <= BUFFER_WORDS
      requires chip.busy == 0 && chip.mode.Fill? && chip.mode.got == [] && chip.mode.left == |words|
      requires var b := chip.mode.block;
               Base(b) <= addr && addr + |words| <= Base(b + 1) <= CAPACITY_WORDS
      modifies this`chip, this`bridge
      ensures Valid()
      ensures chip == old(chip).(mode := Full(old(chip.mode.block), BurstWrites(addr, words)))
    {
      hide Run, Tdo, Bits.Pow2, BurstPacket, BurstWrites, LegalAll, BusAll, Bits.Take;
      Capacity();
      ghost var c, b := chip, chip.mode.block;
      var tx, n := BuildBurst(addr, words);
      ghost var ws := BurstWrites(addr, words);
      BurstPacketWrites(Fresh(bridge), addr, words, Answers(chip));
      forall o ensures LegalAll(c, ws, o) { FillBuffer(c, b, addr, words, o); }
      var _, o := Shift(Bits.Take(tx[..], n), ws);
      FillBuffer(c, b, addr, words, o);
      assert [] + ws == ws;
    }

    /** The loop of `bpi_write_no_flush`. */
    method SendPackets(addr: nat, words: seq<Word>)
      requires Valid() && 0 < |words| <= BUFFER_WORDS
      requires chip.busy == 0 && chip.mode.Fill? && chip.mode.got == [] && chip.mode.left == |words|
      requires var b := chip.mode.block;
               Base(b) <= addr && addr + |words| <= Base(b + 1) <= CAPACITY_WORDS
      modifies this`chip, this`bridge
      ensures Valid()
      ensures chip == old(chip).(mode := Full(old(chip.mode.block), BurstWrites(addr, words)))
    {
      hide Bits.Number, Begin, Program, BurstWrites;
      ghost var c, b := chip, chip.mode.block;
      assert BurstWrites(addr, words[..0]) == [];
      for w := 0 to |words|
        invariant Valid()
        invariant chip == c.(mode := Filling(b, |words| - w, BurstWrites(addr, words[..w])))
      {
        BurstWritesSnoc(addr, words[..w], words[w]);
        assert words[..w + 1] == words[..w] + [words[w]];
        InBlock(b, addr + w);
        var _ := BpiWrite(addr + w, words[w]);
      }
      assert words[..|words|] == words;
    }

    /** One buffered program: set-up, count, words, confirm, wait. On erased words
        it stores exactly the words; if it fails only the block may have changed. */
    method ProgramChunk(b: nat, addr: nat, words: seq<Word>) returns (ok: bool)
      requires Valid() && Resting(chip) && b in chip.unlocked && 0 < |words| <= BUFFER_WORDS
      requires Base(b) <= addr && addr + |words| <= Base(b + 1) <= CAPACITY_WORDS
      requires forall i :: addr <= i < addr + |words| ==> chip.words[i] == ONES
      modifies this`chip, this`bridge
      ensures Valid() && chip.unlocked == old(chip.unlocked)
      ensures AgreeOutside(old(chip.words), chip.words, Base(b), Base(b + 1))
      ensures ok ==> chip.words == Placed(old(chip.words), addr, words) && Resting(chip) && !chip.failed
      ensures sound ==> ok
    {
      hide Bits.Digits, Program, Cmd, BurstWrites;
      InBlock(b, Base(b));
      ProgramErased(chip.words, addr, words);
      var _ := Command(0, CLEAR_STATUS);
      var _ := Command(Base(b), BUFFERED_PRG);
      var _ := Command(Base(b), |words| - 1);
      SendWords(addr, words);
      var _ := Command(Base(b), CONFIRM);
      ok := WaitReady(5000);
    }

    /** The erase loop of `write`. Block numbers beyond the device come round again. */
    method EraseBlocks(start: nat, end: nat) returns (ok: bool)
      requires Valid() && Resting(chip) && start <= end && (end <= BLOCKS || start == 0)
      modifies this`chip, this`bridge
      ensures Valid() && AgreeOutside(old(chip.words), chip.words, Base(start), Base(Upto(end)))
      ensures ok ==> Resting(chip) && chip.words == Erased(old(chip.words), Base(start), Base(Upto(end)))
      ensures sound && !old(chip.failed) ==> ok
    {
      for block := start to end
        invariant Valid() && Resting(chip)
        invariant chip.words == Erased(old(chip.words), Base(start), Base(Upto(block)))
        invariant sound && !old(chip.failed) ==> !chip.failed
      {
        BlockAddress(block, end);
        ok := EraseBlock(block * BLOCK_BYTES);
        if !ok {
          return;
        }
        EraseNext(old(chip.words), start, block);
      }
      ok := true;
    }

    /** The data words of one chunk. */
    method PackWords(data: seq<bv8>, offset: nat, n: nat) returns (words: seq<Word>)
      requires offset % 2 == 0 && offset + 2 * n <= |data| + 1
      ensures words == WordsOf(data, offset / 2, offset / 2 + n)
    {
      hide WordOf;
      words := [];
      for w := 0 to n
        invariant words == WordsOf(data, offset / 2, offset / 2 + w)
      {
        var at := offset + 2 * w;
        var b1 := 0xFF;
        if at + 1 < |data| {
          b1 := data[at + 1];
        }
        WordsOfSnoc(data, offset / 2, offset / 2 + w);
        words := words + [WordOf(data[at], b1)];
      }
    }

    /** The programming loop of `write`, on an erased range. */
    method ProgramAll(addr: nat, data: seq<bv8>) returns (ok: bool)
      requires Valid() && Resting(chip) && addr + |data| <= CAPACITY
      requires forall i :: addr / 2 <= i < addr / 2 + NumWords(|data|) && i < CAPACITY_WORDS ==> chip.words[i] == ONES
      modifies this`chip, this`bridge
      ensures Valid() && AgreeOutside(old(chip.words), chip.words, FirstWord(addr), EndWord(addr, |data|))
      ensures ok ==> && Resting(chip)
                     && chip.words == Placed(old(chip.words), addr / 2, WordsOf(data, 0, NumWords(|data|)))
      ensures sound ==> ok
    {
      hide WordAt, WordsOf, Placed, ChunkWords, AgreeOutside, FirstWord, EndWord;
      var lastBlock := 0xFFFFFFFF;
      var offset := 0;
      PlacedNone(chip.words, addr / 2, data);
      AgreeSelf(chip.words, FirstWord(addr), EndWord(addr, |data|));
      while offset < |data|
        invariant Valid() && Resting(chip)
        invariant offset % 2 == 0 && offset <= |data| + 1
        invariant lastBlock != 0xFFFFFFFF ==> lastBlock in chip.unlocked
        invariant chip.words == Placed(old(chip.words), addr / 2, WordsOf(data, 0, offset / 2))
        invariant AgreeOutside(old(chip.words), chip.words, FirstWord(addr), EndWord(addr, |data|))
        decreases |data| + 1 - offset
      {
        var byteAddr := addr + offset;
        var block := byteAddr / BLOCK_BYTES;
        var n := ChunkWords(byteAddr, |data| - offset);
        ChunkFits(addr, |data|, offset);
        if block != lastBlock {
          UnlockBlock(Base(block));
          lastBlock := block;
        }
        var words := PackWords(data, offset, n);
        ghost var before := chip.words;
        StillErased(old(chip.words), addr / 2, data, offset / 2, n);
        ok := ProgramChunk(block, byteAddr / 2, words);
        AgreeStep(old(chip.words), before, chip.words, FirstWord(addr), EndWord(addr, |data|),
                  Base(block), Base(block + 1));
        if !ok {
          return;
        }
        PlacedNext(old(chip.words), addr / 2, data, offset / 2, n);
        offset := offset + 2 * n;
      }
      assert offset / 2 == NumWords(|data|);
      ok := true;
    }

    /** `write`: on success the touched blocks hold the data and ones, on failure
        nothing outside them has changed, and a working device never fails. */
    method WriteData(addr: nat, data: seq<bv8>) returns (ok: bool)
      requires Valid() && Resting(chip) && addr + |data| <= CAPACITY
      modifies this`chip, this`bridge
      ensures Valid() && AgreeOutside(old(chip.words), chip.words, FirstWord(addr), EndWord(addr, |data|))
      ensures ok ==> Resting(chip) && chip.words == Image(old(chip.words), addr, data)
      ensures ok ==> OnBus(chip.words, addr, data) && PaddedWithOnes(chip.words, addr, |data|)
      ensures sound && !old(chip.failed) ==> ok
    {
      hide WordAt, Cmd, Begin, OnBus, PaddedWithOnes;
      ImageOnBus(chip.words, addr, data);
      var startBlock := addr / BLOCK_BYTES;
      var endBlock := (addr + |data| + TWO_32 - 1) % TWO_32 / BLOCK_BYTES;
      RangeErased(addr, |data|);
      ok := EraseBlocks(startBlock, endBlock + 1);
      if ok {
        ok := ProgramAll(addr, data);
      }
      if ok {
        var _ := Command(0, READ_ARRAY);
      }
    }

    /** `read`. */
    method ReadData(addr: nat, len: nat) returns (data: seq<bv8>)
      requires Valid() && Resting(chip) && addr + len <= CAPACITY
      modifies this`chip, this`bridge
      ensures Valid() && Resting(chip) && chip.words == old(chip.words)
      ensures data == ReadBack(chip.words, addr, len) && OnBus(chip.words, addr, data)
    {
      hide OnBus, First, Second, Cmd, Begin, ByteAt, ReadBack, Drives, Masked;
      ReadNone(chip.words, addr);
      var _ := Command(0, READ_ARRAY);
      data := [];
      var i := 0;
      while i < len
        invariant Valid() && Resting(chip) && chip.mode.Array? && chip.words == old(chip.words)
        invariant i % 2 == 0
        invariant data == ReadBack(chip.words, addr, if i <= len then i else len)
        decreases len - i
      {
        ReadNext(chip, addr, i, len);
        var w := BpiRead((addr + i) / 2);
        data := data + [First(w)];
        if i + 1 < len {
          data := data + [Second(w)];
        }
        i := i + 2;
      }
      ReadOnBus(chip.words, addr, data);
    }

    /** The round trip: a write that succeeds, then a read of the same range. */
    method WriteThenRead(addr: nat, data: seq<bv8>) returns (ok: bool, back: seq<bv8>)
      requires Valid() && Resting(chip) && addr + |data| <= CAPACITY
      modifies this`chip, this`bridge
      ensures ok ==> back == data
      ensures sound && !old(chip.failed) ==> ok
    {
      hide Image, ReadBack;
      back := [];
      ok := WriteData(addr, data);
      if ok {
        ImageRoundTrip(old(chip.words), addr, data);
        back := ReadData(addr, |data|);
      }
    }
  }

  /** The address bits of a packet. */
  function Masked(addr: nat): (a: nat)
    ensures a < CAPACITY_WORDS && (addr < CAPACITY_WORDS ==> a == addr)
  {
    addr % CAPACITY_WORDS
  }

  lemma MaskedPacket(cmd: nat, addr: nat, data: nat)
    requires Bits.Pow2(ADDR_BITS) == CAPACITY_WORDS
    ensures PacketNumber(cmd, addr, data) == PacketNumber(cmd, Masked(addr), data)
  {
    hide Bits.Pow2;
    assert addr % Bits.Pow2(ADDR_BITS) == Masked(addr) % Bits.Pow2(ADDR_BITS);
  }

  lemma MaskedBlock(addr: nat)
    requires addr % BLOCK_BYTES == 0
    ensures var b := addr / BLOCK_BYTES % BLOCKS;
            Masked(addr / 2) == Base(b) && BlockOf(Base(b)) == b && Base(b + 1) <= CAPACITY_WORDS
  {
    var q := addr / BLOCK_BYTES;
    assert addr / 2 == q * BLOCK_WORDS;
    assert q * BLOCK_WORDS == q / BLOCKS * CAPACITY_WORDS + q % BLOCKS * BLOCK_WORDS;
  }

  /** The block after the last one erased, within the device. */
  function Upto(block: nat): nat {
    if block < BLOCKS then block else BLOCKS
  }

  lemma BlockAddress(block: nat, end: nat)
    requires block < end
    ensures block * BLOCK_BYTES % BLOCK_BYTES == 0 && block * BLOCK_BYTES / BLOCK_BYTES == block
    ensures Base(block % BLOCKS + 1) <= CAPACITY_WORDS && (end <= BLOCKS ==> Base(block + 1) <= Base(end))
  {
  }

  lemma EraseNext(words: seq<Word>, start: nat, block: nat)
    requires |words| == CAPACITY_WORDS && start <= block && (block < BLOCKS || start == 0)
    ensures var b := block % BLOCKS;
            Erased(Erased(words, Base(start), Base(Upto(block))), Base(b), Base(b + 1))
            == Erased(words, Base(start), Base(Upto(block + 1)))
  {
  }

  /** The size of the next chunk: at most the buffer, and up to the block's end. */
  function ChunkWords(byteAddr: nat, remaining: nat): nat {
    var chunk := if remaining > 2 * BUFFER_WORDS then 2 * BUFFER_WORDS else remaining;
    var toEnd := BLOCK_BYTES - byteAddr % BLOCK_BYTES;
    ((if chunk > toEnd then toEnd else chunk) + 1) / 2
  }

  /** A chunk fits the buffer and one block of the erased range. */
  lemma ChunkFits(addr: nat, len: nat, offset: nat)
    requires offset % 2 == 0 && offset < len && addr + len <= CAPACITY
    ensures var n, a, b := ChunkWords(addr + offset, len - offset), (addr + offset) / 2, (addr + offset) / BLOCK_BYTES;
            && 0 < n <= BUFFER_WORDS && a == addr / 2 + offset / 2 && offset + 2 * n <= len + 1
            && Base(b) <= a && a + n <= Base(b + 1) <= CAPACITY_WORDS
            && FirstWord(addr) <= Base(b) && Base(b + 1) <= EndWord(addr, len)
            && b < 0xFFFFFFFF && BlockOf(Base(b)) == b
  {
  }

  lemma AgreeSelf(v: seq<Word>, lo: nat, hi: nat)
    ensures AgreeOutside(v, v, lo, hi)
  {
  }

  lemma AgreeStep(u: seq<Word>, v: seq<Word>, w: seq<Word>, lo: nat, hi: nat, lo': nat, hi': nat)
    requires AgreeOutside(u, v, lo, hi) && AgreeOutside(v, w, lo', hi') && lo <= lo' && hi' <= hi
    ensures AgreeOutside(u, w, lo, hi)
  {
  }

  /** The words after the first `k` are still erased. */
  lemma StillErased(words: seq<Word>, at: nat, data: seq<bv8>, k: nat, n: nat)
    requires 2 * (k + n) <= |data| + 1 && at + k + n <= |words|
    requires forall i :: at <= i < at + NumWords(|data|) && i < |words| ==> words[i] == ONES
    ensures forall i :: at + k <= i < at + k + n ==> Placed(words, at, WordsOf(data, 0, k))[i] == ONES
  {
  }

  lemma PlacedNone(words: seq<Word>, at: nat, data: seq<bv8>)
    ensures words == Placed(words, at, WordsOf(data, 0, 0))
  {
  }

  lemma PlacedNext(words: seq<Word>, at: nat, data: seq<bv8>, k: nat, n: nat)
    requires 2 * (k + n) <= |data| + 1
    ensures Placed(Placed(words, at, WordsOf(data, 0, k)), at + k, WordsOf(data, k, k + n))
         == Placed(words, at, WordsOf(data, 0, k + n))
  {
  }

  /** The words of the data lie in the blocks that are erased. */
  lemma RangeErased(addr: nat, len: nat)
    requires addr + len <= CAPACITY
    ensures var end := (addr + len + TWO_32 - 1) % TWO_32 / BLOCK_BYTES + 1;
            && addr / BLOCK_BYTES <= end && (end <= BLOCKS || addr == 0)
            && Base(Upto(end)) == EndWord(addr, len)
    ensures FirstWord(addr) <= addr / 2 && EndWord(addr, len) <= CAPACITY_WORDS
    ensures len > 0 ==> addr / 2 + NumWords(len) <= EndWord(addr, len)
  {
  }

  /** The buffer with `left` words to come. */
  function Filling(b: nat, left: nat, got: seq<BusWrite>): Mode {
    if left == 0 then Full(b, got) else Fill(b, left, got)
  }

  lemma {:induction false} BurstWritesSnoc(addr: nat, words: seq<Word>, w: Word)
    ensures BurstWrites(addr, words + [w]) == BurstWrites(addr, words) + [BusWrite(addr + |words|, w)]
    decreases |words|
  {
    if words == [] {
    } else {
      assert (words + [w])[1..] == words[1..] + [w];
      BurstWritesSnoc(addr + 1, words[1..], w);
    }
  }

  lemma ReadNone(words: seq<Word>, addr: nat)
    requires addr <= 2 * |words|
    ensures ReadBack(words, addr, 0) == []
  {
  }

  /** The two bytes of the next word. */
  lemma ReadNext(c: Chip, addr: nat, i: nat, len: nat)
    requires c.mode.Array? && addr + len <= 2 * |c.words| && i < len && i % 2 == 0
    ensures var w := Drives(c, (addr + i) / 2);
            && ReadBack(c.words, addr, i + 1) == ReadBack(c.words, addr, i) + [First(w)]
            && (i + 1 < len ==> ReadBack(c.words, addr, i + 2) == ReadBack(c.words, addr, i) + [First(w)] + [Second(w)])
  {
    hide First, Second;
    assert (addr + i) / 2 == addr / 2 + i / 2;
  }

  lemma OneWrite(c: Chip, addr: nat, data: Word, o: Outcome)
    requires Legal(c, addr, data)
    ensures LegalAll(c, [BusWrite(addr, data)], o)
    ensures BusAll(c, [BusWrite(addr, data)], o) == Bus(c, addr, data, o)
  {
    hide BusNumber, LegalNumber;
    var d := Bus(c, addr, data, o);
    assert LegalAll(d, [], o);
  }
}
