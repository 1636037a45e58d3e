/**
 The BPI-over-JTAG bridge: the packets `BPIFlash` shifts through USER1, and the
 state machine in the FPGA that turns them into bus cycles of the parallel flash.

 The machine is the one of `bpiOverJtag_core.v`, clock by clock. Against it, a
 write packet is proved to perform exactly the bus write it was built from, a
 burst packet exactly the writes of the word-by-word packets it replaces, and a
 read packet to return the flash word at the bit offset the host extracts it from.
 */
module BpiBridge {
  import Bits

  /** A 16-bit word on the flash data bus, DQ[0] first. */
  type Word = w: seq<bool> | |w| == 16 witness seq(16, _ => false)

  datatype BusWrite = BusWrite(addr: nat, data: Word)

  const ADDR_BITS := 25
  const CMD_WRITE := 1
  const CMD_READ := 2
  const CMD_BURST_WRITE := 4
  const EXEC_WAIT := 20

  // ---------------------------------------------------------------------
  // The bridge
  // ---------------------------------------------------------------------

  datatype Phase =
    | Idle | RecvCmd | RecvAddr | RecvData | Exec | SendData | Done
    | BurstRecvCnt | BurstData | BurstExec

  /** The registers, least significant bit first; `writes` collects the write
      pulses given to the flash. */
  datatype Bridge = Bridge(
    phase: Phase, bitCnt: nat, cmd: seq<bool>, addr: seq<bool>, data: seq<bool>, rd: seq<bool>,
    wait: nat, burst: seq<bool>, bpiAddr: seq<bool>, writes: seq<BusWrite>)

  predicate Shaped(b: Bridge) {
    && |b.cmd| == 4 && |b.addr| == ADDR_BITS && |b.data| == 16 && |b.rd| == 16 && |b.burst| == 16
    && |b.bpiAddr| == ADDR_BITS
  }

  /** `{tdi, reg[n:1]}`. */
  function ShiftIn(reg: seq<bool>, tdi: bool): (r: seq<bool>)
    requires reg != []
    ensures |r| == |reg|
  {
    reg[1..] + [tdi]
  }

  function Increment(a: seq<bool>): (r: seq<bool>)
    ensures |r| == |a|
  {
    Bits.Digits(Bits.Number(a) + 1, |a|)
  }

  function Decrement(a: seq<bool>): (r: seq<bool>)
    ensures |r| == |a|
  {
    Bits.Digits(Bits.Number(a) + Bits.Pow2(|a|) - 1, |a|)
  }

  /** The write strobe ends, and the flash takes the word, when the wait counter
      leaves the 6..14 window. */
  function Pulse(b: Bridge): seq<BusWrite>
    requires Shaped(b)
  {
    if b.wait == 5 then [BusWrite(Bits.Number(b.bpiAddr), b.data)] else []
  }

  /** One DRCK edge with the packet bit `tdi`; `dq` is what the flash drives. */
  function Tick(b: Bridge, tdi: bool, dq: seq<bool> -> Word): (r: Bridge)
    requires Shaped(b)
    ensures Shaped(r)
  {
    match b.phase
    case Idle => b.(bitCnt := 3, phase := if tdi then RecvCmd else Idle)
    case RecvCmd =>
      var b' := b.(cmd := ShiftIn(b.cmd, tdi));
      if b.bitCnt == 0 then b'.(bitCnt := 24, phase := RecvAddr) else b'.(bitCnt := b.bitCnt - 1)
    case RecvAddr =>
      var b' := b.(addr := ShiftIn(b.addr, tdi));
      if b.bitCnt != 0 then b'.(bitCnt := b.bitCnt - 1)
      else
        var c := b'.(bpiAddr := ShiftIn(b.addr, tdi));
        if Bits.Number(b.cmd) == 1 then c.(bitCnt := 15, phase := RecvData)
        else if Bits.Number(b.cmd) == 4 then c.(bitCnt := 15, phase := BurstRecvCnt)
        else c.(bitCnt := 0, wait := 20, phase := Exec)
    case RecvData =>
      var b' := b.(data := ShiftIn(b.data, tdi));
      if b.bitCnt == 0 then b'.(wait := 20, phase := Exec) else b'.(bitCnt := b.bitCnt - 1)
    case Exec =>
      var b' := b.(rd := if b.wait == 10 && Bits.Number(b.cmd) == 2 then dq(b.bpiAddr) else b.rd,
                   writes := b.writes + if Bits.Number(b.cmd) == 1 then Pulse(b) else []);
      if b.wait == 0 then b'.(bitCnt := 15, phase := SendData) else b'.(wait := b.wait - 1)
    case SendData =>
      var b' := b.(rd := ShiftIn(b.rd, true));
      if b.bitCnt == 0 then b'.(phase := Done) else b'.(bitCnt := b.bitCnt - 1)
    case Done => b
    case BurstRecvCnt =>
      var b' := b.(burst := ShiftIn(b.burst, tdi));
      if b.bitCnt == 0 then b'.(bitCnt := 15, phase := BurstData) else b'.(bitCnt := b.bitCnt - 1)
    case BurstData =>
      var b' := b.(data := ShiftIn(b.data, tdi));
      if b.bitCnt == 0 then b'.(bpiAddr := b.addr, wait := 20, phase := BurstExec)
      else b'.(bitCnt := b.bitCnt - 1)
    case BurstExec =>
      var b' := b.(writes := b.writes + Pulse(b));
      if b.wait != 0 then b'.(wait := b.wait - 1)
      else if Bits.Number(b.burst) == 1 then b'.(burst := Decrement(b.burst), phase := Done)
      else b'.(burst := Decrement(b.burst), addr := Increment(b.addr), bitCnt := 15, phase := BurstData)
  }

  function Run(b: Bridge, bits: seq<bool>, dq: seq<bool> -> Word): (r: Bridge)
    requires Shaped(b)
    ensures Shaped(r)
    decreases |bits|
  {
    if bits == [] then b else Run(Tick(b, bits[0], dq), bits[1..], dq)
  }

  /** The bits that come back while a packet goes in. */
  function Tdo(b: Bridge, bits: seq<bool>, dq: seq<bool> -> Word): (r: seq<bool>)
    requires Shaped(b)
    ensures |r| == |bits|
    decreases |bits|
  {
    if bits == [] then [] else [b.rd[0]] + Tdo(Tick(b, bits[0], dq), bits[1..], dq)
  }

  /** Capture-DR with USER1 selected resets the machine; the registers keep
      whatever they held. */
  predicate Ready(b: Bridge) {
    Shaped(b) && b.phase == Idle && b.writes == []
  }

  // ---------------------------------------------------------------------
  // The packets
  // ---------------------------------------------------------------------

  /** Start bit, command, address. */
  function Header(cmd: nat, addr: nat): (r: seq<bool>)
    ensures |r| == 30
  {
    [true] + Bits.Digits(cmd, 4) + Bits.Digits(addr, ADDR_BITS)
  }

  function Zeros(n: nat): (r: seq<bool>)
    ensures |r| == n
  {
    Bits.Repeat(false, n)
  }

  /** `bpi_write`, `bpi_write_no_flush`: 46 bits and 20 clocks to execute. */
  function WritePacket(addr: nat, data: Word): (r: seq<bool>)
    ensures |r| == 66
  {
    Header(CMD_WRITE, addr) + (data + Zeros(20))
  }

  /** `bpi_read`: 30 bits, then 37 clocks to execute and shift out. */
  function ReadPacket(addr: nat): (r: seq<bool>)
    ensures |r| == 67
  {
    Header(CMD_READ, addr) + Zeros(37)
  }

  /** The words of a burst, each followed by 21 clocks. */
  function BurstWords(words: seq<Word>): (r: seq<bool>)
    ensures |r| == 37 * |words|
  {
    if words == [] then [] else words[0] + Zeros(21) + BurstWords(words[1..])
  }

  function BurstPacket(addr: nat, words: seq<Word>): (r: seq<bool>)
    ensures |r| == 46 + 37 * |words|
  {
    Header(CMD_BURST_WRITE, addr) + (Bits.Digits(|words|, 16) + BurstWords(words))
  }

  // ---------------------------------------------------------------------
  // Running the machine
  // ---------------------------------------------------------------------

  lemma {:induction false} RunAppend(b: Bridge, x: seq<bool>, y: seq<bool>, dq: seq<bool> -> Word)
    requires Shaped(b)
    ensures Run(b, x + y, dq) == Run(Run(b, x, dq), y, dq)
    ensures Tdo(b, x + y, dq) == Tdo(b, x, dq) + Tdo(Run(b, x, dq), y, dq)
    decreases |x|
  {
    hide Tick;
    if x == [] {
      assert x + y == y;
    } else {
      assert (x + y)[1..] == x[1..] + y;
      RunAppend(Tick(b, x[0], dq), x[1..], y, dq);
    }
  }

  /** A register after shifting in more bits. */
  function Shifted(reg: seq<bool>, bits: seq<bool>): (r: seq<bool>)
    requires |bits| <= |reg|
    ensures |r| == |reg|
    ensures |bits| == |reg| ==> r == bits
  {
    reg[|bits|..] + bits
  }

  lemma ShiftedStep(reg: seq<bool>, bits: seq<bool>)
    requires 0 < |bits| <= |reg|
    ensures Shifted(ShiftIn(reg, bits[0]), bits[1..]) == Shifted(reg, bits)
  {
  }

  lemma {:induction false} ReceiveCmd(b: Bridge, bits: seq<bool>, dq: seq<bool> -> Word)
    requires Shaped(b) && b.phase == RecvCmd && 0 < |bits| == b.bitCnt + 1 <= 4
    ensures Run(b, bits, dq) == b.(cmd := Shifted(b.cmd, bits), bitCnt := 24, phase := RecvAddr)
    decreases |bits|
  {
    ShiftedStep(b.cmd, bits);
    if |bits| > 1 {
      ReceiveCmd(Tick(b, bits[0], dq), bits[1..], dq);
    }
  }

  /** Where the address leads, by command. */
  function AddressDone(b: Bridge, a: seq<bool>): Bridge {
    var c := b.(addr := a, bpiAddr := a);
    if Bits.Number(b.cmd) == CMD_WRITE then c.(bitCnt := 15, phase := RecvData)
    else if Bits.Number(b.cmd) == CMD_BURST_WRITE then c.(bitCnt := 15, phase := BurstRecvCnt)
    else c.(bitCnt := 0, wait := EXEC_WAIT, phase := Exec)
  }

  lemma {:induction false} ReceiveAddr(b: Bridge, bits: seq<bool>, dq: seq<bool> -> Word)
    requires Shaped(b) && b.phase == RecvAddr && 0 < |bits| == b.bitCnt + 1 <= ADDR_BITS
    ensures Run(b, bits, dq) == AddressDone(b, Shifted(b.addr, bits))
    decreases |bits|
  {
    hide Bits.Number;
    ShiftedStep(b.addr, bits);
    if |bits| > 1 {
      ReceiveAddr(Tick(b, bits[0], dq), bits[1..], dq);
    } else {
      assert Shifted(ShiftIn(b.addr, bits[0]), []) == ShiftIn(b.addr, bits[0]);
    }
  }

  lemma {:induction false} ReceiveData(b: Bridge, bits: seq<bool>, dq: seq<bool> -> Word)
    requires Shaped(b) && b.phase == RecvData && 0 < |bits| == b.bitCnt + 1 <= 16
    ensures Run(b, bits, dq) == b.(data := Shifted(b.data, bits), bitCnt := 0, wait := EXEC_WAIT, phase := Exec)
    decreases |bits|
  {
    ShiftedStep(b.data, bits);
    if |bits| > 1 {
      ReceiveData(Tick(b, bits[0], dq), bits[1..], dq);
    }
  }

  lemma {:induction false} ReceiveCount(b: Bridge, bits: seq<bool>, dq: seq<bool> -> Word)
    requires Shaped(b) && b.phase == BurstRecvCnt && 0 < |bits| == b.bitCnt + 1 <= 16
    ensures Run(b, bits, dq) == b.(burst := Shifted(b.burst, bits), bitCnt := 15, phase := BurstData)
    decreases |bits|
  {
    ShiftedStep(b.burst, bits);
    if |bits| > 1 {
      ReceiveCount(Tick(b, bits[0], dq), bits[1..], dq);
    }
  }

  lemma {:induction false} ReceiveWord(b: Bridge, bits: seq<bool>, dq: seq<bool> -> Word)
    requires Shaped(b) && b.phase == BurstData && 0 < |bits| == b.bitCnt + 1 <= 16
    ensures Run(b, bits, dq)
         == b.(data := Shifted(b.data, bits), bitCnt := 0, bpiAddr := b.addr, wait := EXEC_WAIT, phase := BurstExec)
    decreases |bits|
  {
    ShiftedStep(b.data, bits);
    if |bits| > 1 {
      ReceiveWord(Tick(b, bits[0], dq), bits[1..], dq);
    }
  }

  /** The pulses of the next `n` wait cycles. */
  function Pulses(b: Bridge, n: nat): seq<BusWrite>
    requires Shaped(b) && n <= b.wait
  {
    if b.wait - n < 5 <= b.wait then [BusWrite(Bits.Number(b.bpiAddr), b.data)] else []
  }

  lemma {:induction false} ExecuteWrite(b: Bridge, n: nat, dq: seq<bool> -> Word)
    requires Shaped(b) && b.phase == Exec && n <= b.wait && Bits.Number(b.cmd) == CMD_WRITE
    ensures Run(b, Zeros(n), dq) == b.(wait := b.wait - n, writes := b.writes + Pulses(b, n))
    decreases n
  {
    hide Bits.Number;
    if n == 0 {
    } else {
      assert Zeros(n)[1..] == Zeros(n - 1);
      ExecuteWrite(Tick(b, false, dq), n - 1, dq);
    }
  }

  lemma {:induction false} ExecuteBurst(b: Bridge, n: nat, dq: seq<bool> -> Word)
    requires Shaped(b) && b.phase == BurstExec && n <= b.wait
    ensures Run(b, Zeros(n), dq) == b.(wait := b.wait - n, writes := b.writes + Pulses(b, n))
    decreases n
  {
    hide Bits.Number;
    if n == 0 {
    } else {
      assert Zeros(n)[1..] == Zeros(n - 1);
      ExecuteBurst(Tick(b, false, dq), n - 1, dq);
    }
  }

  lemma {:induction false} ExecuteRead(b: Bridge, n: nat, dq: seq<bool> -> Word)
    requires Shaped(b) && b.phase == Exec && n <= b.wait && Bits.Number(b.cmd) == CMD_READ
    ensures Run(b, Zeros(n), dq)
         == b.(wait := b.wait - n, rd := if b.wait - n < 10 <= b.wait then dq(b.bpiAddr) else b.rd)
    decreases n
  {
    hide Bits.Number;
    if n == 0 {
    } else {
      assert Zeros(n)[1..] == Zeros(n - 1);
      ExecuteRead(Tick(b, false, dq), n - 1, dq);
    }
  }

  lemma CommandNumbers()
    ensures Bits.Number(Bits.Digits(CMD_WRITE, 4)) == CMD_WRITE
    ensures Bits.Number(Bits.Digits(CMD_READ, 4)) == CMD_READ
    ensures Bits.Number(Bits.Digits(CMD_BURST_WRITE, 4)) == CMD_BURST_WRITE
  {
    assert Bits.Pow2(4) == 16;
    Bits.NumberDigits(CMD_WRITE, 4);
    Bits.NumberDigits(CMD_READ, 4);
    Bits.NumberDigits(CMD_BURST_WRITE, 4);
  }

  /** After the header the machine has the command and the address. */
  lemma ReceiveHeader(b: Bridge, cmd: nat, addr: nat, dq: seq<bool> -> Word)
    requires Ready(b)
    ensures var c := Run(b, Header(cmd, addr), dq);
            c == AddressDone(b.(cmd := Bits.Digits(cmd, 4)), Bits.Digits(addr, ADDR_BITS))
  {
    hide Bits.Digits, Bits.Number, Tick;
    var x, y := Bits.Digits(cmd, 4), Bits.Digits(addr, ADDR_BITS);
    RunAppend(b, [true] + x, y, dq);
    RunAppend(b, [true], x, dq);
    StartBit(b, dq);
    var b1 := Run(b, [true], dq);
    ReceiveCmd(b1, x, dq);
    var b2 := Run(b1, x, dq);
    ReceiveAddr(b2, y, dq);
  }

  lemma StartBit(b: Bridge, dq: seq<bool> -> Word)
    requires Ready(b)
    ensures Run(b, [true], dq) == b.(bitCnt := 3, phase := RecvCmd)
  {
    assert Run(b, [true], dq) == Run(Tick(b, true, dq), [], dq);
  }

  // ---------------------------------------------------------------------
  // What the packets do
  // ---------------------------------------------------------------------

  /** A write packet performs exactly the write it was built from. */
  lemma WritePacketWrites(b: Bridge, addr: nat, data: Word, dq: seq<bool> -> Word)
    requires Ready(b) && addr < Bits.Pow2(ADDR_BITS)
    ensures Run(b, WritePacket(addr, data), dq).writes == [BusWrite(addr, data)]
  {
    hide Bits.Digits, Bits.Number, Tick, Bits.Pow2, Run, Tdo, Header, Zeros;
    CommandNumbers();
    Bits.NumberDigits(addr, ADDR_BITS);
    ReceiveHeader(b, CMD_WRITE, addr, dq);
    var c := Run(b, Header(CMD_WRITE, addr), dq);
    RunAppend(b, Header(CMD_WRITE, addr), data + Zeros(20), dq);
    RunAppend(c, data, Zeros(20), dq);
    ReceiveData(c, data, dq);
    ExecuteWrite(Run(c, data, dq), 20, dq);
  }

  /** The writes of a burst: consecutive addresses, in order. */
  function BurstWrites(addr: nat, words: seq<Word>): (r: seq<BusWrite>)
    ensures |r| == |words|
    decreases |words|
  {
    if words == [] then [] else [BusWrite(addr, words[0])] + BurstWrites(addr + 1, words[1..])
  }

  lemma IncrementAddr(addr: nat)
    requires addr + 1 < Bits.Pow2(ADDR_BITS)
    ensures Increment(Bits.Digits(addr, ADDR_BITS)) == Bits.Digits(addr + 1, ADDR_BITS)
  {
    hide Bits.Digits, Bits.Number, Bits.Pow2;
    Bits.NumberDigits(addr, ADDR_BITS);
  }

  lemma DecrementCount(n: nat)
    requires 0 < n < Bits.Pow2(16)
    ensures Bits.Number(Bits.Digits(n, 16)) == n
    ensures Decrement(Bits.Digits(n, 16)) == Bits.Digits(n - 1, 16)
  {
    hide Bits.Digits, Bits.Number, Bits.Pow2;
    Bits.NumberDigits(n, 16);
    DigitsPeriodic(n - 1, 16);
  }

  lemma {:induction false} DigitsPeriodic(n: nat, k: nat)
    ensures Bits.Digits(n + Bits.Pow2(k), k) == Bits.Digits(n, k)
    decreases k
  {
    if k == 0 {
    } else {
      var p := Bits.Pow2(k - 1);
      assert (n + 2 * p) % 2 == n % 2 && (n + 2 * p) / 2 == n / 2 + p;
      DigitsPeriodic(n / 2, k - 1);
    }
  }

  /** One word of a burst: received, written, and on to the next or done. */
  lemma BurstWord(b: Bridge, addr: nat, n: nat, w: Word, dq: seq<bool> -> Word)
    requires Shaped(b) && b.phase == BurstData && b.bitCnt == 15
    requires b.addr == Bits.Digits(addr, ADDR_BITS) && b.burst == Bits.Digits(n, 16)
    requires 0 < n < Bits.Pow2(16) && addr + n <= Bits.Pow2(ADDR_BITS)
    ensures var c := Run(b, w + Zeros(21), dq);
            && c.writes == b.writes + [BusWrite(addr, w)]
            && (n == 1 ==> c.phase == Done)
            && (n > 1 ==> c.phase == BurstData && c.bitCnt == 15
                          && c.addr == Bits.Digits(addr + 1, ADDR_BITS) && c.burst == Bits.Digits(n - 1, 16))
  {
    hide Bits.Digits, Bits.Number, Bits.Pow2, Increment, Decrement, Tick, Run;
    Bits.NumberDigits(addr, ADDR_BITS);
    DecrementCount(n);
    if n > 1 { IncrementAddr(addr); }
    hide Zeros, Shifted;
    WordInParts(b, w, dq);
    ReceiveWord(b, w, dq);
    var c := Run(b, w, dq);
    ExecuteBurst(c, 20, dq);
    BurstTurn(Run(c, Zeros(20), dq), dq);
  }

  lemma WordInParts(b: Bridge, w: Word, dq: seq<bool> -> Word)
    requires Shaped(b)
    ensures Run(b, w + Zeros(21), dq) == Run(Run(Run(b, w, dq), Zeros(20), dq), [false], dq)
  {
    hide Run;
    assert Zeros(21) == Zeros(20) + [false];
    RunAppend(b, w, Zeros(21), dq);
    RunAppend(Run(b, w, dq), Zeros(20), [false], dq);
  }

  /** The transition cycle between two words. */
  lemma BurstTurn(d: Bridge, dq: seq<bool> -> Word)
    requires Shaped(d) && d.phase == BurstExec && d.wait == 0
    ensures Run(d, [false], dq)
         == if Bits.Number(d.burst) == 1 then d.(burst := Decrement(d.burst), phase := Done)
            else d.(burst := Decrement(d.burst), addr := Increment(d.addr), bitCnt := 15, phase := BurstData)
  {
    hide Bits.Number, Increment, Decrement;
    assert Run(d, [false], dq) == Run(Tick(d, false, dq), [], dq);
  }

  lemma {:induction false} BurstWordsWrite(b: Bridge, addr: nat, words: seq<Word>, dq: seq<bool> -> Word)
    requires words != [] ==> Shaped(b) && b.phase == BurstData && b.bitCnt == 15
    requires words != [] ==> b.addr == Bits.Digits(addr, ADDR_BITS) && b.burst == Bits.Digits(|words|, 16)
    requires Shaped(b) && |words| < Bits.Pow2(16) && addr + |words| <= Bits.Pow2(ADDR_BITS)
    ensures Run(b, BurstWords(words), dq).writes == b.writes + BurstWrites(addr, words)
    decreases |words|
  {
    hide Bits.Digits, Bits.Number, Bits.Pow2, Run, Tdo, Zeros, BurstWords, BurstWrites, Shaped;
    BurstStep(addr, words);
    if words == [] {
      RunNothing(b, dq);
    } else {
      BurstWord(b, addr, |words|, words[0], dq);
      var x, rest := words[0] + Zeros(21), BurstWords(words[1..]);
      RunAppend(b, x, rest, dq);
      BurstWordsWrite(Run(b, x, dq), addr + 1, words[1..], dq);
      var w := BusWrite(addr, words[0]);
      assert b.writes + [w] + BurstWrites(addr + 1, words[1..]) == b.writes + ([w] + BurstWrites(addr + 1, words[1..]));
    }
  }

  lemma BurstStep(addr: nat, words: seq<Word>)
    ensures words == [] ==> BurstWords(words) == [] && BurstWrites(addr, words) == []
    ensures words != [] ==>
              && BurstWords(words) == words[0] + Zeros(21) + BurstWords(words[1..])
              && BurstWrites(addr, words) == [BusWrite(addr, words[0])] + BurstWrites(addr + 1, words[1..])
  {
  }

  lemma RunNothing(b: Bridge, dq: seq<bool> -> Word)
    requires Shaped(b)
    ensures Run(b, [], dq) == b
  {
  }

  /** A burst packet performs exactly the writes of its words at consecutive
      addresses. */
  lemma BurstPacketWrites(b: Bridge, addr: nat, words: seq<Word>, dq: seq<bool> -> Word)
    requires Ready(b) && 0 < |words| < Bits.Pow2(16) && addr + |words| <= Bits.Pow2(ADDR_BITS)
    ensures Run(b, BurstPacket(addr, words), dq).writes == BurstWrites(addr, words)
  {
    hide Bits.Digits, Bits.Number, Tick, Bits.Pow2, BurstWords, Run, Header;
    CommandNumbers();
    ReceiveHeader(b, CMD_BURST_WRITE, addr, dq);
    var c := Run(b, Header(CMD_BURST_WRITE, addr), dq);
    var n := Bits.Digits(|words|, 16);
    RunAppend(b, Header(CMD_BURST_WRITE, addr), n + BurstWords(words), dq);
    RunAppend(c, n, BurstWords(words), dq);
    ReceiveCount(c, n, dq);
    BurstWordsWrite(Run(c, n, dq), addr, words, dq);
  }

  /** The writes of the software fallback: one packet per word. */
  function PacketWrites(b: Bridge, addr: nat, words: seq<Word>, dq: seq<bool> -> Word): seq<BusWrite>
    requires Ready(b)
    decreases |words|
  {
    if words == [] then []
    else Run(b, WritePacket(addr, words[0]), dq).writes + PacketWrites(b, addr + 1, words[1..], dq)
  }

  /** The fast path equals the slow path: one burst, or a packet for each word. */
  lemma {:induction false} BurstEqualsPackets(b: Bridge, addr: nat, words: seq<Word>, dq: seq<bool> -> Word)
    requires Ready(b) && |words| < Bits.Pow2(16) && addr + |words| <= Bits.Pow2(ADDR_BITS)
    ensures PacketWrites(b, addr, words, dq) == BurstWrites(addr, words)
    ensures words != [] ==> Run(b, BurstPacket(addr, words), dq).writes == PacketWrites(b, addr, words, dq)
    decreases |words|
  {
    hide Run, Bits.Pow2, WritePacket, BurstPacket;
    if words == [] {
    } else {
      WritePacketWrites(b, addr, words[0], dq);
      BurstEqualsPackets(b, addr + 1, words[1..], dq);
      BurstPacketWrites(b, addr, words, dq);
    }
  }

  lemma SendTick(b: Bridge, dq: seq<bool> -> Word)
    requires Shaped(b) && b.phase == SendData
    ensures var c := Tick(b, false, dq);
            && c.rd == b.rd[1..] + [true]
            && (b.bitCnt > 0 ==> c.phase == SendData && c.bitCnt == b.bitCnt - 1)
  {
  }

  lemma {:induction false} SendOut(b: Bridge, n: nat, dq: seq<bool> -> Word)
    requires Shaped(b) && b.phase == SendData && 0 < n == b.bitCnt + 1 <= 16
    ensures Tdo(b, Zeros(n), dq) == b.rd[..n]
    decreases n
  {
    hide Tick;
    assert Zeros(n)[1..] == Zeros(n - 1);
    SendTick(b, dq);
    var c := Tick(b, false, dq);
    if n > 1 {
      SendOut(c, n - 1, dq);
      assert c.rd[..n - 1] == b.rd[1..n];
    }
    assert b.rd[..n] == [b.rd[0]] + b.rd[1..n];
  }

  /** Where the host looks for the answer to a read. */
  const READ_OFFSET := 51

  /** The word the host takes from bits 51 to 66 of the answer is the flash word at
      the packet's address, and nothing is written. */
  lemma ReadPacketReads(b: Bridge, addr: nat, dq: seq<bool> -> Word)
    requires Ready(b) && addr < Bits.Pow2(ADDR_BITS)
    ensures Tdo(b, ReadPacket(addr), dq)[READ_OFFSET..READ_OFFSET + 16] == dq(Bits.Digits(addr, ADDR_BITS))
    ensures Run(b, ReadPacket(addr), dq).writes == []
  {
    hide Bits.Digits, Bits.Number, Bits.Pow2, Tick, Run, Tdo;
    CommandNumbers();
    ReceiveHeader(b, CMD_READ, addr, dq);
    var h := Header(CMD_READ, addr);
    var c := Run(b, h, dq);
    assert Zeros(37) == Zeros(20) + ([false] + Zeros(16));
    RunAppend(b, h, Zeros(37), dq);
    RunAppend(c, Zeros(20), [false] + Zeros(16), dq);
    ExecuteRead(c, 20, dq);
    var d := Run(c, Zeros(20), dq);
    RunAppend(d, [false], Zeros(16), dq);
    LastWait(d, dq);
    var e := Run(d, [false], dq);
    SendOut(e, 16, dq);
    SendWritesNothing(e, 16, dq);
    TailOfFour(Tdo(b, h, dq), Tdo(c, Zeros(20), dq), Tdo(d, [false], dq), Tdo(e, Zeros(16), dq));
  }

  lemma TailOfFour(w: seq<bool>, x: seq<bool>, y: seq<bool>, z: seq<bool>)
    requires |w| == 30 && |x| == 20 && |y| == 1 && |z| == 16
    ensures (w + (x + (y + z)))[READ_OFFSET..READ_OFFSET + 16] == z
  {
  }

  lemma LastWait(d: Bridge, dq: seq<bool> -> Word)
    requires Shaped(d) && d.phase == Exec && d.wait == 0 && Bits.Number(d.cmd) == CMD_READ
    ensures Run(d, [false], dq) == d.(bitCnt := 15, phase := SendData)
  {
    hide Bits.Number;
    assert Run(d, [false], dq) == Run(Tick(d, false, dq), [], dq);
  }

  lemma {:induction false} SendWritesNothing(b: Bridge, n: nat, dq: seq<bool> -> Word)
    requires Shaped(b) && (b.phase == SendData || b.phase == Done)
    ensures Run(b, Zeros(n), dq).writes == b.writes
    decreases n
  {
    if n == 0 {
    } else {
      assert Zeros(n)[1..] == Zeros(n - 1);
      SendWritesNothing(Tick(b, false, dq), n - 1, dq);
    }
  }

  // ---------------------------------------------------------------------
  // How the host builds them
  // ---------------------------------------------------------------------

  lemma {:induction false} DigitsJoin(a: nat, k: nat, b: nat, m: nat)
    requires a < Bits.Pow2(k)
    ensures Bits.Digits(a + Bits.Pow2(k) * b, k + m) == Bits.Digits(a, k) + Bits.Digits(b, m)
    decreases k
  {
    if k == 0 {
      assert Bits.Pow2(0) * b == b;
    } else {
      hide Bits.Digits;
      var p := Bits.Pow2(k - 1);
      var n := a + Bits.Pow2(k) * b;
      Twice(p, b);
      HalfOfSum(a, p * b);
      DigitsJoin(a / 2, k - 1, b, m);
      OneMoreDigit(n, k + m);
      OneMoreDigit(a, k);
    }
  }

  lemma Twice(p: nat, b: nat)
    ensures 2 * p * b == 2 * (p * b)
  {
  }

  lemma HalfOfSum(a: nat, q: nat)
    ensures (a + 2 * q) % 2 == a % 2 && (a + 2 * q) / 2 == a / 2 + q
  {
  }

  lemma OneMoreDigit(n: nat, k: nat)
    requires k > 0
    ensures Bits.Digits(n, k) == [n % 2 == 1] + Bits.Digits(n / 2, k - 1)
  {
  }

  /** `packet = 1 | cmd << 1 | (addr & 0x1ffffff) << 5 | data << 30`. */
  function PacketNumber(cmd: nat, addr: nat, data: nat): nat {
    1 + Bits.Pow2(1) * (cmd + Bits.Pow2(4) * (addr % Bits.Pow2(ADDR_BITS) + Bits.Pow2(ADDR_BITS) * data))
  }

  /** The 64-bit number, sent least significant bit first with zeros after it, is
      the write packet. */
  lemma WritePacketIsNumber(addr: nat, data: Word)
    requires addr < Bits.Pow2(ADDR_BITS)
    ensures Bits.Digits(PacketNumber(CMD_WRITE, addr, Bits.Number(data)), 66) == WritePacket(addr, data)
  {
    hide Bits.Digits, Bits.Pow2, Bits.Number, Bits.Repeat;
    var d := Bits.Number(data);
    assert Bits.Pow2(1) == 2 && Bits.Pow2(4) == 16 by { SmallPowers(); }
    assert addr % Bits.Pow2(ADDR_BITS) == addr;
    var inner := addr + Bits.Pow2(ADDR_BITS) * d;
    var outer := CMD_WRITE + Bits.Pow2(4) * inner;
    DigitsJoin(1, 1, outer, 65);
    DigitsJoin(CMD_WRITE, 4, inner, 61);
    DigitsJoin(addr, ADDR_BITS, d, 36);
    DigitsOfWord(data);
    OneDigit();
  }

  /** And so is the read packet, whose number has no data. */
  lemma ReadPacketIsNumber(addr: nat)
    requires addr < Bits.Pow2(ADDR_BITS)
    ensures Bits.Digits(PacketNumber(CMD_READ, addr, 0), 67) == ReadPacket(addr)
  {
    hide Bits.Digits, Bits.Pow2, Bits.Number, Bits.Repeat;
    assert Bits.Pow2(1) == 2 && Bits.Pow2(4) == 16 by { SmallPowers(); }
    assert addr % Bits.Pow2(ADDR_BITS) == addr;
    assert addr + Bits.Pow2(ADDR_BITS) * 0 == addr;
    DigitsJoin(1, 1, CMD_READ + Bits.Pow2(4) * addr, 66);
    DigitsJoin(CMD_READ, 4, addr, 62);
    DigitsJoin(addr, ADDR_BITS, 0, 37);
    ZeroDigits(37);
    OneDigit();
  }

  lemma SmallPowers()
    ensures Bits.Pow2(1) == 2 && Bits.Pow2(4) == 16
  {
    assert Bits.Pow2(2) == 4;
  }

  lemma OneDigit()
    ensures Bits.Digits(1, 1) == [true]
  {
  }

  lemma DigitsOfWord(data: Word)
    ensures Bits.Digits(Bits.Number(data), 36) == data + Zeros(20)
  {
    hide Bits.Digits, Bits.Number, Bits.Pow2;
    var d := Bits.Number(data);
    Bits.NumberBelow(data);
    DigitsJoin(d, 16, 0, 20);
    Bits.DigitsNumber(data);
    ZeroDigits(20);
    assert d + Bits.Pow2(16) * 0 == d;
  }

  lemma {:induction false} ZeroDigits(k: nat)
    ensures Bits.Digits(0, k) == Zeros(k)
    decreases k
  {
    if k == 0 {
    } else {
      ZeroDigits(k - 1);
    }
  }

  /** Append bits to a packed buffer with `set_bit`, as the burst builder does. */
  method AppendBits(tx: array<bv8>, pos: nat, bits: seq<bool>) returns (next: nat)
    requires pos + |bits| <= 8 * tx.Length && Bits.ClearFrom(tx[..], pos)
    modifies tx
    ensures next == pos + |bits| && Bits.ClearFrom(tx[..], next)
    ensures Bits.Take(tx[..], next) == Bits.Take(old(tx[..]), pos) + bits
  {
    hide Bits.ClearFrom, Bits.Mask, Bits.Take;
    next := pos;
    ghost var was := Bits.Take(tx[..], pos);
    assert was + bits[..0] == was;
    for i := 0 to |bits|
      invariant next == pos + i && Bits.ClearFrom(tx[..], next)
      invariant Bits.Take(tx[..], next) == was + bits[..i]
    {
      ghost var before := tx[..];
      Bits.PushAppends(before, next, bits[i]);
      if bits[i] {
        tx[next / 8] := tx[next / 8] | Bits.Mask(next % 8);
      }
      assert tx[..] == Bits.Push(before, next, bits[i]);
      assert bits[..i + 1] == bits[..i] + [bits[i]];
      next := next + 1;
    }
    assert bits[..|bits|] == bits;
  }

  /** Start bit, command, address and count. */
  method AppendHeader(tx: array<bv8>, addr: nat, count: nat) returns (pos: nat)
    requires 46 <= 8 * tx.Length && Bits.ClearFrom(tx[..], 0)
    modifies tx
    ensures pos == 46 && Bits.ClearFrom(tx[..], pos)
    ensures Bits.Take(tx[..], pos) == Header(CMD_BURST_WRITE, addr) + Bits.Digits(count, 16)
  {
    hide Bits.ClearFrom, Bits.Take, Bits.Digits;
    TakeNothing(tx[..]);
    pos := AppendBits(tx, 0, [true]);
    pos := AppendBits(tx, pos, Bits.Digits(CMD_BURST_WRITE, 4));
    pos := AppendBits(tx, pos, Bits.Digits(addr, ADDR_BITS));
    pos := AppendBits(tx, pos, Bits.Digits(count, 16));
  }

  /** A data word and its idle bits. */
  method AppendWord(tx: array<bv8>, pos: nat, w: Word) returns (next: nat)
    requires pos + 37 <= 8 * tx.Length && Bits.ClearFrom(tx[..], pos)
    modifies tx
    ensures next == pos + 37 && Bits.ClearFrom(tx[..], next)
    ensures Bits.Take(tx[..], next) == Bits.Take(old(tx[..]), pos) + (w + Zeros(21))
  {
    hide Bits.ClearFrom, Bits.Take, Zeros;
    next := AppendBits(tx, pos, w);
    SkipZeros(tx[..], next, 21);
    next := next + 21;
  }

  /** `bpi_burst_write` up to the shift: header, count, and each word with its 21
      idle bits, packed into bytes. */
  method BuildBurst(addr: nat, words: seq<Word>) returns (tx: array<bv8>, totalBits: nat)
    ensures fresh(tx) && totalBits == 46 + 37 * |words| && totalBits <= 8 * tx.Length
    ensures Bits.Take(tx[..], totalBits) == BurstPacket(addr, words)
  {
    hide Bits.ClearFrom, Bits.Take, Bits.Digits, BurstWords, Header, Zeros;
    totalBits := 46 + 37 * |words|;
    tx := new bv8[(totalBits + 7) / 8](_ => 0);
    Bits.ZeroBytesClear(tx[..]);
    var pos := AppendHeader(tx, addr, |words|);
    ghost var head := Header(CMD_BURST_WRITE, addr) + Bits.Digits(|words|, 16);
    NoWords();
    for w := 0 to |words|
      invariant pos == 46 + 37 * w && Bits.ClearFrom(tx[..], pos)
      invariant Bits.Take(tx[..], pos) == head + BurstWords(words[..w])
    {
      pos := AppendWord(tx, pos, words[w]);
      BurstWordsSnoc(words[..w], words[w]);
      assert words[..w + 1] == words[..w] + [words[w]];
    }
    assert words[..|words|] == words;
  }

  lemma TakeNothing(s: seq<bv8>)
    ensures Bits.Take(s, 0) == []
  {
  }

  lemma NoWords()
    ensures BurstWords([]) == []
  {
  }

  lemma SkipZeros(s: seq<bv8>, pos: nat, n: nat)
    requires pos + n <= 8 * |s| && Bits.ClearFrom(s, pos)
    ensures Bits.Take(s, pos + n) == Bits.Take(s, pos) + Zeros(n)
    ensures Bits.ClearFrom(s, pos + n)
  {
    hide Bits.Bit;
  }

  lemma {:induction false} BurstWordsSnoc(words: seq<Word>, w: Word)
    ensures BurstWords(words + [w]) == BurstWords(words) + (w + Zeros(21))
    decreases |words|
  {
    if words == [] {
    } else {
      assert (words + [w])[1..] == words[1..] + [w];
      BurstWordsSnoc(words[1..], w);
    }
  }
}
