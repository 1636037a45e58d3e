/**
 The SD card driver of the stage-2 loader: commands, initialisation, block reads
 and block writes over SPI, byte by byte.

 Against any card whatever, every call is proved to stop within a fixed number of
 exchanges and to leave chip-select released. Against a card that follows section
 7.2 of the SD Physical Layer Simplified Specification, initialisation finds out
 how the card is addressed, a successful write stores exactly the block at its
 address and nothing else, and a successful read returns exactly what is stored.
 */
module SdDriver {
  import Bits
  import opened SdBlob
  import opened U32

  const TOKEN: bv8 := 0xFE
  const POLL := 65536
  const TRIES := 2000

  // ---------------------------------------------------------------------
  // A conforming card
  // ---------------------------------------------------------------------

  datatype Phase =
    | Idle
    | Command(got: seq<bv8>)
    | AwaitToken(lba: nat)
    | Receive(lba: nat, got: seq<bv8>)

  /** `app` says that the last command was CMD55, `ready` that the card has left its
      idle state, and `len512` that a card addressed in bytes was told its block
      length. `warmup` counts the ACMD41 the card still answers with idle; `out` holds
      the bytes it is about to send; otherwise it sends 0xFF. */
  datatype Card = Card(
    sectors: seq<Sector>, hc: bool, v2: bool,
    app: bool, ready: bool, len512: bool,
    warmup: nat, phase: Phase, out: seq<bv8>)

  /** What is left open: how long the card takes, whether it accepts a block, the CRC
      bytes, which the driver ignores, and the undefined bits of the data response. */
  datatype Behaviour = Behaviour(ncr: nat, nac: nat, busy: nat, accept: bool, high: bool, crc: seq<bv8>)

  /** A command is answered within eight bytes. */
  predicate Lawful(ch: Behaviour) {
    ch.ncr <= 8 && |ch.crc| == 2
  }

  /** A card that is never slower than the driver waits, and takes every block. */
  predicate Prompt(ch: Behaviour) {
    ch.nac < 65536 && ch.busy < 65536 && ch.accept
  }

  function Filler(b: bv8, n: nat): (r: seq<bv8>)
    ensures |r| == n
  {
    seq(n, _ => b)
  }

  /** The argument of a command frame: four bytes, most significant first. */
  function Argument(frame: seq<bv8>): nat
    requires |frame| == 6
  {
    FromBigEndian(frame[1..5])
  }

  /** SDHC cards are addressed in blocks, SDSC cards in bytes. */
  function Address(c: Card, arg: nat): nat {
    if c.hc then arg else arg / 512
  }

  /** The card takes block commands, and has the block. */
  predicate InRange(c: Card, arg: nat) {
    c.ready && (c.hc || (c.len512 && arg % 512 == 0)) && Address(c, arg) < |c.sectors|
  }

  /** Bit 30 of the argument of ACMD41: the host supports high capacity. A card that
      has it does not get ready for a host that does not. */
  predicate Hcs(arg: nat) {
    arg / 0x4000_0000 % 2 == 1
  }

  predicate Suits(hc: bool, arg: nat) {
    hc ==> Hcs(arg)
  }

  /** The two commands whose CRC is checked before it is switched off. */
  predicate CrcGood(op: bv8, arg: nat, crc: bv8) {
    (op == 0x40 ==> arg == 0 && crc == 0x95) && (op == 0x48 ==> arg == 0x1AA && crc == 0x87)
  }

  datatype Answer = Answer(r1: bv8, rest: seq<bv8>, phase: Phase)

  function Reply(c: Card, op: bv8, arg: nat, crc: bv8, ch: Behaviour): Answer {
    var idle: bv8 := if c.ready then 0 else 1;
    if !CrcGood(op, arg, crc) then Answer(0x09, [], Idle)
    else if op == 0x40 then Answer(0x01, [], Idle)
    else if op == 0x48 then if c.v2 then Answer(idle, [0, 0, 0x01, 0xAA], Idle) else Answer(0x05, [], Idle)
    else if op == 0x77 then Answer(idle, [], Idle)
    else if op == 0x69 then
      if !c.app then Answer(0x05, [], Idle)
      else Answer(if c.ready || (c.warmup == 0 && Suits(c.hc, arg)) then 0 else 1, [], Idle)
    else if op == 0x7A then Answer(idle, [if c.ready && c.hc then 0xC0 else 0x80, 0xFF, 0x80, 0], Idle)
    else if op == 0x50 then Answer(if c.ready then 0 else 0x05, [], Idle)
    else if op == 0x51 && InRange(c, arg) then
      Answer(0, Filler(0xFF, ch.nac) + [0xFE] + c.sectors[Address(c, arg)] + ch.crc, Idle)
    else if op == 0x58 && InRange(c, arg) then Answer(0, [], AwaitToken(Address(c, arg)))
    else Answer(0x20, [], Idle)
  }

  /** The card after a command. */
  function Spent(c: Card, op: bv8, arg: nat, crc: bv8): (r: Card)
    ensures r == c.(app := r.app, ready := r.ready, len512 := r.len512, warmup := r.warmup)
  {
    var d := c.(app := op == 0x77);
    if !CrcGood(op, arg, crc) then d
    else if op == 0x40 then d.(ready := false, len512 := false)
    else if op == 0x69 && c.app && Suits(c.hc, arg) && c.warmup > 0 then d.(warmup := c.warmup - 1)
    else if op == 0x69 && c.app && Suits(c.hc, arg) then d.(ready := true)
    else if op == 0x50 && c.ready && arg == 512 then d.(len512 := true)
    else d
  }

  /** The first byte of a command: start bit 0, transmission bit 1. */
  predicate IsStart(b: bv8) {
    b & 0xC0 == 0x40
  }

  function Drives(c: Card): bv8 {
    if c.out != [] then c.out[0] else 0xFF
  }

  /** One exchange of a selected card. */
  function Next(c: Card, tx: bv8, ch: Behaviour): Card {
    if c.out != [] then c.(out := c.out[1..])
    else
      match c.phase
      case Idle => if IsStart(tx) then c.(phase := Command([tx])) else c
      case Command(got) =>
        var all := got + [tx];
        if |all| != 6 then c.(phase := Command(all))
        else
          var a := Reply(c, all[0], Argument(all), all[5], ch);
          Spent(c, all[0], Argument(all), all[5]).(phase := a.phase, out := Filler(0xFF, ch.ncr) + [a.r1] + a.rest)
      case AwaitToken(lba) => if tx == 0xFE then c.(phase := Receive(lba, [])) else c
      case Receive(lba, got) =>
        var all := got + [tx];
        if |all| != 514 then c.(phase := Receive(lba, all)) else Finish(c, lba, all[..512], ch)
  }

  /** A block has arrived. */
  function Finish(c: Card, lba: nat, block: Sector, ch: Behaviour): Card {
    if ch.accept && lba < |c.sectors| then
      c.(sectors := c.sectors[lba := block], phase := Idle,
         out := [if ch.high then 0xE5 else 0x05] + Filler(0, ch.busy))
    else c.(phase := Idle, out := [if ch.high then 0xEB else 0x0B])
  }

  predicate Quiet(c: Card) {
    c.phase == Idle && c.out == []
  }

  // ---------------------------------------------------------------------
  // Bytes
  // ---------------------------------------------------------------------

  /** `r1 & 0x80`: not a response. */
  predicate High(b: bv8) {
    b & 0x80 != 0
  }

  /** `(resp & 0x1F) == 0x05`: data accepted. */
  predicate Accepted(b: bv8) {
    b & 0x1F == 0x05
  }

  lemma ByteFacts()
    ensures High(0xFF) && !High(0) && !High(1) && !High(5) && !High(9) && !High(0x20)
    ensures Accepted(0x05) && Accepted(0xE5) && !Accepted(0x0B) && !Accepted(0xEB)
    ensures !IsStart(0xFF)
  {
  }

  lemma ReplyIsResponse(c: Card, op: bv8, arg: nat, crc: bv8, ch: Behaviour)
    ensures var a := Reply(c, op, arg, crc, ch); !High(a.r1) && !a.phase.Receive? && !a.phase.Command?
  {
    hide High, InRange, Filler, Suits, CrcGood;
    ByteFacts();
  }

  /** The six bytes of a command, `0x40 | cmd` first. */
  function Frame(op: bv8, arg: nat, crc: bv8): (r: seq<bv8>)
    ensures |r| == 6
  {
    var p := PackU32(arg);
    [op, p[3], p[2], p[1], p[0], crc]
  }

  lemma FrameArgument(op: bv8, arg: nat, crc: bv8)
    requires arg < TWO_32
    ensures Argument(Frame(op, arg, crc)) == arg
  {
    hide PackU32, FromBigEndian;
    BigEndianRoundTrip(arg);
    assert Frame(op, arg, crc)[1..5] == BigEndian(arg);
  }

  // ---------------------------------------------------------------------
  // The driver
  // ---------------------------------------------------------------------

  class Sd {
    /** Chip-select, and the exchanges made so far. */
    var cs: bool
    var count: nat
    var card: Card
    var sdIsHc: bool
    /** Whether the card follows the model; otherwise it answers anything. */
    const conforming: bool
    /** Whether a conforming card is always prompt. */
    const prompt: bool

    constructor (card: Card, conforming: bool, prompt: bool)
      ensures !cs && count == 0 && this.card == card && this.conforming == conforming && this.prompt == prompt
    {
      cs, count, sdIsHc := false, 0, false;
      this.card, this.conforming, this.prompt := card, conforming, prompt;
    }

    method Xchg(tx: bv8) returns (rx: bv8, ghost ch: Behaviour)
      modifies this`count, this`card
      ensures count == old(count) + 1 && Lawful(ch) && (prompt ==> Prompt(ch))
      ensures conforming && cs ==> rx == Drives(old(card)) && card == Next(old(card), tx, ch)
      ensures !cs ==> card == old(card)
    {
      hide Next, Drives;
      count := count + 1;
      rx := *;
      var choice: Behaviour := *;
      if !Lawful(choice) || (prompt && !Prompt(choice)) {
        choice := Behaviour(0, 0, 0, true, false, [0, 0]);
      }
      if cs {
        rx := if conforming then Drives(card) else rx;
        card := Next(card, tx, choice);
      }
      ch := choice;
    }

    method Select()
      modifies this`cs
      ensures cs
    {
      cs := true;
    }

    /** Chip-select goes up, and the card gives up what it was doing. */
    method Release()
      modifies this`cs, this`card
      ensures !cs && Quiet(card) && card == old(card).(phase := Idle, out := [])
    {
      cs := false;
      card := card.(phase := Idle, out := []);
    }

    /** `n` exchanges whose answers nobody looks at. */
    method Skip(n: nat)
      modifies this`count, this`card
      ensures count == old(count) + n
      ensures conforming && old(Quiet(card)) ==> card == old(card)
    {
      hide Next, Drives;
      for i := 0 to n
        invariant count == old(count) + i && cs == old(cs)
        invariant conforming && old(Quiet(card)) ==> card == old(card)
      {
        ghost var c := card;
        var _, ch := Xchg(0xFF);
        if conforming && Quiet(c) && cs { QuietStays(c, ch); }
      }
    }

    /** `sd_cmd` up to the command's last byte. */
    method SendFrame(op: bv8, arg: nat, crc: bv8) returns (ghost ch: Behaviour)
      requires cs && arg < TWO_32
      modifies this`count, this`card
      ensures count == old(count) + 7 && Lawful(ch) && (prompt ==> Prompt(ch))
      ensures conforming && old(Quiet(card)) && IsStart(op) ==> card == Commanded(old(card), op, arg, crc, ch)
    {
      hide Next, Drives, Filler, Reply, PackU32, IsStart;
      ghost var c := card;
      var p := PackU32(arg);
      Skip(1);
      var _, c0 := Xchg(op);
      var _, c1 := Xchg(p[3]);
      var _, c2 := Xchg(p[2]);
      var _, c3 := Xchg(p[1]);
      var _, c4 := Xchg(p[0]);
      var _, c5 := Xchg(crc);
      ch := c5;
      if conforming && Quiet(c) && IsStart(op) {
        SixBytes(c, op, arg, crc, c0, c1, c2, c3, c4, c5);
      }
    }

    /** `sd_cmd`: the answer of a conforming card is its R1 byte, with what the card
        sends after it still to come. */
    method SdCmd(op: bv8, arg: nat, crc: bv8) returns (r1: bv8, ghost ch: Behaviour)
      requires cs && arg < TWO_32
      modifies this`count, this`card
      ensures old(count) + 8 <= count <= old(count) + 23 && Lawful(ch) && (prompt ==> Prompt(ch))
      ensures conforming && old(Quiet(card)) && IsStart(op) ==>
                var a := Reply(old(card), op, arg, crc, ch);
                r1 == a.r1 && card == Spent(old(card), op, arg, crc).(phase := a.phase, out := a.rest)
    {
      hide Next, Drives, Reply, Spent, Filler, High, PackU32, IsStart;
      ghost var c := card;
      ch := SendFrame(op, arg, crc);
      ghost var a, c1 := Reply(c, op, arg, crc, ch), Spent(c, op, arg, crc);
      ghost var follows := conforming && Quiet(c) && IsStart(op);
      ReplyIsResponse(c, op, arg, crc, ch);
      ByteFacts();
      r1 := 0xFF;
      var i := 0;
      while i < 16
        invariant 0 <= i <= 16 && count == old(count) + 7 + i
        invariant follows ==> i <= ch.ncr && card == Waiting(c1, a, ch.ncr - i)
        decreases 16 - i
      {
        ghost var n := ch.ncr - i;
        if follows { WaitingDrives(c1, a, n); }
        var rx, h := Xchg(0xFF);
        r1 := rx;
        if follows { WaitingNext(c1, a, n, h); }
        i := i + 1;
        if !High(r1) {
          break;
        }
      }
    }

    /** `n` bytes from the card. */
    method Collect(n: nat) returns (bytes: seq<bv8>)
      modifies this`count, this`card
      ensures |bytes| == n && count == old(count) + n
      ensures conforming && cs && n <= |old(card.out)| ==>
                bytes == old(card.out)[..n] && card == old(card).(out := old(card.out)[n..])
      ensures conforming && old(Quiet(card)) ==> card == old(card)
    {
      hide Next, Drives;
      bytes := [];
      for i := 0 to n
        invariant |bytes| == i && count == old(count) + i
        invariant conforming && cs && n <= |old(card.out)| ==>
                    bytes == old(card.out)[..i] && card == old(card).(out := old(card.out)[i..])
        invariant conforming && old(Quiet(card)) ==> card == old(card)
      {
        ghost var c := card;
        var rx, ch := Xchg(0xFF);
        bytes := bytes + [rx];
        if conforming && cs {
          if n <= |old(card.out)| {
            OutAt(old(card.out), i);
            OutNext(c, ch);
          }
          if Quiet(c) { QuietStays(c, ch); }
        }
      }
    }

    /** A command on its own: select, command, more bytes, one idle byte, release. */
    method Transaction(op: bv8, arg: nat, crc: bv8, n: nat) returns (r1: bv8, bytes: seq<bv8>, ghost ch: Behaviour)
      requires arg < TWO_32
      modifies this`cs, this`count, this`card
      ensures !cs && old(count) <= count <= old(count) + 24 + n && |bytes| == n && Lawful(ch)
      ensures conforming ==> Quiet(card)
      ensures conforming && old(Quiet(card)) && IsStart(op) ==>
                var a := Reply(old(card), op, arg, crc, ch);
                && r1 == a.r1 && (n <= |a.rest| ==> bytes == a.rest[..n])
                && (n <= |a.rest| || (a.rest == [] && a.phase == Idle) ==> card == Spent(old(card), op, arg, crc))
    {
      hide Next, Drives, Reply, Spent, IsStart;
      ghost var first := card;
      Select();
      r1, ch := SdCmd(op, arg, crc);
      ReplyIsResponse(first, op, arg, crc, ch);
      bytes := Collect(n);
      ghost var c := card;
      var _, h := Xchg(0xFF);
      KeepsStore(c, h);
      Release();
    }

    /** ACMD41 until the card leaves its idle state. */
    method ReadyLoop(arg: nat) returns (ret: int)
      requires arg < TWO_32 && !cs
      modifies this`cs, this`count, this`card
      ensures !cs && count <= old(count) + 94000
      ensures conforming && old(Quiet(card)) && !old(card.ready) ==>
                && card == old(card).(warmup := card.warmup, app := false, ready := ret == 0)
                && (ret == 0 <==> old(card.warmup) < 2000 && Suits(card.hc, arg))
      ensures ret == 0 || ret == -2 || ret == -3
    {
      hide Next, Drives, Reply, IsStart, Spent, Hcs;
      ghost var w := card.warmup;
      for tries := 0 to TRIES
        invariant count <= old(count) + 47 * tries && !cs
        invariant conforming && old(Quiet(card)) && !old(card.ready) ==>
                    if Suits(card.hc, arg)
                    then
                      && tries <= w
                      && card == old(card).(warmup := w - tries, app := tries == 0 && old(card.app))
                    else card == old(card).(app := tries == 0 && old(card.app))
      {
        var r1 := AppCommand(arg);
        ResponseBits();
        if r1 == 0x00 {
          return 0;
        }
        if ErrorBits(r1) {
          return -2;
        }
      }
      return -3;
    }

    method AppCommand(arg: nat) returns (r1: bv8)
      requires arg < TWO_32
      modifies this`cs, this`count, this`card
      ensures !cs && count <= old(count) + 47
      ensures conforming && old(Quiet(card)) && !old(card.ready) ==>
                r1 == (if card.ready then 0 else 1) && card == Asked(old(card), arg)
    {
      hide Next, Drives, Reply, Spent, IsStart, Hcs;
      StartFacts();
      ghost var c := card;
      Select();
      var _, c55 := SdCmd(0x77, 0, 0x65);
      AppFacts(c, 0, 0x65, c55);
      ghost var d := card;
      var r, c41 := SdCmd(0x69, arg, 0x77);
      AppFacts(d, arg, 0x77, c41);
      r1 := r;
      ghost var e := card;
      var _, h := Xchg(0xFF);
      KeepsStore(e, h);
      Release();
    }

    /** `sd_init`. Any card: bounded, and released. A conforming card keeps its
        contents; initialisation succeeds exactly if it is ready within the tries, and
        then it takes block commands and the driver knows how to address it. */
    method SdInit() returns (ret: int)
      modifies this
      ensures !cs && count <= old(count) + INIT_BOUND
      ensures conforming && old(Quiet(card)) ==>
                && card == old(card).(warmup := card.warmup, app := false, ready := card.ready, len512 := card.len512)
                && (ret == 0 <==> old(card.warmup) < 2000 && (card.hc ==> card.v2))
                && (ret == 0 ==> Usable(card, sdIsHc))
      ensures ret == 0 || ret == -1 || ret == -2 || ret == -3 || ret == -4
    {
      hide Reply, Spent, IsStart, High, Suits;
      StartFacts();
      sdIsHc := false;
      Release();
      Skip(16);
      ghost var c := card;
      var r1, _, c0 := Transaction(0x40, 0, 0x95, 0);
      ResetFacts(c, c0);
      if r1 != 0x01 {
        return -1;
      }
      c := card;
      var r8, r7, c8 := Transaction(0x48, 0x1AA, 0x87, 4);
      VersionFacts(c, c8);
      var v2Card := r8 == 0x01 && r7[2] == 0x01 && r7[3] == 0xAA;
      SuitsFacts(card.hc, v2Card);
      ret := ReadyLoop(if v2Card then 0x40000000 else 0);
      if ret != 0 {
        return;
      }
      ret := FindAddressing(v2Card);
    }

    /** End of `sd_init`: how the card is addressed. */
    method FindAddressing(v2Card: bool) returns (ret: int)
      requires !cs && !sdIsHc
      modifies this
      ensures !cs && count <= old(count) + 52 && (ret == 0 || ret == -4)
      ensures conforming && old(Quiet(card)) && old(card.ready) ==>
                && card == old(card).(app := false, len512 := card.len512)
                && ret == 0 && (v2Card == card.v2 && (card.hc ==> card.v2) ==> Usable(card, sdIsHc))
    {
      hide Reply, Spent, IsStart, High;
      StartFacts();
      ghost var c := card;
      if v2Card {
        var r58, ocr, c58 := Transaction(0x7A, 0, 0xFD, 4);
        OcrFacts(c, c58);
        if r58 == 0x00 && Ccs(ocr[0]) {
          sdIsHc := true;
        }
      }
      c := card;
      if !sdIsHc {
        var r16, _, c16 := Transaction(0x50, 512, 0x15, 0);
        LengthFacts(c, c16);
        if r16 != 0x00 {
          return -4;
        }
      }
      return 0;
    }

    /** Waiting for the start of a data block; `follows` says that the card is
        conforming and sends one after `nac` more bytes. */
    method PollToken(ghost follows: bool, ghost nac: nat, ghost rest: seq<bv8>) returns (found: bool)
      requires cs
      requires follows ==> conforming && card.out == Filler(0xFF, nac) + [TOKEN] + rest
      modifies this`count, this`card
      ensures old(count) <= count <= old(count) + POLL
      ensures follows ==> found == (nac < POLL)
      ensures follows ==> card == old(card).(out := if found then rest else card.out)
    {
      hide Next, Drives, Filler;
      var i := 0;
      while i < POLL
        invariant 0 <= i <= POLL && count == old(count) + i
        invariant follows ==> i <= nac && card == old(card).(out := Filler(0xFF, nac - i) + [TOKEN] + rest)
        decreases POLL - i
      {
        ghost var c := card;
        var tok, ch := Xchg(0xFF);
        if follows {
          TokenAhead(nac - i, rest);
          OutNext(c, ch);
        }
        i := i + 1;
        if tok == TOKEN {
          return true;
        }
      }
      return false;
    }

    /** `sd_read_block` after the response: token, data, CRC. */
    method ReadData(dst: array<bv8>, ghost follows: bool, ghost nac: nat, ghost block: Sector, ghost crc: seq<bv8>)
      returns (ret: int)
      requires cs && dst.Length >= 512
      requires follows ==> conforming && card.phase == Idle && |crc| == 2
      requires follows ==> card.out == Filler(0xFF, nac) + [TOKEN] + (block + crc)
      modifies this`cs, this`count, this`card, dst
      ensures !cs && count <= old(count) + POLL + 515
      ensures follows ==>
                && card == old(card).(out := [])
                && (ret == 0 <==> nac < POLL) && (ret == 0 ==> dst[..512] == block)
      ensures ret != 0 ==> dst[..] == old(dst[..])
      ensures dst[512..] == old(dst[512..])
    {
      hide Next, Drives, Filler;
      var found := PollToken(follows, nac, block + crc);
      if !found {
        Release();
        return -2;
      }
      var bytes := Collect(512);
      forall i | 0 <= i < 512 {
        dst[i] := bytes[i];
      }
      if follows {
        assert (block + crc)[..512] == block && (block + crc)[512..] == crc;
      }
      assert dst[..512] == bytes;
      var _ := Collect(2);
      Skip(1);
      Release();
      return 0;
    }

    /** `sd_read_block`. Any card: bounded, and released. A conforming card, with an
        address that fits its command, returns the block that is stored. */
    method SdReadBlock(lba: nat, dst: array<bv8>) returns (ret: int)
      requires lba < TWO_32 && dst.Length >= 512
      modifies this`cs, this`count, this`card, dst
      ensures !cs && count <= old(count) + READ_BOUND
      ensures conforming && old(Quiet(card)) ==> card == old(card).(app := false)
      ensures conforming && old(Quiet(card)) && Addressed(old(card), sdIsHc, lba) ==>
                && (ret == 0 ==> lba < |card.sectors| && dst[..512] == card.sectors[lba])
                && (prompt && lba < |card.sectors| ==> ret == 0)
      ensures ret != 0 ==> dst[..] == old(dst[..])
      ensures dst[512..] == old(dst[512..])
    {
      hide Filler, Addressed;
      ghost var c := card;
      var r1, nac, block, crc := ReadCommand(lba);
      if r1 != 0x00 {
        Release();
        return -1;
      }
      ret := ReadData(dst, conforming && Quiet(c), nac, block, crc);
    }

    /** `sd_read_block` up to the response; `block` is what a conforming card sends. */
    method ReadCommand(lba: nat) returns (r1: bv8, ghost nac: nat, ghost block: Sector, ghost crc: seq<bv8>)
      requires lba < TWO_32
      modifies this`cs, this`count, this`card
      ensures cs && old(count) <= count <= old(count) + 23 && |crc| == 2 && (prompt ==> nac < POLL)
      ensures conforming && old(Quiet(card)) ==>
                card == old(card).(app := false, phase := card.phase, out := card.out)
      ensures conforming && old(Quiet(card)) && r1 == 0 ==>
                card.phase == Idle && card.out == Filler(0xFF, nac) + [TOKEN] + (block + crc)
      ensures conforming && old(Quiet(card)) && Addressed(old(card), sdIsHc, lba) ==>
                && (r1 == 0 <==> lba < |card.sectors|)
                && (r1 == 0 ==> block == card.sectors[lba])
    {
      hide Next, Drives, Reply, Spent, IsStart, Filler, InRange, Address, Addressed, BlockAddress;
      StartFacts();
      ghost var c, arg := card, BlockAddress(sdIsHc, lba);
      Select();
      var r, ch := SdCmd(0x51, BlockAddress(sdIsHc, lba), 0xFF);
      ReadReply(c, arg, 0xFF, ch);
      if Addressed(c, sdIsHc, lba) { AddressRight(c, sdIsHc, lba); }
      r1, nac, crc := r, ch.nac, ch.crc;
      block := if InRange(c, arg) then c.sectors[Address(c, arg)] else EMPTY;
    }

    /** The 512 data bytes and two CRC bytes of a block. */
    method SendBlock(src: seq<bv8>, ghost follows: bool, ghost lba: nat) returns (ghost ch: Behaviour)
      requires cs && |src| == 512
      requires follows ==> conforming && card.phase == Receive(lba, []) && card.out == []
      modifies this`count, this`card
      ensures count == old(count) + 514 && (prompt ==> Prompt(ch))
      ensures follows ==> card == Finish(old(card), lba, src, ch)
    {
      hide Next, Drives, Finish, Filler;
      ghost var c := card;
      for i := 0 to 512
        invariant count == old(count) + i
        invariant follows ==> card == c.(phase := Receive(lba, src[..i]))
      {
        var _, h := Xchg(src[i]);
        if follows { DataByte(c, lba, src[..i], src[i], h); }
        assert src[..i + 1] == src[..i] + [src[i]];
      }
      assert src[..512] == src;
      var _, h1 := Xchg(0xFF);
      var _, h2 := Xchg(0xFF);
      if follows {
        DataByte(c, lba, src, 0xFF, h1);
        BlockEnd(c, lba, src, h2);
      }
      ch := h2;
    }

    /** Waiting while the card holds the line low. */
    method PollBusy(ghost follows: bool, ghost busy: nat) returns (done: bool)
      requires cs
      requires follows ==> conforming && card.phase == Idle && card.out == Filler(0, busy)
      modifies this`count, this`card
      ensures old(count) <= count <= old(count) + POLL
      ensures follows ==> done == (busy < POLL) && card == old(card).(out := card.out)
    {
      hide Next, Drives, Filler;
      var i := 0;
      while i < POLL
        invariant 0 <= i <= POLL && count == old(count) + i
        invariant follows ==> i <= busy && card == old(card).(out := Filler(0, busy - i))
        decreases POLL - i
      {
        ghost var c := card;
        var rx, ch := Xchg(0xFF);
        if follows { BusyAhead(c, busy - i, ch); }
        i := i + 1;
        if rx != 0x00 {
          return true;
        }
      }
      return false;
    }

    /** `sd_write_block` after the response. */
    method WriteData(src: seq<bv8>, ghost follows: bool, ghost lba: nat) returns (ret: int)
      requires cs && |src| == 512
      requires follows ==> conforming && card.phase == AwaitToken(lba) && card.out == [] && lba < |card.sectors|
      modifies this`cs, this`count, this`card
      ensures !cs && count <= old(count) + POLL + 518 && (ret == 0 || ret == -2 || ret == -3)
      ensures follows ==> card == Stored(old(card), lba, src, ret != -2).(phase := Idle, out := [])
      ensures follows && prompt ==> ret == 0
    {
      hide Next, Drives, Filler, Accepted, Finish;
      ghost var c := card;
      var _, g := Xchg(0xFF);
      var _, t := Xchg(TOKEN);
      if follows { BlockStart(c, lba, g, t); }
      ghost var d := card;
      var ch := SendBlock(src, follows, lba);
      if follows { FinishFacts(d, lba, src, ch); }
      ghost var e := card;
      var resp, h := Xchg(0xFF);
      if follows { OutNext(e, h); }
      if !Accepted(resp) {
        Release();
        return -2;
      }
      var done := PollBusy(follows, ch.busy);
      if !done {
        Release();
        return -3;
      }
      Release();
      Skip(1);
      return 0;
    }

    /** `sd_write_block`. Any card: bounded, and released. A conforming card, with
        an address that fits its command, then holds the block at its address, all
        other blocks as they were, unless the call failed before the card took it. */
    method SdWriteBlock(lba: nat, src: seq<bv8>) returns (ret: int)
      requires lba < TWO_32 && |src| == 512
      modifies this`cs, this`count, this`card
      ensures !cs && count <= old(count) + WRITE_BOUND
      ensures ret == 0 || ret == -1 || ret == -2 || ret == -3
      ensures conforming && old(Quiet(card)) && Addressed(old(card), sdIsHc, lba) ==>
                && (ret == 0 ==> lba < |card.sectors|)
                && card == Stored(old(card), lba, src, ret == 0 || ret == -3).(app := false)
                && (prompt && lba < |card.sectors| ==> ret == 0)
    {
      hide Addressed, Stored;
      ghost var c := card;
      ghost var follows := conforming && Quiet(c) && Addressed(c, sdIsHc, lba);
      var r1 := WriteCommand(lba);
      StoredNot(c, lba, src);
      if r1 != 0x00 {
        Release();
        return -1;
      }
      ret := WriteData(src, follows, lba);
      if follows { StoredPhase(c, lba, src, ret != -2); }
    }

    /** `sd_write_block` up to the response. */
    method WriteCommand(lba: nat) returns (r1: bv8)
      requires lba < TWO_32
      modifies this`cs, this`count, this`card
      ensures cs && old(count) <= count <= old(count) + 23
      ensures conforming && old(Quiet(card)) && Addressed(old(card), sdIsHc, lba) ==>
                && (r1 == 0 <==> lba < |card.sectors|)
                && card == old(card).(app := false, phase := card.phase, out := card.out)
                && (r1 == 0 ==> card.phase == AwaitToken(lba) && card.out == [])
    {
      hide Next, Drives, Reply, Spent, IsStart, Addressed, BlockAddress;
      StartFacts();
      ghost var c := card;
      Select();
      var r, ch := SdCmd(0x58, BlockAddress(sdIsHc, lba), 0xFF);
      if Addressed(c, sdIsHc, lba) { WriteCommanded(c, sdIsHc, lba, ch); }
      r1 := r;
    }

    /** The round trip: a block that was written is the block that is read. */
    method WriteThenRead(lba: nat, src: seq<bv8>, dst: array<bv8>) returns (ok: bool)
      requires lba < TWO_32 && |src| == 512 && dst.Length >= 512
      requires conforming && Quiet(card) && Addressed(card, sdIsHc, lba)
      modifies this`cs, this`count, this`card, dst
      ensures ok ==> dst[..512] == src
      ensures forall i :: 0 <= i < |old(card.sectors)| && i != lba ==>
                |card.sectors| == |old(card.sectors)| && card.sectors[i] == old(card.sectors[i])
      ensures prompt && lba < |old(card.sectors)| ==> ok
    {
      var w := SdWriteBlock(lba, src);
      var r := SdReadBlock(lba, dst);
      ok := w == 0 && r == 0;
    }

    /** From power-up: a card that gets ready in time takes a block and returns it,
        whichever way it is addressed. */
    method FromPowerUp(lba: nat, src: seq<bv8>, dst: array<bv8>) returns (ok: bool)
      requires lba < TWO_32 && |src| == 512 && dst.Length >= 512
      requires conforming && Quiet(card) && (card.hc || lba < 0x80_0000)
      modifies this, dst
      ensures ok ==> dst[..512] == src
      ensures var c := old(card);
              prompt && c.warmup < 2000 && (c.hc ==> c.v2) && lba < |c.sectors| ==> ok
    {
      var init := SdInit();
      if init != 0 {
        return false;
      }
      ok := WriteThenRead(lba, src, dst);
    }
  }

  /** The argument of a block command, a 32-bit product for byte addresses. */
  function BlockAddress(hc: bool, lba: nat): (arg: nat)
    requires lba < TWO_32
    ensures arg < TWO_32
  {
    if hc then lba else lba * 512 % TWO_32
  }

  /** `ocr[0] & 0x40`. */
  predicate Ccs(b: bv8) {
    b & 0x40 != 0
  }

  /** `r1 & 0xFE`. */
  predicate ErrorBits(b: bv8) {
    b & 0xFE != 0
  }

  lemma ResponseBits()
    ensures !ErrorBits(0) && !ErrorBits(1)
  {
  }

  lemma StartFacts()
    ensures IsStart(0x40) && IsStart(0x48) && IsStart(0x77) && IsStart(0x69) && IsStart(0x7A)
    ensures IsStart(0x50) && IsStart(0x51) && IsStart(0x58)
  {
  }

  /** The card takes block commands, and the driver knows how to address it. */
  predicate Usable(c: Card, hc: bool) {
    c.ready && hc == c.hc && (hc || c.len512)
  }

  /** An idle card after one ACMD41. */
  function Asked(c: Card, arg: nat): Card {
    if !Suits(c.hc, arg) then c.(app := false)
    else if c.warmup > 0 then c.(app := false, warmup := c.warmup - 1)
    else c.(app := false, ready := true)
  }

  // How a conforming card answers the commands of initialisation.

  lemma AppFacts(c: Card, arg: nat, crc: bv8, ch: Behaviour)
    ensures var a := Reply(c, 0x77, arg, crc, ch); a.rest == [] && a.phase == Idle
    ensures Spent(c, 0x77, arg, crc) == c.(app := true)
    ensures c.app && !c.ready ==>
              && Reply(c, 0x69, arg, crc, ch) == Answer(if Asked(c, arg).ready then 0 else 1, [], Idle)
              && Spent(c, 0x69, arg, crc) == Asked(c, arg)
  {
    hide Suits;
  }

  lemma ResetFacts(c: Card, ch: Behaviour)
    ensures Reply(c, 0x40, 0, 0x95, ch) == Answer(0x01, [], Idle)
    ensures Spent(c, 0x40, 0, 0x95) == c.(app := false, ready := false, len512 := false)
  {
  }

  lemma VersionFacts(c: Card, ch: Behaviour)
    ensures var a := Reply(c, 0x48, 0x1AA, 0x87, ch);
            a == if c.v2 then Answer(if c.ready then 0 else 1, [0, 0, 0x01, 0xAA], Idle) else Answer(0x05, [], Idle)
    ensures Spent(c, 0x48, 0x1AA, 0x87) == c.(app := false)
  {
  }

  lemma OcrFacts(c: Card, ch: Behaviour)
    ensures var a := Reply(c, 0x7A, 0, 0xFD, ch);
            |a.rest| == 4 && (c.ready ==> a.r1 == 0 && Ccs(a.rest[0]) == c.hc)
    ensures Spent(c, 0x7A, 0, 0xFD) == c.(app := false)
  {
  }

  lemma LengthFacts(c: Card, ch: Behaviour)
    ensures c.ready ==> Reply(c, 0x50, 512, 0x15, ch) == Answer(0, [], Idle)
    ensures c.ready ==> Spent(c, 0x50, 512, 0x15) == c.(app := false, len512 := true)
  {
  }

  lemma SuitsFacts(hc: bool, v2: bool)
    ensures Suits(hc, if v2 then 0x4000_0000 else 0) <==> (hc ==> v2)
  {
  }

  /** An idle byte changes nothing but what is being sent. */
  lemma KeepsStore(c: Card, ch: Behaviour)
    ensures var d := Next(c, 0xFF, ch);
            !c.phase.Receive? && !c.phase.Command? ==> d == c.(phase := d.phase, out := d.out)
  {
    hide Reply, IsStart;
  }

  lemma OutAt(out: seq<bv8>, i: nat)
    requires i < |out|
    ensures out[i..] != [] && out[i..][0] == out[i] && out[i..][1..] == out[i + 1..]
    ensures out[..i] + [out[i]] == out[..i + 1]
  {
  }

  lemma OutNext(c: Card, ch: Behaviour)
    requires c.out != []
    ensures Drives(c) == c.out[0] && Next(c, 0xFF, ch) == c.(out := c.out[1..])
  {
    hide Reply;
  }

  const INIT_BOUND := 94120
  const READ_BOUND := 66074
  const WRITE_BOUND := 66077

  /** The card after a command frame. */
  function Commanded(c: Card, op: bv8, arg: nat, crc: bv8, ch: Behaviour): Card {
    Waiting(Spent(c, op, arg, crc), Reply(c, op, arg, crc, ch), ch.ncr)
  }

  /** The card `n` bytes before its response. */
  function Waiting(c: Card, a: Answer, n: nat): Card {
    c.(phase := a.phase, out := Filler(0xFF, n) + [a.r1] + a.rest)
  }

  lemma QuietStays(c: Card, ch: Behaviour)
    requires Quiet(c)
    ensures Next(c, 0xFF, ch) == c && Drives(c) == 0xFF
  {
    ByteFacts();
  }

  lemma SixBytes(c: Card, op: bv8, arg: nat, crc: bv8, c0: Behaviour, c1: Behaviour, c2: Behaviour,
                 c3: Behaviour, c4: Behaviour, c5: Behaviour)
    requires Quiet(c) && IsStart(op) && arg < TWO_32
    ensures var p := PackU32(arg);
            Next(Next(Next(Next(Next(Next(c, op, c0), p[3], c1), p[2], c2), p[1], c3), p[0], c4), crc, c5)
            == Commanded(c, op, arg, crc, c5)
  {
    hide Filler, Reply, PackU32, IsStart, Argument, Next;
    var p := PackU32(arg);
    assert [op] + [p[3]] == [op, p[3]] && [op, p[3]] + [p[2]] == [op, p[3], p[2]];
    assert [op, p[3], p[2]] + [p[1]] == [op, p[3], p[2], p[1]];
    assert [op, p[3], p[2], p[1]] + [p[0]] == [op, p[3], p[2], p[1], p[0]];
    FirstByte(c, op, c0);
    FrameByte(c, [op], p[3], c1);
    FrameByte(c, [op, p[3]], p[2], c2);
    FrameByte(c, [op, p[3], p[2]], p[1], c3);
    FrameByte(c, [op, p[3], p[2], p[1]], p[0], c4);
    LastByte(c, op, arg, crc, c5);
  }

  lemma FirstByte(c: Card, op: bv8, ch: Behaviour)
    requires Quiet(c) && IsStart(op)
    ensures Next(c, op, ch) == c.(phase := Command([op]))
  {
    hide IsStart;
  }

  lemma FrameByte(c: Card, got: seq<bv8>, tx: bv8, ch: Behaviour)
    requires c.out == [] && |got| < 5
    ensures Next(c.(phase := Command(got)), tx, ch) == c.(phase := Command(got + [tx]))
  {
    hide IsStart, Reply;
  }

  lemma LastByte(c: Card, op: bv8, arg: nat, crc: bv8, ch: Behaviour)
    requires c.out == [] && arg < TWO_32
    ensures var p := PackU32(arg);
            Next(c.(phase := Command([op, p[3], p[2], p[1], p[0]])), crc, ch) == Commanded(c, op, arg, crc, ch)
  {
    hide Filler, Reply, PackU32, IsStart, Argument;
    var p := PackU32(arg);
    var d := c.(phase := Command([op, p[3], p[2], p[1], p[0]]));
    FrameArgument(op, arg, crc);
    assert [op, p[3], p[2], p[1], p[0]] + [crc] == Frame(op, arg, crc);
    ReplyIgnoresPhase(c, d, op, arg, crc, ch);
  }

  lemma ReplyIgnoresPhase(c: Card, d: Card, op: bv8, arg: nat, crc: bv8, ch: Behaviour)
    requires d == c.(phase := d.phase)
    ensures Reply(c, op, arg, crc, ch) == Reply(d, op, arg, crc, ch)
    ensures Spent(d, op, arg, crc) == Spent(c, op, arg, crc).(phase := d.phase)
  {
    hide CrcGood, Hcs, Filler;
  }

  lemma WaitingDrives(c: Card, a: Answer, n: nat)
    ensures Drives(Waiting(c, a, n)) == if n == 0 then a.r1 else 0xFF
  {
  }

  lemma WaitingNext(c: Card, a: Answer, n: nat, ch: Behaviour)
    ensures Next(Waiting(c, a, n), 0xFF, ch)
         == if n == 0 then c.(phase := a.phase, out := a.rest) else Waiting(c, a, n - 1)
  {
    var out := Waiting(c, a, n).out;
    if n > 0 {
      assert out[1..] == Filler(0xFF, n - 1) + [a.r1] + a.rest;
    } else {
      assert out[1..] == a.rest;
    }
  }

  const EMPTY: Sector := Filler(0, 512)

  /** The driver addresses the card as the card expects, and the byte address of a
      block fits 32 bits. */
  predicate Addressed(c: Card, hc: bool, lba: nat) {
    Usable(c, hc) && (hc || lba < 0x80_0000)
  }

  lemma AddressRight(c: Card, hc: bool, lba: nat)
    requires lba < TWO_32 && Addressed(c, hc, lba)
    ensures var arg := BlockAddress(hc, lba);
            Address(c, arg) == lba && (InRange(c, arg) <==> lba < |c.sectors|)
  {
  }

  /** For a card that is addressed in bytes the 32-bit product names the block that
      was meant exactly below 4 GiB; above, it names another one. */
  lemma AddressRightIff(c: Card, lba: nat)
    requires lba < TWO_32 && !c.hc
    ensures Address(c, lba * 512 % TWO_32) == lba <==> lba < 0x80_0000
    ensures Address(c, lba * 512 % TWO_32) == lba % 0x80_0000
  {
  }

  /** The card with the block stored, or as it was. */
  function Stored(c: Card, lba: nat, block: seq<bv8>, yes: bool): (r: Card)
    requires |block| == 512
    ensures |r.sectors| == |c.sectors| && r == c.(sectors := r.sectors)
  {
    if yes && lba < |c.sectors| then c.(sectors := c.sectors[lba := block]) else c
  }

  lemma StoredNot(c: Card, lba: nat, block: seq<bv8>)
    requires |block| == 512
    ensures Stored(c, lba, block, false) == c
  {
  }

  lemma StoredPhase(c: Card, lba: nat, block: seq<bv8>, yes: bool)
    requires |block| == 512
    ensures Quiet(c) ==> Stored(c.(app := false, phase := AwaitToken(lba)), lba, block, yes).(phase := Idle, out := [])
                         == Stored(c, lba, block, yes).(app := false)
  {
  }

  lemma ReadReply(c: Card, arg: nat, crc: bv8, ch: Behaviour)
    ensures Spent(c, 0x51, arg, crc) == c.(app := false)
    ensures var a := Reply(c, 0x51, arg, crc, ch);
            if InRange(c, arg)
            then Address(c, arg) < |c.sectors|
                 && a == Answer(0, Filler(0xFF, ch.nac) + [TOKEN] + (c.sectors[Address(c, arg)] + ch.crc), Idle)
            else a.r1 != 0
  {
    hide Filler;
  }

  lemma WriteReply(c: Card, arg: nat, crc: bv8, ch: Behaviour)
    ensures Spent(c, 0x58, arg, crc) == c.(app := false)
    ensures var a := Reply(c, 0x58, arg, crc, ch);
            if InRange(c, arg)
            then Address(c, arg) < |c.sectors| && a == Answer(0, [], AwaitToken(Address(c, arg)))
            else a.r1 != 0
  {
    hide Filler;
  }

  lemma WriteCommanded(c: Card, hc: bool, lba: nat, ch: Behaviour)
    requires lba < TWO_32 && Addressed(c, hc, lba)
    ensures var arg := BlockAddress(hc, lba);
            var a := Reply(c, 0x58, arg, 0xFF, ch);
            && Spent(c, 0x58, arg, 0xFF) == c.(app := false)
            && (a.r1 == 0 <==> lba < |c.sectors|) && (a.r1 == 0 ==> a == Answer(0, [], AwaitToken(lba)))
  {
    hide Reply, Spent, InRange, Address, Addressed, BlockAddress;
    var arg := BlockAddress(hc, lba);
    WriteReply(c, arg, 0xFF, ch);
    AddressRight(c, hc, lba);
  }

  lemma TokenAhead(n: nat, rest: seq<bv8>)
    ensures var out := Filler(0xFF, n) + [TOKEN] + rest;
            && out[0] == (if n == 0 then TOKEN else 0xFF)
            && out[1..] == if n == 0 then rest else Filler(0xFF, n - 1) + [TOKEN] + rest
  {
    var out := Filler(0xFF, n) + [TOKEN] + rest;
    if n > 0 {
      assert out[1..] == Filler(0xFF, n - 1) + [TOKEN] + rest;
    } else {
      assert out[1..] == rest;
    }
  }

  lemma BusyAhead(c: Card, n: nat, ch: Behaviour)
    requires c.phase == Idle && c.out == Filler(0, n)
    ensures Drives(c) == if n == 0 then 0xFF else 0
    ensures Next(c, 0xFF, ch) == if n == 0 then c else c.(out := Filler(0, n - 1))
  {
    ByteFacts();
    if n > 0 {
      assert c.out[1..] == Filler(0, n - 1);
    }
  }

  lemma DataByte(c: Card, lba: nat, got: seq<bv8>, tx: bv8, ch: Behaviour)
    requires c.out == [] && |got| < 513
    ensures Next(c.(phase := Receive(lba, got)), tx, ch) == c.(phase := Receive(lba, got + [tx]))
  {
  }

  lemma BlockEnd(c: Card, lba: nat, src: seq<bv8>, ch: Behaviour)
    requires c.out == [] && |src| == 512 && c.phase == Receive(lba, [])
    ensures Next(c.(phase := Receive(lba, src + [0xFF])), 0xFF, ch) == Finish(c, lba, src, ch)
  {
    assert (src + [0xFF] + [0xFF])[..512] == src;
  }

  lemma BlockStart(c: Card, lba: nat, g: Behaviour, t: Behaviour)
    requires c.out == [] && c.phase == AwaitToken(lba)
    ensures Next(Next(c, 0xFF, g), TOKEN, t) == c.(phase := Receive(lba, []))
  {
  }

  /** The data response, and what the card then holds. */
  lemma FinishFacts(c: Card, lba: nat, src: seq<bv8>, ch: Behaviour)
    requires |src| == 512 && lba < |c.sectors|
    ensures var d := Finish(c, lba, src, ch);
            && d == Stored(c, lba, src, ch.accept).(phase := Idle, out := d.out) && d.out != []
            && Accepted(d.out[0]) == ch.accept
            && (ch.accept ==> d.out[1..] == Filler(0, ch.busy))
  {
    hide Accepted;
    ByteFacts();
  }
}
