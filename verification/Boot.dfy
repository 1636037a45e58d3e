/**
 The stage-2 loader's two Linux modes. From the line: receiving blocks into memory, the CRC-32
 handshake after each payload, and what SDRAM holds at the jump to the kernel.

 The receive loop is tied to the protocol: over every run of the XMODEM state
 machine it computes the receiver's part. So when the host reports success for
 kernel, device tree and initrd, the loader jumps exactly if none is empty and the
 tree has one sentinel, and memory then holds what the host sent. From the SD card:
 the three regions hold the files of a packed card exactly if the padded initrd ends
 within SDRAM, which the slots do not ensure.
 */
module Boot {
  import Bits
  import Xmodem
  import Crc32
  import Dtb
  import opened Memory
  import opened U32
  import SdBlob
  import opened Wrappers

  // Offsets into SDRAM.
  const SDRAM_SIZE := 0x200_0000
  const KERNEL := 0
  const DTB := 0x1F0_0000
  const INITRD := 0x1F8_0000

  // ---------------------------------------------------------------------
  // The receive loop
  // ---------------------------------------------------------------------

  /** What `uart_getc_timeout` brings the loader next: something the sender wrote,
      nothing in time, a CAN byte, or a byte that starts no frame. */
  datatype Heard = Got(item: Xmodem.Item) | Silence | Cancel | Noise

  /** The receiver half of the protocol's state machine, fed one input. */
  function Hear(s: Xmodem.State, h: Heard): Xmodem.State
    requires s.receiver.Receiving?
  {
    match h
    case Got(item) => Xmodem.ReceiverRead(s.(line := [item]))
    case Silence => Xmodem.ReceiverTimeout(s, 0)
    case Cancel => s.(receiver := Xmodem.GaveUp, back := s.back + [Xmodem.Other])
    case Noise => s
  }

  function HearAll(s: Xmodem.State, hs: seq<Heard>): Xmodem.State
    decreases |hs|
  {
    if hs == [] || !s.receiver.Receiving? then s else HearAll(Hear(s, hs[0]), hs[1..])
  }

  /** What the receiver has stored after hearing `hs`. */
  function Memorised(hs: seq<Heard>): seq<bv8> {
    HearAll(Xmodem.Init(), hs).memory
  }

  /** Memory only grows. */
  lemma {:induction false} HearGrows(s: Xmodem.State, hs: seq<Heard>)
    ensures |s.memory| <= |HearAll(s, hs).memory|
    decreases |hs|
  {
    hide Xmodem.Accepts;
    if hs != [] && s.receiver.Receiving? {
      HearGrows(Hear(s, hs[0]), hs[1..]);
    }
  }

  /** Memory is whole blocks, and a completed transfer returns its size. */
  lemma {:induction false} HearWhole(s: Xmodem.State, hs: seq<Heard>)
    requires |s.memory| == s.total && s.total % Xmodem.BLOCK == 0
    requires s.receiver.Complete? ==> s.receiver.size == s.total
    ensures var t := HearAll(s, hs);
            && |t.memory| == t.total && t.total % Xmodem.BLOCK == 0
            && (t.receiver.Complete? ==> t.receiver.size == t.total)
    decreases |hs|
  {
    if hs != [] && s.receiver.Receiving? {
      HearWhole(Hear(s, hs[0]), hs[1..]);
    }
  }

  /** The sum the receiver keeps while the payload comes in. */
  method Checksum(payload: seq<bv8>) returns (csum: bv8)
    ensures csum == Xmodem.Sum8(payload) && Bits.Value(csum) == Xmodem.Total(payload) % 256
  {
    hide Bits.Value, Xmodem.Total;
    csum := 0;
    for i := 0 to |payload|
      invariant csum == Xmodem.Sum8(payload[..i])
    {
      assert payload[..i + 1][..i] == payload[..i];
      csum := csum + payload[i];
    }
    assert payload[..|payload|] == payload;
    Xmodem.SumIsTotal(payload);
  }

  lemma PassesTest(n: nat, f: Xmodem.Frame, csum: bv8)
    requires csum == Xmodem.Sum8(f.payload)
    ensures (|f.payload| == 128 && f.number == n && f.complement == 255 - n && f.checksum == csum)
       <==> Xmodem.Accepts(n, f)
  {
  }

  /** `xmodem_receive`: the loop over mutable variables does to memory and to the
      reply line what the receiver of the protocol does, block after block. */
  method XmodemReceive(mem: array<bv8>, dest: nat, script: seq<Heard>) returns (end: Xmodem.State)
    requires dest + |Memorised(script)| <= mem.Length
    modifies mem
    ensures end == HearAll(Xmodem.Init(), script)
    ensures mem[..] == Placed(old(mem[..]), dest, Memorised(script))
  {
    hide Xmodem.Accepts, Placed, HearAll;
    ghost var was := mem[..];
    PlacedNothing(was, dest);
    var blkNum: nat, total: nat, retries: nat := 1, 0, 0;
    var back: seq<Xmodem.Reply> := [];
    var receiver: Xmodem.Receiver := Xmodem.Receiving;
    ghost var s := Xmodem.Init();
    var i := 0;
    while i < |script| && receiver.Receiving?
      invariant 0 <= i <= |script|
      invariant |s.memory| == total
      invariant s == Xmodem.State(Xmodem.Sending(0, 0), receiver, blkNum, total, s.memory, retries, [], back)
      invariant HearAll(Xmodem.Init(), script) == HearAll(s, script[i..])
      invariant dest + total <= mem.Length && mem[..] == Placed(was, dest, s.memory)
    {
      HearOne(s, script, i);
      HearGrows(Hear(s, script[i]), script[i + 1..]);
      match script[i] {
        case Silence =>
          retries := retries + 1;
          if retries > 20 {
            back := back + [Xmodem.Other, Xmodem.Other];
            receiver := Xmodem.GaveUp;
          } else {
            back := back + [Xmodem.Nak];
          }
        case Cancel =>
          back := back + [Xmodem.Other];
          receiver := Xmodem.GaveUp;
        case Noise =>
        case Got(Eot) =>
          back := back + [Xmodem.Ack];
          receiver := Xmodem.Complete(total);
        case Got(Short(_)) =>
          back := back + [Xmodem.Nak];
        case Got(Data(_, f)) =>
          var csum := Checksum(f.payload);
          PassesTest(blkNum, f, csum);
          if !(|f.payload| == 128 && f.number == blkNum && f.complement == 255 - blkNum && f.checksum == csum) {
            retries := retries + 1;
            back := back + [Xmodem.Nak];
          } else {
            AcceptedLength(blkNum, f);
            Store(mem, dest + total, f.payload);
            PlacedTwice(was, dest, s.memory, f.payload);
            total := total + Xmodem.BLOCK;
            blkNum := (blkNum + 1) % 256;
            retries, back := 0, back + [Xmodem.Ack];
          }
      }
      s := Hear(s, script[i]);
      i := i + 1;
    }
    HearRest(s, script, i);
    end := Xmodem.State(Xmodem.Sending(0, 0), receiver, blkNum, total, mem[dest..dest + total], retries, [], back);
    PlacedThere(was, dest, s.memory);
  }

  lemma HearOne(s: Xmodem.State, script: seq<Heard>, i: nat)
    requires i < |script| && s.receiver.Receiving?
    ensures HearAll(s, script[i..]) == HearAll(Hear(s, script[i]), script[i + 1..])
  {
    assert script[i..][1..] == script[i + 1..];
  }

  lemma HearRest(s: Xmodem.State, script: seq<Heard>, i: nat)
    requires i <= |script| && (i == |script| || !s.receiver.Receiving?)
    ensures HearAll(s, script[i..]) == s
  {
  }

  lemma AcceptedLength(number: nat, f: Xmodem.Frame)
    requires Xmodem.Accepts(number, f)
    ensures |f.payload| == Xmodem.BLOCK
  {
  }

  // ---------------------------------------------------------------------
  // The CRC handshake
  // ---------------------------------------------------------------------

  /** `xmodem_send_verified` after the transfer: its result and the byte it
      writes, given the CRC it could read from the board, if any. */
  function HostVerdict(report: Option<bv32>, data: seq<bv8>): (bool, Option<Xmodem.Reply>) {
    match report
    case Some(crc) => if crc == Crc32.Crc(Xmodem.Pad(data)) then (true, Some(Xmodem.Ack)) else (false, Some(Xmodem.Nak))
    case None => (true, None)
  }

  /** `xmodem_receive_verified` after the transfer: the size it returns. */
  function BoardVerdict(size: nat, reply: Option<Xmodem.Reply>): nat {
    if reply == Some(Xmodem.Nak) then 0 else size
  }

  /** A message arrives or it does not. */
  function Arrives<T>(m: Option<T>, ok: bool): Option<T> {
    if ok then m else None
  }

  /** The whole handshake over memory `stored`. */
  function Handshake(data: seq<bv8>, stored: seq<bv8>, reportOk: bool, replyOk: bool): (bool, nat) {
    var v := HostVerdict(Arrives(Some(Crc32.Crc(stored)), reportOk), data);
    (v.0, BoardVerdict(|stored|, Arrives(v.1, replyOk)))
  }

  /** When both messages arrive, damage to the stored payload confined to 32
      consecutive bits makes both sides refuse it, and an undamaged payload makes
      both accept it. */
  lemma HandshakeCatchesBursts(data: seq<bv8>, stored: seq<bv8>, at: nat)
    requires data != [] && |stored| == |Xmodem.Pad(data)|
    requires forall i :: 0 <= i < 8 * |stored| && (i < at || at + 32 <= i) ==>
               Crc32.Bits.Bit(stored, i) == Crc32.Bits.Bit(Xmodem.Pad(data), i)
    ensures stored != Xmodem.Pad(data) ==> Handshake(data, stored, true, true) == (false, 0)
    ensures stored == Xmodem.Pad(data) ==> Handshake(data, stored, true, true) == (true, |stored|)
  {
    hide Crc32.Crc, Xmodem.Pad, Crc32.Bits.Bit;
    if stored != Xmodem.Pad(data) {
      Crc32.BurstDetected(stored, Xmodem.Pad(data), at);
    }
  }

  /** Exactly what damage does when messages are lost: the host accepts it if and
      only if the board's report does not arrive, and the board drops it if and only
      if both the report and the host's answer arrive. */
  lemma DamageAcceptedIff(data: seq<bv8>, stored: seq<bv8>, at: nat, reportOk: bool, replyOk: bool)
    requires data != [] && |stored| == |Xmodem.Pad(data)| && stored != Xmodem.Pad(data)
    requires forall i :: 0 <= i < 8 * |stored| && (i < at || at + 32 <= i) ==>
               Crc32.Bits.Bit(stored, i) == Crc32.Bits.Bit(Xmodem.Pad(data), i)
    ensures var v := Handshake(data, stored, reportOk, replyOk);
            && (v.0 <==> !reportOk)
            && (v.1 == 0 <==> reportOk && replyOk)
            && (v.1 != 0 ==> v.1 == |stored|)
  {
    hide Crc32.Crc, Xmodem.Pad, Crc32.Bits.Bit;
    Crc32.BurstDetected(stored, Xmodem.Pad(data), at);
  }

  /** A payload stored as it was sent is accepted by both sides, whatever is lost. */
  lemma IntactAccepted(data: seq<bv8>, reportOk: bool, replyOk: bool)
    ensures Handshake(data, Xmodem.Pad(data), reportOk, replyOk) == (true, |Xmodem.Pad(data)|)
  {
    hide Crc32.Crc, Xmodem.Pad;
  }

  // ---------------------------------------------------------------------
  // The loop and the protocol
  // ---------------------------------------------------------------------

  /** What the receiver hears in a run of the protocol. */
  function Script(p: seq<bv8>, s: Xmodem.State, run: seq<Xmodem.Event>): seq<Heard>
    requires Xmodem.Legal(p, s, run)
    decreases |run|
  {
    if run == [] then []
    else
      (match run[0]
       case ReceiverReads => [Got(s.line[0])]
       case ReceiverTimesOut(_) => [Silence]
       case _ => [])
      + Script(p, Xmodem.Step(p, s, run[0]), run[1..])
  }

  predicate SameReceiver(s: Xmodem.State, t: Xmodem.State) {
    && s.receiver == t.receiver && s.number == t.number && s.total == t.total && s.memory == t.memory
    && s.retries == t.retries
  }

  lemma StepHears(p: seq<bv8>, s: Xmodem.State, t: Xmodem.State, e: Xmodem.Event)
    requires Xmodem.Enabled(s, e) && SameReceiver(s, t)
    ensures var u := Xmodem.Step(p, s, e);
            match e
            case ReceiverReads => SameReceiver(u, Hear(t, Got(s.line[0])))
            case ReceiverTimesOut(_) => SameReceiver(u, Hear(t, Silence))
            case _ => SameReceiver(u, t)
  {
    hide Xmodem.Accepts, Xmodem.FrameOf;
  }

  /** In every run of the protocol the receiver does what the loop does with what
      it hears. */
  lemma {:induction false} RunHears(p: seq<bv8>, s: Xmodem.State, t: Xmodem.State, run: seq<Xmodem.Event>)
    requires Xmodem.Legal(p, s, run) && SameReceiver(s, t)
    ensures SameReceiver(Xmodem.Final(p, s, run), HearAll(t, Script(p, s, run)))
    decreases |run|
  {
    hide Xmodem.Step, Hear;
    if run == [] {
      return;
    }
    var e := run[0];
    StepHears(p, s, t, e);
    var u, script := Xmodem.Step(p, s, e), Script(p, s, run);
    var rest := Script(p, u, run[1..]);
    assert Xmodem.Final(p, s, run) == Xmodem.Final(p, u, run[1..]);
    if e.ReceiverReads? || e.ReceiverTimesOut? {
      assert script[1..] == rest;
      RunHears(p, u, Hear(t, script[0]), run[1..]);
    } else {
      assert script == rest;
      RunHears(p, u, t, run[1..]);
    }
  }

  /** A transfer of `data` by `xmodem_send_verified`: the run, and whether the CRC
      report and the host's answer get through. */
  datatype Transfer = Transfer(data: seq<bv8>, run: seq<Xmodem.Event>, reportOk: bool, replyOk: bool)

  /** The sender has reported success. */
  predicate Sent(t: Transfer) {
    && Xmodem.Legal(Xmodem.Pad(t.data), Xmodem.Init(), t.run)
    && Xmodem.Succeeded(Xmodem.Final(Xmodem.Pad(t.data), Xmodem.Init(), t.run))
  }

  /** A payload as the loader sees it: what it hears, and the answer to its CRC. */
  datatype Delivery = Delivery(script: seq<Heard>, answer: Option<Xmodem.Reply>)

  function Bytes(d: Delivery): seq<bv8> {
    Memorised(d.script)
  }

  /** The loader goes on with this payload. */
  predicate Accepted(d: Delivery) {
    HearAll(Xmodem.Init(), d.script).receiver.Complete? && BoardVerdict(|Bytes(d)|, d.answer) != 0
  }

  /** What the loader gets from a transfer. */
  function Delivered(t: Transfer): Delivery
    requires Sent(t)
  {
    var script := Script(Xmodem.Pad(t.data), Xmodem.Init(), t.run);
    var report := Arrives(Some(Crc32.Crc(Memorised(script))), t.reportOk);
    Delivery(script, Arrives(HostVerdict(report, t.data).1, t.replyOk))
  }

  /** What the host has sent with success is what the loader stores, and the loader
      goes on with it unless it is empty. */
  lemma SentIsDelivered(t: Transfer)
    requires Sent(t)
    ensures Bytes(Delivered(t)) == Xmodem.Pad(t.data)
    ensures Accepted(Delivered(t)) <==> t.data != []
  {
    hide Crc32.Crc, Xmodem.Pad, Script;
    var p := Xmodem.Pad(t.data);
    Xmodem.TransferIsSafe(t.data, t.run);
    RunHears(p, Xmodem.Init(), Xmodem.Init(), t.run);
  }

  // ---------------------------------------------------------------------
  // Memory at the jump
  // ---------------------------------------------------------------------

  /** The four instructions of the execution test, little-endian. */
  const EXEC_TEST: seq<bv8> := [
    0x37, 0x03, 0xF5, 0xFF,  // lui t1, 0xFFF50
    0x93, 0x03, 0xB0, 0x04,  // li  t2, 'K'
    0x23, 0x22, 0x73, 0x00,  // sw  t2, 4(t1)
    0x67, 0x80, 0x00, 0x00]  // ret

  /** `(kernel_end + 3) & ~3`. */
  function WordAligned(n: nat): (r: nat)
    ensures n <= r < n + 4
  {
    (n + 3) / 4 * 4
  }

  /** `xmodem_receive_verified`: the payload is in memory, and its size is returned
      if the loader goes on with it, else 0. */
  method XmodemReceiveVerified(mem: array<bv8>, dest: nat, d: Delivery) returns (size: nat)
    requires dest + |Bytes(d)| <= mem.Length
    modifies mem
    ensures mem[..] == Placed(old(mem[..]), dest, Bytes(d))
    ensures size == (if Accepted(d) then |Bytes(d)| else 0) && (size != 0 <==> Accepted(d))
    ensures |Bytes(d)| % Xmodem.BLOCK == 0
  {
    hide HearAll, Placed;
    HearWhole(Xmodem.Init(), d.script);
    var end := XmodemReceive(mem, dest, d.script);
    size := if end.receiver.Complete? then end.receiver.size else 0;
    if size != 0 {
      size := BoardVerdict(size, d.answer);
    }
  }

  /** What the kernel reads: the tree it is given is `dtb` with nothing changed but the
      one cell at `at` that held C0DEDEAD, and that cell is the address of the byte at
      offset `end` of SDRAM. */
  predicate AnnouncesAt(m: seq<bv8>, dtb: seq<bv8>, at: nat, end: nat) {
    && 0x1F0_0000 + |dtb| <= |m| && at + 4 <= |dtb|
    && dtb[at..at + 4] == [0xC0, 0xDE, 0xDE, 0xAD]
    && (forall t :: 0 <= t < |dtb| && !(at <= t < at + 4) ==> m[0x1F0_0000 + t] == dtb[t])
    && FromBigEndian(m[0x1F0_0000 + at..0x1F0_0000 + at + 4]) == (0x4000_0000 + end) % TWO_32
  }

  ghost predicate Announces(m: seq<bv8>, dtb: seq<bv8>, end: nat) {
    exists at: nat :: AnnouncesAt(m, dtb, at, end)
  }

  lemma PatchAnnounces(m: seq<bv8>, dtb: seq<bv8>, size: nat)
    requires DTB + |dtb| <= |m| && Dtb.Count(dtb, 0) == 1
    requires m[DTB..DTB + |dtb|] == Dtb.Patched(dtb, 0, Dtb.EndBytes(size))
    ensures Announces(m, dtb, INITRD + size)
  {
    hide Dtb.Count, Dtb.Patched, Dtb.Match, FromBigEndian, Dtb.EndBytes;
    var e, tree := Dtb.EndBytes(size), m[DTB..DTB + |dtb|];
    var at := Dtb.TheOne(dtb, 0);
    Dtb.OneCell(dtb, at, e);
    Dtb.MatchIs(dtb, at);
    PartOfPart(m, tree, DTB, at, 4);
    EndDecodes(size);
    assert AnnouncesAt(m, dtb, at, INITRD + size);
  }

  lemma PartOfPart(m: seq<bv8>, part: seq<bv8>, lo: nat, at: nat, k: nat)
    requires lo + |part| <= |m| && part == m[lo..lo + |part|] && at + k <= |part|
    ensures part[at..at + k] == m[lo + at..lo + at + k]
    ensures forall t :: 0 <= t < |part| ==> part[t] == m[lo + t]
  {
    var x, y := part[at..at + k], m[lo + at..lo + at + k];
    forall t | 0 <= t < k ensures x[t] == y[t] {
      assert x[t] == part[at + t];
    }
  }

  lemma EndDecodes(size: nat)
    ensures FromBigEndian(Dtb.EndBytes(size)) == (0x4000_0000 + (INITRD + size)) % TWO_32
  {
    hide FromBigEndian, BigEndian;
    BigEndianRoundTrip((0x4000_0000 + (INITRD + size)) % TWO_32);
  }

  /** The payloads lie in their own regions. */
  predicate Fit(kernel: nat, dtb: nat, initrd: nat) {
    KERNEL + kernel + |EXEC_TEST| <= DTB && DTB + dtb <= INITRD && INITRD + initrd <= SDRAM_SIZE
  }

  /** `mode_linux` up to the jump; false when the loader halts. */
  method ModeLinux(mem: array<bv8>, kernel: Delivery, dtb: Delivery, initrd: Delivery) returns (jumped: bool)
    requires mem.Length == SDRAM_SIZE
    requires WordAligned(KERNEL + |Bytes(kernel)|) + 16 <= SDRAM_SIZE
    requires DTB + |Bytes(dtb)| <= SDRAM_SIZE && INITRD + |Bytes(initrd)| <= SDRAM_SIZE
    modifies mem
    ensures jumped ==> Accepted(kernel) && Accepted(dtb) && Accepted(initrd)
    // With payloads that fit, exactly when the loader jumps, and what memory then holds.
    ensures Fit(|Bytes(kernel)|, |Bytes(dtb)|, |Bytes(initrd)|) ==>
              && (jumped <==> Accepted(kernel) && Accepted(dtb) && Accepted(initrd) && Dtb.Count(Bytes(dtb), 0) == 1)
              && (jumped ==> AtJump(mem[..], Bytes(kernel), Bytes(dtb), Bytes(initrd)))
              && (jumped ==> Announces(mem[..], Bytes(dtb), INITRD + |Bytes(initrd)|))
  {
    hide Announces, Dtb.Scan, Dtb.EndBytes, Dtb.Count, Placed, AtJump, WordAligned, Bytes, Accepted;
    jumped := false;
    ghost var m := mem[..];
    var k := XmodemReceiveVerified(mem, KERNEL, kernel);
    if k == 0 { return; }
    var d := XmodemReceiveVerified(mem, DTB, dtb);
    if d == 0 { return; }
    var r := XmodemReceiveVerified(mem, INITRD, initrd);
    if r == 0 { return; }
    ghost var loaded := mem[..];
    ghost var fit := Fit(k, d, r);
    if fit { TreeLoaded(m, Bytes(kernel), Bytes(dtb), Bytes(initrd), loaded); }
    var n := Dtb.PatchInitrdEnd(mem, DTB, d, r);
    if n != 1 { return; }
    Store(mem, WordAligned(KERNEL + k), EXEC_TEST);
    jumped := true;
    if fit {
      JumpMemory(m, Bytes(kernel), Bytes(dtb), Bytes(initrd), loaded, mem[..]);
      JumpAnnounces(mem[..], Bytes(kernel), Bytes(dtb), Bytes(initrd));
    }
  }

  lemma JumpAnnounces(m: seq<bv8>, kernel: seq<bv8>, dtb: seq<bv8>, initrd: seq<bv8>)
    requires |m| == SDRAM_SIZE && |kernel| <= DTB && DTB + |dtb| <= INITRD && INITRD + |initrd| <= SDRAM_SIZE
    requires AtJump(m, kernel, dtb, initrd)
    ensures Announces(m, dtb, INITRD + |initrd|)
  {
    PatchAnnounces(m, dtb, |initrd|);
  }

  /** The loader's patch counts the sentinels of the tree that was sent. */
  lemma TreeLoaded(m: seq<bv8>, kernel: seq<bv8>, dtb: seq<bv8>, initrd: seq<bv8>, loaded: seq<bv8>)
    requires |m| == SDRAM_SIZE && |initrd| % 128 == 0 && Fit(|kernel|, |dtb|, |initrd|)
    requires loaded == Placed(Placed(Placed(m, KERNEL, kernel), DTB, dtb), INITRD, initrd)
    ensures loaded[DTB..DTB + |dtb|] == dtb
    ensures Dtb.Scan(dtb, 0, Dtb.EndBytes(|initrd|)).1 == Dtb.Count(dtb, 0)
  {
    hide Dtb.Scan, Dtb.EndBytes, Dtb.Count, Dtb.Patched, Dtb.Clean, Placed;
    Survives(m, kernel, dtb, initrd, dtb);
    Dtb.BlockSizesAreClean(dtb, |initrd|);
    Dtb.PatchIsExactIff(dtb, Dtb.EndBytes(|initrd|));
  }

  /** The boot theorem: when the host has reported success for all three payloads,
      the loader jumps exactly if none of them is empty and the tree has one
      sentinel, whatever happened on the lines, and memory then holds the padded
      kernel, the padded tree with only its sentinel changed, and the padded
      initrd. */
  method BootLinux(mem: array<bv8>, kernel: Transfer, dtb: Transfer, initrd: Transfer) returns (jumped: bool)
    requires mem.Length == SDRAM_SIZE && Sent(kernel) && Sent(dtb) && Sent(initrd)
    requires Fit(|Xmodem.Pad(kernel.data)|, |Xmodem.Pad(dtb.data)|, |Xmodem.Pad(initrd.data)|)
    modifies mem
    ensures jumped <==>
              && kernel.data != [] && dtb.data != [] && initrd.data != []
              && Dtb.Count(Xmodem.Pad(dtb.data), 0) == 1
    ensures jumped ==> AtJump(mem[..], Xmodem.Pad(kernel.data), Xmodem.Pad(dtb.data), Xmodem.Pad(initrd.data))
    ensures jumped ==>
              Announces(mem[..], Xmodem.Pad(dtb.data), INITRD + |Xmodem.Pad(initrd.data)|)
  {
    hide Announces, Sent, Delivered, Bytes, Accepted, Dtb.Count, AtJump;
    SentIsDelivered(kernel);
    SentIsDelivered(dtb);
    SentIsDelivered(initrd);
    jumped := ModeLinux(mem, Delivered(kernel), Delivered(dtb), Delivered(initrd));
  }

  /** Kernel and initrd as received, the initrd where `linux,initrd-start` says, the
      device tree with its only sentinel replaced by the initrd's end address and no
      other byte changed. */
  predicate AtJump(m: seq<bv8>, kernel: seq<bv8>, dtb: seq<bv8>, initrd: seq<bv8>)
    requires |m| == SDRAM_SIZE && |kernel| <= DTB && DTB + |dtb| <= INITRD && INITRD + |initrd| <= SDRAM_SIZE
  {
    && m[..|kernel|] == kernel
    && m[0x1F8_0000..0x1F8_0000 + |initrd|] == initrd
    && Dtb.Count(dtb, 0) == 1 && m[DTB..DTB + |dtb|] == Dtb.Patched(dtb, 0, Dtb.EndBytes(|initrd|))
  }

  lemma BlocksAreAligned(n: nat)
    requires n % 128 == 0
    ensures WordAligned(n) == n
  {
  }

  lemma JumpMemory(m: seq<bv8>, kernel: seq<bv8>, dtb: seq<bv8>, initrd: seq<bv8>, loaded: seq<bv8>, final: seq<bv8>)
    requires |m| == SDRAM_SIZE && |kernel| % 128 == 0 && |initrd| % 128 == 0
    requires Fit(|kernel|, |dtb|, |initrd|)
    requires loaded == Placed(Placed(Placed(m, KERNEL, kernel), DTB, dtb), INITRD, initrd)
    requires var r := Dtb.Scan(loaded[DTB..DTB + |dtb|], 0, Dtb.EndBytes(|initrd|));
             r.1 == 1 && final == Placed(Placed(loaded, DTB, r.0), WordAligned(KERNEL + |kernel|), EXEC_TEST)
    ensures AtJump(final, kernel, dtb, initrd)
  {
    hide Dtb.Scan, Dtb.EndBytes, Dtb.Count, Dtb.Patched, Dtb.Clean, Placed, WordAligned;
    Dtb.BlockSizesAreClean(dtb, |initrd|);
    Dtb.PatchIsExactIff(dtb, Dtb.EndBytes(|initrd|));
    BlocksAreAligned(KERNEL + |kernel|);
    var r := Dtb.Scan(loaded[DTB..DTB + |dtb|], 0, Dtb.EndBytes(|initrd|));
    Survives(m, kernel, dtb, initrd, r.0);
  }

  /** The regions are disjoint, so each outlives the later steps. */
  lemma Survives(m: seq<bv8>, kernel: seq<bv8>, dtb: seq<bv8>, initrd: seq<bv8>, patched: seq<bv8>)
    requires |m| == SDRAM_SIZE && |patched| == |dtb|
    requires Fit(|kernel|, |dtb|, |initrd|)
    ensures var loaded := Placed(Placed(Placed(m, KERNEL, kernel), DTB, dtb), INITRD, initrd);
            var final := Placed(Placed(loaded, DTB, patched), |kernel|, EXEC_TEST);
            && loaded[DTB..DTB + |dtb|] == dtb
            && final[KERNEL..|kernel|] == kernel
            && final[DTB..DTB + |dtb|] == patched
            && final[INITRD..INITRD + |initrd|] == initrd
  {
    hide Placed;
    var k, d, r := |kernel|, |dtb|, |initrd|;
    var m0 := Placed(m, KERNEL, kernel);
    var m1 := Placed(m0, DTB, dtb);
    var m2 := Placed(m1, INITRD, initrd);
    var m3 := Placed(m2, DTB, patched);
    PlacedThere(m, KERNEL, kernel);
    PlacedElsewhere(m0, DTB, dtb, 0, k);
    PlacedElsewhere(m1, INITRD, initrd, 0, k);
    PlacedElsewhere(m2, DTB, patched, 0, k);
    PlacedElsewhere(m3, k, EXEC_TEST, 0, k);
    PlacedThere(m0, DTB, dtb);
    PlacedElsewhere(m1, INITRD, initrd, DTB, DTB + d);
    PlacedThere(m2, DTB, patched);
    PlacedElsewhere(m3, k, EXEC_TEST, DTB, DTB + d);
    PlacedThere(m1, INITRD, initrd);
    PlacedElsewhere(m2, DTB, patched, INITRD, INITRD + r);
    PlacedElsewhere(m3, k, EXEC_TEST, INITRD, INITRD + r);
  }

  // ---------------------------------------------------------------------
  // Booting from the card
  // ---------------------------------------------------------------------

  /** What the loader reads from the card stays clear of the next region; the initrd
      is last. */
  predicate ClearOfNext(l: SdBlob.Loaded) {
    KERNEL + |l.image| <= DTB && DTB + |l.dtb| <= INITRD
  }

  /** Memory after the three reads. */
  function Read(m: seq<bv8>, l: SdBlob.Loaded): (r: seq<bv8>)
    ensures |r| == |m|
  {
    Clipped(Clipped(Clipped(m, KERNEL, l.image), DTB, l.dtb), INITRD, l.initrd)
  }

  /** The three regions: the image, the tree with its sentinels replaced, the initrd. */
  ghost predicate InMemory(m: seq<bv8>, l: SdBlob.Loaded) {
    && KERNEL + |l.image| <= |m| && m[KERNEL..KERNEL + |l.image|] == l.image
    && DTB + |l.dtb| <= |m| && m[DTB..DTB + |l.dtb|] == Dtb.Patched(l.dtb, 0, Dtb.EndBytes(l.initrdSize))
    && INITRD + |l.initrd| <= |m| && m[0x1F8_0000..0x1F8_0000 + |l.initrd|] == l.initrd
  }

  /** The tree has one sentinel and its replacement makes no other. */
  predicate OnePatch(l: SdBlob.Loaded) {
    Dtb.Count(l.dtb, 0) == 1 && Dtb.Clean(l.dtb, 0, Dtb.EndBytes(l.initrdSize))
  }

  /** `mode_sd_boot`: what it reads is `SdBlob.Boot`; it jumps exactly if there is
      something to read and one patch, and then everything is in place exactly if the
      initrd ends within SDRAM. */
  method ModeSdBoot(mem: array<bv8>, card: seq<SdBlob.Sector>) returns (jumped: bool)
    requires mem.Length == SDRAM_SIZE && card != []
    modifies mem
    ensures SdBlob.Boot(card).None? ==> !jumped
    ensures SdBlob.Boot(card).Some? && ClearOfNext(SdBlob.Boot(card).value) ==>
              var l := SdBlob.Boot(card).value;
              && (jumped <==> OnePatch(l))
              && (jumped ==> (InMemory(mem[..], l) <==> |l.initrd| <= SDRAM_SIZE - INITRD))
              && (jumped ==> Announces(mem[..], l.dtb, INITRD + l.initrdSize))
  {
    hide Announces, SdBlob.ParseHeader, Clipped, Placed, Dtb.Scan, Dtb.EndBytes;
    hide InMemory, OnePatch, SdBlob.ReadMany, SdBlob.BlocksRead;
    jumped := false;
    var parsed := SdBlob.ParseHeader(card[SdBlob.HDR_LBA]);
    if parsed.Err? { return; }
    var h := parsed.value;
    var image := SdBlob.ReadMany(card, h.imageLba, SdBlob.BlocksRead(h.imageSz));
    if image.None? { return; }
    StoreClipped(mem, KERNEL, image.value);
    var dtb := SdBlob.ReadMany(card, h.dtbLba, SdBlob.BlocksRead(h.dtbSz));
    if dtb.None? { return; }
    StoreClipped(mem, DTB, dtb.value);
    var initrd := SdBlob.ReadMany(card, h.initrdLba, SdBlob.BlocksRead(h.initrdSz));
    if initrd.None? { return; }
    StoreClipped(mem, INITRD, initrd.value);
    ghost var l := SdBlob.Boot(card).value;
    ghost var read := mem[..];
    var len := if DTB + |dtb.value| <= SDRAM_SIZE then |dtb.value| else SDRAM_SIZE - DTB;
    var n := Dtb.PatchInitrdEnd(mem, DTB, len, h.initrdSz);
    if ClearOfNext(l) {
      ReadPatched(old(mem[..]), l, mem[..], n);
      if n == 1 { OnePatchAnnounces(mem[..], l); }
    }
    jumped := n == 1;
  }

  lemma ReadPatched(m: seq<bv8>, l: SdBlob.Loaded, final: seq<bv8>, n: nat)
    requires |m| == SDRAM_SIZE && ClearOfNext(l)
    requires var read := Read(m, l);
             var r := Dtb.Scan(read[DTB..DTB + |l.dtb|], 0, Dtb.EndBytes(l.initrdSize));
             final == Placed(read, DTB, r.0) && n == r.1
    ensures n == 1 <==> OnePatch(l)
    ensures n == 1 ==> (InMemory(final, l) <==> |l.initrd| <= SDRAM_SIZE - INITRD)
    ensures n == 1 ==> final[DTB..DTB + |l.dtb|] == Dtb.Patched(l.dtb, 0, Dtb.EndBytes(l.initrdSize))
  {
    hide Clipped, Placed, Dtb.Scan, Dtb.EndBytes, Dtb.Count, Dtb.Clean, Dtb.Patched;
    var e, read := Dtb.EndBytes(l.initrdSize), Read(m, l);
    ReadRegions(m, l);
    Dtb.OnePatchIff(l.dtb, e);
    var r := Dtb.Scan(l.dtb, 0, e);
    PlacedThere(read, DTB, r.0);
    PlacedElsewhere(read, DTB, r.0, KERNEL, KERNEL + |l.image|);
    if INITRD + |l.initrd| <= SDRAM_SIZE {
      PlacedElsewhere(read, DTB, r.0, INITRD, INITRD + |l.initrd|);
    }
  }

  lemma OnePatchAnnounces(m: seq<bv8>, l: SdBlob.Loaded)
    requires |m| == SDRAM_SIZE && ClearOfNext(l) && OnePatch(l)
    requires m[DTB..DTB + |l.dtb|] == Dtb.Patched(l.dtb, 0, Dtb.EndBytes(l.initrdSize))
    ensures Announces(m, l.dtb, INITRD + l.initrdSize)
  {
    PatchAnnounces(m, l.dtb, l.initrdSize);
  }

  lemma ReadRegions(m: seq<bv8>, l: SdBlob.Loaded)
    requires |m| == SDRAM_SIZE && ClearOfNext(l)
    ensures var read := Read(m, l);
            && read[KERNEL..KERNEL + |l.image|] == l.image && read[DTB..DTB + |l.dtb|] == l.dtb
            && (INITRD + |l.initrd| <= SDRAM_SIZE ==> read[INITRD..INITRD + |l.initrd|] == l.initrd)
  {
    hide Placed;
    var k, d := |l.image|, |l.dtb|;
    var part := if INITRD + |l.initrd| <= SDRAM_SIZE then l.initrd else l.initrd[..SDRAM_SIZE - INITRD];
    var m1 := Placed(m, KERNEL, l.image);
    var m2 := Placed(m1, DTB, l.dtb);
    PlacedThere(m, KERNEL, l.image);
    PlacedElsewhere(m1, DTB, l.dtb, KERNEL, KERNEL + k);
    PlacedElsewhere(m2, INITRD, part, KERNEL, KERNEL + k);
    PlacedThere(m1, DTB, l.dtb);
    PlacedElsewhere(m2, INITRD, part, DTB, DTB + d);
    PlacedThere(m2, INITRD, part);
  }

  /** What is read from a card packed with files that fit their slots stays clear of
      the next region. */
  lemma SlotsAreClear(f: SdBlob.Files)
    requires SdBlob.FitSlots(f)
    ensures ClearOfNext(SdBlob.Intended(f))
  {
  }

  /** Packing a card and booting from it. */
  method PackThenBoot(card: SdBlob.Card, f: SdBlob.Files, sound: bool, mem: array<bv8>)
    returns (packed: bool, jumped: bool)
    requires |card.sectors| >= SdBlob.END_LBA && mem.Length == SDRAM_SIZE
    modifies card, mem
    ensures packed ==>
              var l := SdBlob.Intended(f);
              && (jumped <==> OnePatch(l))
              && (jumped ==> (InMemory(mem[..], l) <==> |l.initrd| <= SDRAM_SIZE - INITRD))
              && (jumped ==> Announces(mem[..], l.dtb, INITRD + |f.initrd|))
    ensures sound && SdBlob.FitSlots(f) && f.image != [] && f.dtb != [] && f.initrd != [] ==> packed
  {
    hide SdBlob.Boot, SdBlob.WriteAll, SdBlob.PackSegments, OnePatch, InMemory, ClearOfNext;
    hide SdBlob.PartWritten, SdBlob.Fit, SdBlob.PadSector, Announces;
    var r := SdBlob.PackSd(card, f, sound);
    packed, jumped := r.Ok?, false;
    if packed {
      SlotsAreClear(f);
      jumped := ModeSdBoot(mem, card.sectors);
    }
  }

  /** Files that fit their slots, and that the loader jumps with. */
  function LargeInitrd(): SdBlob.Files {
    SdBlob.Files([0], seq(508, _ => 0) + Dtb.SENTINEL, seq(524289, _ => 0))
  }

  /** The slots do not ensure the rest: on any card packed with these files the loader
      finds what was intended and jumps, but the initrd does not end within SDRAM. */
  lemma OversizedInitrd(c: seq<SdBlob.Sector>)
    requires |c| >= SdBlob.END_LBA
    ensures var f := LargeInitrd(); var l := SdBlob.Intended(f);
            && SdBlob.FitSlots(f) && SdBlob.Fit(c, SdBlob.PackSegments(f))
            && SdBlob.Boot(SdBlob.WriteAll(c, SdBlob.PackSegments(f))) == Some(l)
            && OnePatch(l) && |l.initrd| > SDRAM_SIZE - INITRD
  {
    hide SdBlob.Boot, SdBlob.WriteAll, SdBlob.UpdateSegments, SdBlob.PackSegments, Dtb.Count, Dtb.Clean, Dtb.EndBytes;
    var f := LargeInitrd();
    SdBlob.UpdateBootsIff(c, f, SdBlob.Choice(true, true, true));
    SdBlob.PackIsFullUpdate(f);
    Dtb.LastSentinel(Dtb.EndBytes(524289));
    assert SdBlob.PadSector(f.dtb) == f.dtb;
  }
}
