/**
 The CMSIS-DAP cable: JTAG clocks packed into DAP_SWJ_Sequence and
 DAP_JTAG_Sequence reports of 63 payload bytes.

 The probe is modelled by decoding the reports it executes. For every length the
 clocks it makes are proved to be exactly the requested ones in order, with TMS
 inverted on the last one alone when the caller asks for it, and the TDO bits it
 captures to arrive at their own indices.
 */
module CmsisDap {
  import Bits
  import opened Packed
  import opened Memory
  import opened Wire
  import opened Drivers
  import opened Chain
  import opened Tap

  const SWJ_SEQUENCE: bv8 := 0x12
  const JTAG_SEQUENCE: bv8 := 0x14
  const PAYLOAD := 63

  datatype Report = Report(instr: bv8, payload: seq<bv8>)

  /** One sequence of a DAP_JTAG_Sequence: constant TMS, TDI bits, TDO kept or not. */
  datatype Shot = Shot(tms: bool, capture: bool, bits: seq<bool>)

  // ---------------------------------------------------------------------
  // The probe
  // ---------------------------------------------------------------------

  function TdiPulses(tms: bool, bits: seq<bool>): (r: seq<Pulse>)
    ensures |r| == |bits|
  {
    seq(|bits|, i requires 0 <= i < |bits| => Pulse(Driven(tms), Driven(bits[i])))
  }

  /** The clock count of an information byte: six bits, zero meaning 64. */
  function Tcks(info: bv8): (n: nat)
    ensures 0 < n <= 64
  {
    var n := Bits.Number(Bits.ByteBits(info)[..6]);
    Bits.NumberBelow(Bits.ByteBits(info)[..6]);
    assert Bits.Pow2(6) == 64;
    if n == 0 then 64 else n
  }

  /** The bytes of the first sequence. */
  function Size(x: seq<bv8>): (m: nat)
    requires x != []
    ensures m > 0
  {
    1 + Bytes(Tcks(x[0]))
  }

  function Head(x: seq<bv8>): Shot
    requires x != [] && Size(x) <= |x|
  {
    Shot(Bits.ByteBits(x[0])[6], Bits.ByteBits(x[0])[7], Bits.Take(x[1..Size(x)], Tcks(x[0])))
  }

  /** The first `k` sequences of a byte string. */
  function Parse(x: seq<bv8>, k: nat): seq<Shot>
    decreases k
  {
    if k == 0 || x == [] || Size(x) > |x| then [] else [Head(x)] + Parse(x[Size(x)..], k - 1)
  }

  /** The byte string is exactly `k` sequences. */
  predicate Exact(x: seq<bv8>, k: nat)
    decreases k
  {
    if k == 0 then x == [] else x != [] && Size(x) <= |x| && Exact(x[Size(x)..], k - 1)
  }

  function Pulses(shots: seq<Shot>): seq<Pulse>
    decreases |shots|
  {
    if shots == [] then []
    else
      var last := shots[|shots| - 1];
      Pulses(shots[..|shots| - 1]) + TdiPulses(last.tms, last.bits)
  }

  /** The captured bytes: those of each capturing sequence start a new byte. */
  function Reply(t: Target, h: seq<Pulse>, shots: seq<Shot>): seq<bv8>
    decreases |shots|
  {
    if shots == [] then []
    else
      var init, last := shots[..|shots| - 1], shots[|shots| - 1];
      Reply(t, h, init)
      + if last.capture then Pack(Seen(t, h + Pulses(init), TdiPulses(last.tms, last.bits))) else []
  }

  /** The clocks of one report: DAP_SWJ_Sequence is command 0x12, DAP_JTAG_Sequence
      command 0x14. */
  function Clocks(r: Report): seq<Pulse> {
    if r.payload == [] then []
    else if r.instr == 0x12 then
      var n := if r.payload[0] == 0 then 256 else Bits.Value(r.payload[0]);
      if n <= 8 * (|r.payload| - 1) then TmsPulses(Bits.Take(r.payload[1..], n), Held) else []
    else if r.instr == 0x14 then Pulses(Parse(r.payload[1..], Bits.Value(r.payload[0])))
    else []
  }

  function Answer(t: Target, h: seq<Pulse>, r: Report): seq<bv8> {
    if r.instr == 0x14 && r.payload != []
    then Reply(t, h, Parse(r.payload[1..], Bits.Value(r.payload[0])))
    else []
  }

  function AllClocks(sent: seq<Report>): seq<Pulse>
    decreases |sent|
  {
    if sent == [] then [] else AllClocks(sent[..|sent| - 1]) + Clocks(sent[|sent| - 1])
  }

  // ---------------------------------------------------------------------
  // Packing and parsing
  // ---------------------------------------------------------------------

  lemma HeadThenMore(x: seq<bv8>, z: seq<bv8>)
    requires x != [] && Size(x) <= |x|
    ensures Size(x + z) == Size(x) && Head(x + z) == Head(x) && (x + z)[Size(x)..] == x[Size(x)..] + z
  {
    hide Tcks, Bits.ByteBits, Bits.Take;
    assert (x + z)[0] == x[0];
    assert (x + z)[1..Size(x)] == x[1..Size(x)];
  }

  /** The sequences parsed from `x` do not depend on what follows them. */
  lemma {:induction false} ParseThenMore(x: seq<bv8>, k: nat, z: seq<bv8>)
    requires Exact(x, k)
    ensures Parse(x + z, k) == Parse(x, k)
    decreases k
  {
    hide Size, Head;
    if k == 0 {
    } else {
      HeadThenMore(x, z);
      ParseThenMore(x[Size(x)..], k - 1, z);
    }
  }

  /** A sequence put after others is parsed after them. */
  lemma {:induction false} ParseSnoc(x: seq<bv8>, k: nat, y: seq<bv8>)
    requires Exact(x, k) && Exact(y, 1)
    ensures Exact(x + y, k + 1) && Parse(x + y, k + 1) == Parse(x, k) + Parse(y, 1)
    decreases k
  {
    hide Size, Head;
    if k > 0 {
      HeadThenMore(x, y);
      ParseSnoc(x[Size(x)..], k - 1, y);
    } else {
      assert x + y == y;
    }
  }

  /** `capture | TMS << 6 | count & 0x3f`. */
  function Info(capture: bool, tms: bool, n: nat): bv8 {
    (if capture then 0x80 else 0) | (if tms then 0x40 else 0) | (Bits.Byte(n) & 0x3F)
  }

  lemma Fields(c: bv8, t: bv8, b: bv8)
    requires (c == 0 || c == 0x80) && (t == 0 || t == 0x40)
    ensures var s := Bits.ByteBits(c | t | (b & 0x3F));
            s[6] == (t != 0) && s[7] == (c != 0) && s[..6] == Bits.ByteBits(b)[..6]
  {
    hide Bits.ByteBits, Bits.Mask;
    var i := c | t | (b & 0x3F);
    var s, u := Bits.ByteBits(i), Bits.ByteBits(b);
    forall k | 0 <= k < 8
      ensures s[k] == if k == 7 then c != 0 else if k == 6 then t != 0 else u[k]
    {
      Bits.BitIsMask(i, k);
      Bits.BitIsMask(b, k);
      FieldMask(c, t, b, k);
    }
  }

  lemma FieldMask(c: bv8, t: bv8, b: bv8, k: nat)
    requires (c == 0 || c == 0x80) && (t == 0 || t == 0x40) && k < 8
    ensures ((c | t | (b & 0x3F)) & Bits.Mask(k) != 0)
         == if k == 7 then c != 0 else if k == 6 then t != 0 else b & Bits.Mask(k) != 0
  {
  }

  /** The information byte says what it was made from; 64 is written as zero. */
  lemma InfoFields(capture: bool, tms: bool, n: nat)
    requires 0 < n <= 64
    ensures var i := Info(capture, tms, if n == 64 then 0 else n);
            Tcks(i) == n && Bits.ByteBits(i)[6] == tms && Bits.ByteBits(i)[7] == capture
  {
    hide Bits.ByteBits, Bits.Byte, Bits.Digits, Bits.Number, Bits.Pow2;
    var m := if n == 64 then 0 else n;
    Fields(if capture then 0x80 else 0, if tms then 0x40 else 0, Bits.Byte(m));
    Bits.ByteValue(m);
    DigitsPrefix(m, 6, 8);
    SixBits();
    Bits.NumberDigits(m, 6);
  }

  lemma SixBits()
    ensures Bits.Pow2(6) == 64
  {
    assert Bits.Pow2(3) == 8;
  }

  /** A sequence as it is put into the buffer. */
  lemma EncodedShot(capture: bool, tms: bool, n: nat, data: seq<bv8>)
    requires 0 < n <= 64 && |data| == Bytes(n)
    ensures var y := [Info(capture, tms, if n == 64 then 0 else n)] + data;
            Exact(y, 1) && Parse(y, 1) == [Shot(tms, capture, Bits.Take(data, n))]
  {
    hide Bits.ByteBits, Info, Tcks, Bits.Take;
    InfoFields(capture, tms, n);
    var y := [Info(capture, tms, if n == 64 then 0 else n)] + data;
    assert y[1..Size(y)] == data && y[Size(y)..] == [];
    assert Parse([], 0) == [] && Exact([], 0);
  }

  lemma PulsesSnoc(shots: seq<Shot>, s: Shot)
    ensures Pulses(shots + [s]) == Pulses(shots) + TdiPulses(s.tms, s.bits)
  {
    assert (shots + [s])[..|shots|] == shots;
  }

  lemma ReplySnoc(t: Target, h: seq<Pulse>, shots: seq<Shot>, s: Shot)
    ensures Reply(t, h, shots + [s])
         == Reply(t, h, shots) + if s.capture then Pack(Seen(t, h + Pulses(shots), TdiPulses(s.tms, s.bits))) else []
  {
    assert (shots + [s])[..|shots|] == shots;
  }

  /** The count byte of a TMS sequence, zero standing for 256. */
  lemma CountByte(n: nat)
    requires 0 < n <= 256
    ensures n == if Bits.Byte(n) == 0 then 256 else Bits.Value(Bits.Byte(n))
  {
    hide Bits.Byte, Bits.Value, Bits.Digits, Bits.ByteBits;
    Bits.ByteValue(n);
    ZeroByte();
    SameByte();
  }

  // ---------------------------------------------------------------------
  // Batches of sequences
  // ---------------------------------------------------------------------

  /** The clocks of a data transfer: TMS constant, and inverted on the last bit
      when the caller wants to leave the shift state. */
  function Request(tms: bool, bits: seq<bool>, end: bool): (r: seq<Pulse>)
    requires end ==> bits != []
    ensures |r| == |bits|
  {
    if end then TdiPulses(tms, bits[..|bits| - 1]) + [Pulse(Driven(!tms), Driven(bits[|bits| - 1]))]
    else TdiPulses(tms, bits)
  }

  /** `x` holds `k` sequences that make clocks `d` to `c` of `p` after `base`, and
      whose `m` answer bytes hold the TDO bits of those clocks. */
  ghost predicate Batch(t: Target, base: seq<Pulse>, p: seq<Pulse>, d: nat, c: nat,
                        x: seq<bv8>, k: nat, m: nat, capture: bool)
  {
    && d <= c <= |p| && Exact(x, k) && |x| == k + m && m == Bytes(c - d)
    && Pulses(Parse(x, k)) == p[d..c]
    && var a := Reply(t, base + p[..d], Parse(x, k));
       if capture then |a| == m && Bits.Take(a, c - d) == Seen(t, base + p[..d], p[d..c]) else a == []
  }

  lemma EmptyBatch(t: Target, base: seq<Pulse>, p: seq<Pulse>, d: nat, capture: bool)
    requires d <= |p|
    ensures Batch(t, base, p, d, d, [], 0, 0, capture)
  {
    assert p[d..d] == [];
  }

  function Coded(capture: bool, tms: bool, n: nat, data: seq<bv8>): seq<bv8> {
    [Info(capture, tms, if n == 64 then 0 else n)] + data
  }

  /** Adding a sequence adds its clocks and its answer. */
  lemma OneMore(t: Target, h: seq<Pulse>, x: seq<bv8>, k: nat, capture: bool, tms: bool, n: nat, data: seq<bv8>)
    requires Exact(x, k) && 0 < n <= 64 && |data| == Bytes(n)
    ensures var y, z, q := x + Coded(capture, tms, n, data), Parse(x, k), TdiPulses(tms, Bits.Take(data, n));
            && Exact(y, k + 1) && Pulses(Parse(y, k + 1)) == Pulses(z) + q
            && Reply(t, h, Parse(y, k + 1))
               == Reply(t, h, z) + if capture then Pack(Seen(t, h + Pulses(z), q)) else []
  {
    hide Info, Bits.Take, Pack, Seen, TdiPulses, Exact, Parse, Pulses, Reply;
    EncodedShot(capture, tms, n, data);
    ParseSnoc(x, k, Coded(capture, tms, n, data));
    var s := Shot(tms, capture, Bits.Take(data, n));
    PulsesSnoc(Parse(x, k), s);
    ReplySnoc(t, h, Parse(x, k), s);
  }

  /** Adding a sequence to a batch of whole bytes. */
  lemma BatchSnoc(t: Target, base: seq<Pulse>, p: seq<Pulse>, d: nat, c: nat, x: seq<bv8>, k: nat, m: nat,
                  capture: bool, tms: bool, n: nat, data: seq<bv8>)
    requires Batch(t, base, p, d, c, x, k, m, capture) && (c - d) % 8 == 0
    requires 0 < n <= 64 && |data| == Bytes(n) && c + n <= |p|
    requires p[c..c + n] == TdiPulses(tms, Bits.Take(data, n))
    ensures Batch(t, base, p, d, c + n, x + Coded(capture, tms, n, data), k + 1, m + Bytes(n), capture)
  {
    hide Info, Bits.Take, Pack, Seen, TdiPulses, Exact, Parse, Pulses, Reply, Bytes;
    var h := base + p[..d];
    OneMore(t, h, x, k, capture, tms, n, data);
    assert p[d..c + n] == p[d..c] + p[c..c + n];
    WholeBytes(c - d, n);
    if capture {
      AnswerSnoc(t, h, Reply(t, h, Parse(x, k)), p[d..c], p[c..c + n]);
    }
  }

  lemma AnswerSnoc(t: Target, h: seq<Pulse>, a: seq<bv8>, p: seq<Pulse>, q: seq<Pulse>)
    requires 8 * |a| == |p| && Bits.Take(a, |p|) == Seen(t, h, p)
    ensures var r := Pack(Seen(t, h + p, q));
            |r| == Bytes(|q|) && Bits.Take(a + r, |p| + |q|) == Seen(t, h, p + q)
  {
    hide Bits.Take, Pack, Seen;
    var seen := Seen(t, h + p, q);
    SeenAppend(t, h, p, q);
    TakeOfPack(seen);
    TakeAppend(a, Pack(seen), |q|);
  }

  /** One bit as a data byte. */
  function BitByte(bit: bool): bv8 {
    if bit then 1 else 0
  }

  lemma BitByteHas(bit: bool)
    ensures Bits.Take([BitByte(bit)], 1) == [bit]
  {
  }

  /** The dedicated sequence of the last bit, after any batch. */
  lemma LastShot(t: Target, base: seq<Pulse>, p: seq<Pulse>, d: nat, x: seq<bv8>, k: nat, m: nat,
                 capture: bool, tms: bool, bit: bool)
    requires Batch(t, base, p, d, |p|, x, k, m, capture)
    ensures var y, last := x + Coded(capture, tms, 1, [BitByte(bit)]), [Pulse(Driven(tms), Driven(bit))];
            && Exact(y, k + 1) && Pulses(Parse(y, k + 1)) == p[d..] + last
            && Reply(t, base + p[..d], Parse(y, k + 1))
               == Reply(t, base + p[..d], Parse(x, k)) + if capture then Pack(Seen(t, base + p, last)) else []
  {
    hide Coded, Bits.Take, Pack, Seen, Exact, Parse, Pulses, Reply, BitByte;
    var h := base + p[..d];
    OneMore(t, h, x, k, capture, tms, 1, [BitByte(bit)]);
    BitByteHas(bit);
    assert TdiPulses(tms, [bit]) == [Pulse(Driven(tms), Driven(bit))];
    assert h + p[d..] == base + p;
    assert p[d..] == p[d..|p|];
  }

  /** The answer to a batch, copied after what earlier answers left. */
  lemma Delivered(t: Target, base: seq<Pulse>, p: seq<Pulse>, d: nat, c: nat, x: seq<bv8>, k: nat, m: nat,
                  was: seq<bv8>, a: seq<bv8>)
    requires Batch(t, base, p, d, c, x, k, m, true) && (d % 8 == 0 || c == d)
    requires a == Reply(t, base + p[..d], Parse(x, k)) && Bytes(c) <= |was|
    requires Bits.Take(was, d) == Seen(t, base, p[..d])
    ensures Bytes(d) + m <= |was|
    ensures Bits.Take(was[..Bytes(d)] + a + was[Bytes(d) + m..], c) == Seen(t, base, p[..c])
  {
    hide Bits.Take, Seen, Exact, Parse, Pulses, Reply, Bytes;
    var at := Bytes(d);
    EnoughBytes(c - d);
    if c == d {
      WholeBytes(0, 0);
      assert a == [];
      assert was[..at] + a + was[at..] == was;
    } else {
      WholeBytes(d, c - d);
      InTheMiddle(was, at, a, c - d);
      SeenAppend(t, base, p[..d], p[d..c]);
      assert p[..c] == p[..d] + p[d..c];
    }
  }

  // ---------------------------------------------------------------------
  // The transport
  // ---------------------------------------------------------------------

  /** What becomes of a transfer: the probe executes it and says so; it answers with
      another instruction or with an error status, but not with both, and `xfer`
      takes that for success; it does not answer in time; or there is an error.
      Unless all is well it stays open whether the probe acted. */
  datatype Fate =
    | Executed
    | Misanswered(acted: bool, bytes: seq<bv8>)
    | TimedOut(acted: bool)
    | Broken(acted: bool)

  /** What `xfer` returns. */
  function Result(f: Fate): int {
    match f
    case Executed => 64
    case Misanswered(_, _) => 64
    case TimedOut(_) => 0
    case Broken(_) => -1
  }

  /** The fates of all transfers, in order. */
  type Fates = nat -> Fate

  /** Transfers `from` to `to` are executed; return something positive; return no
      error. */
  predicate Clean(f: Fates, from: nat, to: nat) {
    forall i: nat :: from <= i < to ==> f(i).Executed?
  }

  predicate Pass(f: Fates, from: nat, to: nat) {
    forall i: nat :: from <= i < to ==> Result(f(i)) > 0
  }

  predicate NoError(f: Fates, from: nat, to: nat) {
    forall i: nat :: from <= i < to ==> Result(f(i)) >= 0
  }

  // ---------------------------------------------------------------------
  // When a failure goes unreported
  // ---------------------------------------------------------------------

  /** The flushes of `writeTMS` in the middle of `len` bits with `n` waiting, and
      whether there is one at the end. */
  function MidFlushes(n: nat, len: nat): nat {
    if len == 0 then 0 else (n + len - 1) / 256
  }

  predicate EndFlush(n: nat, len: nat, flush: bool) {
    if len == 0 then flush && n > 0 else flush || (n + len) % 256 == 0
  }

  /** The result of `writeTMS` is positive, transfers counting from `u`: a flush in
      the middle must not return an error, the one at the end must return something
      positive. */
  predicate TmsPositive(f: Fates, u: nat, n: nat, len: nat, flush: bool) {
    var m := MidFlushes(n, len);
    && (len > 0 || EndFlush(n, len, flush))
    && NoError(f, u, u + m) && (EndFlush(n, len, flush) ==> Result(f(u + m)) > 0)
  }

  function TmsTransfers(n: nat, len: nat, flush: bool): nat {
    MidFlushes(n, len) + if EndFlush(n, len, flush) then 1 else 0
  }

  /** The transfers of `writeJtagSequence` after its first flush: 440 bits fill a
      report, and the last bit goes with what is left or in one of its own. */
  function BodyTransfers(realLen: nat, end: bool): nat {
    (realLen + if end then 55 else 439) / 440
  }

  function DataTransfers(len: nat, end: bool): nat {
    if end && len > 0 then BodyTransfers(len - 1, true) + 1 else BodyTransfers(len, false)
  }

  function FirstFlush(n: nat): nat {
    if n > 0 then 1 else 0
  }

  /** The result of `writeJtagSequence` is positive: every transfer but the first
      flush, whose result is ignored, must return something positive. */
  predicate DataPositive(f: Fates, u: nat, n: nat, len: nat, end: bool) {
    len > 0 && Pass(f, u + FirstFlush(n), u + FirstFlush(n) + DataTransfers(len, end))
  }

  /** The first transfer comes to `x`, all others are executed. */
  function Once(x: Fate): Fates {
    i => if i == 0 then x else Executed
  }

  lemma OnceIsNotClean(x: Fate, n: nat)
    requires !x.Executed? && n > 0
    ensures !Clean(Once(x), 0, n)
  {
    assert !Once(x)(0).Executed?;
  }

  /** Four witnesses of a positive result that hides a failure: a time-out in the
      middle of 257 TMS bits, an answer with an error status to a flush of one bit,
      the same to a transfer of one byte, and a first flush that broke off. */
  lemma HiddenFailures()
    ensures var f := Once(TimedOut(false));
            TmsPositive(f, 0, 0, 257, true) && !Clean(f, 0, TmsTransfers(0, 257, true))
    ensures var f := Once(Misanswered(false, []));
            && TmsPositive(f, 0, 0, 1, true) && !Clean(f, 0, TmsTransfers(0, 1, true))
            && DataPositive(f, 0, 0, 8, false) && !Clean(f, 0, DataTransfers(8, false))
    ensures var f := Once(Broken(false));
            DataPositive(f, 0, 1, 8, false) && !Clean(f, 0, FirstFlush(1) + DataTransfers(8, false))
  {
    OnceIsNotClean(TimedOut(false), TmsTransfers(0, 257, true));
    OnceIsNotClean(Misanswered(false, []), TmsTransfers(0, 1, true));
    OnceIsNotClean(Misanswered(false, []), DataTransfers(8, false));
    OnceIsNotClean(Broken(false), FirstFlush(1) + DataTransfers(8, false));
  }

  // ---------------------------------------------------------------------
  // The driver
  // ---------------------------------------------------------------------

  /** The variables of the main loop: bits to go, positions in `tx` and `rx`,
      sequences in the buffer, its fill level, answer bytes to expect. */
  datatype Cursor = Cursor(rest: nat, txPtr: nat, rxPtr: nat, seqNum: nat, pos: nat, m: nat)

  class CmsisDAP {
    const buffer: array<bv8>
    var numTms: nat
    /** The reports the probe has executed. */
    var sent: seq<Report>
    /** The transfers made, and whether one was not executed. */
    var used: nat
    var failed: bool
    const fates: Fates
    const target: Target

    ghost predicate Valid()
      reads this`numTms
    {
      buffer.Length == PAYLOAD && numTms <= 256
    }

    /** The clocks the target has seen. */
    ghost function Wire(): seq<Pulse>
      reads this`sent
    {
      AllClocks(sent)
    }

    /** The TMS bits waiting in the buffer. */
    ghost function Pending(): seq<bool>
      requires Valid()
      reads this`numTms, buffer
    {
      Bits.Take(buffer[1..], numTms)
    }

    /** Everything asked for so far. */
    ghost function Asked(): seq<Pulse>
      requires Valid()
      reads this`numTms, this`sent, buffer
    {
      Wire() + TmsPulses(Pending(), Held)
    }

    constructor (target: Target, fates: Fates)
      ensures Valid() && Wire() == [] && Pending() == [] && !failed && used == 0 && fresh(buffer)
      ensures this.target == target && this.fates == fates
    {
      buffer := new bv8[PAYLOAD](_ => 0);
      numTms := 0;
      sent := [];
      used, failed := 0, false;
      this.target, this.fates := target, fates;
    }

    /** `xfer`: the report goes out and the answer comes back into the buffer. */
    method Xfer(instr: bv8) returns (ret: int)
      requires Valid()
      modifies this`sent, this`failed, this`used, buffer
      ensures used == old(used) + 1 && ret == Result(fates(old(used)))
      ensures failed == (old(failed) || !fates(old(used)).Executed?)
      ensures !failed ==> sent == old(sent) + [Report(instr, old(buffer[..]))]
      ensures !failed ==> var a := Answer(target, old(Wire()), Report(instr, old(buffer[..])));
                          |a| <= PAYLOAD ==> buffer[..|a|] == a
    {
      hide Answer;
      var r, fate := Report(instr, buffer[..]), fates(used);
      used := used + 1;
      ret := Result(fate);
      if fate.Executed? {
        var a := Answer(target, AllClocks(sent), r);
        sent := sent + [r];
        Fill(a);
      } else {
        failed := true;
        if fate.acted {
          sent := sent + [r];
        }
        if fate.Misanswered? {
          Fill(fate.bytes);
        }
      }
    }

    /** The bytes of an answer. */
    method Fill(a: seq<bv8>)
      requires Valid()
      modifies buffer
      ensures |a| <= PAYLOAD ==> buffer[..|a|] == a
    {
      forall i | 0 <= i < |a| && i < PAYLOAD {
        buffer[i] := a[i];
      }
    }

    /** `flush`: the waiting TMS bits go out as one sequence. */
    method Flush() returns (ret: int)
      requires Valid()
      modifies this`numTms, this`sent, this`failed, this`used, buffer
      ensures Valid() && numTms == 0
      ensures !failed ==> Wire() == old(Asked())
      ensures used == old(used) + FirstFlush(old(numTms))
      ensures old(numTms) == 0 ==> ret == 0 && failed == old(failed)
      ensures old(numTms) > 0 ==>
                ret == Result(fates(old(used))) && failed == (old(failed) || !fates(old(used)).Executed?)
    {
      hide Bits.Take, Bits.Byte, Bits.Value, Clocks, AllClocks, Answer;
      if numTms == 0 {
        assert TmsPulses(Pending(), Held) == [];
        return 0;
      }
      ghost var rest := buffer[1..];
      buffer[0] := Bits.Byte(numTms);
      assert buffer[1..] == rest;
      ghost var r := Report(SWJ_SEQUENCE, buffer[..]);
      assert r.payload == [Bits.Byte(numTms)] + rest;
      TmsReport(rest, numTms);
      AllClocksSnoc(sent, r);
      ret := Xfer(SWJ_SEQUENCE);
      numTms := 0;
    }

    /** `writeTMS`: if all goes well, what is on the wire and waiting grows by exactly
        the bits. The result is positive exactly if `TmsPositive`, so a failure is
        hidden exactly if that holds although a transfer was not executed. */
    method WriteTMS(tms: seq<bv8>, len: nat, flushBuffer: bool) returns (ret: int)
      requires Valid() && len <= 8 * |tms|
      modifies this`numTms, this`sent, this`failed, this`used, buffer
      ensures Valid() && (numTms < 256 || (old(numTms) == 256 && len == 0))
      ensures !failed ==> Asked() == old(Asked()) + TmsPulses(Bits.Take(tms, len), Held)
      ensures flushBuffer ==> numTms == 0
      ensures ret > 0 <==> TmsPositive(fates, old(used), old(numTms), len, flushBuffer)
      ensures !old(failed) && ret > 0 ==>
                (failed <==> !Clean(fates, old(used), old(used) + TmsTransfers(old(numTms), len, flushBuffer)))
    {
      hide Bits.Take, TmsPulses, AllClocks, Bits.Bit;
      if len == 0 {
        NoPulses(tms);
        ret := 0;
        if flushBuffer {
          ret := Flush();
          NoPulses(buffer[1..]);
        }
        return;
      }
      ret := FillTms(tms, len);
      if ret < 0 {
        return;
      }
      ret := len;
      if flushBuffer || numTms == 256 {
        ret := Flush();
        NoPulses(buffer[1..]);
      }
    }

    /** The loop of `writeTMS`. */
    method FillTms(tms: seq<bv8>, len: nat) returns (ret: int)
      requires Valid() && 0 < len <= 8 * |tms|
      modifies this`numTms, this`sent, this`failed, this`used, buffer
      ensures Valid() && numTms <= 256 && (ret == 0 || ret == -1)
      ensures ret == 0 ==>
                && used == old(used) + MidFlushes(old(numTms), len)
                && numTms + 256 * MidFlushes(old(numTms), len) == old(numTms) + len && numTms > 0
                && failed == (old(failed) || !Clean(fates, old(used), used))
      ensures ret < 0 ==> failed && numTms == 0
      ensures ret == 0 <==> NoError(fates, old(used), old(used) + MidFlushes(old(numTms), len))
      ensures !failed ==> Asked() == old(Asked()) + TmsPulses(Bits.Take(tms, len), Held)
    {
      hide Bits.Take, TmsPulses, AllClocks, Bits.Bit;
      NoPulses(tms);
      for pos := 0 to len
        invariant Valid() && (pos > 0 ==> numTms > 0) && used >= old(used)
        invariant numTms + 256 * (used - old(used)) == old(numTms) + pos
        invariant failed == (old(failed) || !Clean(fates, old(used), used)) && NoError(fates, old(used), used)
        invariant !failed ==> Asked() == old(Asked()) + TmsPulses(Bits.Take(tms, pos), Held)
      {
        if numTms == 256 {
          var r := Flush();
          NoPulses(buffer[1..]);
          if r < 0 {
            return -1;
          }
        }
        PushTms(Bits.Bit(tms, pos));
        TakeNext(tms, pos);
        TmsAppend(Bits.Take(tms, pos), [Bits.Bit(tms, pos)], Held);
      }
      return 0;
    }

    /** One TMS bit into the buffer. */
    method PushTms(b: bool)
      requires Valid() && numTms < 256
      modifies this`numTms, buffer
      ensures Valid() && numTms == old(numTms) + 1 && Asked() == old(Asked()) + TmsPulses([b], Held)
    {
      hide Bits.Take, WithBit, TmsPulses, AllClocks;
      ghost var s := buffer[1..];
      PutAppends(s, numTms, b);
      TmsAppend(Bits.Take(s, numTms), [b], Held);
      buffer[numTms / 8 + 1] := WithBit(buffer[numTms / 8 + 1], numTms % 8, b);
      assert buffer[1..] == Put(s, numTms, b);
      numTms := numTms + 1;
    }

    /** A batch goes out; its clocks are made and its TDO bits delivered. */
    method SendBatch(rx: array?<bv8>, rxPtr: nat, seqNum: nat, pos: nat, m: nat,
                     ghost base: seq<Pulse>, ghost p: seq<Pulse>, ghost d: nat, ghost c: nat) returns (ret: int)
      requires Valid() && 1 <= pos <= PAYLOAD && seqNum <= 7
      requires Batch(target, base, p, d, c, buffer[1..pos], seqNum, m, rx != null) && m < PAYLOAD
      requires !failed ==> Wire() == base + p[..d]
      requires rx != null ==> rx != buffer && rxPtr == Bytes(d) && (d % 8 == 0 || c == d) && Bytes(c) <= rx.Length
      requires rx != null ==> Bytes(d) + m == Bytes(c)
      requires !failed && rx != null ==> Bits.Take(rx[..], d) == Seen(target, base, p[..d])
      modifies this`sent, this`failed, this`used, buffer, rx
      ensures used == old(used) + 1 && ret == Result(fates(old(used)))
      ensures failed == (old(failed) || !fates(old(used)).Executed?)
      ensures !failed ==> Wire() == base + p[..c]
      ensures !failed && rx != null ==> Bits.Take(rx[..], c) == Seen(target, base, p[..c])
      ensures rx != null ==> SameFrom(old(rx[..]), rx[..], Bytes(c))
    {
      hide Bits.Take, Seen, Exact, Parse, Pulses, Reply, AllClocks, Bits.Byte, Bits.Value;
      ghost var x := buffer[1..pos];
      ghost var was := if rx != null then rx[..] else [];
      ret := SendReport(seqNum, pos);
      assert base + p[..d] + p[d..c] == base + p[..c];
      if ret > 0 && rx != null {
        if !failed { Delivered(target, base, p, d, c, x, seqNum, m, was, buffer[..m]); }
        CopyInto(rx, rxPtr, buffer[..m]);
        MiddleSame(was, rxPtr, buffer[..m], Bytes(c));
      }
    }

    /** `_buffer[0] = seq_num` and the transfer. */
    method SendReport(seqNum: nat, pos: nat) returns (ret: int)
      requires Valid() && 1 <= pos <= PAYLOAD && seqNum < 256 && Exact(buffer[1..pos], seqNum)
      modifies this`sent, this`failed, this`used, buffer
      ensures used == old(used) + 1 && ret == Result(fates(old(used)))
      ensures failed == (old(failed) || !fates(old(used)).Executed?)
      ensures !failed ==> Wire() == old(Wire()) + Pulses(Parse(old(buffer[1..pos]), seqNum))
      ensures !failed ==> var a := Reply(target, old(Wire()), Parse(old(buffer[1..pos]), seqNum));
                          |a| <= PAYLOAD ==> buffer[..|a|] == a
    {
      hide Exact, Parse, Pulses, Reply, AllClocks, Bits.Byte, Bits.Value;
      ghost var x, z := buffer[1..pos], buffer[pos..];
      buffer[0] := Bits.Byte(seqNum);
      Bits.ByteValue(seqNum);
      ghost var r := Report(JTAG_SEQUENCE, buffer[..]);
      assert r.payload[1..] == x + z;
      ParseThenMore(x, seqNum, z);
      AllClocksSnoc(sent, r);
      ret := Xfer(JTAG_SEQUENCE);
    }

    /** An information byte and its data bytes. */
    method PutSequence(pos: nat, info: bv8, tx: seq<bv8>)
      requires Valid() && 1 <= pos && pos + 1 + |tx| <= PAYLOAD
      modifies buffer
      ensures buffer[1..pos + 1 + |tx|] == old(buffer[1..pos]) + ([info] + tx)
    {
      buffer[pos] := info;
      forall i | 0 <= i < |tx| {
        buffer[pos + 1 + i] := tx[i];
      }
      assert buffer[1..pos] == old(buffer[1..pos]);
      assert buffer[pos + 1..pos + 1 + |tx|] == tx;
      assert buffer[1..pos + 1 + |tx|] == buffer[1..pos] + [buffer[pos]] + buffer[pos + 1..pos + 1 + |tx|];
    }

    /** The batch that carries the last bit: one more sequence, with TMS inverted,
        whose answer goes to bit `realLen` of `rx`. */
    method SendLast(tms: bool, bit: bool, rx: array?<bv8>, rxPtr: nat, realLen: nat, seqNum: nat, pos: nat, m: nat,
                    ghost base: seq<Pulse>, ghost p: seq<Pulse>, ghost d: nat) returns (ret: int)
      requires Valid() && 1 <= pos <= PAYLOAD - 2 && seqNum <= 6 && realLen == |p|
      requires Batch(target, base, p, d, |p|, buffer[1..pos], seqNum, m, rx != null) && m < PAYLOAD
      requires !failed ==> Wire() == base + p[..d]
      requires rx != null ==> rx != buffer && rxPtr == Bytes(d) && (d % 8 == 0 || |p| == d) && |p| < 8 * rx.Length
      requires !failed && rx != null ==> Bits.Take(rx[..], d) == Seen(target, base, p[..d])
      modifies this`sent, this`failed, this`used, buffer, rx
      ensures used == old(used) + 1 && ret == Result(fates(old(used)))
      ensures failed == (old(failed) || !fates(old(used)).Executed?)
      ensures !failed ==> Wire() == base + (p + [Pulse(Driven(!tms), Driven(bit))])
      ensures !failed && rx != null ==>
                Bits.Take(rx[..], |p| + 1) == Seen(target, base, p + [Pulse(Driven(!tms), Driven(bit))])
      ensures rx != null ==> SameFrom(old(rx[..]), rx[..], Bytes(|p| + 1))
    {
      hide Bits.Take, Seen, Exact, Parse, Pulses, Reply, AllClocks, Info, WithBit, Bits.Bit, BitByte, Pack, Put;
      ghost var x := buffer[1..pos];
      ghost var was := if rx != null then rx[..] else [];
      ghost var last := [Pulse(Driven(!tms), Driven(bit))];
      LastShot(target, base, p, d, x, seqNum, m, rx != null, !tms, bit);
      PutSequence(pos, Info(rx != null, !tms, 1), [BitByte(bit)]);
      ret := SendReport(seqNum + 1, pos + 2);
      assert base + p[..d] + (p[d..] + last) == base + (p + last);
      if ret > 0 && rx != null {
        PackOne(Seen(target, base + p, last));
        assert rx[..] == was;
        ReceiveLast(rx, rxPtr, realLen, seqNum, m, x, base, p, d, last[0]);
      }
    }

    /** The answers of the last batch: its bytes, then bit 0 of one more byte. */
    method ReceiveLast(rx: array<bv8>, rxPtr: nat, realLen: nat, seqNum: nat, m: nat, ghost x: seq<bv8>,
                       ghost base: seq<Pulse>, ghost p: seq<Pulse>, ghost d: nat, ghost last: Pulse)
      requires Valid() && Batch(target, base, p, d, |p|, x, seqNum, m, true) && m < PAYLOAD && realLen == |p|
      requires rx != buffer && rxPtr == Bytes(d) && (d % 8 == 0 || |p| == d) && |p| < 8 * rx.Length
      requires !failed ==> Bits.Take(rx[..], d) == Seen(target, base, p[..d])
      requires !failed ==>
                 buffer[..m + 1]
                 == Reply(target, base + p[..d], Parse(x, seqNum)) + Pack(Seen(target, base + p, [last]))
      modifies rx
      ensures !failed ==> Bits.Take(rx[..], |p| + 1) == Seen(target, base, p + [last])
      ensures SameFrom(old(rx[..]), rx[..], Bytes(|p| + 1))
    {
      hide Bits.Take, Seen, Exact, Parse, Pulses, Reply, Bits.Bit, Pack, SameFrom;
      ghost var was, seen := rx[..], Seen(target, base + p, [last]);
      PackOne(seen);
      LastFits(d, |p|, m);
      assert buffer[..m + 1][..m] == buffer[..m] && buffer[..m + 1][m] == buffer[m];
      if !failed { Delivered(target, base, p, d, |p|, x, seqNum, m, was, buffer[..m]); }
      CopyInto(rx, rxPtr, buffer[..m]);
      MiddleSame(was, rxPtr, buffer[..m], Bytes(|p| + 1));
      ghost var mid := rx[..];
      assert p[..|p|] == p;
      SeenAppend(target, base, p, [last]);
      assert !failed ==> [buffer[m]] == Pack(seen);
      PutInto(rx, realLen, Bits.Bit([buffer[m]], 0));
      SameStep(was, mid, rx[..], Bytes(|p| + 1), Bytes(|p| + 1));
    }

    /** One more sequence into the buffer. */
    method AddSequence(tms: bool, tx: seq<bv8>, capture: bool, realLen: nat, txPtr: nat, n: nat,
                       seqNum: nat, pos: nat, m: nat, ghost base: seq<Pulse>, ghost d: nat, ghost c: nat)
      requires Valid() && Bytes(realLen) <= |tx| && 0 < n <= 64 && 1 <= pos && pos + 1 + Bytes(n) <= PAYLOAD
      requires c == 8 * txPtr && c + n <= realLen && d <= c && (c - d) % 8 == 0
      requires Batch(target, base, TdiPulses(tms, Bits.Take(tx, realLen)), d, c, buffer[1..pos], seqNum, m, capture)
      modifies buffer
      ensures Batch(target, base, TdiPulses(tms, Bits.Take(tx, realLen)), d, c + n,
                    buffer[1..pos + 1 + Bytes(n)], seqNum + 1, m + Bytes(n), capture)
    {
      hide Bits.Take, Batch, Info, TdiPulses, Bytes;
      EnoughBytes(realLen);
      EnoughBytes(n);
      ClocksOf(tms, tx, realLen, txPtr, n);
      var data := tx[txPtr..txPtr + Bytes(n)];
      BatchSnoc(target, base, TdiPulses(tms, Bits.Take(tx, realLen)), d, c, buffer[1..pos], seqNum, m,
                capture, tms, n, data);
      PutSequence(pos, Info(capture, tms, if n == 64 then 0 else n), data);
    }

    /** Send the batch and start an empty one. */
    method SendAndRestart(rx: array?<bv8>, rxPtr: nat, seqNum: nat, pos: nat, m: nat, ghost len: nat,
                          ghost base: seq<Pulse>, ghost p: seq<Pulse>, ghost d: nat, ghost c: nat)
      returns (ret: int, rxNext: nat)
      requires Valid() && 1 <= pos <= PAYLOAD && seqNum <= 7
      requires Batch(target, base, p, d, c, buffer[1..pos], seqNum, m, rx != null) && d <= c <= |p| && m < PAYLOAD
      requires !failed ==> Wire() == base + p[..d]
      requires Bytes(d) + m == Bytes(c) <= Bytes(len) && d % 8 == 0
      requires rx != null ==> rx != buffer && rxPtr == Bytes(d) && Bytes(len) <= rx.Length && c <= 8 * rx.Length
      requires !failed && rx != null ==> Bits.Take(rx[..], d) == Seen(target, base, p[..d])
      modifies this`sent, this`failed, this`used, buffer, rx
      ensures used == old(used) + 1 && ret == Result(fates(old(used)))
      ensures failed == (old(failed) || !fates(old(used)).Executed?)
      ensures ret > 0 ==> Batch(target, base, p, c, c, buffer[1..1], 0, 0, rx != null)
      ensures !failed ==> Wire() == base + p[..c]
      ensures ret > 0 && rx != null ==> rxNext == Bytes(c)
      ensures !failed && rx != null ==> Bits.Take(rx[..], c) == Seen(target, base, p[..c])
      ensures rx != null ==> SameFrom(old(rx[..]), rx[..], Bytes(len))
    {
      rxNext := rxPtr;
      ret := SendBatch(rx, rxPtr, seqNum, pos, m, base, p, d, c);
      hide Bits.Take, Seen, Batch, AllClocks, Bytes;
      if ret > 0 {
        EmptyBatch(target, base, p, c, rx != null);
        assert buffer[1..1] == [];
        if rx != null {
          rxNext := rxPtr + m;
        }
      }
    }

    /** Where the main loop stands: the first `d` clocks are made and their TDO bits
        delivered, the buffer holds the sequences up to the rest. */
    ghost predicate Progress(cur: Cursor, p: seq<Pulse>, rx: array?<bv8>, len: nat, end: bool, base: seq<Pulse>, d: nat)
      reads this`sent, this`failed, buffer, rx
    {
      && |p| == len && Shape(len, cur.rest, cur.txPtr, d, cur.seqNum, cur.pos, cur.m, end)
      && buffer.Length == PAYLOAD && 1 <= cur.pos <= PAYLOAD
      && Batch(target, base, p, d, len - cur.rest, buffer[1..cur.pos], cur.seqNum, cur.m, rx != null)
      && (rx != null ==> cur.rxPtr == Bytes(d) && d <= 8 * rx.Length)
      && (!failed ==> Wire() == base + p[..d] && (rx != null ==> Bits.Take(rx[..], d) == Seen(target, base, p[..d])))
    }

    /** One round of the main loop: a sequence is added, and the batch sent if it is
        full or, without a dedicated last bit, complete. */
    method Round(cur: Cursor, tms: bool, tx: seq<bv8>, rx: array?<bv8>, realLen: nat, end: bool,
                 ghost p: seq<Pulse>, ghost base: seq<Pulse>, ghost d: nat, ghost n0: nat)
      returns (ret: int, next: Cursor, ghost d': nat)
      requires Valid() && Bytes(realLen) <= |tx| && p == TdiPulses(tms, Bits.Take(tx, realLen)) && cur.rest > 0
      requires rx != null ==> rx != buffer && Bytes(realLen) <= rx.Length
      requires Progress(cur, p, rx, realLen, end, base, d) && Counted(realLen, cur.rest, d, n0, end)
      modifies this`sent, this`failed, this`used, buffer, rx
      ensures old(used) <= used && failed == (old(failed) || !Clean(fates, old(used), used))
      ensures (ret > 0 <==> Pass(fates, old(used), used)) && (ret <= 0 ==> failed)
      ensures used - old(used) + n0 <= BodyTransfers(realLen, end)
      ensures ret > 0 ==>
                && Progress(next, p, rx, realLen, end, base, d') && next.rest < cur.rest
                && Counted(realLen, next.rest, d', n0 + (used - old(used)), end)
      ensures rx != null ==> SameFrom(old(rx[..]), rx[..], Bytes(realLen))
    {
      hide Bits.Take, Seen, Batch, AllClocks, TdiPulses, SequenceBits, SameFrom, Bytes, Shape, Counted, BodyTransfers;
      EnoughBytes(realLen);
      ShapeNext(realLen, cur.rest, cur.txPtr, d, cur.seqNum, cur.pos, cur.m, end);
      CountNext(realLen, cur.rest, cur.txPtr, d, cur.seqNum, cur.pos, cur.m, n0, end);
      if rx != null { SameSelf(rx[..], Bytes(realLen)); }
      var n := SequenceBits(cur.rest, cur.pos);
      var rest, pos, m := cur.rest - n, cur.pos + 1 + Bytes(n), cur.m + Bytes(n);
      AddSequence(tms, tx, rx != null, realLen, cur.txPtr, n, cur.seqNum, cur.pos, cur.m, base, d, realLen - cur.rest);
      if (!end && rest == 0) || cur.seqNum == 6 {
        var rxPtr;
        ret, rxPtr := SendAndRestart(rx, cur.rxPtr, cur.seqNum + 1, pos, m, realLen, base, p, d, realLen - rest);
        d' := realLen - rest;
        next := Cursor(rest, cur.txPtr + Bytes(n), rxPtr, 0, 1, 0);
      } else {
        ret, d' := 1, d;
        next := Cursor(rest, cur.txPtr + Bytes(n), cur.rxPtr, cur.seqNum + 1, pos, m);
      }
    }

    /** The main loop: all bits but a dedicated last one, in batches of at most
        seven sequences. On success everything but the last batch is on the wire,
        and without a last bit that too. */
    method SendBody(tms: bool, tx: seq<bv8>, rx: array?<bv8>, realLen: nat, end: bool, ghost base: seq<Pulse>)
      returns (ret: int, cur: Cursor, ghost d: nat)
      requires Valid() && Bytes(realLen) <= |tx| && (!failed ==> Wire() == base)
      requires rx != null ==> rx != buffer && Bytes(realLen) <= rx.Length
      modifies this`sent, this`failed, this`used, buffer, rx
      ensures old(used) <= used && failed == (old(failed) || !Clean(fates, old(used), used))
      ensures ret > 0 <==> Pass(fates, old(used), old(used) + BodyTransfers(realLen, end))
      ensures if ret > 0 then used == old(used) + BodyTransfers(realLen, end) else failed
      ensures ret > 0 ==>
                Progress(cur, TdiPulses(tms, Bits.Take(tx, realLen)), rx, realLen, end, base, d) && cur.rest == 0
      ensures rx != null ==> SameFrom(old(rx[..]), rx[..], Bytes(realLen))
    {
      hide Bits.Take, Seen, Batch, AllClocks, TdiPulses, SequenceBits, SameFrom, Bytes, Shape, Counted, BodyTransfers;
      EnoughBytes(realLen);
      ghost var p := TdiPulses(tms, Bits.Take(tx, realLen));
      ret, cur, d := 1, Cursor(realLen, 0, 0, 0, 1, 0), 0;
      assert p[..0] == [] && buffer[1..1] == [] && base + [] == base;
      EmptyBatch(target, base, p, 0, rx != null);
      ShapeStart(realLen, end);
      CountStart(realLen, end);
      if rx != null {
        NothingSeen(rx[..], target, base);
        SameSelf(rx[..], Bytes(realLen));
      }
      assert Progress(cur, p, rx, realLen, end, base, d);
      hide Progress;
      while cur.rest > 0
        invariant Progress(cur, p, rx, realLen, end, base, d)
        invariant rx != null ==> SameFrom(old(rx[..]), rx[..], Bytes(realLen))
        invariant ret > 0 && old(used) <= used && failed == (old(failed) || !Clean(fates, old(used), used))
        invariant Pass(fates, old(used), used) && Counted(realLen, cur.rest, d, used - old(used), end)
        decreases cur.rest
      {
        ghost var was := if rx != null then rx[..] else [];
        ret, cur, d := Round(cur, tms, tx, rx, realLen, end, p, base, d, used - old(used));
        if rx != null { SameStep(old(rx[..]), was, rx[..], Bytes(realLen), Bytes(realLen)); }
        if ret <= 0 {
          return;
        }
      }
      CountEnd(realLen, d, used - old(used), end);
    }

    /** `writeJtagSequence` after its first flush. */
    method SendData(tms: bool, tx: seq<bv8>, rx: array?<bv8>, len: nat, end: bool, ghost base: seq<Pulse>)
      returns (ret: int)
      requires Valid() && Bytes(len) <= |tx| && (end ==> len > 0) && (!failed ==> Wire() == base)
      requires rx != null ==> rx != buffer && Bytes(len) <= rx.Length
      modifies this`sent, this`failed, this`used, buffer, rx
      ensures old(used) <= used && failed == (old(failed) || !Clean(fates, old(used), used))
      ensures !failed ==> ret == len && Wire() == base + Request(tms, Bits.Take(tx, len), end)
      ensures !failed && rx != null ==>
                Bits.Take(rx[..], len) == Seen(target, base, Request(tms, Bits.Take(tx, len), end))
      ensures rx != null ==> SameFrom(old(rx[..]), rx[..], Bytes(len))
      ensures ret > 0 <==> len > 0 && Pass(fates, old(used), old(used) + DataTransfers(len, end))
      ensures ret > 0 ==> used == old(used) + DataTransfers(len, end)
    {
      hide Bits.Take, Seen, Batch, AllClocks, TdiPulses, Bits.Bit, BodyTransfers, Shape, SameFrom, Bytes;
      var realLen := if end then len - 1 else len;
      FewerBytes(realLen, len);
      ghost var p := TdiPulses(tms, Bits.Take(tx, realLen));
      var cur;
      ghost var d;
      ret, cur, d := SendBody(tms, tx, rx, realLen, end, base);
      ghost var was := if rx != null then rx[..] else [];
      if rx != null {
        SameSelf(was, Bytes(len));
        SameWiden(old(rx[..]), was, Bytes(realLen), Bytes(len));
      }
      if ret <= 0 {
        return;
      }
      ShapeEnd(realLen, cur.txPtr, d, cur.seqNum, cur.pos, cur.m, end);
      assert p[..realLen] == p;
      if end {
        TakeNext(tx, realLen);
        ret := SendLast(tms, Bits.Bit(tx, realLen), rx, cur.rxPtr, realLen, cur.seqNum, cur.pos, cur.m, base, p, d);
        if rx != null { SameStep(old(rx[..]), was, rx[..], Bytes(len), Bytes(len)); }
        if ret <= 0 {
          return;
        }
      }
      ret := len;
    }

    /** `writeJtagSequence`: exactly the requested clocks follow the waiting TMS
        bits, and every TDO bit arrives at its own index, if all goes well. The result
        is positive exactly if `DataPositive`, so a failure is hidden exactly if that
        holds although a transfer was not executed. */
    method WriteJtagSequence(tms: bool, tx: seq<bv8>, rx: array?<bv8>, len: nat, end: bool) returns (ret: int)
      requires Valid() && Bytes(len) <= |tx| && (end ==> len > 0)
      requires rx != null ==> rx != buffer && Bytes(len) <= rx.Length
      modifies this`numTms, this`sent, this`failed, this`used, buffer, rx
      ensures Valid() && numTms == 0
      ensures !failed ==> ret == len && Wire() == old(Asked()) + Request(tms, Bits.Take(tx, len), end)
      ensures !failed && rx != null ==>
                Bits.Take(rx[..], len) == Seen(target, old(Asked()), Request(tms, Bits.Take(tx, len), end))
      ensures rx != null ==> SameFrom(old(rx[..]), rx[..], Bytes(len))
      ensures ret > 0 <==> DataPositive(fates, old(used), old(numTms), len, end)
      ensures !old(failed) && ret > 0 ==>
                (failed <==> !Clean(fates, old(used), old(used) + FirstFlush(old(numTms)) + DataTransfers(len, end)))
    {
      hide Bits.Take, Seen, AllClocks, DataTransfers, SameFrom, Bytes, Request, TmsPulses;
      var _ := Flush();
      ret := SendData(tms, tx, rx, len, end, Wire());
    }

    /** `writeTDI`. */
    method WriteTDI(tx: seq<bv8>, rx: array?<bv8>, len: nat, end: bool) returns (ret: int)
      requires Valid() && Bytes(len) <= |tx| && (end ==> len > 0)
      requires rx != null ==> rx != buffer && Bytes(len) <= rx.Length
      modifies this`numTms, this`sent, this`failed, this`used, buffer, rx
      ensures Valid() && numTms == 0
      ensures !failed ==> ret == len && Wire() == old(Asked()) + Request(false, Bits.Take(tx, len), end)
      ensures !failed && rx != null ==>
                Bits.Take(rx[..], len) == Seen(target, old(Asked()), Request(false, Bits.Take(tx, len), end))
      ensures rx != null ==> SameFrom(old(rx[..]), rx[..], Bytes(len))
      ensures ret > 0 <==> DataPositive(fates, old(used), old(numTms), len, end)
    {
      ret := WriteJtagSequence(false, tx, rx, len, end);
    }

    /** `toggleClk`: exactly `clkLen` clocks with the levels asked for. */
    method ToggleClk(tms: bool, tdi: bool, clkLen: nat) returns (ret: int)
      requires Valid()
      modifies this`numTms, this`sent, this`failed, this`used, buffer
      ensures Valid() && numTms == 0
      ensures !failed ==> ret == clkLen && Wire() == old(Asked()) + seq(clkLen, _ => Pulse(Driven(tms), Driven(tdi)))
      ensures ret > 0 <==> DataPositive(fates, old(used), old(numTms), clkLen, false)
    {
      var tx := seq(Bytes(clkLen), _ => if tdi then 0xFF as bv8 else 0);
      Bits.ConstantBytes(tx, clkLen, tdi);
      ret := WriteJtagSequence(tms, tx, null, clkLen, false);
      assert Request(tms, Bits.Take(tx, clkLen), false) == seq(clkLen, _ => Pulse(Driven(tms), Driven(tdi)));
    }
  }

  /** A TMS report decodes to the bits it was made from. */
  lemma TmsReport(rest: seq<bv8>, n: nat)
    requires 0 < n <= 256 && n <= 8 * |rest|
    ensures Clocks(Report(SWJ_SEQUENCE, [Bits.Byte(n)] + rest)) == TmsPulses(Bits.Take(rest, n), Held)
  {
    hide Bits.Take, Bits.Byte, Bits.Value, Parse, Pulses;
    CountByte(n);
    assert ([Bits.Byte(n)] + rest)[1..] == rest;
  }

  lemma AllClocksSnoc(sent: seq<Report>, r: Report)
    ensures AllClocks(sent + [r]) == AllClocks(sent) + Clocks(r)
  {
    assert (sent + [r])[..|sent|] == sent;
  }

  lemma NoPulses(s: seq<bv8>)
    ensures TmsPulses(Bits.Take(s, 0), Held) == []
  {
  }

  lemma NothingSeen(s: seq<bv8>, t: Target, h: seq<Pulse>)
    ensures Bits.Take(s, 0) == [] == Seen(t, h, [])
  {
  }

  /** The bits of the next sequence: up to 64, up to the rest, up to the space. */
  function SequenceBits(rest: nat, pos: nat): (n: nat)
    requires 0 < rest && 1 <= pos <= 61
  {
    var size, n := if rest >= 64 then 8 else Bytes(rest), if rest >= 64 then 64 else rest;
    if size + 1 + pos > PAYLOAD then 8 * (PAYLOAD - pos - 1) else n
  }

  /** Six full sequences leave room for seven bytes. */
  lemma SequenceFits(rest: nat, pos: nat, k: nat)
    requires 0 < rest && k <= 6 && pos == 1 + 9 * k
    ensures var n := SequenceBits(rest, pos);
            && 0 < n <= 64 && n <= rest && pos + 1 + Bytes(n) <= PAYLOAD && Bytes(n) <= 8
            && (n < rest ==> n % 8 == 0 && (k < 6 ==> n == 64))
  {
  }

  lemma TdiSlice(tms: bool, w: seq<bool>, from: nat, to: nat)
    requires from <= to <= |w|
    ensures TdiPulses(tms, w)[from..to] == TdiPulses(tms, w[from..to])
  {
  }

  /** How the positions of the main loop hang together: sequences are whole bytes
      until the rest runs out, and full ones until the seventh. */
  predicate Shape(len: nat, rest: nat, txPtr: nat, d: nat, k: nat, pos: nat, m: nat, end: bool) {
    && rest <= len && d <= len - rest && txPtr == Bytes(len - rest) && m == Bytes(len - rest - d)
    && (rest > 0 ==> (len - rest) % 8 == 0 && d % 8 == 0 && m == 8 * k)
    && (d % 8 == 0 || d == len) && k <= 6 && pos == 1 + k + m && m <= 8 * k
    && (rest == 0 && !end ==> d == len)
  }

  lemma ShapeStart(len: nat, end: bool)
    ensures Shape(len, len, 0, 0, 0, 1, 0, end) && Bytes(0) == 0
  {
  }

  lemma ShapeEnd(len: nat, txPtr: nat, d: nat, k: nat, pos: nat, m: nat, end: bool)
    requires Shape(len, 0, txPtr, d, k, pos, m, end)
    ensures d <= len && 1 <= pos <= 55 && m < PAYLOAD && k <= 6 && (d % 8 == 0 || d == len) && (!end ==> d == len)
  {
  }

  lemma ShapeNext(len: nat, rest: nat, txPtr: nat, d: nat, k: nat, pos: nat, m: nat, end: bool)
    requires Shape(len, rest, txPtr, d, k, pos, m, end) && rest > 0
    ensures 1 <= pos <= 55 && k <= 6 && len - rest == 8 * txPtr && d <= len - rest
    ensures (len - rest - d) % 8 == 0 && d % 8 == 0
    ensures var n := SequenceBits(rest, pos);
            && 0 < n <= 64 && n <= rest && pos + 1 + Bytes(n) <= PAYLOAD && m + Bytes(n) < PAYLOAD
            && Bytes(d) + (m + Bytes(n)) == Bytes(len - (rest - n)) <= Bytes(len)
            && (if (!end && rest == n) || k == 6
                then Shape(len, rest - n, txPtr + Bytes(n), len - (rest - n), 0, 1, 0, end)
                else Shape(len, rest - n, txPtr + Bytes(n), d, k + 1, pos + 1 + Bytes(n), m + Bytes(n), end))
  {
    SequenceFits(rest, pos, k);
  }

  /** How many reports are out: each took 440 bits, until the rest runs out. */
  predicate Counted(len: nat, rest: nat, d: nat, n: nat, end: bool) {
    if rest > 0 then d == 440 * n else n == BodyTransfers(len, end)
  }

  lemma CountStart(len: nat, end: bool)
    ensures Counted(len, len, 0, 0, end)
  {
  }

  lemma CountEnd(len: nat, d: nat, n: nat, end: bool)
    requires Counted(len, 0, d, n, end)
    ensures n == BodyTransfers(len, end)
  {
  }

  lemma CountNext(len: nat, rest: nat, txPtr: nat, d: nat, k: nat, pos: nat, m: nat, n: nat, end: bool)
    requires Shape(len, rest, txPtr, d, k, pos, m, end) && rest > 0 && Counted(len, rest, d, n, end)
    ensures 1 <= pos <= 55
    ensures var bits := SequenceBits(rest, pos);
            && 0 < bits <= rest && n <= BodyTransfers(len, end)
            && (if (!end && rest == bits) || k == 6
                then n + 1 <= BodyTransfers(len, end) && Counted(len, rest - bits, len - (rest - bits), n + 1, end)
                else Counted(len, rest - bits, d, n, end))
  {
    SequenceFits(rest, pos, k);
    assert len - rest - d == 64 * k;
  }

  lemma FewerBytes(m: nat, n: nat)
    requires m <= n
    ensures Bytes(m) <= Bytes(n) && m <= 8 * Bytes(m) && n <= 8 * Bytes(n)
  {
  }

  lemma LastFits(d: nat, n: nat, m: nat)
    requires d <= n && m == Bytes(n - d) && (d % 8 == 0 || n == d)
    ensures Bytes(d) + m == Bytes(n) <= Bytes(n + 1)
  {
  }

  lemma ClocksOf(tms: bool, tx: seq<bv8>, len: nat, at: nat, n: nat)
    requires 8 * at + n <= len && Bytes(len) <= |tx|
    ensures at + Bytes(n) <= |tx|
    ensures TdiPulses(tms, Bits.Take(tx, len))[8 * at..8 * at + n]
         == TdiPulses(tms, Bits.Take(tx[at..at + Bytes(n)], n))
  {
    hide Bits.Bit;
    TakeWindow(tx, at, at + Bytes(n), n);
    var w := Bits.Take(tx, len);
    assert Bits.Take(tx, 8 * at + n) == w[..8 * at + n];
    assert Bits.Take(tx[at..at + Bytes(n)], n) == w[8 * at..8 * at + n];
    TdiSlice(tms, w, 8 * at, 8 * at + n);
  }

  /** Whatever the levels before, a data transfer is the one the JTAG layer asks
      for: TMS low, high on the last bit when it ends. */
  lemma {:induction false} DataLevels(c: Clock, bits: seq<bool>, end: bool)
    requires end ==> bits != []
    ensures Levels(c, Request(false, bits, end)) == DataClocks(bits, end)
    decreases |bits|
  {
    var p := Request(false, bits, end);
    if bits == [] {
    } else {
      assert p[0] == Pulse(Driven(end && |bits| == 1), Driven(bits[0]));
      if |bits| > 1 {
        assert p[1..] == Request(false, bits[1..], end);
        DataLevels(At(c, p[0]), bits[1..], end);
        assert DataClocks(bits, end)[1..] == DataClocks(bits[1..], end);
      } else {
        assert p[1..] == [];
      }
    }
  }

  /** What the driver makes of its orders, as its methods are proved to. */
  function Driver(o: Order): seq<Pulse> {
    match o
    case Move(tms, _) => TmsPulses(tms, Held)
    case Data(bits, end) => if bits == [] then [] else Request(false, bits, end)
    case Toggle(level, tdi, n) => TdiPulses(level, Bits.Repeat(tdi, n))
  }

  /** An order is carried out as the contract promises, save that a move leaves TDI
      where it was, which matters only where the controllers shift. */
  lemma DriverSuits(s: State, c: Clock, o: Order)
    requires o.Move? ==> c.tdi == o.tdi || NeverShifts(s, o.tms)
    ensures Alike(s, Levels(c, Driver(o)), Promised(o))
  {
    hide Alike, TmsPulses, Request;
    match o
    case Move(tms, tdi) => HeldAlike(s, c, tms, tdi);
    case Data(bits, end) =>
      if bits == [] {
        AlikeSelf(s, []);
      } else {
        DataLevels(c, bits, end);
        AlikeSelf(s, DataClocks(bits, end));
      }
    case Toggle(level, tdi, n) =>
      ToggledLevels(c, level, tdi, n);
      AlikeSelf(s, AtLevel(Bits.Repeat(level, n), tdi));
  }

  lemma {:induction false} ToggledLevels(c: Clock, level: bool, tdi: bool, n: nat)
    ensures Levels(c, TdiPulses(level, Bits.Repeat(tdi, n))) == AtLevel(Bits.Repeat(level, n), tdi)
    decreases n
  {
    if n == 0 {
    } else {
      var p := TdiPulses(level, Bits.Repeat(tdi, n));
      assert p[1..] == TdiPulses(level, Bits.Repeat(tdi, n - 1));
      ToggledLevels(At(c, p[0]), level, tdi, n - 1);
    }
  }

  /** So every scan of `Jtag` over this driver does to the devices, and returns, what
      it does over the contract (`Drivers.ScanOverDriver`). */
  lemma DriverIsAble()
    ensures Able(Driver)
  {
    hide Alike, Levels, NeverShifts, TmsPulses, Promised;
    forall s, c, o | Allowed(s, c, o) ensures Carries(Driver, s, c, o) {
      DriverSuits(s, c, o);
    }
  }
}
