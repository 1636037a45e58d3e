/**
 The Gowin GWU2X cable: JTAG clocks compiled into a stream of opcodes, collected
 in a 259-byte buffer and sent in USB transfers.

 The device is modelled by parsing that stream. For every mix of calls the bytes
 sent and the bytes waiting are proved to decode to exactly the clocks asked for,
 every length field to hold its length, and the TDO bits of a transfer to arrive
 at their own indices.
 */
module Gwu2x {
  import Bits
  import opened Packed
  import opened Memory
  import opened Wire
  import opened Drivers
  import opened Chain
  import opened Tap

  const BUFFER_LEN := 259

  // ---------------------------------------------------------------------
  // The command language
  // ---------------------------------------------------------------------

  datatype Cmd =
    | Tms(bits: seq<bool>, level: bool, capture: bool)
    | Tdi(bits: seq<bool>, capture: bool)
    | Tck(n: nat)
    | Readback

  datatype Opcode = TmsOp(capture: bool) | BitOp(capture: bool) | ByteOp(capture: bool) | TckOp | ReadbackOp

  function Code(o: Opcode): bv8 {
    match o
    case TmsOp(capture) => if capture then 0x5C else 0x5B
    case BitOp(capture) => if capture then 0x6C else 0x6B
    case ByteOp(capture) => if capture then 0x7C else 0x7B
    case TckOp => 0x9B
    case ReadbackOp => 0x8B
  }

  predicate IsOp(b: bv8) {
    b == 0x5B || b == 0x5C || b == 0x6B || b == 0x6C || b == 0x7B || b == 0x7C || b == 0x9B || b == 0x8B
  }

  function Op(b: bv8): (o: Opcode)
    requires IsOp(b)
  {
    if b == 0x5B then TmsOp(false) else if b == 0x5C then TmsOp(true)
    else if b == 0x6B then BitOp(false) else if b == 0x6C then BitOp(true)
    else if b == 0x7B then ByteOp(false) else if b == 0x7C then ByteOp(true)
    else if b == 0x9B then TckOp else ReadbackOp
  }

  lemma OpOfCode(o: Opcode)
    ensures IsOp(Code(o)) && Op(Code(o)) == o
  {
  }

  /** The bytes of a command with opcode `o` and length byte `len`. */
  function SizeOf(o: Opcode, len: nat): (n: nat)
    ensures n > 0
  {
    if o.ReadbackOp? then 1 else if o.ByteOp? then 3 + len else 3
  }

  /** The first command is complete, and its length field in range. */
  predicate Known(x: seq<bv8>) {
    && x != [] && IsOp(x[0]) && (!Op(x[0]).ReadbackOp? ==> |x| > 1) && Size(x) <= |x|
    && (Op(x[0]).TmsOp? ==> Bits.Value(x[1]) < 7)
    && (Op(x[0]).BitOp? ==> Bits.Value(x[1]) < 8)
  }

  /** The bytes of the first command. */
  function Size(x: seq<bv8>): (n: nat)
    requires x != []
    ensures n > 0
  {
    if IsOp(x[0]) then SizeOf(Op(x[0]), if |x| > 1 then Bits.Value(x[1]) else 0) else 1
  }

  function Head(x: seq<bv8>): Cmd
    requires Known(x)
  {
    match Op(x[0])
    case ReadbackOp => Readback
    case TckOp => Tck(Bits.Value(x[1]) + 256 * Bits.Value(x[2]) + 1)
    case ByteOp(capture) => Tdi(Bits.Take(x[2..Size(x)], 8 * (Size(x) - 2)), capture)
    case BitOp(capture) => Tdi(Bits.ByteBits(x[2])[..Bits.Value(x[1]) + 1], capture)
    case TmsOp(capture) => Tms(Bits.ByteBits(x[2])[..Bits.Value(x[1]) + 1], Bits.ByteBits(x[2])[7], capture)
  }

  function Parse(x: seq<bv8>): seq<Cmd>
    decreases |x|
  {
    if !Known(x) then [] else [Head(x)] + Parse(x[Size(x)..])
  }

  /** The byte string is a whole number of commands. */
  predicate Exact(x: seq<bv8>)
    decreases |x|
  {
    x == [] || (Known(x) && Exact(x[Size(x)..]))
  }

  lemma HeadThenMore(x: seq<bv8>, y: seq<bv8>)
    requires Known(x)
    ensures Known(x + y) && Size(x + y) == Size(x) && Head(x + y) == Head(x)
    ensures Size(x) <= |x| && (x + y)[Size(x)..] == x[Size(x)..] + y
  {
    hide Bits.ByteBits, Bits.Take, Bits.Value, Op, IsOp;
    var z := x + y;
    assert z[0] == x[0] && (|x| > 1 ==> z[1] == x[1]) && (|x| > 2 ==> z[2] == x[2]);
    assert Size(z) == Size(x);
    if Op(x[0]).ByteOp? {
      assert z[2..Size(x)] == x[2..Size(x)];
    }
  }

  lemma Unfold(x: seq<bv8>)
    requires Known(x)
    ensures Size(x) <= |x| && Parse(x) == [Head(x)] + Parse(x[Size(x)..]) && Exact(x) == Exact(x[Size(x)..])
  {
    hide Size, Head, Bits.Value, Op, IsOp;
  }

  lemma ExactKnown(x: seq<bv8>)
    requires Exact(x) && x != []
    ensures Known(x)
  {
    hide Known, Size;
  }

  /** Streams of whole commands parse one after the other. */
  lemma {:induction false} ParseAppend(x: seq<bv8>, y: seq<bv8>)
    requires Exact(x)
    ensures Parse(x + y) == Parse(x) + Parse(y)
    ensures Exact(y) ==> Exact(x + y)
    decreases |x|
  {
    hide Known, Size, Head, Parse, Exact;
    if x == [] {
      assert x + y == y;
      Nothing();
      assert [] + Parse(y) == Parse(y);
    } else {
      ExactKnown(x);
      HeadThenMore(x, y);
      Unfold(x);
      Unfold(x + y);
      ParseAppend(x[Size(x)..], y);
    }
  }

  lemma NotKnown()
    ensures !Known([])
  {
  }

  // ---------------------------------------------------------------------
  // The device
  // ---------------------------------------------------------------------

  function TdiPulses(bits: seq<bool>): (r: seq<Pulse>)
    ensures |r| == |bits|
  {
    seq(|bits|, i requires 0 <= i < |bits| => Pulse(Held, Driven(bits[i])))
  }

  function Clocks(c: Cmd): seq<Pulse> {
    match c
    case Tms(bits, level, _) => TmsPulses(bits, Driven(level))
    case Tdi(bits, _) => TdiPulses(bits)
    case Tck(n) => TckPulses(n)
    case Readback => []
  }

  function Pulses(cmds: seq<Cmd>): seq<Pulse> {
    if cmds == [] then [] else Clocks(cmds[0]) + Pulses(cmds[1..])
  }

  predicate Captures(c: Cmd) {
    (c.Tms? || c.Tdi?) && c.capture
  }

  /** The clocks made, the TDO bits captured and not yet read back, the bytes
      read back so far. */
  datatype Device = Device(history: seq<Pulse>, caught: seq<bool>, out: seq<bv8>)

  function Exec(t: Target, d: Device, c: Cmd): Device {
    if c.Readback? then Device(d.history, [], d.out + Pack(d.caught))
    else
      Device(d.history + Clocks(c),
             d.caught + if Captures(c) then Seen(t, d.history, Clocks(c)) else [], d.out)
  }

  function ExecAll(t: Target, d: Device, cmds: seq<Cmd>): Device
    decreases |cmds|
  {
    if cmds == [] then d else ExecAll(t, Exec(t, d, cmds[0]), cmds[1..])
  }

  lemma {:induction false} ExecAppend(t: Target, d: Device, x: seq<Cmd>, y: seq<Cmd>)
    ensures ExecAll(t, d, x + y) == ExecAll(t, ExecAll(t, d, x), y)
    decreases |x|
  {
    hide Exec;
    if x == [] {
      assert x + y == y;
    } else {
      assert (x + y)[1..] == x[1..] + y;
      ExecAppend(t, Exec(t, d, x[0]), x[1..], y);
    }
  }

  lemma {:induction false} PulsesAppend(x: seq<Cmd>, y: seq<Cmd>)
    ensures Pulses(x + y) == Pulses(x) + Pulses(y)
    decreases |x|
  {
    hide Clocks;
    if x == [] {
      assert x + y == y;
    } else {
      assert (x + y)[1..] == x[1..] + y;
      PulsesAppend(x[1..], y);
    }
  }

  /** The clocks the device makes are those of the commands. */
  lemma {:induction false} ExecHistory(t: Target, d: Device, x: seq<Cmd>)
    ensures ExecAll(t, d, x).history == d.history + Pulses(x)
    decreases |x|
  {
    hide Clocks, Exec;
    if x == [] {
      assert d.history + [] == d.history;
    } else {
      ExecHistory(t, Exec(t, d, x[0]), x[1..]);
      ExecOne(t, d, x[0]);
      assert d.history + Clocks(x[0]) + Pulses(x[1..]) == d.history + Pulses(x);
    }
  }

  lemma ExecOne(t: Target, d: Device, c: Cmd)
    ensures Exec(t, d, c).history == d.history + Clocks(c)
  {
    hide Seen, Pack, Captures, TmsPulses, TdiPulses, TckPulses;
    assert d.history + [] == d.history;
  }

  predicate AllCapture(x: seq<Cmd>) {
    forall i :: 0 <= i < |x| ==> Captures(x[i])
  }

  /** Commands that capture collect the TDO bits of their clocks in order. */
  lemma {:induction false} ExecCaptures(t: Target, d: Device, x: seq<Cmd>)
    requires AllCapture(x)
    ensures ExecAll(t, d, x)
         == Device(d.history + Pulses(x), d.caught + Seen(t, d.history, Pulses(x)), d.out)
    decreases |x|
  {
    hide Clocks, Seen, Pack, Captures;
    if x == [] {
      assert d.history + [] == d.history && d.caught + Seen(t, d.history, []) == d.caught;
    } else {
      assert Captures(x[0]) && !x[0].Readback? by { CapturesNotReadback(x[0]); }
      assert forall i :: 0 <= i < |x[1..]| ==> x[1..][i] == x[i + 1];
      ExecCaptures(t, Exec(t, d, x[0]), x[1..]);
      SeenAppend(t, d.history, Clocks(x[0]), Pulses(x[1..]));
    }
  }

  lemma CapturesNotReadback(c: Cmd)
    ensures Captures(c) ==> !c.Readback?
  {
  }

  /** A round: capturing commands and a readback return the packed TDO bits. */
  lemma RoundReply(t: Target, d: Device, x: seq<Cmd>)
    requires AllCapture(x) && d.caught == []
    ensures ExecAll(t, d, x + [Readback])
         == Device(d.history + Pulses(x), [], d.out + Pack(Seen(t, d.history, Pulses(x))))
  {
    hide Clocks, Seen, Pack, Captures, AllCapture;
    ExecCaptures(t, d, x);
    ExecAppend(t, d, x, [Readback]);
    var e := ExecAll(t, d, x);
    assert [] + Seen(t, d.history, Pulses(x)) == Seen(t, d.history, Pulses(x));
    assert ExecAll(t, e, [Readback]) == ExecAll(t, Exec(t, e, Readback), []);
  }

  predicate NoneCaptures(x: seq<Cmd>) {
    forall i :: 0 <= i < |x| ==> !Captures(x[i]) && !x[i].Readback?
  }

  /** Commands that do not capture only make clocks. */
  lemma {:induction false} ExecSilent(t: Target, d: Device, x: seq<Cmd>)
    requires NoneCaptures(x)
    ensures ExecAll(t, d, x) == d.(history := d.history + Pulses(x))
    decreases |x|
  {
    hide Clocks, Seen, Pack, Captures;
    if x == [] {
      assert d.history + [] == d.history;
    } else {
      assert !Captures(x[0]) && !x[0].Readback?;
      assert forall i :: 0 <= i < |x[1..]| ==> x[1..][i] == x[i + 1];
      ExecSilent(t, Exec(t, d, x[0]), x[1..]);
    }
  }

  // ---------------------------------------------------------------------
  // Commands as the driver writes them
  // ---------------------------------------------------------------------

  lemma ParseOne(x: seq<bv8>)
    requires Known(x) && Size(x) == |x|
    ensures Exact(x) && Parse(x) == [Head(x)]
  {
    hide Known, Size, Head;
    assert x[Size(x)..] == [];
    NotKnown();
  }

  lemma ByteCommand(data: seq<bv8>, capture: bool)
    requires 0 < |data| <= 256
    ensures var x := [Code(ByteOp(capture)), Bits.Byte(|data| - 1)] + data;
            Exact(x) && Parse(x) == [Tdi(Bits.Take(data, 8 * |data|), capture)]
  {
    hide Bits.Byte, Bits.Value, Bits.Digits, Bits.Take, Bits.ByteBits, Exact, Parse, Op, IsOp, Code;
    OpOfCode(ByteOp(capture));
    Bits.ByteValue(|data| - 1);
    var x := [Code(ByteOp(capture)), Bits.Byte(|data| - 1)] + data;
    assert x[0] == Code(ByteOp(capture)) && x[1] == Bits.Byte(|data| - 1);
    assert x[2..] == data && x[2..|x|] == data;
    ParseOne(x);
  }

  lemma BitCommand(n: nat, b: bv8, capture: bool)
    requires 0 < n <= 8
    ensures var x := [Code(BitOp(capture)), Bits.Byte(n - 1), b];
            Exact(x) && Parse(x) == [Tdi(Bits.ByteBits(b)[..n], capture)]
  {
    hide Bits.Byte, Bits.Value, Bits.Digits, Bits.Take, Bits.ByteBits, Exact, Parse, Op, IsOp, Code;
    OpOfCode(BitOp(capture));
    Bits.ByteValue(n - 1);
    ParseOne([Code(BitOp(capture)), Bits.Byte(n - 1), b]);
  }

  lemma TmsCommand(n: nat, b: bv8, capture: bool)
    requires 0 < n <= 7
    ensures var x := [Code(TmsOp(capture)), Bits.Byte(n - 1), b];
            Exact(x) && Parse(x) == [Tms(Bits.ByteBits(b)[..n], Bits.ByteBits(b)[7], capture)]
  {
    hide Bits.Byte, Bits.Value, Bits.Digits, Bits.Take, Bits.ByteBits, Exact, Parse, Op, IsOp, Code;
    OpOfCode(TmsOp(capture));
    Bits.ByteValue(n - 1);
    ParseOne([Code(TmsOp(capture)), Bits.Byte(n - 1), b]);
  }

  /** The clock command: a 16-bit count less one, low byte first. */
  lemma TckCommand(n: nat)
    requires 0 < n <= 65536
    ensures var x := [Code(TckOp), Bits.Byte(n - 1), Bits.Byte((n - 1) / 256)];
            Exact(x) && Parse(x) == [Tck(n)]
  {
    hide Bits.Byte, Bits.Value, Bits.Digits, Bits.Take, Bits.ByteBits, Exact, Parse, Op, IsOp, Code;
    OpOfCode(TckOp);
    Bits.ByteValue(n - 1);
    Bits.ByteValue((n - 1) / 256);
    assert (n - 1) / 256 < 256;
    ParseOne([Code(TckOp), Bits.Byte(n - 1), Bits.Byte((n - 1) / 256)]);
  }

  lemma ReadbackCommand()
    ensures Exact([Code(ReadbackOp)]) && Parse([Code(ReadbackOp)]) == [Readback]
  {
    hide Bits.Value, Exact, Parse, Op, IsOp, Code;
    OpOfCode(ReadbackOp);
    ParseOne([Code(ReadbackOp)]);
  }

  // ---------------------------------------------------------------------
  // Streams
  // ---------------------------------------------------------------------

  /** The clocks a byte stream asks for. */
  function Decoded(x: seq<bv8>): seq<Pulse> {
    Pulses(Parse(x))
  }

  lemma DecodedAppend(x: seq<bv8>, y: seq<bv8>)
    requires Exact(x)
    ensures Decoded(x + y) == Decoded(x) + Decoded(y)
  {
    hide Exact, Parse, Pulses;
    ParseAppend(x, y);
    PulsesAppend(Parse(x), Parse(y));
  }

  lemma PulsesOne(c: Cmd)
    ensures Pulses([c]) == Clocks(c)
  {
    hide Clocks;
    assert Pulses([c]) == Clocks(c) + Pulses([]);
  }

  /** The device after a stream. */
  function After(t: Target, x: seq<bv8>): Device {
    ExecAll(t, Device([], [], []), Parse(x))
  }

  /** Whole commands sent, nothing captured left unread, and only commands that do
      not capture waiting. */
  predicate Good(t: Target, sent: seq<bv8>, waiting: seq<bv8>) {
    Exact(sent) && Exact(waiting) && After(t, sent).caught == [] && NoneCaptures(Parse(waiting))
  }

  lemma AfterAppend(t: Target, x: seq<bv8>, y: seq<bv8>)
    requires Exact(x)
    ensures After(t, x + y) == ExecAll(t, After(t, x), Parse(y)) && After(t, x).history == Decoded(x)
  {
    hide Exact, Parse, Exec, ExecAll;
    ParseAppend(x, y);
    ExecAppend(t, Device([], [], []), Parse(x), Parse(y));
    ExecHistory(t, Device([], [], []), Parse(x));
    assert [] + Pulses(Parse(x)) == Pulses(Parse(x));
  }

  lemma Nothing()
    ensures Exact([]) && Parse([]) == [] && Decoded([]) == []
  {
    NotKnown();
  }

  /** Sending what waits. */
  lemma GoodSend(t: Target, sent: seq<bv8>, waiting: seq<bv8>)
    requires Good(t, sent, waiting)
    ensures Good(t, sent + waiting, [])
    ensures After(t, sent + waiting).out == After(t, sent).out
  {
    hide Exact, Parse, ExecAll, NoneCaptures;
    Nothing();
    AfterAppend(t, sent, waiting);
    ExecSilent(t, After(t, sent), Parse(waiting));
    ParseAppend(sent, waiting);
    assert NoneCaptures([]) by { EmptySilent(); }
  }

  lemma EmptySilent()
    ensures NoneCaptures([])
  {
  }

  /** Adding a command that does not capture. */
  lemma GoodAdd(t: Target, sent: seq<bv8>, waiting: seq<bv8>, x: seq<bv8>, c: Cmd)
    requires Good(t, sent, waiting) && Exact(x) && Parse(x) == [c] && !Captures(c) && !c.Readback?
    ensures Good(t, sent, waiting + x)
    ensures Decoded(sent + (waiting + x)) == Decoded(sent + waiting) + Clocks(c)
  {
    hide Exact, Parse, ExecAll, Clocks, Captures;
    ParseAppend(waiting, x);
    ParseAppend(sent, waiting);
    DecodedAppend(sent + waiting, x);
    PulsesOne(c);
    assert sent + (waiting + x) == sent + waiting + x;
    SilentSnoc(Parse(waiting), c);
  }

  lemma SilentSnoc(x: seq<Cmd>, c: Cmd)
    requires NoneCaptures(x) && !Captures(c) && !c.Readback?
    ensures NoneCaptures(x + [c])
  {
  }

  /** Sending capturing commands with a readback returns their TDO bits. */
  lemma GoodRound(t: Target, sent: seq<bv8>, x: seq<bv8>)
    requires Good(t, sent, []) && Exact(x) && AllCapture(Parse(x))
    ensures var y := sent + (x + [Code(ReadbackOp)]);
            && Good(t, y, []) && Decoded(y) == Decoded(sent) + Decoded(x)
            && After(t, y).out == After(t, sent).out + Pack(Seen(t, Decoded(sent), Decoded(x)))
  {
    hide Exact, Parse, ExecAll, AllCapture, NoneCaptures, Pack, Seen, Pulses;
    ReadbackCommand();
    Nothing();
    ParseAppend(x, [Code(ReadbackOp)]);
    ParseAppend(sent, x + [Code(ReadbackOp)]);
    AfterAppend(t, sent, x + [Code(ReadbackOp)]);
    RoundReply(t, After(t, sent), Parse(x));
    DecodedAppend(sent, x + [Code(ReadbackOp)]);
    DecodedAppend(x, [Code(ReadbackOp)]);
    PulsesOne(Readback);
    assert Decoded(x) + [] == Decoded(x);
  }

  /** The clocks of a data transfer: TMS left alone, and driven high on the last
      bit when the caller wants to leave the shift state. */
  function Request(bits: seq<bool>, end: bool): (r: seq<Pulse>)
    requires end ==> bits != []
    ensures |r| == |bits|
  {
    if end then TdiPulses(bits[..|bits| - 1]) + [Pulse(Driven(true), Driven(bits[|bits| - 1]))]
    else TdiPulses(bits)
  }

  /** Up to seven bits, and the last one with TMS, as they are put behind each other. */
  function BitBytes(b: bv8, n: nat, capture: bool): seq<bv8>
    requires n < 8
  {
    if n == 0 then [] else [Code(BitOp(capture)), Bits.Byte(n - 1), b]
  }

  function LastBytes(bit: bool, end: bool, capture: bool): seq<bv8> {
    if end then [Code(TmsOp(capture)), Bits.Byte(0), TdiBit(bit) | 1] else []
  }

  predicate Plain(x: seq<bv8>, capture: bool) {
    Exact(x) && if capture then AllCapture(Parse(x)) else NoneCaptures(Parse(x))
  }

  lemma PlainOne(x: seq<bv8>, c: Cmd, capture: bool)
    requires Exact(x) && Parse(x) == [c] && !c.Readback? && Captures(c) == capture
    ensures Plain(x, capture) && Decoded(x) == Clocks(c)
  {
    hide Exact, Parse, Clocks, Captures;
    PulsesOne(c);
  }

  lemma PlainAppend(x: seq<bv8>, y: seq<bv8>, capture: bool)
    requires Plain(x, capture) && Plain(y, capture)
    ensures Plain(x + y, capture) && Decoded(x + y) == Decoded(x) + Decoded(y)
  {
    hide Exact, Parse, Decoded, Captures;
    ParseAppend(x, y);
    DecodedAppend(x, y);
  }

  lemma BitBytesMean(b: bv8, n: nat, capture: bool)
    requires n < 8
    ensures Plain(BitBytes(b, n, capture), capture)
    ensures Decoded(BitBytes(b, n, capture)) == TdiPulses(Bits.ByteBits(b)[..n])
  {
    if n == 0 {
      Nothing();
    } else {
      BitMean(b, n, capture);
    }
  }

  lemma BitMean(b: bv8, n: nat, capture: bool)
    requires 0 < n < 8
    ensures Plain(BitBytes(b, n, capture), capture)
    ensures Decoded(BitBytes(b, n, capture)) == TdiPulses(Bits.ByteBits(b)[..n])
  {
    hide Exact, Parse, Decoded, Bits.ByteBits, Bits.Byte, Code, TdiPulses, Plain;
    BitCommand(n, b, capture);
    PlainOne(BitBytes(b, n, capture), Tdi(Bits.ByteBits(b)[..n], capture), capture);
  }

  lemma LastByteBits(bit: bool)
    ensures var s := Bits.ByteBits(TdiBit(bit) | 1);
            s[..1] == [true] && s[7] == bit
  {
  }

  lemma LastBytesMean(bit: bool, end: bool, capture: bool)
    ensures Plain(LastBytes(bit, end, capture), capture)
    ensures Decoded(LastBytes(bit, end, capture)) == if end then [Pulse(Driven(true), Driven(bit))] else []
  {
    hide Exact, Parse, Decoded, Bits.ByteBits, Bits.Byte, Code, TdiBit, Plain;
    if end {
      TmsCommand(1, TdiBit(bit) | 1, capture);
      LastByteBits(bit);
      var c := Tms([true], bit, capture);
      PlainOne(LastBytes(bit, end, capture), c, capture);
      assert Clocks(c) == [Pulse(Driven(true), Driven(bit))];
    } else {
      NothingPlain(capture);
    }
  }

  lemma NothingPlain(capture: bool)
    ensures Plain([], capture) && Decoded([]) == []
  {
    Nothing();
  }

  lemma ByteBytesMean(data: seq<bv8>, capture: bool)
    requires 0 < |data| <= 256
    ensures var x := [Code(ByteOp(capture)), Bits.Byte(|data| - 1)] + data;
            Plain(x, capture) && Decoded(x) == TdiPulses(Bits.Take(data, 8 * |data|))
  {
    hide Exact, Parse, Decoded, Bits.Take, Bits.Byte, Code, TdiPulses, Plain;
    ByteCommand(data, capture);
    PlainOne([Code(ByteOp(capture)), Bits.Byte(|data| - 1)] + data, Tdi(Bits.Take(data, 8 * |data|), capture), capture);
  }

  // ---------------------------------------------------------------------
  // The driver
  // ---------------------------------------------------------------------

  class GowinGWU2x {
    const buf: array<bv8>
    var pos: nat
    /** The bytes the device has got. */
    var sent: seq<bv8>
    /** Whether a USB transfer has failed. */
    var failed: bool
    const target: Target

    ghost predicate Room()
      reads this`pos
    {
      buf.Length == BUFFER_LEN && pos <= BUFFER_LEN
    }

    ghost predicate Valid()
      reads this`pos, this`sent, this`failed, buf
    {
      Room() && (!failed ==> Good(target, sent, buf[..pos]))
    }

    /** The clocks that the bytes sent and the bytes waiting decode to. */
    ghost function Asked(): seq<Pulse>
      requires Room()
      reads this`pos, this`sent, buf
    {
      Decoded(sent + buf[..pos])
    }

    constructor (target: Target)
      ensures Valid() && Asked() == [] && !failed && fresh(buf)
    {
      buf := new bv8[BUFFER_LEN](_ => 0);
      pos, sent, failed := 0, [], false;
      this.target := target;
      new;
      Nothing();
    }

    /** `xfer`: all waiting bytes go out; the bytes read back come in. */
    method Xfer(rxLen: nat) returns (ok: bool, rx: seq<bv8>)
      requires Room()
      modifies this`pos, this`sent, this`failed
      ensures Room() && failed == (old(failed) || !ok)
      ensures ok ==> pos == 0 && sent == old(sent) + old(buf[..pos])
      ensures ok && old(pos) > 0 && rxLen > 0 ==>
                var was, now := After(target, old(sent)).out, After(target, old(sent) + old(buf[..pos])).out;
                |now| >= |was| + rxLen && rx == now[|was|..|was| + rxLen]
    {
      hide After;
      rx := [];
      if pos == 0 {
        assert sent + buf[..0] == sent;
        return true, [];
      }
      var written: bool, answered: bool := *, *;
      if !written {
        sent := *;
        failed := true;
        return false, [];
      }
      var was := After(target, sent).out;
      sent := sent + buf[..pos];
      pos := 0;
      if rxLen == 0 {
        return true, [];
      }
      var now := After(target, sent).out;
      if !answered || |now| < |was| + rxLen {
        failed := true;
        return false, [];
      }
      return true, now[|was|..|was| + rxLen];
    }

    /** `store_seq`: the command goes behind the waiting ones, or, if there is no
        room, these are sent first. */
    method StoreSeq(opcode: bv8, len: bv8, data: bv8, readback: bool) returns (ok: bool)
      requires Room()
      modifies this`pos, this`sent, this`failed, buf
      ensures Room() && failed == (old(failed) || !ok)
      ensures var x := [opcode, len, data] + if readback then [Code(ReadbackOp)] else [];
              ok ==> if old(pos) + |x| > 259 then sent == old(sent) + old(buf[..pos]) && buf[..pos] == x
                     else sent == old(sent) && buf[..pos] == old(buf[..pos]) + x
    {
      hide After, Code;
      if pos + (if readback then 4 else 3) > BUFFER_LEN {
        var done, _ := Xfer(0);
        if !done {
          return false;
        }
      }
      Append([opcode, len, data] + if readback then [Code(ReadbackOp)] else []);
      return true;
    }

    /** Bytes behind the waiting ones. */
    method Append(x: seq<bv8>)
      requires Room() && pos + |x| <= BUFFER_LEN
      modifies this`pos, buf
      ensures Room() && buf[..pos] == old(buf[..pos]) + x
    {
      forall i | 0 <= i < |x| {
        buf[pos + i] := x[i];
      }
      pos := pos + |x|;
      assert buf[..old(pos)] == old(buf[..pos]) && buf[old(pos)..pos] == x;
    }

    /** A command that does not capture. */
    method StoreCmd(opcode: bv8, len: bv8, data: bv8, ghost c: Cmd) returns (ok: bool)
      requires Valid() && Exact([opcode, len, data]) && Parse([opcode, len, data]) == [c]
      requires !Captures(c) && !c.Readback?
      modifies this`pos, this`sent, this`failed, buf
      ensures Valid() && failed == (old(failed) || !ok)
      ensures !failed ==> Asked() == old(Asked()) + Clocks(c)
    {
      hide Good, Exact, Parse, Decoded, Clocks, Captures;
      ghost var s, w, x := sent, buf[..pos], [opcode, len, data];
      assert x + [] == x;
      ok := StoreSeq(opcode, len, data, false);
      if !failed {
        GoodAdd(target, s, w, x, c);
        GoodSend(target, s, w);
        GoodAdd(target, s + w, [], x, c);
        assert [] + x == x && s + w + [] == s + w && s + w + ([] + x) == s + (w + x);
      }
    }

    /** `writeTMS`: exactly the bits, with TDI at the level asked for. */
    method WriteTMS(tms: seq<bv8>, len: nat, flushBuffer: bool, tdi: bool) returns (ret: int)
      requires Valid() && len <= 8 * |tms|
      modifies this`pos, this`sent, this`failed, buf
      ensures Valid() && failed == (old(failed) || ret != len)
      ensures !failed ==> Asked() == old(Asked()) + TmsPulses(Bits.Take(tms, len), Driven(tdi))
      ensures !failed && flushBuffer ==> pos == 0
    {
      hide Good, Exact, Parse, Decoded, TmsPulses, Bits.Take, Bits.Bit, Bits.Byte, Bits.ByteBits;
      hide Filling, FillOne, TdiBit, Captures;
      var tmsBuf, idx := TdiBit(tdi), 0;
      ghost var done, part := [], [];
      FillNone(tdi);
      NoBits(tms, tdi);
      for i := 0 to len
        invariant Valid() && idx == |part| < 7 && failed == old(failed) && (i == len ==> part == [])
        invariant Filling(tmsBuf, part, tdi) && done + part == Bits.Take(tms, i)
        invariant !failed ==> Asked() == old(Asked()) + TmsPulses(done, Driven(tdi))
      {
        ghost var bit := Bits.Bit(tms, i);
        TakeNext(tms, i);
        FillNext(tmsBuf, part, tdi, bit);
        tmsBuf := FillOne(tmsBuf, idx, Bits.Bit(tms, i));
        idx := idx + 1;
        part := part + [bit];
        if idx == 7 || i == len - 1 {
          FilledBits(tmsBuf, part, tdi);
          TmsAppend(done, part, Driven(tdi));
          var ok := StoreTms(idx, tmsBuf, part, tdi);
          if !ok {
            return -1;
          }
          FillNone(tdi);
          idx, tmsBuf := 0, TdiBit(tdi);
          done, part := done + part, [];
        }
      }
      assert done + [] == done;
      if flushBuffer {
        var ok := Flush();
        if !ok {
          return -1;
        }
      }
      return len;
    }

    method StoreTms(n: nat, b: bv8, ghost bits: seq<bool>, ghost tdi: bool) returns (ok: bool)
      requires Valid() && 0 < n <= 7 && |bits| == n
      requires Bits.ByteBits(b)[..n] == bits && Bits.ByteBits(b)[7] == tdi
      modifies this`pos, this`sent, this`failed, buf
      ensures Valid() && failed == (old(failed) || !ok)
      ensures !failed ==> Asked() == old(Asked()) + TmsPulses(bits, Driven(tdi))
    {
      hide Good, Exact, Parse, Decoded, TmsPulses, Bits.Byte, Bits.ByteBits, Code;
      TmsCommand(n, b, false);
      ok := StoreCmd(Code(TmsOp(false)), Bits.Byte(n - 1), b, Tms(bits, tdi, false));
    }

    /** Sending what waits. */
    method Flush() returns (ok: bool)
      requires Valid()
      modifies this`pos, this`sent, this`failed
      ensures Valid() && failed == (old(failed) || !ok)
      ensures ok ==> pos == 0
      ensures !failed ==> Asked() == old(Asked())
    {
      hide Good, Decoded, After;
      ghost var s, w := sent, buf[..pos];
      var done, _ := Xfer(0);
      ok := done;
      if !failed {
        GoodSend(target, s, w);
        assert buf[..0] == [] && sent + [] == sent;
      }
    }

    /** The transfer of commands that are all in the buffer: the clocks are made,
        and, if they capture, their TDO bits come back packed. */
    method XferRound(ghost x: seq<bv8>, capture: bool, n: nat) returns (ok: bool, rx: seq<bv8>)
      requires Room() && buf[..pos] == x + (if capture then [Code(ReadbackOp)] else [])
      requires !failed ==> Good(target, sent, [])
      requires Plain(x, capture) && n > 0 && (capture ==> Bytes(|Decoded(x)|) == n)
      modifies this`pos, this`sent, this`failed
      ensures Valid() && failed == (old(failed) || !ok)
      ensures ok ==> pos == 0 && (capture ==> |rx| == n)
      ensures !failed ==> Decoded(sent) == Decoded(old(sent)) + Decoded(x)
      ensures !failed && capture ==> rx == Pack(Seen(target, Decoded(old(sent)), Decoded(x)))
    {
      hide Good, Exact, Parse, Decoded, After, AllCapture, NoneCaptures, Pack, Seen, Bytes, Code;
      ghost var s, w := sent, buf[..pos];
      ok, rx := Xfer(if capture then n else 0);
      if !failed {
        assert buf[..0] == [];
        if capture {
          GoodRound(target, s, x);
        } else {
          assert w == x;
          GoodSilent(target, s, x);
        }
      }
    }

    /** Up to 256 bytes in one command. */
    method SendBytes(data: seq<bv8>, capture: bool) returns (ok: bool, rx: seq<bv8>)
      requires Valid() && pos == 0 && 0 < |data| <= 256
      modifies this`pos, this`sent, this`failed, buf
      ensures Valid() && failed == (old(failed) || !ok)
      ensures ok ==> pos == 0 && (capture ==> |rx| == |data|)
      ensures !failed ==> Decoded(sent) == Decoded(old(sent)) + TdiPulses(Bits.Take(data, 8 * |data|))
      ensures !failed && capture ==>
                rx == Pack(Seen(target, Decoded(old(sent)), TdiPulses(Bits.Take(data, 8 * |data|))))
    {
      hide Good, Decoded, Pack, Seen, Bits.Take, Bits.Byte, Code, TdiPulses, Plain;
      assert buf[..0] == [];
      ghost var x := [Code(ByteOp(capture)), Bits.Byte(|data| - 1)] + data;
      ByteBytesMean(data, capture);
      Append([Code(ByteOp(capture)), Bits.Byte(|data| - 1)]);
      Append(data);
      if capture {
        Append([Code(ReadbackOp)]);
      }
      assert buf[..pos] == x + if capture then [Code(ReadbackOp)] else [];
      ok, rx := XferRound(x, capture, |data|);
    }

    /** The bits after the last whole byte, and the last bit with TMS high, in one
        transfer. */
    method SendTail(b: bv8, bitLen: nat, bit: bool, end: bool, capture: bool) returns (ok: bool, rx: seq<bv8>)
      requires Valid() && pos == 0 && bitLen < 8 && (bitLen > 0 || end)
      modifies this`pos, this`sent, this`failed, buf
      ensures Valid() && failed == (old(failed) || !ok)
      ensures ok ==> pos == 0 && (capture ==> |rx| == 1)
      ensures var q := TdiPulses(Bits.ByteBits(b)[..bitLen]) + if end then [Pulse(Driven(true), Driven(bit))] else [];
              && (!failed ==> Decoded(sent) == Decoded(old(sent)) + q)
              && (!failed && capture ==> rx == Pack(Seen(target, Decoded(old(sent)), q)))
    {
      hide Good, Decoded, Pack, Seen, Bits.ByteBits, Bits.Byte, Code, TdiPulses, Plain, TdiBit;
      assert buf[..0] == [];
      ghost var y, z := BitBytes(b, bitLen, capture), LastBytes(bit, end, capture);
      BitBytesMean(b, bitLen, capture);
      LastBytesMean(bit, end, capture);
      PlainAppend(y, z, capture);
      ghost var s := sent;
      if bitLen > 0 {
        var done := StoreSeq(Code(BitOp(capture)), Bits.Byte(bitLen - 1), b, !end && capture);
        if !done {
          return false, [];
        }
      }
      if end {
        var done := StoreSeq(Code(TmsOp(capture)), Bits.Byte(0), TdiBit(bit) | 1, capture);
        if !done {
          return false, [];
        }
      }
      assert buf[..pos] == y + z + if capture then [Code(ReadbackOp)] else [];
      ok, rx := XferRound(y + z, capture, 1);
    }

    /** The whole bytes of a data transfer. */
    method SendWholeBytes(tx: seq<bv8>, rx: array?<bv8>, byteLen: nat) returns (ok: bool)
      requires Valid() && pos == 0 && byteLen <= |tx|
      requires rx != null ==> rx != buf && byteLen <= rx.Length
      modifies this`pos, this`sent, this`failed, buf, rx
      ensures Valid() && failed == (old(failed) || !ok)
      ensures var p := TdiPulses(Bits.Take(tx, 8 * byteLen));
              && (!failed ==> Decoded(sent) == Decoded(old(sent)) + p)
              && (!failed && rx != null ==> Bits.Take(rx[..], 8 * byteLen) == Seen(target, Decoded(old(sent)), p))
      ensures rx != null ==> SameFrom(old(rx[..]), rx[..], byteLen)
      ensures ok ==> pos == 0
    {
      hide Good, Decoded, Pack, Seen, Bits.Take, TdiPulses, SameFrom;
      ghost var base := Decoded(sent);
      var at := 0;
      NoData(tx, target, base);
      if rx != null {
        NoData(rx[..], target, base);
        SameSelf(rx[..], byteLen);
      }
      while at < byteLen
        invariant at <= byteLen && Valid() && pos == 0 && failed == old(failed)
        invariant !failed ==> Decoded(sent) == base + TdiPulses(Bits.Take(tx, 8 * at))
        invariant !failed && rx != null ==>
                    Bits.Take(rx[..], 8 * at) == Seen(target, base, TdiPulses(Bits.Take(tx, 8 * at)))
        invariant rx != null ==> SameFrom(old(rx[..]), rx[..], byteLen)
      {
        var n := if at + 256 > byteLen then byteLen - at else 256;
        var data := tx[at..at + n];
        ghost var p, q := TdiPulses(Bits.Take(tx, 8 * at)), TdiPulses(Bits.Take(data, 8 * n));
        NextBytes(tx, at, n);
        var reply;
        ok, reply := SendBytes(data, rx != null);
        if !ok {
          return;
        }
        assert !failed ==> Decoded(sent) == base + (p + q);
        if rx != null {
          ghost var was := rx[..];
          if !failed {
            Arrived(target, base, p, q, was, at, reply);
          }
          CopyInto(rx, at, reply);
          MiddleSame(was, at, reply, byteLen);
          SameStep(old(rx[..]), was, rx[..], byteLen, byteLen);
        }
        at := at + n;
      }
      ok := true;
    }

    /** What comes after the whole bytes, delivered behind their TDO bits. */
    method SendRest(tx: seq<bv8>, rx: array?<bv8>, at: nat, bitLen: nat, end: bool,
                    ghost base: seq<Pulse>, ghost p: seq<Pulse>) returns (ok: bool)
      requires Valid() && pos == 0 && bitLen < 8 && at < |tx| && (bitLen > 0 || end) && |p| == 8 * at
      requires rx != null ==> rx != buf && at < rx.Length
      requires !failed ==> Decoded(sent) == base + p
      requires !failed && rx != null ==> Bits.Take(rx[..], 8 * at) == Seen(target, base, p)
      modifies this`pos, this`sent, this`failed, buf, rx
      ensures Valid() && failed == (old(failed) || !ok) && (ok ==> pos == 0)
      ensures var q := Tail(tx[at], bitLen, end);
              && (!failed ==> Decoded(sent) == base + (p + q))
              && (!failed && rx != null ==> Bits.Take(rx[..], 8 * at + |q|) == Seen(target, base, p + q))
      ensures rx != null ==> SameFrom(old(rx[..]), rx[..], at + 1)
    {
      hide Good, Decoded, Pack, Seen, Bits.Take, TdiPulses, SameFrom, Bits.ByteBits;
      ghost var q := Tail(tx[at], bitLen, end);
      if rx != null { SameSelf(rx[..], at + 1); }
      var reply;
      ok, reply := SendTail(tx[at], bitLen, Bits.ByteBits(tx[at])[bitLen], end, rx != null);
      if ok && rx != null {
        ghost var was := rx[..];
        if !failed { OneByte(target, base + p, q, reply); }
        if end && bitLen == 0 {
          if !failed { OneBit(target, base, p, q, reply); }
          PutInto(rx, 8 * at, Bits.Bit(reply, 0));
        } else {
          if !failed { Arrived(target, base, p, q, was, at, reply); }
          CopyInto(rx, at, reply);
          MiddleSame(was, at, reply, at + 1);
        }
      }
      assert !failed ==> base + p + q == base + (p + q);
    }

    /** `writeTDI`: exactly the requested clocks follow what was asked for before,
        and every TDO bit arrives at its own index. */
    method WriteTDI(tx: seq<bv8>, rx: array?<bv8>, len: nat, end: bool) returns (ret: int)
      requires Valid() && Bytes(len) <= |tx| && (end ==> len > 0)
      requires rx != null ==> rx != buf && Bytes(len) <= rx.Length
      modifies this`pos, this`sent, this`failed, buf, rx
      ensures Valid() && failed == (old(failed) || ret != len)
      ensures !failed ==> pos == 0 && Asked() == old(Asked()) + Request(Bits.Take(tx, len), end)
      ensures !failed && rx != null ==>
                Bits.Take(rx[..], len) == Seen(target, old(Asked()), Request(Bits.Take(tx, len), end))
      ensures rx != null ==> SameFrom(old(rx[..]), rx[..], Bytes(len))
    {
      hide Good, Decoded, Seen, Bits.Take, TdiPulses, Request, Tail, SameFrom, Bytes;
      var realLen := if end then len - 1 else len;
      var byteLen, bitLen := realLen / 8, realLen % 8;
      LengthFits(len, end);
      if rx != null { SameSelf(rx[..], Bytes(len)); }
      if pos != 0 {
        var ok := Flush();
        if !ok {
          return -1;
        }
      }
      assert buf[..0] == [] && sent + [] == sent;
      ghost var base := Decoded(sent);
      ghost var p := TdiPulses(Bits.Take(tx, 8 * byteLen));
      var ok := SendWholeBytes(tx, rx, byteLen);
      ghost var was := if rx != null then rx[..] else [];
      if rx != null { SameWiden(old(rx[..]), was, byteLen, Bytes(len)); }
      if !ok {
        return -1;
      }
      RequestParts(tx, len, end);
      if bitLen != 0 || end {
        ok := SendRest(tx, rx, byteLen, bitLen, end, base, p);
        if rx != null { SameStep(old(rx[..]), was, rx[..], byteLen + 1, Bytes(len)); }
        if !ok {
          return -1;
        }
      }
      assert buf[..0] == [] && sent + [] == sent;
      return len;
    }

    /** `toggleClk`: exactly `clkLen` clocks, at the levels the wires have. */
    method ToggleClk(clkLen: nat) returns (ret: int)
      requires Valid()
      modifies this`pos, this`sent, this`failed, buf
      ensures Valid() && failed == (old(failed) || ret != clkLen)
      ensures !failed ==> pos == 0 && Asked() == old(Asked()) + TckPulses(clkLen)
    {
      hide Good, Exact, Parse, Decoded, TckPulses, Bits.Byte, Code, Captures;
      var length := clkLen;
      NoTicks();
      while length > 0
        invariant 0 <= length <= clkLen && Valid() && failed == old(failed)
        invariant !failed ==> Asked() == old(Asked()) + TckPulses(clkLen - length)
      {
        var len := if length > 65536 then 65536 else length;
        TckCommand(len);
        TckAppend(clkLen - length, len);
        NotCapturing(len);
        var ok := StoreCmd(Code(TckOp), Bits.Byte(len - 1), Bits.Byte((len - 1) / 256), Tck(len));
        if !ok {
          return -1;
        }
        length := length - len;
      }
      if pos != 0 {
        var ok := Flush();
        if !ok {
          return -1;
        }
      }
      return clkLen;
    }
  }

  lemma GoodSilent(t: Target, sent: seq<bv8>, x: seq<bv8>)
    requires Good(t, sent, []) && Plain(x, false)
    ensures Good(t, sent + x, []) && Decoded(sent + x) == Decoded(sent) + Decoded(x)
  {
    hide Exact, Parse, Decoded, After, NoneCaptures;
    DecodedAppend(sent, x);
    GoodSend(t, sent, x);
  }

  lemma NoData(s: seq<bv8>, t: Target, h: seq<Pulse>)
    ensures Bits.Take(s, 0) == [] && TdiPulses([]) == [] && Seen(t, h, []) == []
  {
  }

  lemma NextBytes(tx: seq<bv8>, at: nat, n: nat)
    requires at + n <= |tx|
    ensures TdiPulses(Bits.Take(tx, 8 * (at + n)))
         == TdiPulses(Bits.Take(tx, 8 * at)) + TdiPulses(Bits.Take(tx[at..at + n], 8 * n))
  {
    hide Bits.Take, TdiPulses;
    TakeSplit(tx, at, n);
    TdiAppend(Bits.Take(tx, 8 * at), Bits.Take(tx[at..at + n], 8 * n));
  }

  lemma TdiAppend(x: seq<bool>, y: seq<bool>)
    ensures TdiPulses(x + y) == TdiPulses(x) + TdiPulses(y)
  {
  }

  lemma TakeSplit(tx: seq<bv8>, at: nat, n: nat)
    requires at + n <= |tx|
    ensures Bits.Take(tx, 8 * (at + n)) == Bits.Take(tx, 8 * at) + Bits.Take(tx[at..at + n], 8 * n)
  {
    hide Bits.Take;
    var x, y, z := tx[..at], tx[at..at + n], tx[at + n..];
    assert tx[at..] == y + z;
    assert tx == x + tx[at..] && tx == x + y + z;
    TakePrefix(x + y, z, 8 * (at + n));
    TakePrefix(x, tx[at..], 8 * at);
    TakeAppend(x, y, 8 * n);
  }

  /** The packed answer to clocks `q`, copied behind the bits of clocks `p`. */
  lemma Arrived(t: Target, base: seq<Pulse>, p: seq<Pulse>, q: seq<Pulse>, was: seq<bv8>, at: nat, reply: seq<bv8>)
    requires reply == Pack(Seen(t, base + p, q)) && at + |reply| <= |was| && |p| == 8 * at
    requires Bits.Take(was, 8 * at) == Seen(t, base, p)
    ensures |q| <= 8 * |reply|
    ensures Bits.Take(was[..at] + reply + was[at + |reply|..], 8 * at + |q|) == Seen(t, base, p + q)
  {
    hide Bits.Take, Seen, Pack;
    EnoughBytes(|q|);
    TakeOfPack(Seen(t, base + p, q));
    InTheMiddle(was, at, reply, |q|);
    SeenAppend(t, base, p, q);
  }

  /** The clocks after the last whole byte. */
  function Tail(b: bv8, bitLen: nat, end: bool): (r: seq<Pulse>)
    requires bitLen < 8
    ensures |r| == bitLen + if end then 1 else 0
  {
    TdiPulses(Bits.ByteBits(b)[..bitLen])
    + if end then [Pulse(Driven(true), Driven(Bits.ByteBits(b)[bitLen]))] else []
  }

  /** A request is its whole bytes and its tail. */
  lemma RequestParts(tx: seq<bv8>, len: nat, end: bool)
    requires Bytes(len) <= |tx| && (end ==> len > 0)
    ensures var realLen := if end then len - 1 else len;
            var p := TdiPulses(Bits.Take(tx, 8 * (realLen / 8)));
            if realLen % 8 == 0 && !end then Request(Bits.Take(tx, len), end) == p && 8 * (realLen / 8) == len
            else realLen / 8 < |tx| && Request(Bits.Take(tx, len), end) == p + Tail(tx[realLen / 8], realLen % 8, end)
  {
    hide Bits.Take, Bits.ByteBits, TdiPulses;
    var realLen := if end then len - 1 else len;
    var at, n := realLen / 8, realLen % 8;
    assert realLen == 8 * at + n;
    TakeLess(tx, realLen, len);
    if n != 0 || end {
      TakeTail(tx, at, n);
      TdiAppend(Bits.Take(tx, 8 * at), Bits.ByteBits(tx[at])[..n]);
      if end { TakeLast(tx, at, n); }
    }
  }

  lemma TakeLess(tx: seq<bv8>, m: nat, n: nat)
    requires m <= n <= 8 * |tx|
    ensures Bits.Take(tx, n)[..m] == Bits.Take(tx, m)
  {
    hide Bits.Bit;
  }

  lemma TakeLast(tx: seq<bv8>, at: nat, n: nat)
    requires at < |tx| && n < 8
    ensures Bits.Take(tx, 8 * at + n + 1)[8 * at + n] == Bits.ByteBits(tx[at])[n]
  {
    hide Bits.ByteBits;
    assert (8 * at + n) / 8 == at && (8 * at + n) % 8 == n;
  }

  lemma TakeTail(tx: seq<bv8>, at: nat, n: nat)
    requires at < |tx| && n < 8
    ensures Bits.Take(tx, 8 * at + n) == Bits.Take(tx, 8 * at) + Bits.ByteBits(tx[at])[..n]
  {
    hide Bits.ByteBits;
    var l, r := Bits.Take(tx, 8 * at + n), Bits.Take(tx, 8 * at) + Bits.ByteBits(tx[at])[..n];
    forall i | 0 <= i < 8 * at + n ensures l[i] == r[i] {
      if i >= 8 * at {
        assert i / 8 == at && i % 8 == i - 8 * at;
      }
    }
  }

  lemma LengthFits(len: nat, end: bool)
    requires end ==> len > 0
    ensures len <= 8 * Bytes(len)
    ensures var realLen := if end then len - 1 else len;
            realLen / 8 <= Bytes(len) && (realLen % 8 != 0 || end ==> realLen / 8 + 1 == Bytes(len))
            && len == 8 * (realLen / 8) + realLen % 8 + if end then 1 else 0
  {
  }

  lemma OneByte(t: Target, h: seq<Pulse>, q: seq<Pulse>, reply: seq<bv8>)
    requires reply == Pack(Seen(t, h, q)) && 0 < |q| <= 8
    ensures |reply| == 1
  {
    hide Seen;
  }

  lemma OneBit(t: Target, base: seq<Pulse>, p: seq<Pulse>, q: seq<Pulse>, reply: seq<bv8>)
    requires reply == Pack(Seen(t, base + p, q)) && |q| == 1 && |reply| == 1
    ensures Seen(t, base, p + q) == Seen(t, base, p) + [Bits.Bit(reply, 0)]
  {
    hide Seen, Pack, Bits.Bit;
    SeenAppend(t, base, p, q);
    PackOne(Seen(t, base + p, q));
  }

  lemma NotCapturing(n: nat)
    ensures !Captures(Tck(n)) && Clocks(Tck(n)) == TckPulses(n)
  {
  }

  lemma NoTicks()
    ensures TckPulses(0) == []
  {
  }

  lemma NoBits(tms: seq<bv8>, tdi: bool)
    ensures Bits.Take(tms, 0) == [] && TmsPulses([], Driven(tdi)) == []
  {
  }

  // ---------------------------------------------------------------------
  // The levels on the wires
  // ---------------------------------------------------------------------

  lemma {:induction false} TdiLevels(c: Clock, bits: seq<bool>)
    ensures Levels(c, TdiPulses(bits)) == seq(|bits|, i requires 0 <= i < |bits| => Clock(c.tms, bits[i]))
    ensures Last(c, TdiPulses(bits)).tms == c.tms
    decreases |bits|
  {
    if bits == [] {
    } else {
      assert TdiPulses(bits)[1..] == TdiPulses(bits[1..]);
      TdiLevels(Clock(c.tms, bits[0]), bits[1..]);
    }
  }

  /** A data transfer is the one the JTAG layer asks for, TMS low until the last
      bit, exactly when TMS was left low (or there is nothing but the last bit). */
  lemma DataLevels(c: Clock, bits: seq<bool>, end: bool)
    requires end ==> bits != []
    ensures Levels(c, Request(bits, end)) == DataClocks(bits, end)
       <==> !c.tms || |bits| == if end then 1 else 0
  {
    hide TdiPulses, Levels, Last;
    var l, r := Levels(c, Request(bits, end)), DataClocks(bits, end);
    var n := |bits| - if end then 1 else 0;
    TdiLevels(c, bits[..n]);
    assert bits[..|bits|] == bits;
    if end {
      var p, last := TdiPulses(bits[..n]), Pulse(Driven(true), Driven(bits[n]));
      LevelsAppend(c, p, [last]);
      OneLevel(Last(c, p), last);
    }
    assert forall i :: 0 <= i < n ==> l[i] == Clock(c.tms, bits[i]);
    if n > 0 {
      assert l[0] == Clock(c.tms, bits[0]) && r[0] == Clock(false, bits[0]);
    }
  }

  lemma OneLevel(c: Clock, p: Pulse)
    ensures Levels(c, [p]) == [At(c, p)]
  {
    hide At;
    assert Levels(c, [p]) == [At(c, p)] + Levels(At(c, p), []);
  }

  /** What the driver makes of its orders, as its methods are proved to. */
  function Driver(o: Order): seq<Pulse> {
    match o
    case Move(tms, tdi) => TmsPulses(tms, Driven(tdi))
    case Data(bits, end) => if bits == [] then [] else Request(bits, end)
    case Toggle(_, _, n) => TckPulses(n)
  }

  /** An order is carried out as the contract promises if TMS was left low before
      data, and, before toggling, where it is to be held. */
  lemma DriverSuits(s: State, c: Clock, o: Order)
    requires o.Data? ==> !c.tms
    requires o.Toggle? ==> c.tms == o.level && (c.tdi == o.tdi || NeverShifts(s, Bits.Repeat(o.level, o.n)))
    ensures Alike(s, Levels(c, Driver(o)), Promised(o))
  {
    hide Alike, TmsPulses, Request, TckPulses;
    match o
    case Move(tms, tdi) =>
      DrivenLevels(c, tms, tdi);
      AlikeSelf(s, AtLevel(tms, tdi));
    case Data(bits, end) =>
      if bits == [] {
        AlikeSelf(s, []);
      } else {
        DataLevels(c, bits, end);
        AlikeSelf(s, DataClocks(bits, end));
      }
    case Toggle(level, tdi, n) => ToggleAlike(s, c, level, tdi, n);
  }

  /** So every scan of `Jtag` over this driver does to the devices, and returns, what
      it does over the contract (`Drivers.ScanOverDriver`). */
  lemma DriverIsAble()
    ensures Able(Driver)
  {
    hide Alike, Levels, NeverShifts, TmsPulses, Promised;
    forall s, c, o | Allowed(s, c, o) ensures Carries(Driver, s, c, o) {
      DriverSuits(s, c, o);
    }
  }
}
