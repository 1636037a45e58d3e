/**
 The XMODEM transfer that boots the board: `xmodem_send` on the host and
 `xmodem_receive` in the stage-2 loader, as one state machine over two lossy
 first-in first-out lines.

 The lines may drop whole frames, cut them short, damage them so that the header
 or checksum test fails, drop reply bytes, and delay anything; timeouts on both
 sides happen at any moment. Over all runs the receiver's memory is proved to be
 a prefix of what is being sent, block numbers modulo 256 are never ambiguous,
 and a sender that reports success has had everything stored.

 The test is proved to reject every frame that was sent and had one byte changed, and
 exactly those other payloads whose sum is not the same modulo 256.

 At every moment of every run it is proved exactly when the transfer can still
 succeed: as long as no acknowledgement is lost, the receiver has not given up, and
 the sender has an attempt left or what it waits for is on its way. Lost and damaged
 frames, lost NAKs and delays are survivable; one lost acknowledgement is not.
 */
module Xmodem {
  import Bits

  const BLOCK := 128
  const SENDER_RETRIES := 10
  const RECEIVER_RETRIES := 20

  // ---------------------------------------------------------------------
  // Frames
  // ---------------------------------------------------------------------

  function Sum8(s: seq<bv8>): bv8
    decreases |s|
  {
    if s == [] then 0 else Sum8(s[..|s| - 1]) + s[|s| - 1]
  }

  /** The bytes after SOH: block number, its complement, payload, checksum. */
  datatype Frame = Frame(number: nat, complement: nat, payload: seq<bv8>, checksum: bv8)

  /** What the host writes. `index` records which block a frame was made from; no
      step of the receiver looks at it. */
  datatype Item = Data(index: nat, frame: Frame) | Short(index: nat) | Eot

  datatype Reply = Ack | Nak | Other

  /** The bytes `0x1a` that fill the last block. */
  function Pad(data: seq<bv8>): (r: seq<bv8>)
    ensures data <= r && |r| % BLOCK == 0 && |r| < |data| + BLOCK
    ensures forall i :: |data| <= i < |r| ==> r[i] == 0x1A
    ensures |data| % BLOCK == 0 ==> r == data
  {
    data + seq((BLOCK - |data| % BLOCK) % BLOCK, _ => 0x1A)
  }

  function Blocks(p: seq<bv8>): nat {
    |p| / BLOCK
  }

  function Block(p: seq<bv8>, k: nat): seq<bv8>
    requires k < Blocks(p)
  {
    p[k * BLOCK..(k + 1) * BLOCK]
  }

  /** Block numbers start at 1 and wrap at 256. */
  function Number(k: nat): nat {
    (k + 1) % 256
  }

  function FrameOf(p: seq<bv8>, k: nat): Frame
    requires k < Blocks(p)
  {
    Frame(Number(k), 255 - Number(k), Block(p, k), Sum8(Block(p, k)))
  }

  /** The receiver's test. */
  predicate Accepts(number: nat, f: Frame) {
    |f.payload| == BLOCK && f.number == number && f.complement == 255 - number && f.checksum == Sum8(f.payload)
  }

  /** A frame made from block `j` that the test rejects while block `j` or the one
      after it is expected. */
  predicate Damaged(j: nat, f: Frame) {
    !Accepts(Number(j), f) && !Accepts(Number(j + 1), f)
  }

  // ---------------------------------------------------------------------
  // What the test catches
  // ---------------------------------------------------------------------

  /** The sum of the bytes, as a number. */
  function Total(s: seq<bv8>): nat {
    if s == [] then 0 else Bits.Value(s[0]) + Total(s[1..])
  }

  lemma {:induction false} TotalAppend(s: seq<bv8>, t: seq<bv8>)
    ensures Total(s + t) == Total(s) + Total(t)
    decreases |s|
  {
    hide Bits.Value;
    if s == [] {
      assert s + t == t;
    } else {
      assert (s + t)[1..] == s[1..] + t;
      TotalAppend(s[1..], t);
    }
  }

  lemma TotalOne(b: bv8)
    ensures Total([b]) == Bits.Value(b)
  {
    hide Bits.Value;
    assert Total([b]) == Bits.Value(b) + Total([]);
  }

  /** The checksum is the sum of the bytes modulo 256. */
  lemma {:induction false} SumIsTotal(s: seq<bv8>)
    ensures Bits.Value(Sum8(s)) == Total(s) % 256
    decreases |s|
  {
    hide Bits.Value, Bits.Plus, Sum8, Total;
    if s == [] {
      SumOfNothing();
    } else {
      var init, last := s[..|s| - 1], s[|s| - 1];
      SumIsTotal(init);
      SumOneMore(s);
      Bits.ValuePlus(Sum8(init), last);
      TotalAppend(init, [last]);
      TotalOne(last);
      assert s == init + [last];
      AddModulo(Total(init), Bits.Value(last));
    }
  }

  lemma SumOfNothing()
    ensures Bits.Value(Sum8([])) == 0 && Total([]) == 0
  {
    hide Bits.Value;
    Bits.PlusZero(0);
  }

  lemma SumOneMore(s: seq<bv8>)
    requires s != []
    ensures Sum8(s) == Bits.Plus(Sum8(s[..|s| - 1]), s[|s| - 1])
  {
  }

  lemma AddModulo(m: nat, n: nat)
    ensures (m % 256 + n) % 256 == (m + n) % 256
  {
  }

  /** The receiver's test in numbers. */
  lemma AcceptsIff(n: nat, f: Frame)
    ensures Accepts(n, f) <==>
              && |f.payload| == BLOCK && f.number == n && f.complement == 255 - n
              && Bits.Value(f.checksum) == Total(f.payload) % 256
  {
    hide Bits.Value, Sum8, Total;
    SumIsTotal(f.payload);
    if Bits.Value(f.checksum) == Bits.Value(Sum8(f.payload)) {
      Bits.ValueInjective(f.checksum, Sum8(f.payload));
    }
  }

  lemma TotalChange(s: seq<bv8>, i: nat, b: bv8)
    requires i < |s|
    ensures Total(s[i := b]) + Bits.Value(s[i]) == Total(s) + Bits.Value(b)
  {
    hide Bits.Value, Total;
    var p, q := s[..i], s[i + 1..];
    assert s == p + ([s[i]] + q) && s[i := b] == p + ([b] + q);
    TotalAppend(p, [s[i]] + q);
    TotalAppend(p, [b] + q);
    TotalAppend([s[i]], q);
    TotalAppend([b], q);
    TotalOne(s[i]);
    TotalOne(b);
  }

  /** Of a frame that passes no byte of the payload can be changed. */
  lemma PayloadByteCaught(n: nat, f: Frame, i: nat, b: bv8)
    requires Accepts(n, f) && i < BLOCK && b != f.payload[i]
    ensures !Accepts(n, f.(payload := f.payload[i := b]))
  {
    hide Bits.Value, Total, Sum8;
    AcceptsIff(n, f);
    AcceptsIff(n, f.(payload := f.payload[i := b]));
    TotalChange(f.payload, i, b);
    if Bits.Value(b) == Bits.Value(f.payload[i]) {
      Bits.ValueInjective(b, f.payload[i]);
    }
    Apart256(Total(f.payload), Total(f.payload[i := b]), Bits.Value(f.payload[i]), Bits.Value(b));
  }

  lemma Apart256(m: nat, n: nat, v: nat, w: nat)
    requires n + v == m + w && v < 256 && w < 256 && v != w
    ensures m % 256 != n % 256
  {
  }

  /** `g` is `f` with only byte `i` of the payload changed. */
  predicate PayloadOff(f: Frame, g: Frame, i: nat) {
    && i < |f.payload| == |g.payload| && g.payload[i] != f.payload[i]
    && g == f.(payload := f.payload[i := g.payload[i]])
  }

  /** `g` is `f` with exactly one byte changed. */
  predicate OneByteOff(f: Frame, g: Frame) {
    || (g.number != f.number && g == f.(number := g.number))
    || (g.complement != f.complement && g == f.(complement := g.complement))
    || (g.checksum != f.checksum && g == f.(checksum := g.checksum))
    || exists i: nat | i < |f.payload| :: PayloadOff(f, g, i)
  }

  /** A frame that was sent and had any one byte changed is rejected. */
  lemma OneByteIsDamage(p: seq<bv8>, j: nat, g: Frame)
    requires j < Blocks(p) && OneByteOff(FrameOf(p, j), g)
    ensures Damaged(j, g)
  {
    hide Sum8;
    var f := FrameOf(p, j);
    assert Accepts(Number(j), f);
    if i: nat :| i < |f.payload| && PayloadOff(f, g, i) {
      PayloadByteCaught(Number(j), f, i, g.payload[i]);
    }
  }

  /** Exactly which other payloads pass in place of the one that was sent. */
  lemma UnnoticedIff(p: seq<bv8>, j: nat, q: seq<bv8>)
    requires j < Blocks(p)
    ensures Accepts(Number(j), FrameOf(p, j).(payload := q)) <==>
              |q| == BLOCK && Total(q) % 256 == Total(Block(p, j)) % 256
  {
    hide Sum8, Bits.Value, Total;
    AcceptsIff(Number(j), FrameOf(p, j).(payload := q));
    SumIsTotal(Block(p, j));
  }

  // ---------------------------------------------------------------------
  // The state machine
  // ---------------------------------------------------------------------

  /** `k` is the sender's `blk_idx`. */
  datatype Sender =
    | Sending(k: nat, retries: nat)
    | Waiting(k: nat, retries: nat)
    | WaitingEot(k: nat)
    | Finished(k: nat, ok: bool)

  /** Both ends of `xmodem_receive`: end of file, or too many timeouts (it then
      returns 0). */
  datatype Receiver = Receiving | Complete(size: nat) | GaveUp

  datatype State = State(
    sender: Sender,
    receiver: Receiver,
    number: nat,        // blk_num
    total: nat,         // bytes stored
    memory: seq<bv8>,   // dest[..total]
    retries: nat,
    line: seq<Item>,    // host to board, oldest first
    back: seq<Reply>)   // board to host, oldest first

  datatype Event =
    | SenderWrites
    | SenderReads
    | SenderTimesOut
    | ReceiverReads
    | ReceiverTimesOut(chatter: nat)
    | Lose(i: nat)
    | Damage(i: nat, frame: Frame)
    | Cut(i: nat)
    | LoseReply(i: nat)

  /** The receiver is waiting; the sender has discarded the replies so far. */
  function Init(): State {
    State(Sending(0, 0), Receiving, 1, 0, [], 0, [], [])
  }

  predicate Enabled(s: State, e: Event) {
    match e
    case SenderWrites => s.sender.Sending?
    case SenderReads => (s.sender.Waiting? || s.sender.WaitingEot?) && s.back != []
    case SenderTimesOut => s.sender.Waiting? || s.sender.WaitingEot?
    case ReceiverReads => s.receiver.Receiving? && s.line != []
    case ReceiverTimesOut(_) => s.receiver.Receiving?
    case Lose(i) => i < |s.line|
    case Damage(i, f) => i < |s.line| && s.line[i].Data? && Damaged(s.line[i].index, f)
    case Cut(i) => i < |s.line| && s.line[i].Data?
    case LoseReply(i) => i < |s.back|
  }

  function Without<T>(q: seq<T>, i: nat): seq<T>
    requires i < |q|
  {
    q[..i] + q[i + 1..]
  }

  /** Top of the sender's loops: next attempt, next block, end of file, give up. */
  function SenderWrite(p: seq<bv8>, s: State): State
    requires s.sender.Sending?
  {
    var k := s.sender.k;
    if k >= Blocks(p) then s.(sender := WaitingEot(k), line := s.line + [Eot])
    else if s.sender.retries < SENDER_RETRIES then
      s.(sender := Waiting(k, s.sender.retries), line := s.line + [Data(k, FrameOf(p, k))])
    else s.(sender := Finished(k, false))
  }

  function SenderRead(s: State): State
    requires s.back != [] && (s.sender.Waiting? || s.sender.WaitingEot?)
  {
    var s' := s.(back := s.back[1..]);
    match s.sender
    case Waiting(k, retries) =>
      (match s.back[0]
       case Ack => s'.(sender := Sending(k + 1, 0))
       case Nak => s'.(sender := Sending(k, retries + 1))
       case Other => s')
    case WaitingEot(k) => if s.back[0] == Ack then s'.(sender := Finished(k, true)) else s'
  }

  function ReceiverRead(s: State): State
    requires s.receiver.Receiving? && s.line != []
  {
    var s' := s.(line := s.line[1..]);
    match s.line[0]
    case Eot => s'.(back := s.back + [Ack], receiver := Complete(s.total))
    case Short(_) => s'.(back := s.back + [Nak])
    case Data(_, f) =>
      if Accepts(s.number, f) then
        s'.(memory := s.memory + f.payload, total := s.total + BLOCK, number := (s.number + 1) % 256,
            retries := 0, back := s.back + [Ack])
      else s'.(retries := s.retries + 1, back := s.back + [Nak])
  }

  /** The text the loader prints contains neither ACK nor NAK. */
  function ReceiverTimeout(s: State, chatter: nat): State
    requires s.receiver.Receiving?
  {
    var others := seq(chatter, _ => Other);
    if s.retries + 1 > RECEIVER_RETRIES then
      s.(retries := s.retries + 1, back := s.back + [Other, Other] + others, receiver := GaveUp)
    else
      s.(retries := s.retries + 1, back := s.back + others + [Nak])
  }

  function Step(p: seq<bv8>, s: State, e: Event): State
    requires Enabled(s, e)
  {
    match e
    case SenderWrites => SenderWrite(p, s)
    case SenderReads => SenderRead(s)
    case SenderTimesOut =>
      if s.sender.Waiting? then s.(sender := Sending(s.sender.k, s.sender.retries + 1))
      else s.(sender := Finished(s.sender.k, false))
    case ReceiverReads => ReceiverRead(s)
    case ReceiverTimesOut(chatter) => ReceiverTimeout(s, chatter)
    case Lose(i) => s.(line := Without(s.line, i))
    case Damage(i, f) => s.(line := s.line[i := Data(s.line[i].index, f)])
    case Cut(i) => s.(line := s.line[i := Short(s.line[i].index)])
    case LoseReply(i) => s.(back := Without(s.back, i))
  }

  /** Every event of the run can happen when its turn comes. */
  predicate Legal(p: seq<bv8>, s: State, run: seq<Event>)
    decreases |run|
  {
    run == [] || (Enabled(s, run[0]) && Legal(p, Step(p, s, run[0]), run[1..]))
  }

  function Final(p: seq<bv8>, s: State, run: seq<Event>): State
    requires Legal(p, s, run)
    decreases |run|
  {
    if run == [] then s else Final(p, Step(p, s, run[0]), run[1..])
  }

  // ---------------------------------------------------------------------
  // What every step keeps
  // ---------------------------------------------------------------------

  /** Acknowledgements on their way back. */
  function Acks(q: seq<Reply>): nat
    decreases |q|
  {
    if q == [] then 0 else (if q[0] == Ack then 1 else 0) + Acks(q[1..])
  }

  /** Blocks the receiver has stored. */
  function Stored(s: State): nat {
    s.total / BLOCK
  }

  /** Acknowledgements the receiver has sent so far. */
  function Replied(s: State): nat {
    Stored(s) + if s.receiver.Complete? then 1 else 0
  }

  /** A frame on the line is the last block stored or the one after it, unchanged
      or recognisably damaged, and the sender has not gone past it. */
  predicate GoodItem(p: seq<bv8>, k: nat, r: nat, it: Item) {
    match it
    case Eot => k == Blocks(p) == r
    case Short(j) => j < Blocks(p) && j <= k && (j == r || j + 1 == r)
    case Data(j, f) => j < Blocks(p) && j <= k && (j == r || j + 1 == r) && (f == FrameOf(p, j) || Damaged(j, f))
  }

  /** Frames keep the order they were written in. */
  predicate Ordered(line: seq<Item>) {
    forall i, j :: 0 <= i < j < |line| && !line[i].Eot? && !line[j].Eot? ==> line[i].index <= line[j].index
  }

  predicate Invariant(p: seq<bv8>, s: State) {
    var k, r := s.sender.k, Stored(s);
    // memory is the first r blocks, and the receiver expects block r
    && s.total == r * BLOCK && s.total <= |p| && s.memory == p[..s.total] && s.number == Number(r)
    // sender and receiver are at most one block apart
    && k <= r <= k + 1 && k <= Blocks(p)
    // what is on the line
    && Ordered(s.line) && (forall i :: 0 <= i < |s.line| ==> GoodItem(p, k, r, s.line[i]))
    // end of file
    && (s.sender.WaitingEot? || (s.sender.Finished? && s.sender.ok) ==> k == Blocks(p))
    && (s.receiver.Complete? ==>
          s.receiver.size == |p| && k == Blocks(p) == r && !s.sender.Sending? && !s.sender.Waiting?)
    && (s.sender.Finished? && s.sender.ok ==> s.receiver.Complete?)
    && (Eot in s.line ==> !s.sender.Sending? && !s.sender.Waiting?)
    && (s.sender.Waiting? ==> k < Blocks(p))
    // each acknowledgement is read at most once
    && (!s.sender.Finished? ==> k + Acks(s.back) <= Replied(s))
  }

  lemma {:induction false} AcksAppend(q: seq<Reply>, t: seq<Reply>)
    ensures Acks(q + t) == Acks(q) + Acks(t)
    decreases |q|
  {
    if q == [] {
      assert q + t == t;
    } else {
      assert (q + t)[1..] == q[1..] + t;
      AcksAppend(q[1..], t);
    }
  }

  lemma {:induction false} AcksNone(q: seq<Reply>)
    requires Ack !in q
    ensures Acks(q) == 0
    decreases |q|
  {
    if q == [] {
    } else {
      AcksNone(q[1..]);
    }
  }

  lemma AcksWithout(q: seq<Reply>, i: nat)
    requires i < |q|
    ensures Acks(Without(q, i)) == Acks(q) - if q[i] == Ack then 1 else 0
  {
    hide Acks;
    assert q == q[..i] + ([q[i]] + q[i + 1..]);
    AcksAppend(q[..i], [q[i]] + q[i + 1..]);
    AcksAppend([q[i]], q[i + 1..]);
    AcksAppend(q[..i], q[i + 1..]);
    OneReply(q[i]);
  }

  lemma OneReply(x: Reply)
    ensures Acks([x]) == if x == Ack then 1 else 0
  {
  }

  /** Modulo 256, a frame of the last stored block is never taken for the next:
      the receiver accepts exactly the block it expects. */
  lemma NumbersUnambiguous(p: seq<bv8>, r: nat, j: nat)
    requires j < Blocks(p) && (j == r || j + 1 == r)
    ensures Accepts(Number(r), FrameOf(p, j)) <==> j == r
  {
    assert Number(j) != Number(j + 1);
  }

  lemma KeepsSenderWrites(p: seq<bv8>, s: State)
    requires |p| % BLOCK == 0 && Invariant(p, s) && Enabled(s, SenderWrites)
    ensures Invariant(p, Step(p, s, SenderWrites))
  {
    hide FrameOf, Damaged, Acks;
    var t := Step(p, s, SenderWrites);
    assert forall i :: 0 <= i < |s.line| ==> t.line[i] == s.line[i];
  }

  lemma KeepsSenderReads(p: seq<bv8>, s: State)
    requires |p| % BLOCK == 0 && Invariant(p, s) && Enabled(s, SenderReads)
    ensures Invariant(p, Step(p, s, SenderReads))
  {
    hide FrameOf, Damaged;
  }

  lemma KeepsReceiverAccepts(p: seq<bv8>, s: State)
    requires |p| % BLOCK == 0 && Invariant(p, s) && Enabled(s, ReceiverReads)
    requires s.line[0].Data? && Accepts(s.number, s.line[0].frame)
    ensures Invariant(p, Step(p, s, ReceiverReads))
  {
    var t, it, r := Step(p, s, ReceiverReads), s.line[0], Stored(s);
    assert GoodItem(p, s.sender.k, r, it);
    NumbersUnambiguous(p, r, it.index);
    hide FrameOf, Damaged, Acks, Accepts, Number;
    assert it.index == r && it.frame == FrameOf(p, r) && it.frame.payload == Block(p, r);
    assert t.total == (r + 1) * BLOCK <= |p| && Stored(t) == r + 1;
    assert p[..s.total] + Block(p, r) == p[..t.total];
    AcksAppend(s.back, [Ack]);
    OneAck();
    forall i | 0 <= i < |t.line| ensures GoodItem(p, t.sender.k, r + 1, t.line[i]) {
      assert t.line[i] == s.line[i + 1] && GoodItem(p, s.sender.k, r, s.line[i + 1]);
      assert s.line[i + 1].Eot? || s.line[0].index <= s.line[i + 1].index;
    }
    NextNumber(r);
  }

  lemma OneAck()
    ensures Acks([Ack]) == 1 && Acks([Nak]) == 0
  {
  }

  lemma NextNumber(r: nat)
    ensures (Number(r) + 1) % 256 == Number(r + 1)
  {
  }

  lemma KeepsReceiverRejects(p: seq<bv8>, s: State)
    requires |p| % BLOCK == 0 && Invariant(p, s) && Enabled(s, ReceiverReads)
    requires !(s.line[0].Data? && Accepts(s.number, s.line[0].frame))
    ensures Invariant(p, Step(p, s, ReceiverReads))
  {
    hide FrameOf, Damaged, Acks, Accepts, Number;
    var t := Step(p, s, ReceiverReads);
    AcksAppend(s.back, [Ack]);
    AcksAppend(s.back, [Nak]);
    OneAck();
    assert s.line[0] in s.line && GoodItem(p, s.sender.k, Stored(s), s.line[0]);
    assert forall i :: 0 <= i < |t.line| ==> t.line[i] == s.line[i + 1];
  }

  lemma KeepsTimeouts(p: seq<bv8>, s: State, e: Event)
    requires |p| % BLOCK == 0 && Invariant(p, s) && Enabled(s, e) && (e.SenderTimesOut? || e.ReceiverTimesOut?)
    ensures Invariant(p, Step(p, s, e))
  {
    hide FrameOf, Damaged, GoodItem, Acks;
    if e.ReceiverTimesOut? {
      var others: seq<Reply> := seq(e.chatter, _ => Other);
      AcksNone([Other, Other] + others);
      AcksNone(others + [Nak]);
      AcksAppend(s.back, [Other, Other] + others);
      AcksAppend(s.back, others + [Nak]);
      assert s.back + [Other, Other] + others == s.back + ([Other, Other] + others);
      assert s.back + others + [Nak] == s.back + (others + [Nak]);
    }
  }

  lemma KeepsReplyLoss(p: seq<bv8>, s: State, i: nat)
    requires |p| % BLOCK == 0 && Invariant(p, s) && i < |s.back|
    ensures Invariant(p, Step(p, s, LoseReply(i)))
  {
    hide FrameOf, Damaged, GoodItem, Acks;
    AcksWithout(s.back, i);
  }

  lemma KeepsLoss(p: seq<bv8>, s: State, i: nat)
    requires |p| % BLOCK == 0 && Invariant(p, s) && i < |s.line|
    ensures Invariant(p, Step(p, s, Lose(i)))
  {
    hide FrameOf, Damaged, Acks, GoodItem;
    var t := Step(p, s, Lose(i));
    assert forall j :: 0 <= j < |t.line| ==> t.line[j] == s.line[if j < i then j else j + 1];
  }

  lemma KeepsChange(p: seq<bv8>, s: State, i: nat, it: Item)
    requires |p| % BLOCK == 0 && Invariant(p, s) && i < |s.line| && s.line[i].Data?
    requires it == Short(s.line[i].index) || (it.Data? && it.index == s.line[i].index && Damaged(it.index, it.frame))
    ensures Invariant(p, s.(line := s.line[i := it]))
  {
    hide FrameOf, Damaged, Acks;
    var t := s.(line := s.line[i := it]);
    assert GoodItem(p, s.sender.k, Stored(s), s.line[i]);
    assert GoodItem(p, s.sender.k, Stored(s), it);
    hide GoodItem;
    assert Eot in t.line ==> Eot in s.line;
  }

  lemma KeepsInvariant(p: seq<bv8>, s: State, e: Event)
    requires |p| % BLOCK == 0 && Invariant(p, s) && Enabled(s, e)
    ensures Invariant(p, Step(p, s, e))
  {
    hide Invariant;
    match e
    case SenderWrites => KeepsSenderWrites(p, s);
    case SenderReads => KeepsSenderReads(p, s);
    case ReceiverReads =>
      if s.line[0].Data? && Accepts(s.number, s.line[0].frame) {
        KeepsReceiverAccepts(p, s);
      } else {
        KeepsReceiverRejects(p, s);
      }
    case SenderTimesOut => KeepsTimeouts(p, s, e);
    case ReceiverTimesOut(_) => KeepsTimeouts(p, s, e);
    case LoseReply(i) => KeepsReplyLoss(p, s, i);
    case Lose(i) => KeepsLoss(p, s, i);
    case Damage(i, f) => KeepsChange(p, s, i, Data(s.line[i].index, f));
    case Cut(i) => KeepsChange(p, s, i, Short(s.line[i].index));
  }

  lemma {:induction false} RunKeepsInvariant(p: seq<bv8>, s: State, run: seq<Event>)
    requires |p| % BLOCK == 0 && Invariant(p, s) && Legal(p, s, run)
    ensures Invariant(p, Final(p, s, run))
    decreases |run|
  {
    hide Invariant, Step;
    if run == [] {
    } else {
      KeepsInvariant(p, s, run[0]);
      RunKeepsInvariant(p, Step(p, s, run[0]), run[1..]);
    }
  }

  /** Safety over every run of the transfer of any data: what is in memory is a
      prefix of the padded data, and if the sender reports success the receiver
      has returned the full size with all of it in memory. */
  lemma TransferIsSafe(data: seq<bv8>, run: seq<Event>)
    requires Legal(Pad(data), Init(), run)
    ensures var s := Final(Pad(data), Init(), run);
            && s.memory <= Pad(data) && |s.memory| == s.total
            && s.sender.k <= Stored(s) <= s.sender.k + 1
            && (s.sender.Finished? && s.sender.ok ==>
                  s.memory == Pad(data) && s.receiver == Complete(|Pad(data)|))
  {
    hide Step;
    assert Invariant(Pad(data), Init());
    RunKeepsInvariant(Pad(data), Init(), run);
  }

  // ---------------------------------------------------------------------
  // Exactly when a transfer can succeed
  // ---------------------------------------------------------------------

  /** No acknowledgement has been lost: those read and those on their way are all
      that were sent. */
  predicate InStep(s: State) {
    s.sender.k + Acks(s.back) == Replied(s)
  }

  /** The transfer can still succeed: no acknowledgement is lost, the receiver has
      not given up, and the sender has an attempt left for its block, or an intact
      copy of what it waits for, or the acknowledgement, is on its way. */
  predicate Hopeful(p: seq<bv8>, s: State) {
    match s.sender
    case Finished(_, ok) => ok
    case Sending(k, retries) => InStep(s) && !s.receiver.GaveUp? && (k == Blocks(p) || retries < 10)
    case Waiting(k, retries) =>
      && InStep(s) && !s.receiver.GaveUp?
      && (Acks(s.back) > 0 || retries + 1 < 10 || (k < Blocks(p) && Data(k, FrameOf(p, k)) in s.line))
    case WaitingEot(_) => InStep(s) && !s.receiver.GaveUp? && (Acks(s.back) > 0 || Eot in s.line)
  }

  predicate Succeeded(s: State) {
    s.sender.Finished? && s.sender.ok
  }

  // No step brings hope back.

  lemma NoHopeSender(p: seq<bv8>, s: State, e: Event)
    requires |p| % BLOCK == 0 && Invariant(p, s) && Enabled(s, e)
    requires e.SenderWrites? || e.SenderReads? || e.SenderTimesOut?
    ensures Hopeful(p, Step(p, s, e)) ==> Hopeful(p, s)
  {
    hide FrameOf, Damaged, GoodItem;
  }

  lemma NoHopeReceiver(p: seq<bv8>, s: State)
    requires |p| % BLOCK == 0 && Invariant(p, s) && Enabled(s, ReceiverReads)
    ensures Hopeful(p, Step(p, s, ReceiverReads)) ==> Hopeful(p, s)
  {
    var it, r := s.line[0], Stored(s);
    assert it in s.line;
    if it.Data? && Accepts(s.number, it.frame) {
      NoHopeAccepts(p, s);
    } else {
      hide FrameOf, Damaged, GoodItem, Acks, Accepts, Number, Invariant;
      AcksAppend(s.back, [Ack]);
      AcksAppend(s.back, [Nak]);
      OneAck();
    }
  }

  lemma NoHopeAccepts(p: seq<bv8>, s: State)
    requires |p| % BLOCK == 0 && Invariant(p, s) && Enabled(s, ReceiverReads)
    requires s.line[0].Data? && Accepts(s.number, s.line[0].frame)
    ensures Hopeful(p, Step(p, s, ReceiverReads)) ==> Hopeful(p, s)
  {
    AcceptedIsNext(p, s);
    hide FrameOf, Damaged, GoodItem, Acks, Accepts, Number, Invariant, Ordered;
    assert s.line[0] in s.line;
    AcksAppend(s.back, [Ack]);
    OneAck();
  }

  /** What the receiver accepts is the block the sender is at. */
  lemma AcceptedIsNext(p: seq<bv8>, s: State)
    requires |p| % BLOCK == 0 && Invariant(p, s) && Enabled(s, ReceiverReads)
    requires s.line[0].Data? && Accepts(s.number, s.line[0].frame)
    ensures var k := s.sender.k;
            && k == Stored(s) < Blocks(p) && s.line[0] == Data(k, FrameOf(p, k)) && !s.sender.WaitingEot?
            && Stored(Step(p, s, ReceiverReads)) == k + 1
  {
    var it, r := s.line[0], Stored(s);
    assert GoodItem(p, s.sender.k, r, it);
    if it.frame == FrameOf(p, it.index) {
      NumbersUnambiguous(p, r, it.index);
    }
    assert it == Data(r, FrameOf(p, r));
    KeepsReceiverAccepts(p, s);
  }

  lemma NoHopeOthers(p: seq<bv8>, s: State, e: Event)
    requires |p| % BLOCK == 0 && Invariant(p, s) && Enabled(s, e)
    requires e.ReceiverTimesOut? || e.LoseReply?
    ensures Hopeful(p, Step(p, s, e)) ==> Hopeful(p, s)
  {
    hide FrameOf, Damaged, GoodItem, Acks, Invariant;
    if e.LoseReply? {
      AcksWithout(s.back, e.i);
      AcksBounded(p, s);
    } else {
      TimeoutAcks(s, e.chatter);
    }
  }

  lemma AcksBounded(p: seq<bv8>, s: State)
    requires Invariant(p, s)
    ensures !s.sender.Finished? ==> s.sender.k + Acks(s.back) <= Replied(s)
  {
  }

  lemma TimeoutAcks(s: State, n: nat)
    requires s.receiver.Receiving?
    ensures Acks(ReceiverTimeout(s, n).back) == Acks(s.back)
  {
    hide Acks;
    var others: seq<Reply> := seq(n, _ => Other);
    AcksNone([Other, Other] + others);
    AcksNone(others + [Nak]);
    AcksAppend(s.back, [Other, Other] + others);
    AcksAppend(s.back, others + [Nak]);
    assert s.back + [Other, Other] + others == s.back + ([Other, Other] + others);
    assert s.back + others + [Nak] == s.back + (others + [Nak]);
  }

  lemma NoHopeLine(p: seq<bv8>, s: State, e: Event)
    requires |p| % BLOCK == 0 && Invariant(p, s) && Enabled(s, e) && (e.Lose? || e.Damage? || e.Cut?)
    ensures Hopeful(p, Step(p, s, e)) ==> Hopeful(p, s)
  {
    hide GoodItem, Acks, Invariant;
    var t := Step(p, s, e);
    if e.Damage? && s.line[e.i].index < Blocks(p) { OwnNumber(p, s.line[e.i].index); }
    hide FrameOf, Accepts, Number;
    assert forall it :: it in t.line
                        && (it.Eot? || (it.Data? && it.index < Blocks(p) && it.frame == FrameOf(p, it.index)))
                        ==> it in s.line;
  }

  lemma OwnNumber(p: seq<bv8>, k: nat)
    requires k < Blocks(p)
    ensures Accepts(Number(k), FrameOf(p, k))
  {
  }

  lemma NoHopeStep(p: seq<bv8>, s: State, e: Event)
    requires |p| % BLOCK == 0 && Invariant(p, s) && Enabled(s, e)
    ensures Hopeful(p, Step(p, s, e)) ==> Hopeful(p, s)
  {
    hide Invariant, Hopeful, Step;
    match e
    case SenderWrites => NoHopeSender(p, s, e);
    case SenderReads => NoHopeSender(p, s, e);
    case SenderTimesOut => NoHopeSender(p, s, e);
    case ReceiverReads => NoHopeReceiver(p, s);
    case ReceiverTimesOut(_) => NoHopeOthers(p, s, e);
    case LoseReply(_) => NoHopeOthers(p, s, e);
    case Lose(_) => NoHopeLine(p, s, e);
    case Damage(_, _) => NoHopeLine(p, s, e);
    case Cut(_) => NoHopeLine(p, s, e);
  }

  /** A run that ends in success, or in a state that can still succeed, was hopeful
      from its start on. */
  lemma {:induction false} NoHopeRun(p: seq<bv8>, s: State, run: seq<Event>)
    requires |p| % BLOCK == 0 && Invariant(p, s) && Legal(p, s, run)
    ensures Hopeful(p, Final(p, s, run)) ==> Hopeful(p, s)
    decreases |run|
  {
    hide Invariant, Step, Hopeful;
    if run == [] {
      return;
    }
    KeepsInvariant(p, s, run[0]);
    NoHopeStep(p, s, run[0]);
    NoHopeRun(p, Step(p, s, run[0]), run[1..]);
  }

  // And hope is enough.

  /** How far a hopeful transfer is from its next block: an acknowledgement is on
      its way, what it acknowledges is, the sender is about to write, or it must
      time out first. */
  function Rank(p: seq<bv8>, s: State): nat {
    match s.sender
    case Finished(_, _) => 0
    case Sending(_, _) => 2
    case Waiting(k, _) =>
      if Acks(s.back) > 0 then 0 else if k < Blocks(p) && Data(k, FrameOf(p, k)) in s.line then 1 else 3
    case WaitingEot(_) => if Acks(s.back) > 0 then 0 else 1
  }

  /** What brings a hopeful transfer forward. A late NAK must not be read when an
      acknowledgement follows it. */
  function Forward(p: seq<bv8>, s: State): Event {
    if s.sender.Sending? then SenderWrites
    else if Rank(p, s) == 0 then
      if s.sender.Waiting? && s.back != [] && s.back[0] == Nak then LoseReply(0) else SenderReads
    else if Rank(p, s) == 1 then ReceiverReads
    else SenderTimesOut
  }

  predicate Nearer(p: seq<bv8>, t: State, s: State) {
    || (Succeeded(t) && t.sender.k == s.sender.k)
    || s.sender.k < t.sender.k <= Blocks(p)
    || (t.sender.k == s.sender.k
        && (|| Rank(p, t) < Rank(p, s)
            || (Rank(p, t) == Rank(p, s) && |t.line| < |s.line|)
            || (Rank(p, t) == Rank(p, s) && |t.line| == |s.line| && |t.back| < |s.back|)))
  }

  lemma ForwardSender(p: seq<bv8>, s: State)
    requires |p| % BLOCK == 0 && Invariant(p, s) && Hopeful(p, s) && !s.sender.Finished? && Rank(p, s) != 1
    ensures Enabled(s, Forward(p, s))
    ensures var t := Step(p, s, Forward(p, s)); Hopeful(p, t) && Nearer(p, t, s)
  {
    hide FrameOf, Damaged, GoodItem, Ordered;
    if s.back != [] { AcksWithout(s.back, 0); }
    if s.sender.Sending? && s.sender.k < Blocks(p) {
      var t := Step(p, s, SenderWrites);
      assert t.line[|s.line|] == Data(s.sender.k, FrameOf(p, s.sender.k));
    }
  }

  lemma ForwardReceiver(p: seq<bv8>, s: State)
    requires |p| % BLOCK == 0 && Invariant(p, s) && Hopeful(p, s) && !s.sender.Finished? && Rank(p, s) == 1
    ensures Enabled(s, ReceiverReads)
    ensures var t := Step(p, s, ReceiverReads); Hopeful(p, t) && Nearer(p, t, s)
  {
    var k, r := s.sender.k, Stored(s);
    assert k == r && s.receiver.Receiving? && s.line != [];
    var it := s.line[0];
    assert GoodItem(p, k, r, it);
    if it.Data? && it.frame == FrameOf(p, it.index) {
      NumbersUnambiguous(p, r, it.index);
    }
    if it.Data? && Accepts(s.number, it.frame) {
      KeepsReceiverAccepts(p, s);
    } else if it.Data? && k < Blocks(p) {
      OwnNumber(p, k);
      assert it != Data(k, FrameOf(p, k));
    }
    hide FrameOf, Damaged, GoodItem, Acks, Accepts, Number;
    assert s.line == [it] + s.line[1..];
    AcksAppend(s.back, [Ack]);
    AcksAppend(s.back, [Nak]);
    OneAck();
  }

  /** From every hopeful state there is a continuation that ends in success, and it
      needs no fault but the loss of late NAKs. */
  lemma {:induction false} HopefulSucceeds(p: seq<bv8>, s: State) returns (rest: seq<Event>)
    requires |p| % BLOCK == 0 && Invariant(p, s) && Hopeful(p, s)
    ensures Legal(p, s, rest) && Succeeded(Final(p, s, rest))
    ensures forall e :: e in rest ==> !e.Lose? && !e.Damage? && !e.Cut? && !e.ReceiverTimesOut?
    decreases Blocks(p) - s.sender.k, Rank(p, s) + if Succeeded(s) then 0 else 1, |s.line|, |s.back|
  {
    hide Invariant, Hopeful, Step, Rank, Enabled;
    if Succeeded(s) {
      rest := [];
    } else {
      HopefulMeans(p, s);
      var e := Forward(p, s);
      if Rank(p, s) == 1 { ForwardReceiver(p, s); } else { ForwardSender(p, s); }
      var t := Step(p, s, e);
      KeepsInvariant(p, s, e);
      HopefulMeans(p, t);
      var more := HopefulSucceeds(p, t);
      rest := [e] + more;
      assert rest[1..] == more;
    }
  }

  lemma HopefulMeans(p: seq<bv8>, s: State)
    requires Hopeful(p, s) && Invariant(p, s)
    ensures s.sender.k <= Blocks(p) && (s.sender.Finished? ==> s.sender.ok)
    ensures Rank(p, s) == 1 ==> !s.sender.Sending?
    ensures Succeeded(s) ==> Rank(p, s) == 0
  {
  }

  /** Exactly when a transfer can succeed, at every moment of every run. */
  lemma SucceedsIff(data: seq<bv8>, run: seq<Event>)
    requires Legal(Pad(data), Init(), run)
    ensures var p := Pad(data);
            var s := Final(p, Init(), run);
            (exists rest :: Legal(p, s, rest) && Succeeded(Final(p, s, rest))) <==> Hopeful(p, s)
  {
    hide Step, Hopeful;
    var p := Pad(data);
    assert Invariant(p, Init());
    RunKeepsInvariant(p, Init(), run);
    hide Invariant;
    var s := Final(p, Init(), run);
    if rest :| Legal(p, s, rest) && Succeeded(Final(p, s, rest)) {
      NoHopeRun(p, s, rest);
      SuccessIsHopeful(p, Final(p, s, rest));
    }
    if Hopeful(p, s) {
      var rest := HopefulSucceeds(p, s);
    }
  }

  lemma SuccessIsHopeful(p: seq<bv8>, s: State)
    requires Succeeded(s)
    ensures Hopeful(p, s)
  {
  }

  /** One lost acknowledgement, of a block or of the end of file, while the sender
      is still at work, and no continuation ends in success. */
  lemma LostAckIsFatal(data: seq<bv8>, run: seq<Event>, i: nat, rest: seq<Event>)
    requires var p := Pad(data);
             && Legal(p, Init(), run)
             && var s := Final(p, Init(), run);
                && i < |s.back| && s.back[i] == Ack && !s.sender.Finished?
                && Legal(p, Step(p, s, LoseReply(i)), rest)
    ensures var p := Pad(data);
            var t := Final(p, Step(p, Final(p, Init(), run), LoseReply(i)), rest);
            !(t.sender.Finished? && t.sender.ok)
  {
    var p := Pad(data);
    assert Invariant(p, Init());
    RunKeepsInvariant(p, Init(), run);
    var s := Final(p, Init(), run);
    KeepsInvariant(p, s, LoseReply(i));
    AcksWithout(s.back, i);
    var t := Step(p, s, LoseReply(i));
    assert !Hopeful(p, t);
    NoHopeRun(p, t, rest);
  }

  /** The events of a transfer on quiet lines from block `k` on. */
  function QuietRun(p: seq<bv8>, k: nat): seq<Event>
    requires k <= Blocks(p)
    decreases Blocks(p) - k
  {
    [SenderWrites, ReceiverReads, SenderReads] + if k == Blocks(p) then [] else QuietRun(p, k + 1)
  }

  predicate AtBlock(p: seq<bv8>, s: State, k: nat) {
    k <= Blocks(p) && s == State(Sending(k, 0), Receiving, Number(k), k * BLOCK, p[..k * BLOCK], 0, [], [])
  }

  lemma QuietRound(p: seq<bv8>, s: State, k: nat)
    requires AtBlock(p, s, k)
    ensures Enabled(s, SenderWrites)
    ensures var t := Step(p, s, SenderWrites);
            && Enabled(t, ReceiverReads)
            && var u := Step(p, t, ReceiverReads);
               && Enabled(u, SenderReads)
               && var v := Step(p, u, SenderReads);
                  if k == Blocks(p) then v.sender == Finished(k, true) else AtBlock(p, v, k + 1)
  {
    if k < Blocks(p) {
      assert Accepts(Number(k), FrameOf(p, k));
      assert p[..k * BLOCK] + Block(p, k) == p[..(k + 1) * BLOCK];
      NextNumber(k);
    }
  }

  lemma {:induction false} QuietRunSucceeds(p: seq<bv8>, s: State, k: nat)
    requires AtBlock(p, s, k)
    ensures Legal(p, s, QuietRun(p, k))
    ensures Final(p, s, QuietRun(p, k)).sender == Finished(Blocks(p), true)
    decreases Blocks(p) - k
  {
    hide Step, Enabled, AtBlock, Legal, Final, QuietRun;
    QuietRound(p, s, k);
    var t := Step(p, s, SenderWrites);
    var u := Step(p, t, ReceiverReads);
    var v := Step(p, u, SenderReads);
    var rest := if k == Blocks(p) then [] else QuietRun(p, k + 1);
    if k < Blocks(p) {
      QuietRunSucceeds(p, v, k + 1);
    } else {
      NoEvents(p, v);
    }
    OneEvent(p, u, SenderReads, rest);
    OneEvent(p, t, ReceiverReads, [SenderReads] + rest);
    OneEvent(p, s, SenderWrites, [ReceiverReads] + ([SenderReads] + rest));
    QuietRunIs(p, k);
  }

  lemma NoEvents(p: seq<bv8>, s: State)
    ensures Legal(p, s, []) && Final(p, s, []) == s
  {
  }

  lemma OneEvent(p: seq<bv8>, s: State, e: Event, rest: seq<Event>)
    requires Enabled(s, e) && Legal(p, Step(p, s, e), rest)
    ensures Legal(p, s, [e] + rest) && Final(p, s, [e] + rest) == Final(p, Step(p, s, e), rest)
  {
    hide Enabled, Step;
    assert ([e] + rest)[1..] == rest;
  }

  lemma QuietRunIs(p: seq<bv8>, k: nat)
    requires k <= Blocks(p)
    ensures var rest := if k == Blocks(p) then [] else QuietRun(p, k + 1);
            QuietRun(p, k) == [SenderWrites] + ([ReceiverReads] + ([SenderReads] + rest))
  {
  }

  /** Without faults every transfer succeeds, whatever the data. */
  lemma TransferCanSucceed(data: seq<bv8>)
    ensures var p := Pad(data);
            && Legal(p, Init(), QuietRun(p, 0))
            && Final(p, Init(), QuietRun(p, 0)).sender == Finished(Blocks(p), true)
  {
    QuietRunSucceeds(Pad(data), Init(), 0);
  }
}
