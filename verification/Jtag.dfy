/**
 The `Jtag` layer: a shadow of the TAP controller, a bit-packed buffer of TMS
 levels not yet sent, and the padding of a multi-device chain, on top of a cable
 that clocks TMS and TDI.
 */
module Jtag {
  import opened Tap
  import opened Chain
  import Scans
  import Bits
  import opened U32

  /** The contract every cable driver offers, with the board on its other end.
      `clocks` is everything sent so far. */
  class Cable {
    const board: Board
    const start: Snapshot
    var clocks: seq<Clock>

    constructor (board: Board, start: Snapshot)
      ensures this.board == board && this.start == start && clocks == []
    {
      this.board, this.start, this.clocks := board, start, [];
    }

    /** Where the devices are. */
    function Now(): Snapshot
      reads this
    {
      Drive(board, start, clocks)
    }

    method WriteTms(tms: seq<bv8>, len: nat, tdi: bool)
      requires len <= 8 * |tms|
      modifies this
      ensures clocks == old(clocks) + AtLevel(Bits.Take(tms, len), tdi)
    {
      clocks := clocks + AtLevel(Bits.Take(tms, len), tdi);
    }

    method WriteTdi(tx: seq<bv8>, len: nat, end: bool) returns (rx: seq<bool>)
      requires len <= 8 * |tx| && (end ==> len > 0)
      modifies this
      ensures clocks == old(clocks) + DataClocks(Bits.Take(tx, len), end)
      ensures rx == Tdos(board, old(Now()), DataClocks(Bits.Take(tx, len), end))
    {
      rx := Tdos(board, Drive(board, start, clocks), DataClocks(Bits.Take(tx, len), end));
      clocks := clocks + DataClocks(Bits.Take(tx, len), end);
    }

    method ToggleClk(tms: bool, tdi: bool, n: nat)
      modifies this
      ensures clocks == old(clocks) + AtLevel(Bits.Repeat(tms, n), tdi)
    {
      clocks := clocks + AtLevel(Bits.Repeat(tms, n), tdi);
    }
  }

  const TMS_BUFFER_SIZE := 128

  function Max(a: nat, b: nat): nat {
    if a < b then b else a
  }

  /** A 32-bit IDCODE as it comes off the chain, least significant bit first. */
  type Code = seq<bool>

  datatype Detection = Found(devices: seq<Code>) | StuckAtZero | UnknownDevice

  const ALL_ONES: seq<bv8> := [0xFF, 0xFF, 0xFF, 0xFF]

  /** `idcode & 0x0fffffff`. */
  function Masked(c: Code): Code {
    if |c| < 28 then c else c[..28] + Bits.Repeat(false, 4)
  }

  predicate Known(table: map<Code, nat>, c: Code) {
    c in table || Masked(c) in table
  }

  /** The table entry a device is listed under: its full code, else the code
      without its version nibble. */
  function Entry(table: map<Code, nat>, c: Code): Code
    requires Known(table, c)
    ensures Entry(table, c) in table
  {
    if c in table then c else Masked(c)
  }

  /** Every listed device has its table entry's instruction length. */
  predicate Listed(devices: seq<Code>, irLengths: seq<nat>, table: map<Code, nat>) {
    && |irLengths| == |devices|
    && forall k :: 0 <= k < |devices| ==> devices[k] in table && irLengths[k] == table[devices[k]]
  }

  /** The next 32 bits of a stream with only ones behind it, and what follows them. */
  function NextWord(left: seq<bool>): (r: Code)
    ensures |r| == 32
  {
    (left + Bits.Repeat(true, 32))[..32]
  }

  function Later(left: seq<bool>): seq<bool> {
    if |left| <= 32 then [] else left[32..]
  }

  /** What reading the chain from its TDO end must find: a device for every 32 bits,
      until a word of all ones, an error, or the limit. Devices without an IDCODE
      take part with the one bit of their bypass register. */
  function Survey(left: seq<bool>, table: map<Code, nat>, limit: nat): (r: Detection)
    ensures r.Found? ==> forall c :: c in r.devices ==> c in table
    decreases limit
  {
    if limit == 0 then Found([]) else
    var c := NextWord(left);
    if c == Bits.Repeat(false, 32) then StuckAtZero
    else if c == Bits.Repeat(true, 32) then Found([])
    else if !Known(table, c) then UnknownDevice
    else
      var rest := Survey(Later(left), table, limit - 1);
      if rest.Found? then Found(rest.devices + [Entry(table, c)]) else rest
  }

  /** A code the table has, as it is or without its version nibble. */
  predicate Recognised(table: map<Code, nat>, c: Code) {
    && c != Bits.Repeat(false, 32) && c != Bits.Repeat(true, 32)
    && |c| == 32 && (c in table || c[..28] + [false, false, false, false] in table)
  }

  /** How a device is listed: under its own code if the table has it, else under the
      code that agrees with it but for bits 28 to 31, which are clear. */
  predicate ListedAs(table: map<Code, nat>, c: Code, entry: Code) {
    && entry in table
    && if c in table then entry == c else |c| == |entry| == 32 && entry[..28] == c[..28]
                                          && !entry[28] && !entry[29] && !entry[30] && !entry[31]
  }

  /** What must be found on a chain with the codes `regs` when the `n` devices nearest
      TDO are recognised and the next is not, or there is none, or the limit is
      reached. */
  predicate Outcome(regs: seq<Code>, table: map<Code, nat>, limit: nat, n: nat, r: Detection) {
    && n <= limit && n <= |regs|
    && (forall k :: |regs| - n <= k < |regs| ==> Recognised(table, regs[k]))
    && var stopped := n < limit && n < |regs|;
       var next := if n < |regs| then regs[|regs| - 1 - n] else [];
       && (stopped ==> !Recognised(table, next))
       && if stopped && next == Bits.Repeat(false, 32) then r == StuckAtZero
          else if stopped && next != Bits.Repeat(true, 32) then r == UnknownDevice
          else
            && r.Found? && |r.devices| == n
            && forall k :: 0 <= k < n ==> ListedAs(table, regs[|regs| - n + k], r.devices[k])
  }

  /** The survey of a chain of devices with IDCODEs. */
  lemma {:induction false} SurveyIsTheChain(regs: seq<Code>, table: map<Code, nat>, limit: nat) returns (n: nat)
    requires forall k :: 0 <= k < |regs| ==> |regs[k]| == 32
    ensures Outcome(regs, table, limit, n, Survey(Join(regs), table, limit))
    decreases limit
  {
    hide Join, NextWord, Later, Recognised, ListedAs, Outcome, Known, Entry;
    n := 0;
    if limit == 0 || regs == [] {
      NothingJoined();
      LastWord();
      OutcomeNothing(regs, table, limit);
    } else {
      var init, c := regs[..|regs| - 1], regs[|regs| - 1];
      JoinedWord(regs);
      KnownIsRecognised(table, c);
      if Recognised(table, c) {
        n := SurveyIsTheChain(init, table, limit - 1);
        OutcomeNext(regs, table, limit, n, Survey(Join(init), table, limit - 1), Entry(table, c));
        n := n + 1;
      } else {
        OutcomeStops(regs, table, limit);
      }
    }
  }

  lemma OutcomeNothing(regs: seq<Code>, table: map<Code, nat>, limit: nat)
    requires limit == 0 || regs == []
    ensures Outcome(regs, table, limit, 0, Found([]))
  {
  }

  lemma OutcomeStops(regs: seq<Code>, table: map<Code, nat>, limit: nat)
    requires limit > 0 && regs != [] && !Recognised(table, regs[|regs| - 1])
    ensures var c := regs[|regs| - 1];
            Outcome(regs, table, limit, 0,
                    if c == Bits.Repeat(false, 32) then StuckAtZero
                    else if c == Bits.Repeat(true, 32) then Found([]) else UnknownDevice)
  {
    hide Recognised, ListedAs, Bits.Repeat;
  }

  lemma OutcomeNext(regs: seq<Code>, table: map<Code, nat>, limit: nat, n: nat, rest: Detection, entry: Code)
    requires limit > 0 && regs != [] && Outcome(regs[..|regs| - 1], table, limit - 1, n, rest)
    requires Recognised(table, regs[|regs| - 1]) && ListedAs(table, regs[|regs| - 1], entry)
    ensures Outcome(regs, table, limit, n + 1, if rest.Found? then Found(rest.devices + [entry]) else rest)
  {
    hide Recognised, ListedAs, Bits.Repeat;
    var init := regs[..|regs| - 1];
    assert forall k :: 0 <= k < |init| ==> regs[k] == init[k];
  }

  lemma KnownIsRecognised(table: map<Code, nat>, c: Code)
    requires |c| == 32
    ensures Recognised(table, c) <==> c != Bits.Repeat(false, 32) && c != Bits.Repeat(true, 32) && Known(table, c)
    ensures Known(table, c) ==> ListedAs(table, c, Entry(table, c))
  {
    assert Bits.Repeat(false, 4) == [false, false, false, false];
  }

  ghost predicate Detected(regs: seq<Code>, table: map<Code, nat>, limit: nat, r: Detection) {
    exists n: nat :: Outcome(regs, table, limit, n, r)
  }

  /** The word nearest TDO is the last device's. */
  lemma JoinedWord(regs: seq<Code>)
    requires regs != [] && |regs[|regs| - 1]| == 32
    ensures NextWord(Join(regs)) == regs[|regs| - 1] && Later(Join(regs)) == Join(regs[..|regs| - 1])
  {
    hide Join;
    var n := |regs| - 1;
    Scans.JoinAround(regs, n);
    NothingJoined();
    assert regs[n + 1..] == [];
    assert Join(regs) == regs[n] + Join(regs[..n]);
  }

  lemma LastWord()
    ensures NextWord([]) == Bits.Repeat(true, 32) && Later([]) == []
    ensures Bits.Repeat(true, 32) != Bits.Repeat(false, 32)
  {
    assert Bits.Repeat(true, 32)[0] != Bits.Repeat(false, 32)[0];
  }

  /** Conversion to a 32-bit unsigned number. */
  function Unsigned(x: int): (r: nat)
    ensures 0 <= x < TWO_32 ==> r == x
    ensures x == -1 ==> r == TWO_32 - 1
  {
    x % TWO_32
  }

  function Ones(n: nat): (r: seq<bv8>)
    ensures n <= 8 * |r| && forall k :: 0 <= k < |r| ==> r[k] == 0xFF
  {
    seq((n + 7) / 8, _ => 0xFF)
  }

  /** A padding string of `n` bits, its byte count computed in 32-bit arithmetic. */
  function Filler(n: nat, fill: bv8): (r: seq<bv8>)
    ensures forall k :: 0 <= k < |r| ==> r[k] == fill
    ensures n + 7 < TWO_32 ==> n <= 8 * |r|
    ensures n == TWO_32 - 1 ==> r == []
  {
    seq((n + 7) % TWO_32 / 8, _ => fill)
  }

  /** Part of a data scan. */
  datatype Chunk = Chunk(bytes: seq<bv8>, len: nat)

  /** The bits of all chunks in order. */
  function AllBits(chunks: seq<Chunk>): seq<bool>
    requires forall k :: k in chunks ==> k.len <= 8 * |k.bytes|
    decreases |chunks|
  {
    if chunks == [] then []
    else
      var n := |chunks| - 1;
      AllBits(chunks[..n]) + Bits.Take(chunks[n].bytes, chunks[n].len)
  }

  /** Where the scan stands after `k` chunks. */
  function ChunkEnd(chunks: seq<Chunk>, k: nat, t: State): State {
    if k == |chunks| then t else Scan(Dr, Shift)
  }

  lemma FirstChunk(chunks: seq<Chunk>)
    requires chunks != [] && forall k :: k in chunks ==> k.len <= 8 * |k.bytes|
    ensures AllBits(chunks[..1]) == Bits.Take(chunks[0].bytes, chunks[0].len)
  {
    hide Bits.Take;
    assert chunks[..1][..0] == [];
    var y := Bits.Take(chunks[0].bytes, chunks[0].len);
    assert AllBits([]) + y == y;
  }

  lemma NextChunk(chunks: seq<Chunk>, k: nat)
    requires k < |chunks| && forall k :: k in chunks ==> k.len <= 8 * |k.bytes|
    ensures AllBits(chunks[..k + 1]) == AllBits(chunks[..k]) + Bits.Take(chunks[k].bytes, chunks[k].len)
  {
    hide Bits.Take;
    assert chunks[..k + 1][..k] == chunks[..k];
  }

  /** A chunk after those already shifted. */
  lemma AddChunk(b: Board, start: Snapshot, was: seq<Clock>, flushed: seq<Clock>, s: State, before: seq<bool>,
                 after: seq<bool>, x: seq<bool>, y: seq<bool>, t: State, tdi: bool)
    requires y != [] || after != [] || t == Scan(Dr, Shift)
    ensures var shift := Scan(Dr, Shift);
            var now := was + (flushed + Scans.ScanClocks(Dr, s, before, x, after, shift));
            var c := Drive(b, Drive(b, start, was), flushed + Scans.EnterClocks(Dr, s, before));
            && now + (AtLevel([], tdi) + Scans.ScanClocks(Dr, shift, before, y, after, t))
               == was + (flushed + Scans.ScanClocks(Dr, s, before, x + y, after, t))
            && Tdos(b, c, Scans.PayloadClocks(Dr, x, after, shift))
               + Tdos(b, Drive(b, Drive(b, start, now), AtLevel([], tdi) + Scans.EnterClocks(Dr, shift, before)),
                      Scans.PayloadClocks(Dr, y, after, t))
               == Tdos(b, c, Scans.PayloadClocks(Dr, x + y, after, t))
  {
    hide Drive, Tdos, AtLevel, Scans.ScanClocks, Scans.EnterClocks, Scans.PayloadClocks;
    var shift := Scan(Dr, Shift);
    var enter, payload := Scans.EnterClocks(Dr, s, before), Scans.PayloadClocks(Dr, x, after, shift);
    var c := Drive(b, Drive(b, start, was), flushed + enter);
    var first := Scans.ScanClocks(Dr, s, before, x, after, shift);
    var rest := Scans.ScanClocks(Dr, shift, before, y, after, t);
    var now := was + (flushed + first);
    Scans.ChunksAreOneScan(b, c, Dr, s, before, x, y, after, t);
    OpenScan(s, before, x, after);
    AtLevelAppend([], [], tdi);
    ChunkAlgebra(was, flushed, enter, payload, rest);
    DriveAppend(b, start, was + (flushed + enter), payload);
    DriveAppend(b, start, was, flushed + enter);
    Scans.DriveNothing(b, Drive(b, start, now));
  }

  /** A chunk that ends in the shift state has no way out, and the next no way in. */
  lemma OpenScan(s: State, before: seq<bool>, x: seq<bool>, after: seq<bool>)
    ensures var shift := Scan(Dr, Shift);
            && Scans.ScanClocks(Dr, s, before, x, after, shift)
               == Scans.EnterClocks(Dr, s, before) + Scans.PayloadClocks(Dr, x, after, shift)
            && Scans.EnterClocks(Dr, shift, before) == []
  {
    hide Scans.PayloadClocks, AtLevel, DataClocks, Path;
  }

  lemma ChunkAlgebra(was: seq<Clock>, flushed: seq<Clock>, enter: seq<Clock>, payload: seq<Clock>, rest: seq<Clock>)
    ensures was + (flushed + (enter + payload)) == was + (flushed + enter) + payload
    ensures was + (flushed + (enter + payload)) + ([] + rest) == was + (flushed + ((enter + payload) + rest))
  {
  }

  class Jtag {
    const cable: Cable
    const tmsBuffer: array<bv8>
    var numTms: nat
    var state: State
    var currTdi: bool

    var devices: seq<Code>
    var irLengths: seq<nat>
    var deviceIndex: nat
    var drBitsBefore: nat
    var drBitsAfter: nat
    var irBitsBefore: nat
    var irBitsAfter: nat
    var drBits: seq<bv8>
    var irBits: seq<bv8>

    /** The buffer is in range and its unused bits are zero. */
    ghost predicate Valid()
      reads this`numTms, tmsBuffer
    {
      && tmsBuffer.Length == TMS_BUFFER_SIZE
      && numTms < 8 * TMS_BUFFER_SIZE
      && Bits.ClearFrom(tmsBuffer[..], numTms)
    }

    /** TMS levels accepted but not yet clocked. */
    ghost function Pending(): seq<bool>
      requires Valid()
      reads this`numTms, tmsBuffer
    {
      Bits.Take(tmsBuffer[..], numTms)
    }

    /** The shadow state is the one the real controllers reach once the pending
        levels are clocked. */
    ghost predicate Synced()
      requires Valid()
      reads this`numTms, this`state, tmsBuffer, cable
    {
      Tap.Run(cable.Now().tap, Pending()) == state
    }

    /** The padding strings are long enough and hold the right constant. */
    ghost predicate PaddingFits()
      reads this`drBitsBefore, this`drBitsAfter, this`irBitsBefore, this`irBitsAfter, this`drBits, this`irBits
    {
      && Max(drBitsBefore, drBitsAfter) <= 8 * |drBits|
      && Max(irBitsBefore, irBitsAfter) <= 8 * |irBits|
      && (forall k :: 0 <= k < |drBits| ==> drBits[k] == 0)
      && (forall k :: 0 <= k < |irBits| ==> irBits[k] == 0xFF)
    }

    /** The selection agrees with the devices on the cable: as many padding bits on
        either side as the other devices' registers take. */
    ghost predicate Describes()
      reads this`irLengths, this`devices, this`deviceIndex, this`drBitsBefore, this`drBitsAfter,
            this`irBitsBefore, this`irBitsAfter
    {
      && irLengths == Lengths(cable.board.irCapture)
      && |devices| == |irLengths| && deviceIndex < |irLengths|
      && drBitsBefore == |irLengths| - 1 - deviceIndex && drBitsAfter == deviceIndex
      && irBitsBefore == Total(irLengths[deviceIndex + 1..])
      && irBitsAfter == Total(irLengths[..deviceIndex])
    }

    constructor (cable: Cable)
      ensures Valid() && PaddingFits() && this.cable == cable && fresh(tmsBuffer)
      ensures Pending() == [] && state == RunTestIdle && devices == [] && irLengths == []
    {
      this.cable := cable;
      tmsBuffer := new bv8[TMS_BUFFER_SIZE](_ => 0);
      numTms, state, currTdi := 0, RunTestIdle, true;
      devices, irLengths, deviceIndex := [], [], 0;
      drBitsBefore, drBitsAfter, irBitsBefore, irBitsAfter := 0, 0, 0, 0;
      drBits, irBits := [], [];
      new;
      Bits.ZeroBytesClear(tmsBuffer[..]);
    }

    method InsertFirst(deviceId: Code, irLength: nat)
      modifies this`devices, this`irLengths
      ensures devices == [deviceId] + old(devices) && irLengths == [irLength] + old(irLengths)
    {
      devices := [deviceId] + devices;
      irLengths := [irLength] + irLengths;
    }

    /** Select a device. The range test lets one index too many through; for that
        one the padding length wraps around and the selection is unusable. */
    method DeviceSelect(index: nat) returns (r: int)
      requires |devices| == |irLengths| && |devices| + 7 < TWO_32
      modifies this`deviceIndex, this`drBitsBefore, this`drBitsAfter, this`irBitsBefore, this`irBitsAfter,
               this`drBits, this`irBits
      ensures r == (if index > |devices| then -1 else index)
      ensures r == -1 ==> unchanged(this)
      ensures index < |devices| ==> PaddingFits()
      ensures index < |devices| && irLengths == Lengths(cable.board.irCapture) ==> Describes()
      ensures index == |devices| ==> !PaddingFits() && drBitsBefore == TWO_32 - 1 && deviceIndex == |devices|
    {
      hide Filler, Unsigned, Total, Lengths;
      if index > |devices| {
        return -1;
      }
      deviceIndex := index;
      drBitsBefore := Unsigned(|devices| - deviceIndex - 1);
      drBitsAfter := deviceIndex;
      drBits := Filler(Max(drBitsAfter, drBitsBefore), 0);
      irBitsAfter := SumLengths(0, deviceIndex);
      irBitsBefore := SumLengths(deviceIndex + 1, |devices|);
      irBits := Ones(Max(irBitsBefore, irBitsAfter));
      r := deviceIndex;
      assert irLengths[0..deviceIndex] == irLengths[..deviceIndex];
      assert index < |devices| ==> irLengths[deviceIndex + 1..|devices|] == irLengths[deviceIndex + 1..];
    }

    /** The loops of `device_select`: instruction bits of the devices from `lo` up
        to `hi`. */
    method SumLengths(lo: nat, hi: nat) returns (total: nat)
      requires hi <= |irLengths|
      ensures total == if lo <= hi then Total(irLengths[lo..hi]) else 0
    {
      total := 0;
      var i := lo;
      while i < hi
        invariant lo <= hi ==> lo <= i <= hi && total == Total(irLengths[lo..i])
        invariant lo > hi ==> total == 0
      {
        TotalSnoc(irLengths[lo..], i - lo);
        assert irLengths[lo..][..i - lo] == irLengths[lo..i];
        assert irLengths[lo..][..i - lo + 1] == irLengths[lo..i + 1];
        total := total + irLengths[i];
        i := i + 1;
      }
    }

    /** Reset the chain and read it word by word until the ones fed in come back
        out. What is found depends on the devices alone, not on what the
        controllers or the shadow were doing before. */
    method DetectChain(maxDev: nat, table: map<Code, nat>) returns (r: Detection)
      requires Valid()
      modifies this, tmsBuffer, cable
      ensures Valid()
      ensures r == Survey(Join(Captured(cable.board, cable.board.irReset)), table, maxDev)
      ensures var regs := Captured(cable.board, cable.board.irReset);
              (forall k :: 0 <= k < |regs| ==> |regs[k]| == 32) ==> Detected(regs, table, maxDev, r)
      ensures r.Found? ==>
                && devices == r.devices && Listed(devices, irLengths, table)
                && state == TestLogicReset && Pending() == [] && Synced()
    {
      hide Bits.Take, Bits.ClearFrom, Captured, Join, Synced, Survey, Drive, Feeds, Outcome;
      ghost var regs := Captured(cable.board, cable.board.irReset);
      if forall k :: 0 <= k < |regs| ==> |regs[k]| == 32 {
        var _ := SurveyIsTheChain(regs, table, maxDev);
      }
      devices, irLengths := [], [];
      irBitsBefore, irBitsAfter, drBitsBefore, drBitsAfter := 0, 0, 0, 0;
      ResetToShift();
      r := ReadDevices(maxDev, table, Join(Captured(cable.board, cable.board.irReset)));
      if r.Found? {
        SetState(TestLogicReset, true);
        FlushTms();
      }
    }

    /** Start of `detectChain`: after a reset the data path is the devices' IDCODEs. */
    method ResetToShift()
      requires Valid()
      modifies this`numTms, this`state, this`currTdi, tmsBuffer, cable
      ensures Valid() && Pending() == [] && state == Scan(Dr, Shift) && Synced()
      ensures Feeds(cable.Now().path, Join(Captured(cable.board, cable.board.irReset)))
    {
      hide Bits.Take, Bits.ClearFrom, Captured, Drive, Tap.Run, Path, AtLevel;
      ghost var was, before := cable.clocks, Pending();
      GoTestLogicReset();
      SetState(Scan(Dr, Shift), true);
      ResetReads(cable.board, cable.start, was, before, old(currTdi));
    }

    /** One turn of the detection loop's read. */
    method ReadWord(ghost left: seq<bool>) returns (word: Code)
      requires Valid() && Pending() == [] && state == Scan(Dr, Shift) && Synced()
      requires Feeds(cable.Now().path, left)
      modifies this`numTms, this`state, tmsBuffer, cable
      ensures Valid() && Pending() == [] && state == Scan(Dr, Shift) && Synced()
      ensures word == NextWord(left) && Feeds(cable.Now().path, Later(left))
    {
      ghost var c := cable.Now();
      SyncedTap(c.tap, state);
      hide Bits.Take, Bits.ClearFrom, Drive, Tap.Run, Tdos, DataClocks, AtLevel;
      hide Feeds, Bits.Repeat, Synced, Valid, Pending;
      ghost var was := cable.clocks;
      word := ReadWrite(ALL_ONES, 32, false);
      WordReads(cable.board, cable.start, was, left, currTdi);
    }

    /** The detection loop. */
    method ReadDevices(maxDev: nat, table: map<Code, nat>, ghost regs: seq<bool>) returns (r: Detection)
      requires Valid() && Pending() == [] && state == Scan(Dr, Shift) && Synced()
      requires Feeds(cable.Now().path, regs)
      requires devices == [] && irLengths == []
      modifies this, tmsBuffer, cable
      ensures Valid() && Pending() == [] && Synced()
      ensures r == Survey(regs, table, maxDev)
      ensures r.Found? ==>
                devices == r.devices && Listed(devices, irLengths, table)
    {
      hide Valid, Pending, Synced, Feeds, Known, Bits.Repeat, Masked, Entry, Survey, Onto;
      ghost var left := regs;
      OntoNothing(Survey(regs, table, maxDev));
      for i := 0 to maxDev
        invariant Valid() && Pending() == [] && state == Scan(Dr, Shift) && Synced()
        invariant Feeds(cable.Now().path, left)
        invariant Listed(devices, irLengths, table)
        invariant Survey(regs, table, maxDev) == Onto(Survey(left, table, maxDev - i), devices)
      {
        var word := ReadWord(left);
        SurveyStep(left, table, maxDev - i, devices);
        if word == Bits.Repeat(false, 32) {
          return StuckAtZero;
        }
        if word == Bits.Repeat(true, 32) {
          return Found(devices);
        }
        if !Known(table, word) {
          return UnknownDevice;
        }
        var entry := Entry(table, word);
        InsertFirst(entry, table[entry]);
        left := Later(left);
      }
      r := Found(devices);
      SurveyEnds(left, table, devices);
    }

    /** Hand the pending levels to the cable and clear the buffer. */
    method FlushTms()
      requires Valid()
      modifies this`numTms, tmsBuffer, cable
      ensures Valid() && Pending() == []
      ensures cable.clocks == old(cable.clocks) + AtLevel(old(Pending()), currTdi)
      ensures old(Synced()) ==> Synced()
    {
      hide Bits.Bit, Bits.ClearFrom, Drive, Tap.Run;
      SyncAfterFlush(cable.board, cable.start, cable.clocks, Pending(), currTdi);
      if numTms != 0 {
        cable.WriteTms(tmsBuffer[..], numTms, currTdi);
        forall i | 0 <= i < tmsBuffer.Length {
          tmsBuffer[i] := 0;
        }
        numTms := 0;
        Bits.ZeroBytesClear(tmsBuffer[..]);
      } else {
        assert AtLevel(old(Pending()), currTdi) == [];
        assert cable.clocks == old(cable.clocks) + [];
      }
    }

    /** Append one level; what is sent plus what is pending grows by exactly it. */
    method SetTms(tms: bool)
      requires Valid()
      modifies this`numTms, tmsBuffer, cable
      ensures Valid()
      ensures cable.clocks + AtLevel(Pending(), currTdi)
           == old(cable.clocks + AtLevel(Pending(), currTdi)) + [Clock(tms, currTdi)]
    {
      hide Bits.Bit, Bits.ClearFrom, Bits.Mask;
      ghost var sent := cable.clocks + AtLevel(Pending(), currTdi);
      if numTms + 1 == 8 * TMS_BUFFER_SIZE {
        FlushTms();
        assert cable.clocks + AtLevel(Pending(), currTdi) == sent;
      }
      ghost var bytes, pending := tmsBuffer[..], Pending();
      Bits.PushAppends(bytes, numTms, tms);
      if tms {
        tmsBuffer[numTms / 8] := tmsBuffer[numTms / 8] | Bits.Mask(numTms % 8);
      }
      assert tmsBuffer[..] == Bits.Push(bytes, numTms, tms);
      numTms := numTms + 1;
      assert AtLevel(Pending(), currTdi) == AtLevel(pending, currTdi) + [Clock(tms, currTdi)];
    }

    /** Move to `t` along the hops of the switch statement, then send. */
    method SetState(t: State, tdi: bool)
      requires Valid()
      modifies this`numTms, this`state, this`currTdi, tmsBuffer, cable
      ensures Valid() && Pending() == [] && state == t && currTdi == tdi
      ensures cable.clocks == old(cable.clocks) + AtLevel(old(Pending() + Path(state, t)), tdi)
      ensures old(Synced()) ==> Synced()
    {
      hide Path, Hop, Distance, Bits.ClearFrom, Bits.Take, Tap.Run, Drive;
      ghost var was, from, before, sent := cable.clocks, state, Pending(), Pending();
      currTdi := tdi;
      while t != state
        invariant Valid() && currTdi == tdi
        invariant cable.clocks + AtLevel(Pending(), tdi) == was + AtLevel(sent, tdi)
        invariant sent + Path(state, t) == before + Path(from, t)
        decreases Distance(state, t)
      {
        PathUnfold(state, t);
        var hop := Hop(state, t);
        state := hop.1;
        SetTms(hop.0);
        sent := Extend(was, sent, hop.0, tdi, Path(state, t));
      }
      PathEmpty(t);
      FlushTms();
      SyncAfterMove(cable.board, cable.start, was, before, from, t, tdi);
    }

    /** Six clocks with TMS high; the shadow is right afterwards whatever the real
        controllers were doing before. */
    method GoTestLogicReset()
      requires Valid()
      modifies this`numTms, this`state, tmsBuffer, cable
      ensures Valid() && Pending() == [] && state == TestLogicReset
      ensures cable.clocks == old(cable.clocks) + AtLevel(old(Pending()) + Bits.Repeat(true, 6), currTdi)
      ensures Synced()
    {
      hide Bits.ClearFrom, Bits.Take;
      ghost var before := old(Pending());
      for i := 0 to 6
        invariant Valid() && currTdi == old(currTdi)
        invariant cable.clocks + AtLevel(Pending(), currTdi)
               == old(cable.clocks) + AtLevel(before + Bits.Repeat(true, i), currTdi)
      {
        SetTms(true);
        assert AtLevel(before + Bits.Repeat(true, i + 1), currTdi)
            == AtLevel(before + Bits.Repeat(true, i), currTdi) + [Clock(true, currTdi)];
      }
      FlushTms();
      state := TestLogicReset;
      ResetFromAnywhere(cable.board, old(cable.Now()), before, currTdi);
      DriveAppend(cable.board, cable.start, old(cable.clocks), AtLevel(before + Bits.Repeat(true, 6), currTdi));
    }

    /** Shift `len` bits; on the last one TMS leaves the shift state. */
    method ReadWrite(tdi: seq<bv8>, len: nat, last: bool) returns (tdo: seq<bool>)
      requires Valid() && len <= 8 * |tdi| && (last ==> len > 0)
      requires state.Scan? && state.row == Shift
      modifies this`numTms, this`state, tmsBuffer, cable
      ensures Valid() && Pending() == []
      ensures state == if last then Scan(old(state).reg, Exit1) else old(state)
      ensures cable.clocks == old(cable.clocks) + AtLevel(old(Pending()), currTdi)
                              + DataClocks(Bits.Take(tdi, len), last)
      ensures tdo == Tdos(cable.board,
                          Drive(cable.board, old(cable.Now()), AtLevel(old(Pending()), currTdi)),
                          DataClocks(Bits.Take(tdi, len), last))
      ensures old(Synced()) ==> Synced()
    {
      hide Bits.ClearFrom, Bits.Take, DataClocks, Tap.Run, Drive, Tdos;
      ghost var was, from, before, bits := cable.clocks, state, Pending(), Bits.Take(tdi, len);
      FlushTms();
      tdo := cable.WriteTdi(tdi, len, last);
      if last {
        assert from.reg == Dr || from.reg == Ir;
        state := if state == Scan(Dr, Shift) then Scan(Dr, Exit1) else Scan(Ir, Exit1);
      }
      SyncAfterShift(cable.board, cable.start, was, before, from, bits, last, currTdi);
    }

    /** Clock without moving. The shadow stays right exactly in the states that
        hold; anywhere else the controllers walk on without it. */
    method ToggleClk(n: nat, tdi: bool)
      requires Valid()
      modifies this`numTms, tmsBuffer, cable
      ensures Valid() && Pending() == []
      ensures cable.clocks == old(cable.clocks) + AtLevel(old(Pending()), currTdi)
                              + AtLevel(Bits.Repeat(HoldLevel(state), n), tdi)
      ensures old(Synced()) ==> (Synced() <==> n == 0 || Stable(state))
    {
      hide Bits.ClearFrom, Bits.Take, Tap.Run, Drive, Stable;
      ghost var was, before := cable.clocks, Pending();
      var c := state == TestLogicReset;
      FlushTms();
      cable.ToggleClk(c, tdi, n);
      SyncAfterToggle(cable.board, cable.start, was, before, state, n, currTdi, tdi);
    }

    /** The pending levels as a scan of column `r` clocks them. */
    ghost function Flushed(r: Register): seq<Clock>
      requires Valid()
      reads this, tmsBuffer
    {
      AtLevel(Pending(), state != Scan(r, Shift) || currTdi)
    }

    /** The shadow is right, the selection fits the board, and an instruction scan
        of the selected device's length can start. */
    ghost predicate ReadyForIr(len: nat)
      requires Valid()
      reads this, tmsBuffer, cable
    {
      && Synced() && Pending() == [] && Describes() && len == irLengths[deviceIndex] > 0
      && state != Scan(Ir, Shift) && !Scans.Parked(state, Ir)
    }

    /** Likewise for a data scan: the other devices are in BYPASS. */
    ghost predicate ReadyForDr(len: nat)
      requires Valid()
      reads this, tmsBuffer, cable
    {
      && Synced() && Pending() == [] && Describes()
      && |irLengths| == |Scans.Instructions(cable.board, cable.Now())|
      && Exchanges(cable.board, cable.Now(), deviceIndex, len)
    }

    lemma ReadyIrMeans(len: nat)
      requires Valid() && ReadyForIr(len)
      ensures state == cable.Now().tap && Pending() == [] && Describes()
      ensures len == irLengths[deviceIndex] > 0 && state != Scan(Ir, Shift) && !Scans.Parked(state, Ir)
    {
    }

    lemma ReadyDrMeans(len: nat)
      requires Valid() && ReadyForDr(len)
      ensures state == cable.Now().tap && Pending() == []
      ensures |irLengths| == |Scans.Instructions(cable.board, cable.Now())|
      ensures Exchanges(cable.board, cable.Now(), deviceIndex, len)
      ensures drBitsBefore == |irLengths| - 1 - deviceIndex && drBitsAfter == deviceIndex
    {
    }

    /** First part of a scan: move to the shift state and send the padding, unless
        already there. */
    method Enter(r: Register, pad: seq<bv8>, n: nat, fill: bool)
      requires Valid() && n <= 8 * |pad| && forall k :: 0 <= k < |pad| ==> pad[k] == if fill then 0xFF else 0
      modifies this`numTms, this`state, this`currTdi, tmsBuffer, cable
      ensures Valid() && state == Scan(r, Shift)
      ensures if old(state) == Scan(r, Shift)
              then cable.clocks == old(cable.clocks) && Pending() == old(Pending()) && currTdi == old(currTdi)
              else Pending() == [] && cable.clocks
                   == old(cable.clocks) + (old(Flushed(r)) + Scans.EnterClocks(r, old(state), Bits.Repeat(fill, n)))
      ensures old(Synced()) ==> Synced()
    {
      hide Bits.Take, Path, Bits.Repeat, AtLevel, DataClocks, Valid, Synced, Pending;
      if state != Scan(r, Shift) {
        ghost var was, before, path := cable.clocks, Pending(), Path(state, Scan(r, Shift));
        ghost var padding := DataClocks(Bits.Repeat(fill, n), false);
        SetState(Scan(r, Shift), true);
        AtLevelAppend([], [], true);
        FlushTms();
        assert cable.clocks == was + AtLevel(before + path, true);
        Padding(pad, n, fill);
        if n > 0 {
          var _ := ReadWrite(pad, n, false);
        }
        assert cable.clocks == was + AtLevel(before + path, true) + padding;
        EnterAlgebra(was, before, path, padding);
      }
    }

    /** First and middle part of a scan: the payload after what leads up to it. */
    method EnterAndShift(r: Register, pad: seq<bv8>, n: nat, fill: bool, tdi: seq<bv8>, len: nat, last: bool)
      returns (tdo: seq<bool>)
      requires Valid() && n <= 8 * |pad| && forall k :: 0 <= k < |pad| ==> pad[k] == if fill then 0xFF else 0
      requires len <= 8 * |tdi| && (last ==> len > 0)
      modifies this`numTms, this`state, this`currTdi, tmsBuffer, cable
      ensures Valid() && Pending() == [] && state == Scan(r, if last then Exit1 else Shift)
      ensures var enter := old(Flushed(r)) + Scans.EnterClocks(r, old(state), Bits.Repeat(fill, n));
              && cable.clocks == old(cable.clocks) + enter + DataClocks(Bits.Take(tdi, len), last)
              && tdo == Tdos(cable.board, Drive(cable.board, old(cable.Now()), enter),
                             DataClocks(Bits.Take(tdi, len), last))
      ensures old(Synced()) ==> Synced()
    {
      hide Bits.Take, Bits.Repeat, DataClocks, Drive, Tdos, AtLevel, Scans.EnterClocks, Valid, Synced, Pending;
      ghost var was, flushed := cable.clocks, Flushed(r);
      ghost var enter := Scans.EnterClocks(r, state, Bits.Repeat(fill, n));
      EnterNothing(r, Bits.Repeat(fill, n));
      Enter(r, pad, n, fill);
      ghost var pend := AtLevel(Pending(), currTdi);
      NoLevels(currTdi);
      ScanAlgebra(cable.board, cable.start, was, flushed, enter, cable.clocks, pend);
      tdo := ReadWrite(tdi, len, last);
    }

    /** Last part of a scan: the padding on the other side and the move out. */
    method Leave(r: Register, pad: seq<bv8>, n: nat, fill: bool, t: State)
      requires Valid() && n <= 8 * |pad| && forall k :: 0 <= k < |pad| ==> pad[k] == if fill then 0xFF else 0
      requires Pending() == [] && state == Scan(r, if n == 0 then Exit1 else Shift) && t != Scan(r, Shift)
      modifies this`numTms, this`state, this`currTdi, tmsBuffer, cable
      ensures Valid() && Pending() == [] && state == t
      ensures cable.clocks == old(cable.clocks) + Scans.LeaveClocks(r, Bits.Repeat(fill, n), t)
      ensures old(Synced()) ==> Synced()
    {
      hide Bits.Take, Path, AtLevel, DataClocks, Valid, Synced, Pending;
      ghost var was := cable.clocks;
      AtLevelAppend([], [], currTdi);
      Padding(pad, n, fill);
      ghost var padding := DataClocks(Bits.Repeat(fill, n), n != 0);
      if n > 0 {
        var _ := ReadWrite(pad, n, true);
      }
      assert cable.clocks == was + padding;
      SetState(t, true);
      LeaveAlgebra(was, padding, Path(Scan(r, Exit1), t));
    }

    /** The clocks of one scan, from its three parts. */
    method ClockDr(tdi: seq<bv8>, drLen: nat, endState: State) returns (tdo: seq<bool>)
      requires Valid() && PaddingFits() && drLen <= 8 * |tdi|
      requires drLen > 0 || drBitsAfter > 0 || endState == Scan(Dr, Shift)
      modifies this`numTms, this`state, this`currTdi, tmsBuffer, cable
      ensures Valid() && PaddingFits() && Pending() == [] && state == endState
      ensures var before, after := Bits.Repeat(false, drBitsBefore), Bits.Repeat(false, drBitsAfter);
              var bits := Bits.Take(tdi, drLen);
              var flushed := old(Flushed(Dr));
              var enter := Scans.EnterClocks(Dr, old(state), before);
              && cable.clocks
                 == old(cable.clocks) + (flushed + Scans.ScanClocks(Dr, old(state), before, bits, after, endState))
              && tdo == Tdos(cable.board, Drive(cable.board, old(cable.Now()), flushed + enter),
                             Scans.PayloadClocks(Dr, bits, after, endState))
      ensures old(Synced()) ==> Synced()
    {
      hide Bits.Take, DataClocks, Path, Drive, Tdos, AtLevel;
      hide Scans.EnterClocks, Scans.LeaveClocks, Valid, Synced, Pending;
      hide Bits.Repeat, Flushed;
      ghost var was, flushed := cable.clocks, Flushed(Dr);
      ghost var before, after := Bits.Repeat(false, drBitsBefore), Bits.Repeat(false, drBitsAfter);
      ghost var enter, leave := Scans.EnterClocks(Dr, state, before), Scans.LeaveClocks(Dr, after, endState);
      ghost var payload := Scans.PayloadClocks(Dr, Bits.Take(tdi, drLen), after, endState);
      tdo := EnterAndShift(Dr, drBits, drBitsBefore, false, tdi, drLen,
                           drBitsAfter == 0 && endState != Scan(Dr, Shift));
      Regroup(was, flushed, enter, payload, leave);
      LeaveNothing(Dr, after);
      if endState != Scan(Dr, Shift) {
        Leave(Dr, drBits, drBitsAfter, false, endState);
      }
    }

    /** Scan the data registers; the bits of `tdi` go to the selected device. */
    method ShiftDr(tdi: seq<bv8>, drLen: nat, endState: State) returns (tdo: seq<bool>)
      requires Valid() && PaddingFits() && drLen <= 8 * |tdi|
      requires drLen > 0 || drBitsAfter > 0 || endState == Scan(Dr, Shift)
      modifies this`numTms, this`state, this`currTdi, tmsBuffer, cable
      ensures Valid() && PaddingFits() && Pending() == [] && state == endState
      ensures old(Synced()) ==> Synced()
      ensures cable.clocks == old(cable.clocks) + (old(Flushed(Dr)) +
                Scans.ScanClocks(Dr, old(state), Bits.Repeat(false, drBitsBefore), Bits.Take(tdi, drLen),
                                 Bits.Repeat(false, drBitsAfter), endState))
      ensures tdo == Tdos(cable.board,
                          Drive(cable.board, old(cable.Now()),
                                old(Flushed(Dr)) + Scans.EnterClocks(Dr, old(state), Bits.Repeat(false, drBitsBefore))),
                          Scans.PayloadClocks(Dr, Bits.Take(tdi, drLen), Bits.Repeat(false, drBitsAfter), endState))
      // The bits that come back are the selected device's, the payload ends up in it.
      ensures old(ReadyForDr(drLen)) && endState != Scan(Dr, Shift) ==>
              var regs := Captured(cable.board, Scans.Instructions(cable.board, old(cable.Now())));
              && Scans.Data(cable.board, cable.Now())
                 == Scans.Filled(Lengths(regs), deviceIndex, Bits.Take(tdi, drLen), false)
              && tdo == regs[deviceIndex]
    {
      hide Bits.Take, Drive, Tdos, AtLevel, Valid, Synced, Pending, Scans.ScanClocks, Scans.EnterClocks,
           Scans.PayloadClocks, ReadyForDr, Exchanges, Scans.Data, PaddingFits, Captured, Scans.Instructions;
      ghost var ready := ReadyForDr(drLen);
      if ready { ReadyDrMeans(drLen); }
      ghost var was := cable.clocks;
      tdo := ClockDr(tdi, drLen, endState);
      if ready && endState != Scan(Dr, Shift) {
        DrScanOnWire(cable.board, cable.start, was, deviceIndex, Bits.Take(tdi, drLen), endState, true);
      }
    }

    /** A data scan in any number of chunks, each but the last ending in the shift
        state: the clocks, the bits that come back and what the devices then hold
        are those of one scan of the concatenation. */
    method ShiftDrChunks(chunks: seq<Chunk>, endState: State) returns (tdo: seq<bool>)
      requires Valid() && PaddingFits() && chunks != [] && forall k :: k in chunks ==> k.len <= 8 * |k.bytes|
      requires endState != Scan(Dr, Shift) && (chunks[|chunks| - 1].len > 0 || drBitsAfter > 0)
      modifies this`numTms, this`state, this`currTdi, tmsBuffer, cable
      ensures Valid() && PaddingFits() && Pending() == [] && state == endState
      ensures old(Synced()) ==> Synced()
      ensures cable.clocks == old(cable.clocks) + (old(Flushed(Dr)) +
                Scans.ScanClocks(Dr, old(state), Bits.Repeat(false, drBitsBefore), AllBits(chunks),
                                 Bits.Repeat(false, drBitsAfter), endState))
      ensures tdo == Tdos(cable.board,
                          Drive(cable.board, old(cable.Now()),
                                old(Flushed(Dr)) + Scans.EnterClocks(Dr, old(state), Bits.Repeat(false, drBitsBefore))),
                          Scans.PayloadClocks(Dr, AllBits(chunks), Bits.Repeat(false, drBitsAfter), endState))
      ensures old(ReadyForDr(|AllBits(chunks)|)) ==>
              var regs := Captured(cable.board, Scans.Instructions(cable.board, old(cable.Now())));
              && Scans.Data(cable.board, cable.Now())
                 == Scans.Filled(Lengths(regs), deviceIndex, AllBits(chunks), false)
              && tdo == regs[deviceIndex]
    {
      hide Bits.ClearFrom, Bits.Take, Tap.Run, Drive, Tdos, Scans.ScanClocks, Scans.EnterClocks, Scans.PayloadClocks;
      hide ReadyForDr, Exchanges, Scans.Data, PaddingFits, Captured, Scans.Instructions, AllBits, Bits.Repeat, Synced;
      ghost var n := |AllBits(chunks)|;
      ghost var ready := ReadyForDr(n);
      if ready { ReadyDrMeans(n); }
      ghost var was, from, flushed := cable.clocks, state, Flushed(Dr);
      ghost var before, after := Bits.Repeat(false, drBitsBefore), Bits.Repeat(false, drBitsAfter);
      tdo := ShiftDr(chunks[0].bytes, chunks[0].len, ChunkEnd(chunks, 1, endState));
      FirstChunk(chunks);
      for k := 1 to |chunks|
        invariant Valid() && PaddingFits() && Pending() == [] && state == ChunkEnd(chunks, k, endState)
        invariant old(Synced()) ==> Synced()
        invariant cable.clocks
               == was + (flushed + Scans.ScanClocks(Dr, from, before, AllBits(chunks[..k]), after, state))
        invariant tdo == Tdos(cable.board, Drive(cable.board, Drive(cable.board, cable.start, was),
                                                 flushed + Scans.EnterClocks(Dr, from, before)),
                              Scans.PayloadClocks(Dr, AllBits(chunks[..k]), after, state))
      {
        ghost var x, y := AllBits(chunks[..k]), Bits.Take(chunks[k].bytes, chunks[k].len);
        NextChunk(chunks, k);
        AddChunk(cable.board, cable.start, was, flushed, from, before, after, x, y,
                 ChunkEnd(chunks, k + 1, endState), currTdi);
        var more := ShiftDr(chunks[k].bytes, chunks[k].len, ChunkEnd(chunks, k + 1, endState));
        tdo := tdo + more;
      }
      assert chunks[..|chunks|] == chunks;
      if ready {
        DrScanOnWire(cable.board, cable.start, was, deviceIndex, AllBits(chunks), endState, true);
      }
    }

    /** The clocks of one scan, from its three parts. */
    method ClockIr(tdi: seq<bv8>, irLen: nat, endState: State) returns (tdo: seq<bool>)
      requires Valid() && PaddingFits() && irLen <= 8 * |tdi|
      requires irLen > 0 || irBitsAfter > 0 || endState == Scan(Ir, Shift)
      modifies this`numTms, this`state, this`currTdi, tmsBuffer, cable
      ensures Valid() && PaddingFits() && Pending() == [] && state == endState
      ensures var before, after := Bits.Repeat(true, irBitsBefore), Bits.Repeat(true, irBitsAfter);
              var bits := Bits.Take(tdi, irLen);
              var flushed := old(Flushed(Ir));
              var enter := Scans.EnterClocks(Ir, old(state), before);
              && cable.clocks
                 == old(cable.clocks) + (flushed + Scans.ScanClocks(Ir, old(state), before, bits, after, endState))
              && tdo == Tdos(cable.board, Drive(cable.board, old(cable.Now()), flushed + enter),
                             Scans.PayloadClocks(Ir, bits, after, endState))
      ensures old(Synced()) ==> Synced()
    {
      hide Bits.Take, DataClocks, Path, Drive, Tdos, AtLevel;
      hide Scans.EnterClocks, Scans.LeaveClocks, Valid, Synced, Pending;
      hide Bits.Repeat, Flushed;
      ghost var was, flushed := cable.clocks, Flushed(Ir);
      ghost var before, after := Bits.Repeat(true, irBitsBefore), Bits.Repeat(true, irBitsAfter);
      ghost var enter, leave := Scans.EnterClocks(Ir, state, before), Scans.LeaveClocks(Ir, after, endState);
      ghost var payload := Scans.PayloadClocks(Ir, Bits.Take(tdi, irLen), after, endState);
      tdo := EnterAndShift(Ir, irBits, irBitsBefore, true, tdi, irLen,
                           irBitsAfter == 0 && endState != Scan(Ir, Shift));
      Regroup(was, flushed, enter, payload, leave);
      LeaveNothing(Ir, after);
      if endState != Scan(Ir, Shift) {
        Leave(Ir, irBits, irBitsAfter, true, endState);
      }
    }

    /** Scan the instruction registers; every other device is sent BYPASS. */
    method ShiftIr(tdi: seq<bv8>, irLen: nat, endState: State) returns (tdo: seq<bool>)
      requires Valid() && PaddingFits() && irLen <= 8 * |tdi|
      requires irLen > 0 || irBitsAfter > 0 || endState == Scan(Ir, Shift)
      modifies this`numTms, this`state, this`currTdi, tmsBuffer, cable
      ensures Valid() && PaddingFits() && Pending() == [] && state == endState
      ensures old(Synced()) ==> Synced()
      ensures cable.clocks == old(cable.clocks) + (old(Flushed(Ir)) +
                Scans.ScanClocks(Ir, old(state), Bits.Repeat(true, irBitsBefore), Bits.Take(tdi, irLen),
                                 Bits.Repeat(true, irBitsAfter), endState))
      ensures tdo == Tdos(cable.board,
                          Drive(cable.board, old(cable.Now()),
                                old(Flushed(Ir)) + Scans.EnterClocks(Ir, old(state), Bits.Repeat(true, irBitsBefore))),
                          Scans.PayloadClocks(Ir, Bits.Take(tdi, irLen), Bits.Repeat(true, irBitsAfter), endState))
      // The selected device receives the payload, all others BYPASS.
      ensures old(ReadyForIr(irLen)) && endState != Scan(Ir, Shift) && endState != TestLogicReset ==>
              && Scans.Instructions(cable.board, cable.Now())
                 == Scans.Filled(irLengths, deviceIndex, Bits.Take(tdi, irLen), true)
              && tdo == cable.board.irCapture[deviceIndex]
    {
      hide Bits.Take, Drive, Tdos, AtLevel, Valid, Synced, Pending, Scans.ScanClocks, Scans.EnterClocks,
           Scans.PayloadClocks, ReadyForIr, Scans.Instructions, Scans.Parked, PaddingFits, Total, Lengths;
      ghost var ready := ReadyForIr(irLen);
      if ready { ReadyIrMeans(irLen); }
      ghost var was := cable.clocks;
      tdo := ClockIr(tdi, irLen, endState);
      if ready && endState != Scan(Ir, Shift) && endState != TestLogicReset {
        IrScanOnWire(cable.board, cable.start, was, deviceIndex, Bits.Take(tdi, irLen), endState, true);
      }
    }

    /** An instruction scan that ends anywhere outside reset and the shift states,
        PAUSE_IR included, and a data scan after it: the bits that come back are what
        the selected device captures under the instruction, and it then holds the
        bits sent. */
    method InstructThenExchange(opcode: seq<bv8>, irLen: nat, mid: State, tdi: seq<bv8>, drLen: nat, endState: State)
      returns (tdo: seq<bool>)
      requires Valid() && PaddingFits() && 0 < irLen <= 8 * |opcode| && 0 < drLen <= 8 * |tdi|
      requires ReadyForIr(irLen) && BetweenScans(mid) && endState != Scan(Dr, Shift)
      requires drLen == |Selected(cable.board, deviceIndex, Bits.Take(opcode, irLen))|
      modifies this`numTms, this`state, this`currTdi, tmsBuffer, cable
      ensures Valid() && PaddingFits() && Pending() == [] && state == endState && Synced()
      ensures tdo == Selected(cable.board, deviceIndex, Bits.Take(opcode, irLen))
      ensures var data := Scans.Data(cable.board, cable.Now());
              |data| == |irLengths| && deviceIndex < |data| && data[deviceIndex] == Bits.Take(tdi, drLen)
    {
      hide Bits.Take, Drive, Tdos, Scans.ScanClocks, Scans.EnterClocks, Scans.PayloadClocks, Scans.Data, PaddingFits;
      hide Scans.Instructions, Captured, Exchanges, Scans.Filled, Valid, Pending, Synced, Describes;
      hide Selected, Bits.Repeat, Total, Lengths;
      ReadyIrSynced(irLen);
      ghost var bits := Bits.Take(opcode, irLen);
      var _ := ShiftIr(opcode, irLen, mid);
      ReadyAgain(mid, bits, drLen);
      tdo := ShiftDr(tdi, drLen, endState);
      Exchanged(cable.board, irLengths, deviceIndex, bits, Bits.Take(tdi, drLen));
    }

    lemma ReadyIrSynced(len: nat)
      requires Valid() && ReadyForIr(len)
      ensures Synced() && Describes() && deviceIndex < |irLengths| && len == irLengths[deviceIndex]
    {
    }

    /** After the instruction scan the data scan can start. */
    lemma ReadyAgain(mid: State, bits: seq<bool>, len: nat)
      requires Valid() && Pending() == [] && Synced() && state == mid && BetweenScans(mid) && Describes()
      requires |bits| == irLengths[deviceIndex]
      requires Scans.Instructions(cable.board, cable.Now()) == Scans.Filled(irLengths, deviceIndex, bits, true)
      requires len == |Selected(cable.board, deviceIndex, bits)| > 0
      ensures ReadyForDr(len)
    {
      hide Total, Lengths, Drive, Scans.Instructions;
      SyncedTap(cable.Now().tap, state);
      FilledSelects(cable.board, irLengths, deviceIndex, bits);
    }
  }

  // ---------------------------------------------------------------------
  // What keeps the shadow state right
  // ---------------------------------------------------------------------

  /** One more level sent: the bookkeeping of `SetState`. */
  ghost function Extend(was: seq<Clock>, sent: seq<bool>, tms: bool, tdi: bool, rest: seq<bool>): (r: seq<bool>)
    ensures r + rest == sent + ([tms] + rest)
    ensures was + AtLevel(r, tdi) == was + AtLevel(sent, tdi) + [Clock(tms, tdi)]
  {
    assert AtLevel(sent + [tms], tdi) == AtLevel(sent, tdi) + [Clock(tms, tdi)];
    sent + [tms]
  }

  lemma SyncAfterMove(b: Board, start: Snapshot, was: seq<Clock>, pending: seq<bool>, s: State, t: State, tdi: bool)
    ensures Tap.Run(Drive(b, start, was).tap, pending) == s ==>
              Drive(b, start, was + AtLevel(pending + Path(s, t), tdi)).tap == t
    ensures forall u :: Tap.Run(u, []) == u
  {
    MoveKeepsSync(b, Drive(b, start, was), pending, s, t, tdi);
    DriveAppend(b, start, was, AtLevel(pending + Path(s, t), tdi));
  }

  lemma SyncAfterFlush(b: Board, start: Snapshot, was: seq<Clock>, pending: seq<bool>, tdi: bool)
    ensures Drive(b, start, was + AtLevel(pending, tdi)).tap == Tap.Run(Drive(b, start, was).tap, pending)
    ensures forall u :: Tap.Run(u, []) == u
  {
    DriveAppend(b, start, was, AtLevel(pending, tdi));
    FlushKeepsSync(b, Drive(b, start, was), pending, tdi);
  }

  lemma SyncAfterShift(b: Board, start: Snapshot, was: seq<Clock>, pending: seq<bool>, s: State,
                       bits: seq<bool>, last: bool, tdi: bool)
    requires s.Scan? && s.row == Shift && (last ==> bits != [])
    ensures Drive(b, start, was + AtLevel(pending, tdi)) == Drive(b, Drive(b, start, was), AtLevel(pending, tdi))
    ensures Tap.Run(Drive(b, start, was).tap, pending) == s ==>
              Drive(b, start, was + AtLevel(pending, tdi) + DataClocks(bits, last)).tap
              == if last then Scan(s.reg, Exit1) else s
    ensures forall u :: Tap.Run(u, []) == u
  {
    var c := Drive(b, start, was);
    DriveAppend(b, start, was, AtLevel(pending, tdi));
    DriveAppend(b, start, was + AtLevel(pending, tdi), DataClocks(bits, last));
    FlushKeepsSync(b, c, pending, tdi);
    if Tap.Run(c.tap, pending) == s {
      ShiftData(b, Drive(b, c, AtLevel(pending, tdi)), bits, last);
    }
  }

  lemma SyncAfterToggle(b: Board, start: Snapshot, was: seq<Clock>, pending: seq<bool>, s: State, n: nat,
                        level: bool, tdi: bool)
    ensures Tap.Run(Drive(b, start, was).tap, pending) == s ==>
              (Drive(b, start, was + AtLevel(pending, level) + AtLevel(Bits.Repeat(HoldLevel(s), n), tdi)).tap == s
               <==> n == 0 || Stable(s))
    ensures forall u :: Tap.Run(u, []) == u
  {
    hide Tap.Run, Stable;
    var hold := AtLevel(Bits.Repeat(HoldLevel(s), n), tdi);
    DriveAppend(b, start, was, AtLevel(pending, level));
    DriveAppend(b, start, was + AtLevel(pending, level), hold);
    FlushKeepsSync(b, Drive(b, start, was), pending, level);
    FlushKeepsSync(b, Drive(b, start, was + AtLevel(pending, level)), Bits.Repeat(HoldLevel(s), n), tdi);
    assert Bits.Repeat(HoldLevel(s), n) == seq(n, i => HoldLevel(s));
    HoldIff(s, n);
    forall u ensures Tap.Run(u, []) == u { RunNothing(u); }
  }

  lemma RunNothing(u: State)
    ensures Tap.Run(u, []) == u
  {
  }

  lemma {:induction false} TotalSnoc(lens: seq<nat>, i: nat)
    requires i < |lens|
    ensures Total(lens[..i + 1]) == Total(lens[..i]) + lens[i]
    decreases i
  {
    if i == 0 {
    } else {
      TotalSnoc(lens[1..], i - 1);
      assert lens[..i + 1][1..] == lens[1..][..i] && lens[..i][1..] == lens[1..][..i - 1];
    }
  }

  /** A survey's result in front of the devices already listed. */
  function Onto(r: Detection, devices: seq<Code>): Detection {
    if r.Found? then Found(r.devices + devices) else r
  }

  lemma SurveyStep(left: seq<bool>, table: map<Code, nat>, limit: nat, devices: seq<Code>)
    requires limit > 0
    ensures var word := NextWord(left);
            Onto(Survey(left, table, limit), devices) ==
            if word == Bits.Repeat(false, 32) then StuckAtZero
            else if word == Bits.Repeat(true, 32) then Found(devices)
            else if !Known(table, word) then UnknownDevice
            else Onto(Survey(Later(left), table, limit - 1), [Entry(table, word)] + devices)
  {
    hide NextWord, Later;
    assert [] + devices == devices;
    var word := NextWord(left);
    if Known(table, word) {
      var rest := Survey(Later(left), table, limit - 1);
      if rest.Found? {
        var e := Entry(table, word);
        assert rest.devices + [e] + devices == rest.devices + ([e] + devices);
      }
    }
  }

  lemma OntoNothing(r: Detection)
    ensures Onto(r, []) == r
  {
    if r.Found? {
      assert r.devices + [] == r.devices;
    }
  }

  lemma SurveyEnds(left: seq<bool>, table: map<Code, nat>, devices: seq<Code>)
    ensures Onto(Survey(left, table, 0), devices) == Found(devices)
  {
    assert [] + devices == devices;
  }

  lemma ResetReads(b: Board, start: Snapshot, was: seq<Clock>, pending: seq<bool>, tdi: bool)
    ensures var reset := was + AtLevel(pending + Bits.Repeat(true, 6), tdi);
            Feeds(Drive(b, start, reset + AtLevel([] + Path(TestLogicReset, Scan(Dr, Shift)), true)).path,
                  Join(Captured(b, b.irReset)))
  {
    hide Path, Captured;
    var six := AtLevel(pending + Bits.Repeat(true, 6), tdi);
    var reset := was + six;
    var c := Drive(b, start, reset);
    DriveAppend(b, start, was, six);
    ResetFromAnywhere(b, Drive(b, start, was), pending, tdi);
    ResetSelects(b, start, reset);
    Scans.EnterDr(b, c, b.irReset);
    var path := Path(TestLogicReset, Scan(Dr, Shift));
    assert [] + path == path;
    DriveAppend(b, start, reset, AtLevel(path, true));
    assert Join(Captured(b, b.irReset)) + Bits.Repeat(true, 0) == Join(Captured(b, b.irReset));
  }

  /** Whoever is in Test-Logic-Reset has the reset instruction. */
  lemma ResetSelects(b: Board, start: Snapshot, ks: seq<Clock>)
    requires ks != [] && Drive(b, start, ks).tap == TestLogicReset
    ensures Drive(b, start, ks).ir == b.irReset
  {
    var n := |ks| - 1;
    assert ks == ks[..n] + [ks[n]];
    DriveAppend(b, start, ks[..n], [ks[n]]);
    var c := Drive(b, start, ks[..n]);
    assert Drive(b, c, [ks[n]]) == Tick(b, c, ks[n]);
  }

  lemma NothingJoined()
    ensures Join([]) == []
  {
  }

  lemma WordReads(b: Board, start: Snapshot, was: seq<Clock>, left: seq<bool>, tdi: bool)
    requires var c := Drive(b, start, was); c.tap == Scan(Dr, Shift) && Feeds(c.path, left)
    ensures var c, flushed, ks := Drive(b, start, was), AtLevel([], tdi), DataClocks(Bits.Take(ALL_ONES, 32), false);
            && Tdos(b, Drive(b, c, flushed), ks) == NextWord(left)
            && Feeds(Drive(b, start, was + flushed + ks).path, Later(left))
  {
    hide DataClocks, Tdos, Bits.Take, Feeds, Bits.Repeat, Drive, AtLevel, NextWord, Later;
    var c, ones := Drive(b, start, was), Bits.Repeat(true, 32);
    Bits.ConstantBytes(ALL_ONES, 32, true);
    AtLevelAppend([], [], tdi);
    assert was + [] == was;
    Scans.DriveNothing(b, c);
    DriveAppend(b, start, was, DataClocks(ones, false));
    ShiftData(b, c, ones, false);
    FeedsNext(c.path, left);
  }

  /** 32 ones pushed in push the next word out. */
  lemma FeedsNext(path: seq<bool>, left: seq<bool>)
    requires Feeds(path, left)
    ensures var all := path + Bits.Repeat(true, 32);
            all[..32] == NextWord(left) && Feeds(all[32..], Later(left))
  {
    var all := path + Bits.Repeat(true, 32);
    assert all == left + Bits.Repeat(true, |all| - |left|);
    assert all[..32] == NextWord(left);
    assert all[32..] == Later(left) + Bits.Repeat(true, |all| - 32 - |Later(left)|);
  }

  /** The path holds the bits not yet read, then only ones. */
  ghost predicate Feeds(path: seq<bool>, left: seq<bool>) {
    |path| >= |left| && path == left + Bits.Repeat(true, |path| - |left|)
  }

  lemma SyncedTap(u: State, s: State)
    requires Tap.Run(u, []) == s
    ensures u == s
  {
  }

  /** The chain is ready for a data scan of device `i` alone: it starts through
      Capture-DR, the other devices are in BYPASS, the length fits. */
  ghost predicate Exchanges(b: Board, c: Snapshot, i: nat, len: nat) {
    var instr := Scans.Instructions(b, c);
    && i < |instr| && len == |Captured(b, instr)[i]| > 0
    && (forall k :: 0 <= k < |instr| && k != i ==> Bypassed(instr[k]))
    && c.tap != Scan(Dr, Shift) && !Scans.Parked(c.tap, Dr) && Scans.KeepsInstructions(c.tap)
  }

  /** Where an instruction scan may end so that a data scan can follow. */
  predicate BetweenScans(t: State) {
    && t != Scan(Ir, Shift) && t != TestLogicReset && t != Scan(Dr, Shift)
    && !Scans.Parked(t, Dr) && Scans.KeepsInstructions(t)
  }

  /** What device `i` captures under an instruction. */
  function Selected(b: Board, i: nat, opcode: seq<bool>): seq<bool> {
    if Bypassed(opcode) then [false] else b.data(i, opcode)
  }

  lemma FilledSelects(b: Board, lens: seq<nat>, i: nat, bits: seq<bool>)
    requires i < |lens| && |bits| == lens[i]
    ensures var instr := Scans.Filled(lens, i, bits, true);
            && |instr| == |lens| && Captured(b, instr)[i] == Selected(b, i, bits)
            && forall k :: 0 <= k < |instr| && k != i ==> Bypassed(instr[k])
  {
  }

  lemma Exchanged(b: Board, lens: seq<nat>, i: nat, opcode: seq<bool>, bits: seq<bool>)
    requires i < |lens| && |opcode| == lens[i]
    ensures var regs := Captured(b, Scans.Filled(lens, i, opcode, true));
            var data := Scans.Filled(Lengths(regs), i, bits, false);
            |regs| == |lens| == |data| && data[i] == bits && regs[i] == Selected(b, i, opcode)
  {
    FilledSelects(b, lens, i, opcode);
  }

  lemma IrScanOnWire(b: Board, start: Snapshot, was: seq<Clock>, i: nat, bits: seq<bool>, t: State, tdi: bool)
    requires var c := Drive(b, start, was);
             && i < |b.irCapture| && |bits| == |b.irCapture[i]| > 0
             && c.tap != Scan(Ir, Shift) && !Scans.Parked(c.tap, Ir)
             && t != Scan(Ir, Shift) && t != TestLogicReset
    ensures var c, lens := Drive(b, start, was), Lengths(b.irCapture);
            var before, after := Bits.Repeat(true, Total(lens[i + 1..])), Bits.Repeat(true, Total(lens[..i]));
            var flushed := AtLevel([], tdi);
            var scan := flushed + Scans.ScanClocks(Ir, c.tap, before, bits, after, t);
            && Scans.Instructions(b, Drive(b, start, was + scan))
               == Scans.Filled(lens, i, bits, true)
            && Tdos(b, Drive(b, c, flushed + Scans.EnterClocks(Ir, c.tap, before)),
                    Scans.PayloadClocks(Ir, bits, after, t))
               == b.irCapture[i]
  {
    hide Scans.ScanClocks, Scans.EnterClocks, Scans.PayloadClocks, Drive, Tdos, Total;
    var c, lens := Drive(b, start, was), Lengths(b.irCapture);
    var before, after := Bits.Repeat(true, Total(lens[i + 1..])), Bits.Repeat(true, Total(lens[..i]));
    var scan, enter := Scans.ScanClocks(Ir, c.tap, before, bits, after, t), Scans.EnterClocks(Ir, c.tap, before);
    Scans.IrScan(b, c, i, bits, t);
    assert AtLevel([], tdi) == [] && [] + scan == scan && [] + enter == enter;
    DriveAppend(b, start, was, scan);
  }

  lemma DrScanOnWire(b: Board, start: Snapshot, was: seq<Clock>, i: nat, bits: seq<bool>, t: State, tdi: bool)
    requires Exchanges(b, Drive(b, start, was), i, |bits|) && t != Scan(Dr, Shift)
    ensures var c := Drive(b, start, was);
            var regs := Captured(b, Scans.Instructions(b, c));
            var before, after := Bits.Repeat(false, |regs| - 1 - i), Bits.Repeat(false, i);
            var flushed := AtLevel([], tdi);
            && Scans.Data(b, Drive(b, start, was + (flushed + Scans.ScanClocks(Dr, c.tap, before, bits, after, t))))
               == Scans.Filled(Lengths(regs), i, bits, false)
            && Tdos(b, Drive(b, c, flushed + Scans.EnterClocks(Dr, c.tap, before)),
                    Scans.PayloadClocks(Dr, bits, after, t))
               == regs[i]
  {
    hide Scans.ScanClocks, Scans.EnterClocks, Scans.PayloadClocks, Drive, Tdos;
    var c := Drive(b, start, was);
    var regs := Captured(b, Scans.Instructions(b, c));
    var before, after := Bits.Repeat(false, |regs| - 1 - i), Bits.Repeat(false, i);
    var scan, enter := Scans.ScanClocks(Dr, c.tap, before, bits, after, t), Scans.EnterClocks(Dr, c.tap, before);
    Scans.DrScan(b, c, i, bits, t);
    assert AtLevel([], tdi) == [] && [] + scan == scan && [] + enter == enter;
    DriveAppend(b, start, was, scan);
  }

  lemma Padding(s: seq<bv8>, n: nat, fill: bool)
    requires n <= 8 * |s|
    requires forall k :: 0 <= k < |s| ==> s[k] == if fill then 0xFF else 0
    ensures Bits.Take(s, n) == Bits.Repeat(fill, n)
    ensures n == 0 ==> DataClocks(Bits.Repeat(fill, n), false) == []
  {
    Bits.ConstantBytes(s, n, fill);
  }

  lemma LeaveNothing(r: Register, after: seq<bool>)
    ensures Scans.LeaveClocks(r, after, Scan(r, Shift)) == []
  {
  }

  lemma NoLevels(tdi: bool)
    ensures AtLevel([], tdi) == []
  {
  }

  lemma EnterNothing(r: Register, before: seq<bool>)
    ensures Scans.EnterClocks(r, Scan(r, Shift), before) == []
  {
  }

  lemma EnterAlgebra(was: seq<Clock>, before: seq<bool>, path: seq<bool>, padding: seq<Clock>)
    ensures was + AtLevel(before + path, true) + padding
         == was + (AtLevel(before, true) + (AtLevel(path, true) + padding))
  {
    AtLevelAppend(before, path, true);
  }

  lemma LeaveAlgebra(was: seq<Clock>, padding: seq<Clock>, path: seq<bool>)
    ensures was + padding + AtLevel([] + path, true) == was + (padding + AtLevel(path, true))
  {
    assert [] + path == path;
  }

  lemma Regroup(was: seq<Clock>, flushed: seq<Clock>, enter: seq<Clock>, payload: seq<Clock>, leave: seq<Clock>)
    ensures was + (flushed + enter) + payload + leave == was + (flushed + (enter + payload + leave))
    ensures was + (flushed + enter) + payload + [] == was + (flushed + enter) + payload
  {
  }

  /** Regrouping the clocks of a scan around its payload. */
  lemma ScanAlgebra(b: Board, start: Snapshot, was: seq<Clock>, flushed: seq<Clock>, enter: seq<Clock>,
                    now: seq<Clock>, pend: seq<Clock>)
    requires (now == was && pend == flushed && enter == []) || (now == was + (flushed + enter) && pend == [])
    ensures Drive(b, Drive(b, start, now), pend) == Drive(b, Drive(b, start, was), flushed + enter)
    ensures now + pend == was + (flushed + enter)
  {
    DriveAppend(b, start, was, flushed + enter);
    if now == was {
      assert flushed + enter == flushed;
    }
  }

  lemma AtLevelAppend(x: seq<bool>, y: seq<bool>, tdi: bool)
    ensures AtLevel(x + y, tdi) == AtLevel(x, tdi) + AtLevel(y, tdi)
    ensures AtLevel([], tdi) == []
  {
  }

  lemma PathEmpty(t: State)
    ensures Path(t, t) == []
  {
  }

  lemma FlushKeepsSync(b: Board, c: Snapshot, pending: seq<bool>, tdi: bool)
    ensures Drive(b, c, AtLevel(pending, tdi)).tap == Tap.Run(c.tap, pending)
  {
    TapOfDrive(b, c, AtLevel(pending, tdi));
    assert TmsOf(AtLevel(pending, tdi)) == pending;
  }

  lemma MoveKeepsSync(b: Board, c: Snapshot, pending: seq<bool>, s: State, t: State, tdi: bool)
    ensures Tap.Run(c.tap, pending) == s ==> Drive(b, c, AtLevel(pending + Path(s, t), tdi)).tap == t
  {
    hide Path, Distance;
    FlushKeepsSync(b, c, pending + Path(s, t), tdi);
    RunAppend(c.tap, pending, Path(s, t));
    PathIsShortest(s, t);
  }

  lemma ResetFromAnywhere(b: Board, c: Snapshot, pending: seq<bool>, tdi: bool)
    ensures Drive(b, c, AtLevel(pending + Bits.Repeat(true, 6), tdi)).tap == TestLogicReset
  {
    FlushKeepsSync(b, c, pending + Bits.Repeat(true, 6), tdi);
    RunAppend(c.tap, pending, Bits.Repeat(true, 6));
    assert Bits.Repeat(true, 6) == seq(6, i => true);
    FiveOnesReset(Tap.Run(c.tap, pending), 6);
  }
}
