/**
 What a padded scan does to a chain of devices.

 `Jtag` surrounds the selected device's bits with padding for the devices
 between it and TDO (`before`) and between it and TDI (`after`). These are the
 clocks it sends, and the theorems that say what every device then holds.
 */
module Scans {
  import opened Tap
  import opened Chain
  import Bits

  // ---------------------------------------------------------------------
  // The clocks of one scan
  // ---------------------------------------------------------------------

  /** Move to the shift state and send the padding of the devices nearer TDO;
      nothing when the scan goes on from an earlier chunk. */
  function EnterClocks(r: Register, s: State, before: seq<bool>): seq<Clock> {
    if s == Scan(r, Shift) then []
    else AtLevel(Path(s, Scan(r, Shift)), true) + DataClocks(before, false)
  }

  function PayloadClocks(r: Register, bits: seq<bool>, after: seq<bool>, t: State): seq<Clock> {
    DataClocks(bits, after == [] && t != Scan(r, Shift))
  }

  /** Send the padding of the devices nearer TDI and move to `t`; nothing when
      the scan is to go on in a later chunk. */
  function LeaveClocks(r: Register, after: seq<bool>, t: State): seq<Clock> {
    if t == Scan(r, Shift) then []
    else DataClocks(after, after != []) + AtLevel(Path(Scan(r, Exit1), t), true)
  }

  function ScanClocks(r: Register, s: State, before: seq<bool>, bits: seq<bool>, after: seq<bool>, t: State)
    : seq<Clock>
  {
    EnterClocks(r, s, before) + PayloadClocks(r, bits, after, t) + LeaveClocks(r, after, t)
  }

  /** Chunking: a scan cut in two with the shift state in between is one scan, clock
      for clock, and the bits that come back are those of the one scan. */
  lemma ChunksAreOneScan(b: Board, c: Snapshot, r: Register, s: State, before: seq<bool>,
                         x: seq<bool>, y: seq<bool>, after: seq<bool>, t: State)
    requires y != [] || after != [] || t == Scan(r, Shift)
    ensures ScanClocks(r, s, before, x + y, after, t)
         == ScanClocks(r, s, before, x, after, Scan(r, Shift)) + ScanClocks(r, Scan(r, Shift), before, y, after, t)
    ensures Tdos(b, c, PayloadClocks(r, x + y, after, t))
         == Tdos(b, c, PayloadClocks(r, x, after, Scan(r, Shift)))
            + Tdos(b, Drive(b, c, PayloadClocks(r, x, after, Scan(r, Shift))), PayloadClocks(r, y, after, t))
  {
    hide Drive, Tdos, EnterClocks, PayloadClocks, LeaveClocks;
    var enter, leave := EnterClocks(r, s, before), LeaveClocks(r, after, t);
    var p, q := PayloadClocks(r, x, after, Scan(r, Shift)), PayloadClocks(r, y, after, t);
    StayInShift(r, before, x, y, after, t);
    FourParts(enter, p, q, leave);
    DriveAppend(b, c, p, q);
  }

  lemma StayInShift(r: Register, before: seq<bool>, x: seq<bool>, y: seq<bool>, after: seq<bool>, t: State)
    requires y != [] || after != [] || t == Scan(r, Shift)
    ensures EnterClocks(r, Scan(r, Shift), before) == [] && LeaveClocks(r, after, Scan(r, Shift)) == []
    ensures PayloadClocks(r, x + y, after, t)
         == PayloadClocks(r, x, after, Scan(r, Shift)) + PayloadClocks(r, y, after, t)
  {
    hide AtLevel, Path, DataClocks;
    DataChunks(x, y, after == [] && t != Scan(r, Shift));
  }

  lemma FourParts(enter: seq<Clock>, p: seq<Clock>, q: seq<Clock>, leave: seq<Clock>)
    ensures enter + (p + q) + leave == (enter + p + []) + ([] + q + leave)
  {
  }

  lemma DataChunks(x: seq<bool>, y: seq<bool>, last: bool)
    requires y != [] || !last
    ensures DataClocks(x + y, last) == DataClocks(x, false) + DataClocks(y, last)
  {
  }

  // ---------------------------------------------------------------------
  // Moving through the controller
  // ---------------------------------------------------------------------

  /** In the exit and pause states the shifted bits are about to be latched. */
  predicate Parked(s: State, r: Register) {
    s.Scan? && s.reg == r && (s.row == Exit1 || s.row == Pause || s.row == Exit2)
  }

  /** The instructions the devices follow once the controller leaves the
      instruction column. */
  function Instructions(b: Board, c: Snapshot): seq<seq<bool>> {
    if Parked(c.tap, Ir) then Latch(c.path, Lengths(b.irCapture), c.ir) else c.ir
  }

  /** The data the devices hold once the controller leaves the data column. */
  function Data(b: Board, c: Snapshot): seq<seq<bool>> {
    if Parked(c.tap, Dr) then Latch(c.path, Lengths(Captured(b, c.ir)), c.dr) else c.dr
  }

  lemma LevelCons(x: bool, p: seq<bool>)
    ensures AtLevel([x] + p, true) == [Clock(x, true)] + AtLevel(p, true)
  {
  }

  lemma PathStep(s: State, t: State)
    requires s != t
    ensures var u := Hop(s, t).1;
            && u == Step(s, Hop(s, t).0)
            && Distance(u, t) < Distance(s, t)
            && AtLevel(Path(s, t), true) == [Clock(Hop(s, t).0, true)] + AtLevel(Path(u, t), true)
  {
    hide Hop, Distance, Step, Path;
    PathUnfold(s, t);
    LevelCons(Hop(s, t).0, Path(Hop(s, t).1, t));
  }

  /** First half of a move: one tick, and the rest of the path. */
  function Onward(b: Board, c: Snapshot, t: State): Snapshot
    requires c.tap != t
  {
    Tick(b, c, Clock(Hop(c.tap, t).0, true))
  }

  lemma MoveStep(b: Board, c: Snapshot, t: State)
    requires c.tap != t
    ensures var d := Onward(b, c, t);
            && d.tap == Hop(c.tap, t).1
            && Distance(d.tap, t) < Distance(c.tap, t)
            && Drive(b, c, AtLevel(Path(c.tap, t), true)) == Drive(b, d, AtLevel(Path(d.tap, t), true))
  {
    hide Hop, Distance, Path;
    PathStep(c.tap, t);
    var ks := AtLevel(Path(c.tap, t), true);
    var d := Onward(b, c, t);
    assert ks[0] == Clock(Hop(c.tap, t).0, true) && ks[1..] == AtLevel(Path(d.tap, t), true);
  }

  /** Entering the instruction column from outside loads the capture patterns. */
  lemma {:induction false} EnterIr(b: Board, c: Snapshot)
    requires !Parked(c.tap, Ir)
    requires c.tap == Scan(Ir, Shift) ==> c.path == Join(b.irCapture)
    ensures var d := Drive(b, c, AtLevel(Path(c.tap, Scan(Ir, Shift)), true));
            d.tap == Scan(Ir, Shift) && d.path == Join(b.irCapture)
    decreases Distance(c.tap, Scan(Ir, Shift))
  {
    var t := Scan(Ir, Shift);
    if c.tap != t {
      MoveStep(b, c, t);
      hide Distance, Path;
      EnterIr(b, Onward(b, c, t));
    }
  }

  /** Where a move to Shift-DR neither resets nor rewrites the instructions. */
  predicate KeepsInstructions(s: State) {
    s != Select(Ir) && s != Scan(Ir, Capture) && s != Scan(Ir, Shift)
  }

  /** Entering the data column from outside captures under the instructions. */
  lemma {:induction false} EnterDr(b: Board, c: Snapshot, instr: seq<seq<bool>>)
    requires !Parked(c.tap, Dr) && KeepsInstructions(c.tap)
    requires Instructions(b, c) == instr
    requires c.tap == Scan(Dr, Shift) ==> c.path == Join(Captured(b, instr))
    ensures var d := Drive(b, c, AtLevel(Path(c.tap, Scan(Dr, Shift)), true));
            d.tap == Scan(Dr, Shift) && d.path == Join(Captured(b, instr)) && d.ir == instr
    decreases Distance(c.tap, Scan(Dr, Shift))
  {
    var t := Scan(Dr, Shift);
    if c.tap != t {
      hide Distance, Path, Drive, AtLevel, Onward, Instructions, Captured, Join, KeepsInstructions, Parked;
      MoveStep(b, c, t);
      EnterDrStep(b, c, instr);
      EnterDr(b, Onward(b, c, t), instr);
    }
  }

  /** A step of that move keeps what it needs. */
  lemma EnterDrStep(b: Board, c: Snapshot, instr: seq<seq<bool>>)
    requires !Parked(c.tap, Dr) && KeepsInstructions(c.tap) && Instructions(b, c) == instr && c.tap != Scan(Dr, Shift)
    ensures var d := Onward(b, c, Scan(Dr, Shift));
            && !Parked(d.tap, Dr) && KeepsInstructions(d.tap) && Instructions(b, d) == instr
            && (d.tap == Scan(Dr, Shift) ==> d.path == Join(Captured(b, instr)))
  {
    hide Captured, Join;
  }

  /** States a move from Exit1 of column `r` to `t` goes through. */
  predicate OnTheWayOut(r: Register, s: State, t: State) {
    if s == Scan(r, Exit1) then t != Scan(r, Shift) && (r == Ir ==> t != TestLogicReset)
    else if s == Scan(r, Pause) then t == Scan(r, Pause) || t == Scan(r, Exit2)
    else if s == Scan(r, Exit2) then t == Scan(r, Exit2)
    else
      && t != Scan(r, Shift) && !Parked(t, r)
      && (s == Scan(r, Capture) || t == Scan(r, Update) ==> s == t)
      && s != Scan(r, Shift)
      && (r == Ir ==> t != TestLogicReset && !ResetsOnTheWay(s, t))
  }

  lemma WayOutStep(r: Register, s: State, t: State)
    requires OnTheWayOut(r, s, t) && s != t
    ensures var u := Hop(s, t).1;
            && OnTheWayOut(r, u, t)
            && (r == Ir ==> u != TestLogicReset)
            && (if Parked(s, r) then Parked(u, r) || u == Scan(r, Update)
                else !Parked(u, r) && u != Scan(r, Update))
  {
  }

  lemma ParkedTick(b: Board, c: Snapshot, k: Clock)
    requires var u := Step(c.tap, k.tms);
             && u != TestLogicReset
             && (if Parked(c.tap, Ir) then Parked(u, Ir) || u == Scan(Ir, Update)
                 else !Parked(u, Ir) && u != Scan(Ir, Update))
    ensures Instructions(b, Tick(b, c, k)) == Instructions(b, c)
  {
    hide Latch, Captured, Join, Lengths;
  }

  lemma ParkedDataTick(b: Board, c: Snapshot, k: Clock)
    requires var u := Step(c.tap, k.tms);
             if Parked(c.tap, Dr) then Parked(u, Dr) || u == Scan(Dr, Update)
             else !Parked(u, Dr) && u != Scan(Dr, Update)
    ensures Data(b, Tick(b, c, k)) == Data(b, c)
  {
    hide Latch, Captured, Join, Lengths;
  }

  /** Leaving the instruction column latches what was shifted, and nothing on
      the way to `t` disturbs it. */
  lemma {:induction false} LeaveIr(b: Board, c: Snapshot, t: State)
    requires OnTheWayOut(Ir, c.tap, t)
    ensures var d := Drive(b, c, AtLevel(Path(c.tap, t), true));
            d.tap == t && Instructions(b, d) == Instructions(b, c)
    decreases Distance(c.tap, t)
  {
    hide Hop, OnTheWayOut, Parked, Instructions, Distance;
    if c.tap != t {
      MoveStep(b, c, t);
      WayOutStep(Ir, c.tap, t);
      ParkedTick(b, c, Clock(Hop(c.tap, t).0, true));
      LeaveIr(b, Onward(b, c, t), t);
    }
  }

  /** The same for the data column. */
  lemma {:induction false} LeaveDr(b: Board, c: Snapshot, t: State)
    requires OnTheWayOut(Dr, c.tap, t)
    ensures var d := Drive(b, c, AtLevel(Path(c.tap, t), true));
            d.tap == t && Data(b, d) == Data(b, c)
    decreases Distance(c.tap, t)
  {
    hide Hop, OnTheWayOut, Parked, Data, Distance;
    if c.tap != t {
      MoveStep(b, c, t);
      WayOutStep(Dr, c.tap, t);
      ParkedDataTick(b, c, Clock(Hop(c.tap, t).0, true));
      LeaveDr(b, Onward(b, c, t), t);
    }
  }

  // ---------------------------------------------------------------------
  // Padding
  // ---------------------------------------------------------------------

  /** All registers at `fill` except the selected one. */
  function Filled(lens: seq<nat>, i: nat, bits: seq<bool>, fill: bool): (regs: seq<seq<bool>>)
    ensures |regs| == |lens|
    ensures forall k :: 0 <= k < |lens| ==> regs[k] == if k == i then bits else Bits.Repeat(fill, lens[k])
  {
    seq(|lens|, k requires 0 <= k < |lens| => if k == i then bits else Bits.Repeat(fill, lens[k]))
  }

  /** The shift path around device `i`: nearer TDO first. */
  lemma {:induction false} JoinAround(regs: seq<seq<bool>>, i: nat)
    requires i < |regs|
    ensures Join(regs) == Join(regs[i + 1..]) + regs[i] + Join(regs[..i])
    decreases |regs|
  {
    if i > 0 {
      JoinAround(regs[1..], i - 1);
      assert regs[1..][i..] == regs[i + 1..];
      assert regs[..i][1..] == regs[1..][..i - 1];
    } else {
      assert regs[..0] == [];
    }
  }

  lemma {:induction false} JoinConstant(regs: seq<seq<bool>>, fill: bool)
    requires forall k :: 0 <= k < |regs| ==> regs[k] == Bits.Repeat(fill, |regs[k]|)
    ensures Join(regs) == Bits.Repeat(fill, Total(Lengths(regs)))
    decreases |regs|
  {
    if regs == [] {
    } else {
      assert Lengths(regs)[1..] == Lengths(regs[1..]);
      JoinConstant(regs[1..], fill);
    }
  }

  /** Padding, payload, padding is the path in which every other register is
      filled with the padding value. */
  lemma JoinFilled(lens: seq<nat>, i: nat, bits: seq<bool>, fill: bool)
    requires i < |lens| && |bits| == lens[i]
    ensures Lengths(Filled(lens, i, bits, fill)) == lens
    ensures Join(Filled(lens, i, bits, fill))
         == Bits.Repeat(fill, Total(lens[i + 1..])) + bits + Bits.Repeat(fill, Total(lens[..i]))
  {
    var regs := Filled(lens, i, bits, fill);
    JoinAround(regs, i);
    JoinConstant(regs[i + 1..], fill);
    JoinConstant(regs[..i], fill);
    assert Lengths(regs[i + 1..]) == lens[i + 1..];
    assert Lengths(regs[..i]) == lens[..i];
  }

  lemma {:induction false} TotalAround(lens: seq<nat>, i: nat)
    requires i < |lens|
    ensures Total(lens) == Total(lens[i + 1..]) + lens[i] + Total(lens[..i])
    decreases |lens|
  {
    if i > 0 {
      TotalAround(lens[1..], i - 1);
      assert lens[1..][i..] == lens[i + 1..];
      assert lens[..i][1..] == lens[1..][..i - 1];
    } else {
      assert lens[..0] == [];
    }
  }

  /** As many bits as the path's head push exactly that head out. */
  lemma ShiftOut(b: Board, c: Snapshot, head: seq<bool>, tail: seq<bool>, bits: seq<bool>, last: bool)
    requires c.tap.Scan? && c.tap.row == Shift && c.path == head + tail && |bits| == |head|
    requires last ==> bits != []
    ensures Tdos(b, c, DataClocks(bits, last)) == head
    ensures Drive(b, c, DataClocks(bits, last))
         == Snapshot(Scan(c.tap.reg, if last then Exit1 else Shift), c.ir, tail + bits, c.dr)
  {
    hide DataClocks, Drive, Tdos;
    ShiftData(b, c, bits, last);
    assert c.path + bits == head + (tail + bits);
  }

  /** The heart of the padded scan. From a freshly captured path, the payload
      clocks bring out exactly the selected register, and at the end the path
      holds padding, payload, padding. */
  lemma PaddedShift(b: Board, c: Snapshot, r: Register, regs: seq<seq<bool>>, i: nat,
                    before: seq<bool>, bits: seq<bool>, after: seq<bool>)
    requires c.tap == Scan(r, Shift) && c.path == Join(regs) && i < |regs|
    requires |before| == Total(Lengths(regs)[i + 1..]) && |after| == Total(Lengths(regs)[..i])
    requires |bits| == |regs[i]| > 0
    ensures var d := Drive(b, c, DataClocks(before, false));
            && Tdos(b, d, DataClocks(bits, after == [])) == regs[i]
            && Drive(b, Drive(b, d, DataClocks(bits, after == [])), DataClocks(after, after != []))
               == Snapshot(Scan(r, Exit1), c.ir, before + bits + after, c.dr)
  {
    hide Join, Drive, Tdos, Total;
    var lens := Lengths(regs);
    JoinAround(regs, i);
    assert Lengths(regs[i + 1..]) == lens[i + 1..] && Lengths(regs[..i]) == lens[..i];
    var hi, mid, lo := Join(regs[i + 1..]), regs[i], Join(regs[..i]);
    assert c.path == hi + (mid + lo);
    ShiftOut(b, c, hi, mid + lo, before, false);
    var d := Drive(b, c, DataClocks(before, false));
    assert d.path == mid + (lo + before);
    ShiftOut(b, d, mid, lo + before, bits, after == []);
    var e := Drive(b, d, DataClocks(bits, after == []));
    assert e.path == lo + (before + bits);
    if after == [] {
      assert DataClocks(after, false) == [] && lo == [];
      DriveNothing(b, e);
      assert e.path == before + bits + after;
    } else {
      ShiftOut(b, e, lo, before + bits, after, true);
    }
  }

  lemma DriveNothing(b: Board, c: Snapshot)
    ensures Drive(b, c, []) == c
  {
  }

  // ---------------------------------------------------------------------
  // The scan theorems
  // ---------------------------------------------------------------------

  lemma FiveParts(b: Board, c: Snapshot, p: seq<Clock>, q: seq<Clock>, u: seq<Clock>, v: seq<Clock>, w: seq<Clock>)
    ensures Drive(b, c, p + q + u + (v + w)) == Drive(b, Drive(b, Drive(b, Drive(b, Drive(b, c, p), q), u), v), w)
  {
    DriveAppend(b, c, p + q + u, v + w);
    DriveAppend(b, c, p + q, u);
    DriveAppend(b, c, p, q);
    DriveAppend(b, Drive(b, c, p + q + u), v, w);
  }

  /** Instruction scan. Whatever the chain, the selected device and the state
      the scan starts from (outside the instruction column's shift, exit and
      pause states), the selected device receives exactly the payload, every
      other device the all-ones BYPASS instruction, and the payload clocks
      return the selected register's capture pattern. */
  lemma IrScan(b: Board, c: Snapshot, i: nat, bits: seq<bool>, t: State)
    requires i < |b.irCapture| && |bits| == |b.irCapture[i]| > 0
    requires c.tap != Scan(Ir, Shift) && !Parked(c.tap, Ir)
    requires t != Scan(Ir, Shift) && t != TestLogicReset
    ensures var lens := Lengths(b.irCapture);
            var before, after := Bits.Repeat(true, Total(lens[i + 1..])), Bits.Repeat(true, Total(lens[..i]));
            var d := Drive(b, c, ScanClocks(Ir, c.tap, before, bits, after, t));
            && d.tap == t
            && Instructions(b, d) == Filled(lens, i, bits, true)
            && Tdos(b, Drive(b, c, EnterClocks(Ir, c.tap, before)), PayloadClocks(Ir, bits, after, t)) == b.irCapture[i]
  {
    hide DataClocks, Join, AtLevel, Path, Drive, Tdos, OnTheWayOut;
    var lens := Lengths(b.irCapture);
    var before, after := Bits.Repeat(true, Total(lens[i + 1..])), Bits.Repeat(true, Total(lens[..i]));
    var p := AtLevel(Path(c.tap, Scan(Ir, Shift)), true);
    var q := DataClocks(before, false);
    var u, v := DataClocks(bits, after == []), DataClocks(after, after != []);
    var w := AtLevel(Path(Scan(Ir, Exit1), t), true);
    FiveParts(b, c, p, q, u, v, w);
    DriveAppend(b, c, p, q);
    EnterIr(b, c);
    var d := Drive(b, c, p);
    PaddedShift(b, d, Ir, b.irCapture, i, before, bits, after);
    var e := Drive(b, Drive(b, Drive(b, d, q), u), v);
    JoinFilled(lens, i, bits, true);
    SplitJoin(Filled(lens, i, bits, true));
    TotalAround(lens, i);
    assert Instructions(b, e) == Filled(lens, i, bits, true);
    assert OnTheWayOut(Ir, Scan(Ir, Exit1), t) by { WayOutStart(Ir, t); }
    LeaveIr(b, e, t);
  }

  lemma WayOutStart(r: Register, t: State)
    requires t != Scan(r, Shift) && (r == Ir ==> t != TestLogicReset)
    ensures OnTheWayOut(r, Scan(r, Exit1), t)
  {
  }

  /** Data scan. With every other device in BYPASS, a scan that enters through
      Capture-DR returns exactly the bits the selected device captured, leaves
      it holding exactly the payload, and leaves zeros in the bypass bits. */
  lemma DrScan(b: Board, c: Snapshot, i: nat, bits: seq<bool>, t: State)
    requires var instr := Instructions(b, c);
             && i < |instr| && |bits| == |Captured(b, instr)[i]| > 0
             && forall k :: 0 <= k < |instr| && k != i ==> Bypassed(instr[k])
    requires c.tap != Scan(Dr, Shift) && !Parked(c.tap, Dr) && KeepsInstructions(c.tap)
    requires t != Scan(Dr, Shift)
    ensures var regs := Captured(b, Instructions(b, c));
            var before, after := Bits.Repeat(false, |regs| - 1 - i), Bits.Repeat(false, i);
            var d := Drive(b, c, ScanClocks(Dr, c.tap, before, bits, after, t));
            && d.tap == t
            && Data(b, d) == Filled(Lengths(regs), i, bits, false)
            && Tdos(b, Drive(b, c, EnterClocks(Dr, c.tap, before)), PayloadClocks(Dr, bits, after, t)) == regs[i]
  {
    hide DataClocks, Join, AtLevel, Path, Drive, Tdos, OnTheWayOut;
    var instr := Instructions(b, c);
    var regs := Captured(b, instr);
    var lens := Lengths(regs);
    BypassTotal(lens[i + 1..]);
    BypassTotal(lens[..i]);
    var before, after := Bits.Repeat(false, |regs| - 1 - i), Bits.Repeat(false, i);
    var p := AtLevel(Path(c.tap, Scan(Dr, Shift)), true);
    var q := DataClocks(before, false);
    var u, v := DataClocks(bits, after == []), DataClocks(after, after != []);
    var w := AtLevel(Path(Scan(Dr, Exit1), t), true);
    FiveParts(b, c, p, q, u, v, w);
    DriveAppend(b, c, p, q);
    EnterDr(b, c, instr);
    var d := Drive(b, c, p);
    PaddedShift(b, d, Dr, regs, i, before, bits, after);
    var e := Drive(b, Drive(b, Drive(b, d, q), u), v);
    JoinFilled(lens, i, bits, false);
    SplitJoin(Filled(lens, i, bits, false));
    TotalAround(lens, i);
    assert Data(b, e) == Filled(lens, i, bits, false);
    assert OnTheWayOut(Dr, Scan(Dr, Exit1), t) by { WayOutStart(Dr, t); }
    LeaveDr(b, e, t);
  }

  lemma {:induction false} BypassTotal(lens: seq<nat>)
    requires forall k :: 0 <= k < |lens| ==> lens[k] == 1
    ensures Total(lens) == |lens|
    decreases |lens|
  {
    if lens == [] {
    } else {
      BypassTotal(lens[1..]);
    }
  }

  /** The two together: load an instruction into one device of any chain, then
      exchange data with it. The devices around it are in BYPASS, so the bits
      that come back are the selected device's own. */
  lemma InstructionThenData(b: Board, c: Snapshot, i: nat, opcode: seq<bool>, bits: seq<bool>, t: State, u: State)
    requires i < |b.irCapture| && |opcode| == |b.irCapture[i]| > 0
    requires c.tap != Scan(Ir, Shift) && !Parked(c.tap, Ir)
    requires t != TestLogicReset && KeepsInstructions(t) && t != Scan(Dr, Shift) && !Parked(t, Dr)
    requires u != Scan(Dr, Shift)
    requires |bits| == (if Bypassed(opcode) then 1 else |b.data(i, opcode)|) > 0
    ensures var lens, n := Lengths(b.irCapture), |b.irCapture|;
            var ones, ones' := Bits.Repeat(true, Total(lens[i + 1..])), Bits.Repeat(true, Total(lens[..i]));
            var zeros, zeros' := Bits.Repeat(false, n - 1 - i), Bits.Repeat(false, i);
            var d := Drive(b, c, ScanClocks(Ir, c.tap, ones, opcode, ones', t));
            var e := Drive(b, d, ScanClocks(Dr, t, zeros, bits, zeros', u));
            && e.tap == u
            && |Data(b, e)| == n && Data(b, e)[i] == bits
            && Tdos(b, Drive(b, d, EnterClocks(Dr, t, zeros)), PayloadClocks(Dr, bits, zeros', u))
               == if Bypassed(opcode) then [false] else b.data(i, opcode)
  {
    hide ScanClocks, EnterClocks, PayloadClocks, Drive, Tdos, Data, Total;
    var lens := Lengths(b.irCapture);
    var ones, ones' := Bits.Repeat(true, Total(lens[i + 1..])), Bits.Repeat(true, Total(lens[..i]));
    IrScan(b, c, i, opcode, t);
    var d := Drive(b, c, ScanClocks(Ir, c.tap, ones, opcode, ones', t));
    var instr := Instructions(b, d);
    assert instr[i] == opcode;
    DrScan(b, d, i, bits, u);
  }
}
