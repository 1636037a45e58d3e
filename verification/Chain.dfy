/**
 A JTAG scan chain as IEEE Std 1149.1-2013 describes it: every device follows
 the same TAP controller, and the selected registers of all devices form one
 long shift register from TDI to TDO.

 Device 0 is the one next to TDI, the last device the one next to TDO.
 Register contents are listed from the bit nearest TDO, so they read in the
 order in which bits are shifted out (and in which they were shifted in).
 */
module Chain {
  import opened Tap

  datatype Clock = Clock(tms: bool, tdi: bool)

  /** What does not change: the pattern each instruction register captures (it
      also fixes the register's length), the instruction selected by reset, and
      the data each device captures under each instruction. */
  datatype Board = Board(
    irCapture: seq<seq<bool>>,
    irReset: seq<seq<bool>>,
    data: (nat, seq<bool>) -> seq<bool>)

  /** Controller state, latched instructions, shift path, latched data. */
  datatype Snapshot = Snapshot(tap: State, ir: seq<seq<bool>>, path: seq<bool>, dr: seq<seq<bool>>)

  // ---------------------------------------------------------------------
  // Joining and splitting the shift path
  // ---------------------------------------------------------------------

  /** The registers of all devices in TDO-first order. */
  function Join(regs: seq<seq<bool>>): (s: seq<bool>)
    ensures |s| == Total(Lengths(regs))
  {
    if regs == [] then [] else
      assert Lengths(regs)[1..] == Lengths(regs[1..]);
      Join(regs[1..]) + regs[0]
  }

  function Lengths(regs: seq<seq<bool>>): (r: seq<nat>)
    ensures |r| == |regs|
    ensures forall k :: 0 <= k < |r| ==> r[k] == |regs[k]|
  {
    seq(|regs|, k requires 0 <= k < |regs| => |regs[k]|)
  }

  function Total(lens: seq<nat>): nat {
    if lens == [] then 0 else lens[0] + Total(lens[1..])
  }

  /** Each device's share of the shift path. */
  function Split(s: seq<bool>, lens: seq<nat>): (regs: seq<seq<bool>>)
    requires |s| == Total(lens)
    ensures Lengths(regs) == lens
    decreases |lens|
  {
    if lens == [] then [] else
      var cut := |s| - lens[0];
      [s[cut..]] + Split(s[..cut], lens[1..])
  }

  lemma {:induction false} SplitJoin(regs: seq<seq<bool>>)
    ensures Split(Join(regs), Lengths(regs)) == regs
    decreases |regs|
  {
    if regs == [] {
    } else {
      assert Lengths(regs)[1..] == Lengths(regs[1..]);
      SplitJoin(regs[1..]);
      var s := Join(regs);
      assert s[..|s| - |regs[0]|] == Join(regs[1..]) && s[|s| - |regs[0]|..] == regs[0];
    }
  }

  // ---------------------------------------------------------------------
  // One clock
  // ---------------------------------------------------------------------

  predicate Bypassed(ir: seq<bool>) {
    forall k :: 0 <= k < |ir| ==> ir[k]
  }

  /** What Capture-DR loads: the one-bit bypass register captures zero. */
  function Captured(b: Board, ir: seq<seq<bool>>): (regs: seq<seq<bool>>)
    ensures |regs| == |ir|
  {
    seq(|ir|, k requires 0 <= k < |ir| => if Bypassed(ir[k]) then [false] else b.data(k, ir[k]))
  }

  /** Latch the shift path, if its length is the selected registers' length. */
  function Latch(path: seq<bool>, lens: seq<nat>, old_: seq<seq<bool>>): seq<seq<bool>> {
    if |path| == Total(lens) then Split(path, lens) else old_
  }

  /** Capture and shift happen on the edge that leaves the state's clock; update
      and reset take effect on entering their states. */
  function Tick(b: Board, c: Snapshot, k: Clock): Snapshot {
    var path :=
      if c.tap == Scan(Dr, Capture) then Join(Captured(b, c.ir))
      else if c.tap == Scan(Ir, Capture) then Join(b.irCapture)
      else if c.tap.Scan? && c.tap.row == Shift then (c.path + [k.tdi])[1..]
      else c.path;
    var tap := Step(c.tap, k.tms);
    var ir :=
      if tap == TestLogicReset then b.irReset
      else if tap == Scan(Ir, Update) then Latch(path, Lengths(b.irCapture), c.ir)
      else c.ir;
    var dr := if tap == Scan(Dr, Update) then Latch(path, Lengths(Captured(b, c.ir)), c.dr) else c.dr;
    Snapshot(tap, ir, path, dr)
  }

  /** TDO during a clock: the bit about to leave the shift path. */
  function Tdo(c: Snapshot, k: Clock): bool {
    (c.path + [k.tdi])[0]
  }

  function Drive(b: Board, c: Snapshot, ks: seq<Clock>): Snapshot
    decreases |ks|
  {
    if ks == [] then c else Drive(b, Tick(b, c, ks[0]), ks[1..])
  }

  function Tdos(b: Board, c: Snapshot, ks: seq<Clock>): (r: seq<bool>)
    ensures |r| == |ks|
    decreases |ks|
  {
    if ks == [] then [] else [Tdo(c, ks[0])] + Tdos(b, Tick(b, c, ks[0]), ks[1..])
  }

  function TmsOf(ks: seq<Clock>): (r: seq<bool>)
    ensures |r| == |ks|
  {
    seq(|ks|, i requires 0 <= i < |ks| => ks[i].tms)
  }

  lemma {:induction false} DriveAppend(b: Board, c: Snapshot, x: seq<Clock>, y: seq<Clock>)
    ensures Drive(b, c, x + y) == Drive(b, Drive(b, c, x), y)
    ensures Tdos(b, c, x + y) == Tdos(b, c, x) + Tdos(b, Drive(b, c, x), y)
    decreases |x|
  {
    hide Tick;
    if x == [] {
      assert x + y == y;
    } else {
      assert (x + y)[1..] == x[1..] + y;
      DriveAppend(b, Tick(b, c, x[0]), x[1..], y);
    }
  }

  /** The chain's controllers run on the TMS wire alone. */
  lemma {:induction false} TapOfDrive(b: Board, c: Snapshot, ks: seq<Clock>)
    ensures Drive(b, c, ks).tap == Tap.Run(c.tap, TmsOf(ks))
    decreases |ks|
  {
    if ks == [] {
    } else {
      TapOfDrive(b, Tick(b, c, ks[0]), ks[1..]);
      assert TmsOf(ks)[1..] == TmsOf(ks[1..]);
    }
  }

  predicate InShift(s: State) {
    s.Scan? && s.row == Shift
  }

  /** The same TMS, and the same TDI wherever a controller in state `s` shifts. */
  predicate Alike(s: State, x: seq<Clock>, y: seq<Clock>)
    decreases |x|
  {
    |x| == |y|
    && (x != [] ==>
          && x[0].tms == y[0].tms && (InShift(s) ==> x[0].tdi == y[0].tdi)
          && Alike(Tap.Step(s, x[0].tms), x[1..], y[1..]))
  }

  /** TDI matters only in the shift states. */
  lemma {:induction false} DriveAlike(b: Board, c: Snapshot, x: seq<Clock>, y: seq<Clock>)
    requires Alike(c.tap, x, y)
    ensures Drive(b, c, x) == Drive(b, c, y)
    decreases |x|
  {
    if x == [] {
    } else {
      TickAlike(b, c, x[0], y[0]);
      hide Tick;
      DriveAlike(b, Tick(b, c, x[0]), x[1..], y[1..]);
    }
  }

  lemma TickAlike(b: Board, c: Snapshot, k: Clock, l: Clock)
    requires k.tms == l.tms && (InShift(c.tap) ==> k.tdi == l.tdi)
    ensures Tick(b, c, k) == Tick(b, c, l) && Tick(b, c, k).tap == Tap.Step(c.tap, k.tms)
  {
  }

  // ---------------------------------------------------------------------
  // Clock patterns
  // ---------------------------------------------------------------------

  /** TMS bits clocked at a constant TDI level. */
  function AtLevel(tms: seq<bool>, tdi: bool): (r: seq<Clock>)
    ensures |r| == |tms|
    ensures forall i :: 0 <= i < |r| ==> r[i] == Clock(tms[i], tdi)
  {
    seq(|tms|, i requires 0 <= i < |tms| => Clock(tms[i], tdi))
  }

  /** Data bits clocked with TMS low, high on the final one when `last`. */
  function DataClocks(bits: seq<bool>, last: bool): (r: seq<Clock>)
    ensures |r| == |bits|
    ensures forall i :: 0 <= i < |r| ==> r[i] == Clock(last && i == |bits| - 1, bits[i])
  {
    seq(|bits|, i requires 0 <= i < |bits| => Clock(last && i == |bits| - 1, bits[i]))
  }

  lemma ShiftTick(b: Board, c: Snapshot, k: Clock)
    requires c.tap.Scan? && c.tap.row == Shift
    ensures Tick(b, c, k)
         == Snapshot(Scan(c.tap.reg, if k.tms then Exit1 else Shift), c.ir, (c.path + [k.tdi])[1..], c.dr)
  {
  }

  lemma DataClocksTail(bits: seq<bool>, last: bool)
    requires bits != []
    ensures DataClocks(bits, last)[0] == Clock(last && |bits| == 1, bits[0])
    ensures DataClocks(bits, last)[1..] == DataClocks(bits[1..], last)
  {
  }

  /** Shifting `bits` through the path: the first |bits| bits of path-then-bits
      come out, the rest stays. */
  lemma {:induction false} ShiftData(b: Board, c: Snapshot, bits: seq<bool>, last: bool)
    requires c.tap.Scan? && c.tap.row == Shift
    requires last ==> bits != []
    ensures Tdos(b, c, DataClocks(bits, last)) == (c.path + bits)[..|bits|]
    ensures Drive(b, c, DataClocks(bits, last))
         == Snapshot(Scan(c.tap.reg, if last then Exit1 else Shift), c.ir, (c.path + bits)[|bits|..], c.dr)
    decreases |bits|
  {
    hide Tick, DataClocks;
    if bits == [] {
      assert c.path + bits == c.path;
    } else {
      var k, all := DataClocks(bits, last)[0], c.path + bits;
      DataClocksTail(bits, last);
      ShiftTick(b, c, k);
      var d := Tick(b, c, k);
      assert d.path + bits[1..] == all[1..];
      assert all[1..][|bits| - 1..] == all[|bits|..];
      assert all[..|bits|] == [all[0]] + all[1..][..|bits| - 1];
      if |bits| == 1 {
        assert bits[1..] == [];
      }
      if |bits| > 1 || !last {
        ShiftData(b, d, bits[1..], last);
      }
    }
  }
}
