/**
 The TAP controller of clause 6.1 of IEEE Std 1149.1-2013, and the path the
 loader's `set_state` takes through it.

 The hop the code takes is proved to be a legal controller move that lies on a
 shortest path to the requested state. The path enters Test-Logic-Reset exactly
 when that is the target, from Select-DR-Scan to Run-Test/Idle, and from
 Select-IR-Scan to anything outside the instruction column.
 */
module Tap {

  datatype Register = Dr | Ir

  /** The six states of a scan column. */
  datatype Row = Capture | Shift | Exit1 | Pause | Exit2 | Update

  /** SHIFT_DR is `Scan(Dr, Shift)`, SELECT_IR_SCAN is `Select(Ir)`, and so on. */
  datatype State = TestLogicReset | RunTestIdle | Select(reg: Register) | Scan(reg: Register, row: Row)

  /** The controller's move on one rising edge of TCK (figure 6-1). */
  function Step(s: State, tms: bool): State {
    match s
    case TestLogicReset => if tms then TestLogicReset else RunTestIdle
    case RunTestIdle => if tms then Select(Dr) else RunTestIdle
    case Select(r) => if !tms then Scan(r, Capture) else if r == Dr then Select(Ir) else TestLogicReset
    case Scan(r, Capture) => Scan(r, if tms then Exit1 else Shift)
    case Scan(r, Shift) => Scan(r, if tms then Exit1 else Shift)
    case Scan(r, Exit1) => Scan(r, if tms then Update else Pause)
    case Scan(r, Pause) => Scan(r, if tms then Exit2 else Pause)
    case Scan(r, Exit2) => Scan(r, if tms then Update else Shift)
    case Scan(_, Update) => if tms then Select(Dr) else RunTestIdle
  }

  function Run(s: State, tms: seq<bool>): State
    decreases |tms|
  {
    if tms == [] then s else Run(Step(s, tms[0]), tms[1..])
  }

  lemma {:induction false} RunAppend(s: State, x: seq<bool>, y: seq<bool>)
    ensures Run(s, x + y) == Run(Run(s, x), y)
    decreases |x|
  {
    if x == [] {
      assert x + y == y;
    } else {
      assert (x + y)[1..] == x[1..] + y;
      RunAppend(Step(s, x[0]), x[1..], y);
    }
  }

  /** States that hold under a constant TMS. */
  predicate Stable(s: State) {
    s.TestLogicReset? || s.RunTestIdle? || (s.Scan? && (s.row == Shift || s.row == Pause))
  }

  /** The level `toggleClk` drives on TMS in state `s`. */
  function HoldLevel(s: State): bool {
    s == TestLogicReset
  }

  /** TMS and next shadow state chosen by `set_state` in state `s` on its way to
      `t`, case by case as its switch statement has them. */
  function Hop(s: State, t: State): (bool, State)
    requires s != t
  {
    match s
    case TestLogicReset => (false, RunTestIdle)
    case RunTestIdle => (true, Select(Dr))
    case Select(Dr) => if t.Scan? && t.reg == Dr then (false, Scan(Dr, Capture)) else (true, Select(Ir))
    case Select(Ir) => if t.Scan? && t.reg == Ir then (false, Scan(Ir, Capture)) else (true, TestLogicReset)
    case Scan(r, Capture) => if t == Scan(r, Shift) then (false, Scan(r, Shift)) else (true, Scan(r, Exit1))
    case Scan(r, Shift) => (true, Scan(r, Exit1))
    case Scan(r, Exit1) =>
      if t == Scan(r, Pause) || t == Scan(r, Exit2) || t == Scan(r, Shift)
      then (false, Scan(r, Pause)) else (true, Scan(r, Update))
    case Scan(r, Pause) => (true, Scan(r, Exit2))
    case Scan(r, Exit2) =>
      if t == Scan(r, Shift) || t == Scan(r, Exit1) || t == Scan(r, Pause)
      then (false, Scan(r, Shift)) else (true, Scan(r, Update))
    case Scan(r, Update) => if t == RunTestIdle then (false, RunTestIdle) else (true, Select(Dr))
  }

  /** Clocks between two rows of one scan column, when the column need not be
      left; leaving and coming back to a row costs more than `Inside` says only
      for `Capture` and out of `Update`. */
  function Inside(a: Row, b: Row): nat {
    match a
    case Capture =>
      (match b case Capture => 0 case Shift => 1 case Exit1 => 1 case Pause => 2 case Exit2 => 3 case Update => 2)
    case Shift =>
      (match b case Capture => 5 case Shift => 0 case Exit1 => 1 case Pause => 2 case Exit2 => 3 case Update => 2)
    case Exit1 =>
      (match b case Capture => 5 case Shift => 3 case Exit1 => 0 case Pause => 1 case Exit2 => 2 case Update => 1)
    case Pause =>
      (match b case Capture => 5 case Shift => 2 case Exit1 => 3 case Pause => 0 case Exit2 => 1 case Update => 2)
    case Exit2 =>
      (match b case Capture => 5 case Shift => 1 case Exit1 => 2 case Pause => 3 case Exit2 => 0 case Update => 1)
    case Update =>
      (match b case Update => 0 case _ => 5)
  }

  /** Clocks from `s` to Select-DR-Scan. */
  function ToSelectDr(s: State): nat {
    match s
    case TestLogicReset => 2
    case RunTestIdle => 1
    case Select(r) => if r == Dr then 0 else 3
    case Scan(_, row) => Inside(row, Update) + 1
  }

  /** Clocks from Select-DR-Scan to `t`. */
  function FromSelectDr(t: State): nat {
    match t
    case TestLogicReset => 2
    case RunTestIdle => 3
    case Select(r) => if r == Dr then 0 else 1
    case Scan(r, row) => Inside(Capture, row) + if r == Dr then 1 else 2
  }

  /** The controller's distance between two states: straight ahead when the
      target lies ahead, otherwise by way of Select-DR-Scan. */
  function Distance(s: State, t: State): nat {
    if s == t then 0
    else if s.Scan? && t.Scan? && s.reg == t.reg && t.row != Capture && s.row != Update then Inside(s.row, t.row)
    else if s == TestLogicReset && t == RunTestIdle then 1
    else if s == Select(Ir) && t == TestLogicReset then 1
    else if s == Select(Ir) && t == RunTestIdle then 2
    else if s == Select(Ir) && t.Scan? && t.reg == Ir then 1 + Inside(Capture, t.row)
    else if s.Scan? && t == RunTestIdle then Inside(s.row, Update) + 1
    else ToSelectDr(s) + FromSelectDr(t)
  }

  lemma HopWithinColumn(r: Register, a: Row, b: Row)
    requires a != b
    ensures Distance(Hop(Scan(r, a), Scan(r, b)).1, Scan(r, b)) + 1 == Distance(Scan(r, a), Scan(r, b))
  {
  }

  lemma HopOutOfColumn(r: Register, a: Row, t: State)
    requires !(t.Scan? && t.reg == r)
    ensures Distance(Hop(Scan(r, a), t).1, t) + 1 == Distance(Scan(r, a), t)
  {
  }

  lemma HopIsLegal(s: State, t: State)
    requires s != t
    ensures Hop(s, t).1 == Step(s, Hop(s, t).0)
  {
  }

  /** Every hop is the controller's own move and gets one clock closer. */
  lemma HopIsProgress(s: State, t: State)
    requires s != t
    ensures Hop(s, t).1 == Step(s, Hop(s, t).0)
    ensures Distance(Hop(s, t).1, t) + 1 == Distance(s, t)
  {
    HopIsLegal(s, t);
    if s.Scan? {
      hide Hop, Distance;
      if t.Scan? && t.reg == s.reg {
        HopWithinColumn(s.reg, s.row, t.row);
      } else {
        HopOutOfColumn(s.reg, s.row, t);
      }
    }
  }

  /** No single clock gets closer by more than one. */
  lemma StepIsLipschitz(s: State, tms: bool, t: State)
    ensures Distance(s, t) <= 1 + Distance(Step(s, tms), t)
  {
  }

  /** TMS bits `set_state` emits. */
  function Path(s: State, t: State): (p: seq<bool>)
    decreases Distance(s, t)
  {
    if s == t then [] else HopIsProgress(s, t); [Hop(s, t).0] + Path(Hop(s, t).1, t)
  }

  lemma PathUnfold(s: State, t: State)
    requires s != t
    ensures Path(s, t) == [Hop(s, t).0] + Path(Hop(s, t).1, t)
    ensures Distance(Hop(s, t).1, t) < Distance(s, t)
    ensures Hop(s, t).1 == Step(s, Hop(s, t).0)
  {
    hide Hop, Distance, Step;
    HopIsProgress(s, t);
  }

  /** The path reaches its target, and no TMS sequence that does is shorter. */
  lemma {:induction false} PathIsShortest(s: State, t: State)
    ensures Run(s, Path(s, t)) == t
    ensures |Path(s, t)| == Distance(s, t)
    ensures forall w :: Run(s, w) == t ==> |Path(s, t)| <= |w|
    decreases Distance(s, t)
  {
    if s != t {
      HopIsProgress(s, t);
      PathIsShortest(Hop(s, t).1, t);
      assert Path(s, t)[1..] == Path(Hop(s, t).1, t);
    }
    forall w | Run(s, w) == t ensures Distance(s, t) <= |w| {
      RunIsAtLeastDistance(s, w);
    }
  }

  lemma {:induction false} RunIsAtLeastDistance(s: State, w: seq<bool>)
    ensures Distance(s, Run(s, w)) <= |w|
    decreases |w|
  {
    if w == [] {
    } else {
      RunIsAtLeastDistance(Step(s, w[0]), w[1..]);
      StepIsLipschitz(s, w[0], Run(s, w));
    }
  }

  /** Whether a run leaves `s` and enters Test-Logic-Reset. */
  predicate EntersReset(s: State, w: seq<bool>)
    decreases |w|
  {
    w != [] && (Step(s, w[0]) == TestLogicReset || EntersReset(Step(s, w[0]), w[1..]))
  }

  /** When a path to `t` from `s` resets the controller on its way: only from the
      scan-select states, towards anything that is not ahead of them. */
  predicate ResetsOnTheWay(s: State, t: State) {
    s != t &&
    (t == TestLogicReset ||
     (s == Select(Dr) && t == RunTestIdle) ||
     (s == Select(Ir) && !(t.Scan? && t.reg == Ir)))
  }

  /** Exactly when `set_state` throws away the loaded instructions. */
  lemma {:induction false} ResetOnPath(s: State, t: State)
    ensures EntersReset(s, Path(s, t)) <==> ResetsOnTheWay(s, t)
    decreases Distance(s, t)
  {
    if s != t {
      HopIsProgress(s, t);
      var u := Hop(s, t).1;
      assert Path(s, t)[1..] == Path(u, t);
      ResetOnPath(u, t);
    }
  }

  /** Five clocks with TMS high reach reset from anywhere, so do six; four do
      not always. */
  lemma FiveOnesReset(s: State, n: nat)
    requires n >= 5
    ensures Run(s, seq(n, i => true)) == TestLogicReset
    ensures Run(Scan(Dr, Shift), seq(4, i => true)) != TestLogicReset
  {
    var ones := seq(n, i => true);
    var five := seq(5, i => true);
    assert ones == five + seq(n - 5, i => true);
    RunAppend(s, five, seq(n - 5, i => true));
    assert five == [true, true, true, true, true];
    assert Run(s, [true, true, true, true, true]) == Run(Step(Step(s, true), true), [true, true, true]);
    Hold(TestLogicReset, true, n - 5);
    assert seq(4, i => true) == [true, true, true, true];
    assert Run(Scan(Dr, Shift), [true, true, true, true]) == Run(Scan(Dr, Update), [true, true]);
  }

  /** A constant TMS keeps exactly the stable states, at their own level. */
  lemma {:induction false} Hold(s: State, level: bool, n: nat)
    requires Step(s, level) == s
    ensures Run(s, seq(n, i => level)) == s
  {
    if n == 0 {
    } else {
      Hold(s, level, n - 1);
      assert seq(n, i => level)[1..] == seq(n - 1, i => level);
    }
  }

  lemma {:induction false} NeverReturns(s: State, u: State, n: nat)
    requires !Stable(s) && (u == Step(s, false) || Stable(u))
    ensures Run(u, seq(n, i => false)) != s
    decreases n
  {
    if n == 0 {
    } else {
      assert seq(n, i => false)[1..] == seq(n - 1, i => false);
      NeverReturns(s, Step(u, false), n - 1);
    }
  }

  /** Toggling at the hold level leaves the controller where it is if and only if
      it is in a stable state (or no clock is sent). */
  lemma HoldIff(s: State, n: nat)
    ensures Run(s, seq(n, i => HoldLevel(s))) == s <==> n == 0 || Stable(s)
  {
    var level := HoldLevel(s);
    if Stable(s) {
      Hold(s, level, n);
    } else if n > 0 {
      assert seq(n, i => level)[1..] == seq(n - 1, i => false);
      NeverReturns(s, Step(s, false), n - 1);
    }
  }
}
