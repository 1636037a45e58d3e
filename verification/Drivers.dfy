/**
 A cable driver in place of the contract that `Jtag` is written against.

 The orders `Jtag` gives are carried out by a driver as pulses, some of them with a
 wire left where it was. If each order looks to the devices like what the contract
 promises, then over any sequence of orders the devices end up the same and the bits
 that come back are the same; and the orders of a whole scan are of that kind.
 */
module Drivers {
  import Bits
  import Scans
  import opened Tap
  import opened Chain
  import opened Wire

  /** What the JTAG layer asks of a cable. */
  datatype Order =
    | Move(tms: seq<bool>, tdi: bool)
    | Data(bits: seq<bool>, end: bool)
    | Toggle(level: bool, tdi: bool, n: nat)

  /** The clocks the cable contract promises. */
  function Promised(o: Order): seq<Clock> {
    match o
    case Move(tms, tdi) => AtLevel(tms, tdi)
    case Data(bits, end) => DataClocks(bits, end)
    case Toggle(level, tdi, n) => AtLevel(Bits.Repeat(level, n), tdi)
  }

  function PromisedAll(os: seq<Order>): seq<Clock> {
    if os == [] then [] else Promised(os[0]) + PromisedAll(os[1..])
  }

  /** The pulses a driver makes of its orders. */
  function Made(driver: Order -> seq<Pulse>, os: seq<Order>): seq<Pulse> {
    if os == [] then [] else driver(os[0]) + Made(driver, os[1..])
  }

  /** Every order, in the state and at the wire levels it is given, is carried out
      so that the devices cannot tell. */
  predicate Suits(driver: Order -> seq<Pulse>, s: State, c: Clock, os: seq<Order>)
    decreases |os|
  {
    os == []
    || (&& Alike(s, Levels(c, driver(os[0])), Promised(os[0]))
        && Suits(driver, Tap.Run(s, TmsOf(Promised(os[0]))), Last(c, driver(os[0])), os[1..]))
  }

  /** Then the chain ends up as under the contract, over any sequence of orders. */
  lemma {:induction false} DriverRefines(driver: Order -> seq<Pulse>, b: Board, x: Snapshot, c: Clock, os: seq<Order>)
    requires Suits(driver, x.tap, c, os)
    ensures Drive(b, x, Levels(c, Made(driver, os))) == Drive(b, x, PromisedAll(os))
    decreases |os|
  {
    hide Drive, Alike, Promised, Last, Tap.Run, TmsOf;
    if os == [] {
    } else {
      var p, k := driver(os[0]), Promised(os[0]);
      var y := Drive(b, x, k);
      LevelsAppend(c, p, Made(driver, os[1..]));
      DriveAlike(b, x, Levels(c, p), k);
      TapOfDrive(b, x, k);
      DriveAppend(b, x, Levels(c, p), Levels(Last(c, p), Made(driver, os[1..])));
      DriveAppend(b, x, k, PromisedAll(os[1..]));
      DriverRefines(driver, b, y, Last(c, p), os[1..]);
    }
  }

  /** The bits that come back from each data order, under the contract and over a
      driver. */
  function Returned(b: Board, x: Snapshot, os: seq<Order>): seq<seq<bool>>
    decreases |os|
  {
    if os == [] then []
    else
      (if os[0].Data? then [Tdos(b, x, Promised(os[0]))] else [])
      + Returned(b, Drive(b, x, Promised(os[0])), os[1..])
  }

  function ReturnedOver(driver: Order -> seq<Pulse>, b: Board, x: Snapshot, c: Clock, os: seq<Order>): seq<seq<bool>>
    decreases |os|
  {
    if os == [] then []
    else
      var k := Levels(c, driver(os[0]));
      (if os[0].Data? then [Tdos(b, x, k)] else [])
      + ReturnedOver(driver, b, Drive(b, x, k), Last(c, driver(os[0])), os[1..])
  }

  /** Data is shifted in shift states. */
  predicate InPlace(s: State, os: seq<Order>)
    decreases |os|
  {
    os == []
    || (&& (os[0].Data? && os[0].bits != [] ==> InShift(s))
        && InPlace(Tap.Run(s, TmsOf(Promised(os[0]))), os[1..]))
  }

  /** In a shift state clocks that are alike are equal. */
  lemma {:induction false} AlikeData(s: State, x: seq<Clock>, bits: seq<bool>, end: bool)
    requires (bits != [] ==> InShift(s)) && Alike(s, x, DataClocks(bits, end))
    ensures x == DataClocks(bits, end)
    decreases |bits|
  {
    if bits == [] {
    } else {
      DataClocksTail(bits, end);
      var k := DataClocks(bits, end)[0];
      assert x == [x[0]] + x[1..] && DataClocks(bits, end) == [k] + DataClocks(bits[1..], end);
      AlikeData(Tap.Step(s, k.tms), x[1..], bits[1..], end);
    }
  }

  /** And the bits that come back are those the contract promises. */
  lemma {:induction false} DriverReturns(driver: Order -> seq<Pulse>, b: Board, x: Snapshot, c: Clock, os: seq<Order>)
    requires Suits(driver, x.tap, c, os) && InPlace(x.tap, os)
    ensures ReturnedOver(driver, b, x, c, os) == Returned(b, x, os)
    decreases |os|
  {
    hide Drive, Tdos, Alike, Last, Tap.Run, TmsOf, DataClocks;
    if os == [] {
    } else {
      var p, k := driver(os[0]), Promised(os[0]);
      DriveAlike(b, x, Levels(c, p), k);
      TapOfDrive(b, x, k);
      if os[0].Data? {
        AlikeData(x.tap, Levels(c, p), os[0].bits, os[0].end);
      }
      DriverReturns(driver, b, Drive(b, x, k), Last(c, p), os[1..]);
    }
  }

  /** The controllers do not shift while these levels are clocked. */
  predicate NeverShifts(s: State, tms: seq<bool>)
    decreases |tms|
  {
    tms == [] || (!InShift(s) && NeverShifts(Tap.Step(s, tms[0]), tms[1..]))
  }

  lemma {:induction false} AlikeSelf(s: State, x: seq<Clock>)
    ensures Alike(s, x, x)
    decreases |x|
  {
    if x == [] {
    } else {
      AlikeSelf(Tap.Step(s, x[0].tms), x[1..]);
    }
  }

  /** Levels with TDI held are as good as levels with TDI driven, if it is held where
      it should be or the controllers do not shift. */
  lemma {:induction false} HeldAlike(s: State, c: Clock, tms: seq<bool>, tdi: bool)
    requires c.tdi == tdi || NeverShifts(s, tms)
    ensures Alike(s, Levels(c, TmsPulses(tms, Held)), AtLevel(tms, tdi))
    decreases |tms|
  {
    if tms == [] {
    } else {
      var p := TmsPulses(tms, Held);
      assert p[1..] == TmsPulses(tms[1..], Held);
      assert AtLevel(tms, tdi)[1..] == AtLevel(tms[1..], tdi);
      HeldAlike(Tap.Step(s, tms[0]), At(c, p[0]), tms[1..], tdi);
    }
  }

  lemma {:induction false} DrivenLevels(c: Clock, tms: seq<bool>, tdi: bool)
    ensures Levels(c, TmsPulses(tms, Driven(tdi))) == AtLevel(tms, tdi)
    decreases |tms|
  {
    if tms == [] {
    } else {
      var p := TmsPulses(tms, Driven(tdi));
      assert p[1..] == TmsPulses(tms[1..], Driven(tdi));
      DrivenLevels(At(c, p[0]), tms[1..], tdi);
    }
  }

  /** Toggling with both wires held. */
  lemma ToggleAlike(s: State, c: Clock, level: bool, tdi: bool, n: nat)
    requires c.tms == level && (c.tdi == tdi || NeverShifts(s, Bits.Repeat(level, n)))
    ensures Alike(s, Levels(c, TckPulses(n)), AtLevel(Bits.Repeat(level, n), tdi))
  {
    TckLevels(c, n);
    LevelAlike(s, Bits.Repeat(level, n), c.tdi, tdi);
  }

  lemma {:induction false} LevelAlike(s: State, tms: seq<bool>, x: bool, y: bool)
    requires x == y || NeverShifts(s, tms)
    ensures Alike(s, AtLevel(tms, x), AtLevel(tms, y))
    decreases |tms|
  {
    if tms == [] {
    } else {
      assert AtLevel(tms, x)[1..] == AtLevel(tms[1..], x) && AtLevel(tms, y)[1..] == AtLevel(tms[1..], y);
      LevelAlike(Tap.Step(s, tms[0]), tms[1..], x, y);
    }
  }

  // ---------------------------------------------------------------------
  // Moves
  // ---------------------------------------------------------------------

  /** The way from `s` to `t` does not lead back through the shift state. */
  predicate Easy(s: State, t: State) {
    && !InShift(s)
    && (s.Scan? && t.Scan? && s.reg == t.reg ==>
          !(s.row == Pause && t.row == Exit1) && !(s.row == Exit2 && (t.row == Exit1 || t.row == Pause)))
  }

  lemma EasyStep(s: State, t: State)
    requires Easy(s, t) && s != t
    ensures var u := Hop(s, t).1; u == t || Easy(u, t)
  {
  }

  lemma {:induction false} EasyMove(s: State, t: State)
    requires s == t || Easy(s, t)
    ensures NeverShifts(s, Path(s, t))
    decreases Distance(s, t)
  {
    if s == t {
    } else {
      EasyStep(s, t);
      HopIsProgress(s, t);
      hide Hop, Distance, Easy;
      var u := Hop(s, t).1;
      EasyMove(u, t);
      assert Path(s, t)[0] == Hop(s, t).0 && Path(s, t)[1..] == Path(u, t);
      EasyMeans(s, t);
    }
  }

  lemma EasyMeans(s: State, t: State)
    ensures Easy(s, t) ==> !InShift(s)
  {
  }

  // ---------------------------------------------------------------------
  // The orders of a scan
  // ---------------------------------------------------------------------

  function EnterOrders(r: Register, s: State, before: seq<bool>): seq<Order> {
    if s == Scan(r, Shift) then [] else [Move(Path(s, Scan(r, Shift)), true), Data(before, false)]
  }

  function PayloadOrder(r: Register, bits: seq<bool>, after: seq<bool>, t: State): Order {
    Data(bits, after == [] && t != Scan(r, Shift))
  }

  function LeaveOrders(r: Register, after: seq<bool>, t: State): seq<Order> {
    if t == Scan(r, Shift) then [] else [Data(after, after != []), Move(Path(Scan(r, Exit1), t), true)]
  }

  function ScanOrders(r: Register, s: State, before: seq<bool>, bits: seq<bool>, after: seq<bool>, t: State)
    : seq<Order>
  {
    EnterOrders(r, s, before) + ([PayloadOrder(r, bits, after, t)] + LeaveOrders(r, after, t))
  }

  lemma {:induction false} PromisedAppend(x: seq<Order>, y: seq<Order>)
    ensures PromisedAll(x + y) == PromisedAll(x) + PromisedAll(y)
    decreases |x|
  {
    hide Promised;
    if x == [] {
      assert x + y == y;
    } else {
      assert (x + y)[1..] == x[1..] + y;
      PromisedAppend(x[1..], y);
    }
  }

  lemma PromisedOne(o: Order)
    ensures PromisedAll([o]) == Promised(o)
  {
    hide Promised;
    assert PromisedAll([o]) == Promised(o) + PromisedAll([]);
  }

  lemma PromisedTwo(o: Order, p: Order)
    ensures PromisedAll([o, p]) == Promised(o) + Promised(p)
  {
    hide Promised;
    PromisedOne(p);
    assert [o, p][1..] == [p];
  }

  /** Together they ask for the clocks of the scan. */
  lemma OrdersAreScan(r: Register, s: State, before: seq<bool>, bits: seq<bool>, after: seq<bool>, t: State)
    ensures PromisedAll(EnterOrders(r, s, before)) == Scans.EnterClocks(r, s, before)
    ensures PromisedAll(ScanOrders(r, s, before, bits, after, t)) == Scans.ScanClocks(r, s, before, bits, after, t)
  {
    hide EnterOrders, LeaveOrders, Promised, PromisedAll, Scans.EnterClocks, Scans.LeaveClocks, Scans.PayloadClocks;
    var enter, o, leave := EnterOrders(r, s, before), PayloadOrder(r, bits, after, t), LeaveOrders(r, after, t);
    PromisedAppend(enter, [o] + leave);
    PromisedAppend([o], leave);
    PromisedOne(o);
    PartsAreClocks(r, s, before, bits, after, t);
    var e, l := Scans.EnterClocks(r, s, before), Scans.LeaveClocks(r, after, t);
    var p := Scans.PayloadClocks(r, bits, after, t);
    assert e + (p + l) == e + p + l;
  }

  lemma PartsAreClocks(r: Register, s: State, before: seq<bool>, bits: seq<bool>, after: seq<bool>, t: State)
    ensures PromisedAll(EnterOrders(r, s, before)) == Scans.EnterClocks(r, s, before)
    ensures Promised(PayloadOrder(r, bits, after, t)) == Scans.PayloadClocks(r, bits, after, t)
    ensures PromisedAll(LeaveOrders(r, after, t)) == Scans.LeaveClocks(r, after, t)
  {
    hide Path, AtLevel, DataClocks;
    if s != Scan(r, Shift) { PromisedTwo(Move(Path(s, Scan(r, Shift)), true), Data(before, false)); }
    if t != Scan(r, Shift) { PromisedTwo(Data(after, after != []), Move(Path(Scan(r, Exit1), t), true)); }
  }

  // ---------------------------------------------------------------------
  // A scan over a driver
  // ---------------------------------------------------------------------

  /** When any of the drivers carries an order out: TDI is where a move wants it, or
      does not matter; TMS is low before data; TMS is where it is to be held. */
  predicate Allowed(s: State, c: Clock, o: Order) {
    match o
    case Move(tms, tdi) => c.tdi == tdi || NeverShifts(s, tms)
    case Data(_, _) => !c.tms
    case Toggle(level, tdi, n) => c.tms == level && (c.tdi == tdi || NeverShifts(s, Bits.Repeat(level, n)))
  }

  predicate Carries(driver: Order -> seq<Pulse>, s: State, c: Clock, o: Order) {
    Alike(s, Levels(c, driver(o)), Promised(o))
  }

  ghost predicate Able(driver: Order -> seq<Pulse>) {
    && (forall s, c, o :: Allowed(s, c, o) ==> Carries(driver, s, c, o))
    && (forall end :: driver(Data([], end)) == [])
  }

  lemma {:induction false} SuitsAppend(driver: Order -> seq<Pulse>, s: State, c: Clock, x: seq<Order>, y: seq<Order>)
    requires Suits(driver, s, c, x)
    requires Suits(driver, Tap.Run(s, TmsOf(PromisedAll(x))), Last(c, Made(driver, x)), y)
    ensures Suits(driver, s, c, x + y)
    decreases |x|
  {
    hide Alike, Promised, Levels;
    if x == [] {
      assert x + y == y;
      RunEmpty(s);
    } else {
      var k, p := Promised(x[0]), driver(x[0]);
      assert (x + y)[1..] == x[1..] + y;
      RunOn(s, k, PromisedAll(x[1..]));
      LevelsAppend(c, p, Made(driver, x[1..]));
      SuitsAppend(driver, Tap.Run(s, TmsOf(k)), Last(c, p), x[1..], y);
    }
  }

  lemma {:induction false} InPlaceAppend(s: State, x: seq<Order>, y: seq<Order>)
    requires InPlace(s, x) && InPlace(Tap.Run(s, TmsOf(PromisedAll(x))), y)
    ensures InPlace(s, x + y)
    decreases |x|
  {
    hide Promised;
    if x == [] {
      assert x + y == y;
      RunEmpty(s);
    } else {
      var k := Promised(x[0]);
      assert (x + y)[1..] == x[1..] + y;
      RunOn(s, k, PromisedAll(x[1..]));
      InPlaceAppend(Tap.Run(s, TmsOf(k)), x[1..], y);
    }
  }

  lemma RunEmpty(s: State)
    ensures Tap.Run(s, TmsOf([])) == s
  {
  }

  lemma RunOn(s: State, x: seq<Clock>, y: seq<Clock>)
    ensures Tap.Run(s, TmsOf(x + y)) == Tap.Run(Tap.Run(s, TmsOf(x)), TmsOf(y))
  {
    Tap.RunAppend(s, TmsOf(x), TmsOf(y));
    assert TmsOf(x + y) == TmsOf(x) + TmsOf(y);
  }

  /** Where the parts of a scan lead. */
  lemma MoveLeads(s: State, t: State)
    ensures Tap.Run(s, TmsOf(AtLevel(Path(s, t), true))) == t
  {
    hide Path, Distance;
    PathIsShortest(s, t);
    assert TmsOf(AtLevel(Path(s, t), true)) == Path(s, t);
  }

  lemma {:induction false} DataLeads(r: Register, bits: seq<bool>, end: bool)
    requires end ==> bits != []
    ensures Tap.Run(Scan(r, Shift), TmsOf(DataClocks(bits, end))) == Scan(r, if end then Exit1 else Shift)
    decreases |bits|
  {
    if bits == [] {
    } else {
      var k, u := DataClocks(bits, end), Tap.Step(Scan(r, Shift), DataClocks(bits, end)[0].tms);
      DataClocksTail(bits, end);
      assert TmsOf(k)[1..] == TmsOf(k[1..]);
      if |bits| == 1 {
        assert k[1..] == [];
        RunEmpty(u);
      } else {
        DataLeads(r, bits[1..], end);
      }
    }
  }

  /** The TMS level a driver leaves is the one the contract leaves. */
  lemma {:induction false} LeftLevel(s: State, c: Clock, p: seq<Pulse>, k: seq<Clock>)
    requires Alike(s, Levels(c, p), k)
    ensures Last(c, p).tms == if k == [] then c.tms else k[|k| - 1].tms
    decreases |p|
  {
    if p == [] {
    } else {
      LeftLevel(Tap.Step(s, k[0].tms), At(c, p[0]), p[1..], k[1..]);
    }
  }

  /** One order after another. */
  lemma SuitsTwo(driver: Order -> seq<Pulse>, s: State, c: Clock, o: Order, p: Order)
    requires Carries(driver, s, c, o)
    requires Carries(driver, Tap.Run(s, TmsOf(Promised(o))), Last(c, driver(o)), p)
    ensures Suits(driver, s, c, [o]) && Suits(driver, s, c, [o, p])
    ensures Made(driver, [o]) == driver(o) && Made(driver, [o, p]) == driver(o) + driver(p)
  {
    hide Alike, Promised, Levels, Last, TmsOf, Tap.Run;
    assert [o, p][1..] == [p];
    SuitsOne(driver, s, c, o);
    SuitsOne(driver, Tap.Run(s, TmsOf(Promised(o))), Last(c, driver(o)), p);
  }

  lemma InPlaceTwo(s: State, o: Order, p: Order)
    requires o.Data? && o.bits != [] ==> InShift(s)
    requires p.Data? && p.bits != [] ==> InShift(Tap.Run(s, TmsOf(Promised(o))))
    ensures InPlace(s, [o]) && InPlace(s, [o, p])
  {
    hide Promised, TmsOf, Tap.Run;
    var u := Tap.Run(s, TmsOf(Promised(o)));
    assert [o][1..] == [] && [p][1..] == [] && [o, p][1..] == [p];
    assert InPlace(u, []) && InPlace(Tap.Run(u, TmsOf(Promised(p))), []);
    assert InPlace(u, [p]);
  }

  lemma AbleCarries(driver: Order -> seq<Pulse>, s: State, c: Clock, o: Order)
    requires Able(driver) && Allowed(s, c, o)
    ensures Carries(driver, s, c, o)
  {
    hide Allowed, Carries;
  }

  lemma SuitsOne(driver: Order -> seq<Pulse>, s: State, c: Clock, o: Order)
    requires Carries(driver, s, c, o)
    ensures Suits(driver, s, c, [o]) && Made(driver, [o]) == driver(o)
  {
    hide Alike, Promised, Levels, Last, TmsOf, Tap.Run;
    assert [o][1..] == [];
    assert Made(driver, [o]) == driver(o) + Made(driver, []);
  }

  /** The way in: afterwards the controllers shift and TMS is low. */
  lemma EnterSuits(driver: Order -> seq<Pulse>, r: Register, s: State, c: Clock, before: seq<bool>)
    requires Able(driver) && (if s == Scan(r, Shift) then !c.tms else c.tdi || !InShift(s))
    ensures var os := EnterOrders(r, s, before);
            && Suits(driver, s, c, os) && InPlace(s, os)
            && Tap.Run(s, TmsOf(PromisedAll(os))) == Scan(r, Shift) && !Last(c, Made(driver, os)).tms
  {
    hide Able, Path, AtLevel, DataClocks, Alike, Levels, Tap.Run, TmsOf, Carries, Promised;
    var shift := Scan(r, Shift);
    if s == shift {
      RunEmpty(s);
    } else {
      var o, p := Move(Path(s, shift), true), Data(before, false);
      EnterMove(driver, r, s, c);
      var d := Last(c, driver(o));
      AbleCarries(driver, shift, d, p);
      SuitsTwo(driver, s, c, o, p);
      InPlaceTwo(s, o, p);
      LeftLow(driver, shift, d, before);
      LevelsAppend(c, driver(o), driver(p));
      PromisedTwo(o, p);
      RunOn(s, Promised(o), Promised(p));
      PromisedData(before, false);
      DataLeads(r, before, false);
    }
  }

  lemma PromisedData(bits: seq<bool>, end: bool)
    ensures Promised(Data(bits, end)) == DataClocks(bits, end)
  {
  }

  lemma EnterMove(driver: Order -> seq<Pulse>, r: Register, s: State, c: Clock)
    requires Able(driver) && s != Scan(r, Shift) && (c.tdi || !InShift(s))
    ensures var o := Move(Path(s, Scan(r, Shift)), true);
            && Carries(driver, s, c, o) && !Last(c, driver(o)).tms
            && Tap.Run(s, TmsOf(Promised(o))) == Scan(r, Shift)
  {
    hide Able, Alike, Levels, Last, Distance, Path, Tap.Run, NeverShifts, Easy;
    var shift := Scan(r, Shift);
    var o := Move(Path(s, shift), true);
    if !InShift(s) { EasyEnter(s, r); EasyMove(s, shift); }
    AbleCarries(driver, s, c, o);
    MoveLeads(s, shift);
    var k := Promised(o);
    assert TmsOf(k) == o.tms;
    assert o.tms != [] by { RunEmpty(s); }
    HeldLevelHolds(s, o.tms);
    LeftLevel(s, c, driver(o), k);
  }

  lemma EasyEnter(s: State, r: Register)
    requires !InShift(s)
    ensures Easy(s, Scan(r, Shift))
  {
  }

  lemma EasyLeave(r: Register, t: State)
    ensures Easy(Scan(r, Exit1), t)
  {
  }

  lemma LeftLow(driver: Order -> seq<Pulse>, s: State, c: Clock, bits: seq<bool>)
    requires Carries(driver, s, c, Data(bits, false)) && !c.tms
    ensures !Last(c, driver(Data(bits, false))).tms
  {
    hide Alike, Levels, Last;
    LeftLevel(s, c, driver(Data(bits, false)), DataClocks(bits, false));
  }

  /** The way out. */
  lemma LeaveSuits(driver: Order -> seq<Pulse>, r: Register, c: Clock, after: seq<bool>, t: State)
    requires Able(driver) && t != Scan(r, Shift) && (after != [] ==> !c.tms)
    ensures var s, os := Scan(r, if after == [] then Exit1 else Shift), LeaveOrders(r, after, t);
            Suits(driver, s, c, os) && InPlace(s, os)
  {
    hide Able, Path, AtLevel, Levels, Alike, DataClocks, Tap.Run, TmsOf, NeverShifts, Easy, Carries, Promised;
    var s, exit := Scan(r, if after == [] then Exit1 else Shift), Scan(r, Exit1);
    var o, p := Data(after, after != []), Move(Path(exit, t), true);
    EasyLeave(r, t);
    EasyMove(exit, t);
    PaddingOut(driver, r, c, after);
    AbleCarries(driver, exit, Last(c, driver(o)), p);
    SuitsTwo(driver, s, c, o, p);
    InPlaceTwo(s, o, p);
  }

  lemma PaddingOut(driver: Order -> seq<Pulse>, r: Register, c: Clock, after: seq<bool>)
    requires Able(driver) && (after != [] ==> !c.tms)
    ensures var s, o := Scan(r, if after == [] then Exit1 else Shift), Data(after, after != []);
            Carries(driver, s, c, o) && Tap.Run(s, TmsOf(Promised(o))) == Scan(r, Exit1)
  {
    hide Able, Carries, Tap.Run, TmsOf, DataClocks;
    if after == [] {
      NothingCarried(driver, Scan(r, Exit1), c, false);
      assert DataClocks(after, false) == [];
      RunEmpty(Scan(r, Exit1));
    } else {
      AbleCarries(driver, Scan(r, Shift), c, Data(after, true));
      DataLeads(r, after, true);
    }
  }

  lemma NothingCarried(driver: Order -> seq<Pulse>, s: State, c: Clock, end: bool)
    requires Able(driver)
    ensures Carries(driver, s, c, Data([], end))
  {
  }

  /** The orders of a whole scan are carried out as promised, if TDI is high or the
      controllers do not shift when the scan begins with a move, and TMS is low when
      it goes on from an earlier chunk. */
  lemma ScanSuits(driver: Order -> seq<Pulse>, r: Register, s: State, c: Clock,
                  before: seq<bool>, bits: seq<bool>, after: seq<bool>, t: State)
    requires Able(driver) && (if s == Scan(r, Shift) then !c.tms else c.tdi || !InShift(s))
    requires bits != [] || after != [] || t == Scan(r, Shift)
    ensures var os := ScanOrders(r, s, before, bits, after, t);
            Suits(driver, s, c, os) && InPlace(s, os)
  {
    hide Able, Suits, InPlace, EnterOrders, LeaveOrders, Last, Made;
    hide PromisedAll, Alike, Levels, DataClocks, Tap.Run, TmsOf;
    var shift, enter, leave := Scan(r, Shift), EnterOrders(r, s, before), LeaveOrders(r, after, t);
    EnterSuits(driver, r, s, c, before);
    var d := Last(c, Made(driver, enter));
    PayloadSuits(driver, r, d, bits, after, t);
    SuitsAppend(driver, s, c, enter, [PayloadOrder(r, bits, after, t)] + leave);
    InPlaceAppend(s, enter, [PayloadOrder(r, bits, after, t)] + leave);
  }

  lemma PayloadSuits(driver: Order -> seq<Pulse>, r: Register, c: Clock, bits: seq<bool>, after: seq<bool>, t: State)
    requires Able(driver) && !c.tms && (bits != [] || after != [] || t == Scan(r, Shift))
    ensures var shift, os := Scan(r, Shift), [PayloadOrder(r, bits, after, t)] + LeaveOrders(r, after, t);
            Suits(driver, shift, c, os) && InPlace(shift, os)
  {
    hide Able, LeaveOrders, Levels, Alike, DataClocks, Carries, Tap.Run, TmsOf, Suits, InPlace, Last;
    var shift, o, leave := Scan(r, Shift), PayloadOrder(r, bits, after, t), LeaveOrders(r, after, t);
    AbleCarries(driver, shift, c, o);
    SuitsOne(driver, shift, c, o);
    PromisedOne(o);
    DataLeads(r, bits, o.end);
    var d := Last(c, driver(o));
    InPlaceTwo(shift, o, Move([], true));
    if t == shift {
      NoLeave(driver, r, d, after);
    } else {
      if after != [] { LeftLow(driver, shift, c, bits); }
      LeaveSuits(driver, r, d, after, t);
    }
    SuitsAppend(driver, shift, c, [o], leave);
    InPlaceAppend(shift, [o], leave);
  }

  lemma NoLeave(driver: Order -> seq<Pulse>, r: Register, c: Clock, after: seq<bool>)
    ensures var os := LeaveOrders(r, after, Scan(r, Shift));
            os == [] && forall s :: Suits(driver, s, c, os) && InPlace(s, os)
  {
  }

  /** A scan over a driver: the devices end up as under the contract, and the bits
      that come back with the payload are the payload's. So what is proved of the scans
      of `Jtag` holds over any such driver. */
  lemma ScanOverDriver(driver: Order -> seq<Pulse>, b: Board, x: Snapshot, c: Clock, r: Register,
                       before: seq<bool>, bits: seq<bool>, after: seq<bool>, t: State)
    requires Able(driver) && (if x.tap == Scan(r, Shift) then !c.tms else c.tdi || !InShift(x.tap))
    requires bits != [] || after != [] || t == Scan(r, Shift)
    ensures var os := ScanOrders(r, x.tap, before, bits, after, t);
            && Drive(b, x, Levels(c, Made(driver, os)))
               == Drive(b, x, Scans.ScanClocks(r, x.tap, before, bits, after, t))
            && var back, k := ReturnedOver(driver, b, x, c, os), if x.tap == Scan(r, Shift) then 0 else 1;
               && k < |back|
               && back[k] == Tdos(b, Drive(b, x, Scans.EnterClocks(r, x.tap, before)),
                                  Scans.PayloadClocks(r, bits, after, t))
  {
    hide Able, Suits, InPlace, Drive, Tdos, Levels, Made;
    hide ScanOrders, Scans.ScanClocks, Returned, ReturnedOver, PromisedAll;
    var os := ScanOrders(r, x.tap, before, bits, after, t);
    ScanSuits(driver, r, x.tap, c, before, bits, after, t);
    OrdersAreScan(r, x.tap, before, bits, after, t);
    DriverRefines(driver, b, x, c, os);
    DriverReturns(driver, b, x, c, os);
    PayloadReturned(b, x, r, before, bits, after, t);
  }

  /** The payload's bits among those that come back under the contract. */
  lemma PayloadReturned(b: Board, x: Snapshot, r: Register,
                        before: seq<bool>, bits: seq<bool>, after: seq<bool>, t: State)
    ensures var back := Returned(b, x, ScanOrders(r, x.tap, before, bits, after, t));
            var k := if x.tap == Scan(r, Shift) then 0 else 1;
            && k < |back|
            && back[k] == Tdos(b, Drive(b, x, Scans.EnterClocks(r, x.tap, before)),
                               Scans.PayloadClocks(r, bits, after, t))
  {
    hide Drive, Tdos, Path, AtLevel, DataClocks, LeaveOrders;
    var enter, o, leave := EnterOrders(r, x.tap, before), PayloadOrder(r, bits, after, t), LeaveOrders(r, after, t);
    var os := ScanOrders(r, x.tap, before, bits, after, t);
    if x.tap == Scan(r, Shift) {
      assert os == [o] + leave && os[0] == o;
      Scans.DriveNothing(b, x);
    } else {
      assert os[0] == enter[0] && os[1..][0] == enter[1] && os[1..][1..] == [o] + leave;
      var m, d := Promised(enter[0]), Promised(enter[1]);
      DriveAppend(b, x, m, d);
      var y := Drive(b, x, m);
      assert Returned(b, x, os) == [] + Returned(b, y, os[1..]);
      assert Returned(b, y, os[1..]) == [Tdos(b, y, d)] + Returned(b, Drive(b, y, d), [o] + leave);
      assert ([o] + leave)[0] == o;
    }
  }
}
