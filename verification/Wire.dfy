/**
 What a JTAG cable makes on its wires: clocks with TMS and TDI driven or held at
 their last level, and the TDO bits that come back.
 */
module Wire {
  import Bits
  import opened Chain
  import opened Tap

  /** A wire of a clock: driven, or left as it was. */
  datatype Level = Held | Driven(bit: bool)

  /** One TCK cycle. */
  datatype Pulse = Pulse(tms: Level, tdi: Level)

  /** TMS bits, with TDI driven or held. */
  function TmsPulses(bits: seq<bool>, tdi: Level): (r: seq<Pulse>)
    ensures |r| == |bits|
  {
    seq(|bits|, i requires 0 <= i < |bits| => Pulse(Driven(bits[i]), tdi))
  }

  lemma TmsAppend(x: seq<bool>, y: seq<bool>, tdi: Level)
    ensures TmsPulses(x + y, tdi) == TmsPulses(x, tdi) + TmsPulses(y, tdi)
  {
  }

  /** Clocks with both wires left alone. */
  function TckPulses(n: nat): (r: seq<Pulse>)
    ensures |r| == n
  {
    seq(n, i => Pulse(Held, Held))
  }

  lemma TckAppend(m: nat, n: nat)
    ensures TckPulses(m + n) == TckPulses(m) + TckPulses(n)
  {
  }

  /** What the target answers on TDO at a clock, given every clock up to it. */
  type Target = seq<Pulse> -> bool

  /** The TDO bits of clocks `p` after `h`. */
  function Seen(t: Target, h: seq<Pulse>, p: seq<Pulse>): (r: seq<bool>)
    ensures |r| == |p|
  {
    seq(|p|, i requires 0 <= i < |p| => t(h + p[..i + 1]))
  }

  lemma SeenAppend(t: Target, h: seq<Pulse>, p: seq<Pulse>, q: seq<Pulse>)
    ensures Seen(t, h, p + q) == Seen(t, h, p) + Seen(t, h + p, q)
  {
    var l, r := Seen(t, h, p + q), Seen(t, h, p) + Seen(t, h + p, q);
    forall i | 0 <= i < |p| + |q| ensures l[i] == r[i] {
      if i < |p| {
        assert (p + q)[..i + 1] == p[..i + 1];
      } else {
        assert h + (p + q)[..i + 1] == h + p + q[..i + 1 - |p|];
      }
    }
  }

  /** The levels at a clock, `c` being those before. */
  function At(c: Clock, p: Pulse): Clock {
    Clock(if p.tms.Held? then c.tms else p.tms.bit, if p.tdi.Held? then c.tdi else p.tdi.bit)
  }

  /** The levels on the wires. */
  function Levels(c: Clock, p: seq<Pulse>): (r: seq<Clock>)
    ensures |r| == |p|
    decreases |p|
  {
    if p == [] then [] else [At(c, p[0])] + Levels(At(c, p[0]), p[1..])
  }

  /** The levels after some clocks. */
  function Last(c: Clock, p: seq<Pulse>): Clock
    decreases |p|
  {
    if p == [] then c else Last(At(c, p[0]), p[1..])
  }

  lemma {:induction false} LevelsAppend(c: Clock, p: seq<Pulse>, q: seq<Pulse>)
    ensures Levels(c, p + q) == Levels(c, p) + Levels(Last(c, p), q) && Last(c, p + q) == Last(Last(c, p), q)
    decreases |p|
  {
    hide At;
    if p == [] {
      assert p + q == q;
    } else {
      assert (p + q)[1..] == p[1..] + q;
      LevelsAppend(At(c, p[0]), p[1..], q);
    }
  }

  /** The levels after some clocks are those at the last one. */
  lemma {:induction false} LastLevel(c: Clock, p: seq<Pulse>)
    requires p != []
    ensures Last(c, p) == Levels(c, p)[|p| - 1]
    decreases |p|
  {
    if |p| > 1 {
      LastLevel(At(c, p[0]), p[1..]);
    }
  }

  /** In a state that holds, the level TMS was left at is the one that holds: a
      cable that toggles TCK without driving TMS keeps the controllers there. */
  lemma HeldLevelHolds(s: State, tms: seq<bool>)
    requires tms != [] && Stable(Tap.Run(s, tms))
    ensures tms[|tms| - 1] == HoldLevel(Tap.Run(s, tms))
  {
    var n := |tms| - 1;
    Tap.RunAppend(s, tms[..n], [tms[n]]);
    assert tms == tms[..n] + [tms[n]];
    var u := Tap.Run(s, tms[..n]);
    assert Tap.Run(u, [tms[n]]) == Tap.Run(Tap.Step(u, tms[n]), []);
  }

  lemma {:induction false} TckLevels(c: Clock, n: nat)
    ensures Levels(c, TckPulses(n)) == AtLevel(Bits.Repeat(c.tms, n), c.tdi)
    decreases n
  {
    if n == 0 {
    } else {
      assert TckPulses(n)[1..] == TckPulses(n - 1);
      TckLevels(c, n - 1);
    }
  }

  /** Although it does not drive TMS, toggling in a state that holds makes the TMS
      levels the JTAG layer asks for, and keeps the controllers where they are; and
      in a shift state TMS has been left low, as a data transfer needs it. */
  lemma ToggleHolds(c: Clock, p: seq<Pulse>, s: State, n: nat)
    requires p != [] && Stable(Tap.Run(s, TmsOf(Levels(c, p))))
    ensures var u := Tap.Run(s, TmsOf(Levels(c, p)));
            && Last(c, p).tms == HoldLevel(u)
            && Levels(c, p + TckPulses(n)) == Levels(c, p) + AtLevel(Bits.Repeat(HoldLevel(u), n), Last(c, p).tdi)
            && Tap.Run(s, TmsOf(Levels(c, p + TckPulses(n)))) == u
  {
    hide TckPulses, Levels, Last, Stable, Tap.Run, HoldLevel;
    var x := Levels(c, p);
    var u := Tap.Run(s, TmsOf(x));
    LastLevel(c, p);
    HeldLevelHolds(s, TmsOf(x));
    LevelsAppend(c, p, TckPulses(n));
    TckLevels(Last(c, p), n);
    var level := HoldLevel(u);
    var y := AtLevel(Bits.Repeat(level, n), Last(c, p).tdi);
    assert TmsOf(x + y) == TmsOf(x) + TmsOf(y);
    assert TmsOf(y) == seq(n, i => level);
    Tap.RunAppend(s, TmsOf(x), TmsOf(y));
    Tap.HoldIff(u, n);
    assert seq(n, i => level) == seq(n, i => HoldLevel(u));
  }
}
