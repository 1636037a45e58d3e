/**
 The multi-segment write as it runs over the serial line: `multi_seg_write` on
 the host and `sd_write_multi` in the loader, interleaved in every possible way,
 with write errors on the card and timeouts on the host at any moment.

 The two are proved to move in lock step: the card always holds exactly the
 sectors acknowledged so far and at most one more, nothing is pending when the host
 sends a sector, and a host that returns normally has had every segment stored and
 nothing else touched.
 */
module SdWire {
  import opened SdBlob
  import opened U32

  /** The loader's answers; the line's other text is not looked at. */
  datatype Token = Ready | Go | K | X | Done | Fail

  /** Where the host is: `s` counts segments, `i` sectors in the segment. */
  datatype Host =
    | WaitReady | WaitGo
    | AtSegment(s: nat)
    | AtSector(s: nat, i: nat)
    | WaitAck(s: nat, i: nat)
    | WaitDone
    | Returned | Raised

  datatype Board =
    | Starting
    | ReadCount
    | ReadSegment(s: nat, count: nat)
    | ReadSector(s: nat, count: nat, lba: nat, n: nat, i: nat)
    | Finished
    | Stopped

  datatype State = State(host: Host, board: Board, card: seq<Sector>, down: seq<bv8>, up: seq<Token>)

  /** A sector write may fail before the card takes the sector, or after, when the
      card stays busy too long; `stored` says which. */
  datatype Event = HostSends | HostReads | HostTimesOut | BoardStarts(ok: bool) | BoardReads(ok: bool, stored: bool)

  function Init(card: seq<Sector>): State {
    State(WaitReady, Starting, card, [], [])
  }

  predicate Enabled(gs: seq<Segment>, st: State, e: Event) {
    match e
    case HostSends =>
      || (st.host.AtSegment? && st.host.s <= |gs|)
      || (st.host.AtSector? && st.host.s < |gs| && st.host.i < |gs[st.host.s].data|)
    case HostReads =>
      && st.up != []
      && (st.host.WaitReady? || st.host.WaitGo? || st.host.WaitDone?
          || (st.host.WaitAck? && st.host.s < |gs| && st.host.i < |gs[st.host.s].data|))
    case HostTimesOut => st.host.WaitReady? || st.host.WaitGo? || st.host.WaitAck? || st.host.WaitDone?
    case BoardStarts(_) => st.board.Starting?
    case BoardReads(_, _) =>
      match st.board
      case ReadCount => |st.down| >= 4
      case ReadSegment(s, count) => s >= count || |st.down| >= 8
      case ReadSector(_, _, lba, _, i) => |st.down| >= 512 && lba + i < |st.card|
      case _ => false
  }

  function HostSend(gs: seq<Segment>, st: State): State
    requires Enabled(gs, st, HostSends)
  {
    match st.host
    case AtSegment(s) =>
      if s == |gs| then st.(host := WaitDone)
      else st.(host := if gs[s].data == [] then AtSegment(s + 1) else AtSector(s, 0),
               down := st.down + (PackU32(gs[s].lba) + PackU32(|gs[s].data|)))
    case AtSector(s, i) => st.(host := WaitAck(s, i), down := st.down + gs[s].data[i])
  }

  function HostRead(gs: seq<Segment>, st: State): State
    requires Enabled(gs, st, HostReads)
  {
    var t, st' := st.up[0], st.(up := st.up[1..]);
    match st.host
    case WaitReady => if t == Ready then st'.(host := WaitGo, down := st.down + PackU32(|gs|)) else st'
    case WaitGo => if t == Go then st'.(host := AtSegment(0)) else st'
    case WaitAck(s, i) =>
      if t != K then st'.(host := Raised)
      else st'.(host := if i + 1 < |gs[s].data| then AtSector(s, i + 1) else AtSegment(s + 1))
    case WaitDone => if t == Done then st'.(host := Returned) else if t == Fail then st'.(host := Raised) else st'
  }

  function BoardRead(gs: seq<Segment>, st: State, ok: bool, stored: bool): State
    requires Enabled(gs, st, BoardReads(ok, stored))
  {
    match st.board
    case ReadCount =>
      var count := UnpackU32(st.down[..4]);
      var st' := st.(down := st.down[4..]);
      if count == 0 || count > MAX_SEGMENTS then st'.(board := Stopped, up := st.up + [Fail])
      else st'.(board := ReadSegment(0, count), up := st.up + [Go])
    case ReadSegment(s, count) =>
      if s >= count then st.(board := Finished, up := st.up + [Done])
      else
        var lba, n := UnpackU32(st.down[..4]), UnpackU32(st.down[4..8]);
        var st' := st.(down := st.down[8..]);
        if n == 0 || n > MAX_SECTORS then st'.(board := Stopped, up := st.up + [Fail])
        else st'.(board := ReadSector(s, count, lba, n, 0))
    case ReadSector(s, count, lba, n, i) =>
      var st' := st.(down := st.down[512..],
                     card := if ok || stored then st.card[lba + i := st.down[..512]] else st.card);
      if !ok then st'.(board := Stopped, up := st.up + [X, Fail])
      else st'.(board := if i + 1 < n then ReadSector(s, count, lba, n, i + 1) else ReadSegment(s + 1, count),
                up := st.up + [K])
  }

  function Step(gs: seq<Segment>, st: State, e: Event): State
    requires Enabled(gs, st, e)
  {
    match e
    case HostSends => HostSend(gs, st)
    case HostReads => HostRead(gs, st)
    case HostTimesOut => st.(host := Raised)
    case BoardStarts(ok) =>
      if ok then st.(board := ReadCount, up := st.up + [Ready]) else st.(board := Stopped)
    case BoardReads(ok, stored) => BoardRead(gs, st, ok, stored)
  }

  predicate Legal(gs: seq<Segment>, st: State, run: seq<Event>)
    decreases |run|
  {
    run == [] || (Enabled(gs, st, run[0]) && Legal(gs, Step(gs, st, run[0]), run[1..]))
  }

  function Final(gs: seq<Segment>, st: State, run: seq<Event>): State
    requires Legal(gs, st, run)
    decreases |run|
  {
    if run == [] then st else Final(gs, Step(gs, st, run[0]), run[1..])
  }

  // ---------------------------------------------------------------------
  // Lock step
  // ---------------------------------------------------------------------

  /** The segment header as it goes down the line. */
  function HeaderBytes(g: Segment): (r: seq<bv8>)
    ensures |r| == 8
  {
    PackU32(g.lba) + PackU32(|g.data|)
  }

  /** The board has stored `i` sectors of segment `s` and has read everything sent
      for them; `i` is less than the segment's length, or 0 after the last one. */
  predicate BoardAt(gs: seq<Segment>, b: Board, s: nat, i: nat) {
    if i > 0 then s < |gs| && b == ReadSector(s, |gs|, gs[s].lba, |gs[s].data|, i)
    else s <= |gs| && b == ReadSegment(s, |gs|)
  }

  /** The board waits for sector `i` of segment `s`, with `rest` on the line: for
      the first sector it may not have read the segment header yet. */
  predicate BoardExpects(gs: seq<Segment>, st: State, s: nat, i: nat, rest: seq<bv8>)
    requires s < |gs|
  {
    || (st.board == ReadSector(s, |gs|, gs[s].lba, |gs[s].data|, i) && st.down == rest)
    || (i == 0 && st.board == ReadSegment(s, |gs|) && st.down == HeaderBytes(gs[s]) + rest)
  }

  /** Position after sector `i` of segment `s`. */
  function After(gs: seq<Segment>, s: nat, i: nat): (nat, nat)
    requires s < |gs|
  {
    if i + 1 < |gs[s].data| then (s, i + 1) else (s + 1, 0)
  }

  predicate InLockStep(c: seq<Sector>, gs: seq<Segment>, st: State)
    requires Fit(c, gs) && Writable(gs)
  {
    match st.host
    case WaitReady =>
      && st.card == c && st.down == []
      && ((st.board == Starting && st.up == []) || (st.board == ReadCount && st.up == [Ready]))
    case WaitGo =>
      && st.card == c
      && ((st.board == ReadCount && st.down == PackU32(|gs|) && st.up == [])
          || (st.board == ReadSegment(0, |gs|) && st.down == [] && st.up == [Go]))
    case AtSegment(s) =>
      && s <= |gs| && st.card == Written(c, gs, s, 0) && st.down == []
      && ((st.board == ReadSegment(s, |gs|) && st.up == []) || (s == |gs| && st.board == Finished && st.up == [Done]))
    case AtSector(s, i) =>
      && s < |gs| && i < |gs[s].data| && st.card == Written(c, gs, s, i)
      && st.up == [] && BoardExpects(gs, st, s, i, [])
    case WaitAck(s, i) =>
      && s < |gs| && i < |gs[s].data|
      && (|| (st.card == Written(c, gs, s, i) && st.up == [] && BoardExpects(gs, st, s, i, gs[s].data[i]))
          || (var p := After(gs, s, i);
              && st.card == Written(c, gs, p.0, p.1) && st.down == []
              && (|| (st.up == [K] && BoardAt(gs, st.board, p.0, p.1))
                  || (p.0 == |gs| && st.up == [K, Done] && st.board == Finished))))
    case WaitDone =>
      && st.card == Written(c, gs, |gs|, 0) && st.down == []
      && ((st.board == ReadSegment(|gs|, |gs|) && st.up == []) || (st.board == Finished && st.up == [Done]))
    case Returned => st.card == Written(c, gs, |gs|, 0) && st.board == Finished
    case Raised => true
  }

  /** Whatever the host does, the card holds a prefix of the writes, and the line
      carries at most the rest of one sector's transfer. */
  ghost predicate PrefixWritten(c: seq<Sector>, gs: seq<Segment>, st: State)
    requires Fit(c, gs) && Writable(gs)
  {
    match st.board
    case Starting => st.card == c && st.down == []
    case ReadCount => st.card == c && (st.down == [] || st.down == PackU32(|gs|))
    case ReadSegment(s, count) =>
      && count == |gs| && s <= |gs| && st.card == Written(c, gs, s, 0)
      && (|| st.down == []
          || (s < |gs| && (st.down == HeaderBytes(gs[s]) || st.down == HeaderBytes(gs[s]) + gs[s].data[0])))
    case ReadSector(s, count, lba, n, i) =>
      && count == |gs| && s < |gs| && lba == gs[s].lba && n == |gs[s].data| && i < n
      && st.card == Written(c, gs, s, i) && (st.down == [] || st.down == gs[s].data[i])
    case Finished => st.card == Written(c, gs, |gs|, 0)
    case Stopped => PartWritten(c, gs, st.card)
  }

  /** The host has given up, or the loader has stopped on an error: then the host
      waits for a start that does not come, or for an acknowledgement and will find
      the error. */
  predicate Over(st: State) {
    || st.host.Raised?
    || (st.board.Stopped? && ((st.host.WaitReady? && st.up == []) || (st.host.WaitAck? && st.up == [X, Fail])))
  }

  ghost predicate Invariant(c: seq<Sector>, gs: seq<Segment>, st: State)
    requires Fit(c, gs) && Writable(gs)
  {
    PrefixWritten(c, gs, st) && (Over(st) || InLockStep(c, gs, st))
  }

  /** A card and a write the protocol is meant for. */
  predicate Suited(c: seq<Sector>, gs: seq<Segment>) {
    |c| < TWO_32 && Fit(c, gs) && Writable(gs)
  }

  lemma WrittenStep(c: seq<Sector>, gs: seq<Segment>, s: nat, i: nat)
    requires Suited(c, gs) && s < |gs| && i < |gs[s].data|
    ensures gs[s].lba + i < |c|
    ensures var p := After(gs, s, i);
            Written(c, gs, s, i)[gs[s].lba + i := gs[s].data[i]] == Written(c, gs, p.0, p.1)
  {
    hide Written;
    WrittenNext(c, gs, s, i);
    WrittenSegment(c, gs, s);
  }

  lemma HeaderParses(g: Segment, rest: seq<bv8>)
    requires g.lba < TWO_32 && |g.data| < TWO_32
    ensures var d := HeaderBytes(g) + rest;
            UnpackU32(d[..4]) == g.lba && UnpackU32(d[4..8]) == |g.data| && d[8..] == rest
  {
    hide PackU32, UnpackU32;
    var d := HeaderBytes(g) + rest;
    assert d[..4] == PackU32(g.lba) && d[4..8] == PackU32(|g.data|);
    U32RoundTrip(g.lba);
    U32RoundTrip(|g.data|);
  }

  lemma KeepsBoardSector(c: seq<Sector>, gs: seq<Segment>, st: State, ok: bool, stored: bool)
    requires Suited(c, gs) && Invariant(c, gs, st) && Enabled(gs, st, BoardReads(ok, stored)) && st.board.ReadSector?
    ensures Invariant(c, gs, Step(gs, st, BoardReads(ok, stored)))
  {
    hide Written, HeaderBytes;
    var s, i := st.board.s, st.board.i;
    WrittenStep(c, gs, s, i);
    assert st.down == gs[s].data[i];
    assert st.down[..512] == st.down && st.down[512..] == [];
    assert Position(gs, s, i);
    var q := After(gs, s, i);
    assert Position(gs, q.0, q.1);
  }

  lemma KeepsBoardSegment(c: seq<Sector>, gs: seq<Segment>, st: State, ok: bool, stored: bool)
    requires Suited(c, gs) && Invariant(c, gs, st) && Enabled(gs, st, BoardReads(ok, stored)) && st.board.ReadSegment?
    ensures Invariant(c, gs, Step(gs, st, BoardReads(ok, stored)))
  {
    hide Written, HeaderBytes, UnpackU32;
    var s := st.board.s;
    if s < |gs| {
      assert gs[s] in gs;
      HeaderParses(gs[s], []);
      HeaderParses(gs[s], gs[s].data[0]);
      assert HeaderBytes(gs[s]) + [] == HeaderBytes(gs[s]);
    }
  }

  lemma KeepsBoardCount(c: seq<Sector>, gs: seq<Segment>, st: State, ok: bool, stored: bool)
    requires Suited(c, gs) && Invariant(c, gs, st) && Enabled(gs, st, BoardReads(ok, stored)) && st.board.ReadCount?
    ensures Invariant(c, gs, Step(gs, st, BoardReads(ok, stored)))
  {
    hide UnpackU32, PackU32;
    U32RoundTrip(|gs|);
    assert st.down[..4] == st.down && st.down[4..] == [];
    WrittenStart(c, gs);
  }

  lemma KeepsHostSends(c: seq<Sector>, gs: seq<Segment>, st: State)
    requires Suited(c, gs) && Invariant(c, gs, st) && Enabled(gs, st, HostSends)
    ensures Invariant(c, gs, Step(gs, st, HostSends))
  {
    hide Written, PackU32;
    assert forall g :: g in gs ==> [] + HeaderBytes(g) == HeaderBytes(g);
    if st.host.AtSegment? && st.host.s < |gs| {
      assert gs[st.host.s] in gs;
      assert HeaderBytes(gs[st.host.s]) + [] == HeaderBytes(gs[st.host.s]);
    }
    if st.host.AtSector? {
      var sector := gs[st.host.s].data[st.host.i];
      assert [] + sector == sector;
      assert HeaderBytes(gs[st.host.s]) + [] == HeaderBytes(gs[st.host.s]);
    }
  }

  lemma KeepsHostReads(c: seq<Sector>, gs: seq<Segment>, st: State)
    requires Suited(c, gs) && Invariant(c, gs, st) && Enabled(gs, st, HostReads)
    ensures Invariant(c, gs, Step(gs, st, HostReads))
  {
    hide Written, PackU32, HeaderBytes;
    assert [] + PackU32(|gs|) == PackU32(|gs|);
    WrittenStart(c, gs);
  }

  lemma KeepsOthers(c: seq<Sector>, gs: seq<Segment>, st: State, e: Event)
    requires Suited(c, gs) && Invariant(c, gs, st) && Enabled(gs, st, e) && (e.HostTimesOut? || e.BoardStarts?)
    ensures Invariant(c, gs, Step(gs, st, e))
  {
    hide Written, WriteAll, PackU32, HeaderBytes, After;
    WrittenStart(c, gs);
    if e.BoardStarts? && !e.ok {
      assert Step(gs, st, e).card == Written(c, gs, 0, 0);
    }
  }

  lemma KeepsInvariant(c: seq<Sector>, gs: seq<Segment>, st: State, e: Event)
    requires Suited(c, gs) && Invariant(c, gs, st) && Enabled(gs, st, e)
    ensures Invariant(c, gs, Step(gs, st, e))
  {
    hide Invariant, Step;
    match e
    case HostSends => KeepsHostSends(c, gs, st);
    case HostReads => KeepsHostReads(c, gs, st);
    case BoardReads(ok, stored) =>
      if st.board.ReadCount? {
        KeepsBoardCount(c, gs, st, ok, stored);
      } else if st.board.ReadSegment? {
        KeepsBoardSegment(c, gs, st, ok, stored);
      } else {
        KeepsBoardSector(c, gs, st, ok, stored);
      }
    case _ => KeepsOthers(c, gs, st, e);
  }

  lemma {:induction false} RunKeepsInvariant(c: seq<Sector>, gs: seq<Segment>, st: State, run: seq<Event>)
    requires Suited(c, gs) && Invariant(c, gs, st) && Legal(gs, st, run)
    ensures Invariant(c, gs, Final(gs, st, run))
    decreases |run|
  {
    hide Invariant, Step, Enabled;
    if run == [] {
    } else {
      KeepsInvariant(c, gs, st, run[0]);
      RunKeepsInvariant(c, gs, Step(gs, st, run[0]), run[1..]);
    }
  }

  // ---------------------------------------------------------------------
  // The guarantees
  // ---------------------------------------------------------------------

  /** A host that returns normally has had every segment written and nothing else,
      over every run. */
  lemma ReturnMeansWritten(c: seq<Sector>, gs: seq<Segment>, run: seq<Event>)
    requires Suited(c, gs) && Legal(gs, Init(c), run)
    ensures var st := Final(gs, Init(c), run);
            st.host.Returned? ==> st.card == WriteAll(c, gs)
  {
    hide Step, Enabled, PackU32, HeaderBytes, WriteAll;
    WrittenStart(c, gs);
    RunKeepsInvariant(c, gs, Init(c), run);
    assert gs[..|gs|] == gs;
  }

  /** Over every run, including those with write errors and timeouts, the card is
      the initial card with a prefix of the sector writes applied. */
  lemma AlwaysAPrefix(c: seq<Sector>, gs: seq<Segment>, run: seq<Event>)
    requires Suited(c, gs) && Legal(gs, Init(c), run)
    ensures var st := Final(gs, Init(c), run);
            PartWritten(c, gs, st.card)
  {
    hide Step, Enabled, PackU32, HeaderBytes, Written;
    WrittenStart(c, gs);
    RunKeepsInvariant(c, gs, Init(c), run);
    var st := Final(gs, Init(c), run);
    if st.board.Starting? || st.board.ReadCount? {
      assert Position(gs, 0, 0) && st.card == Written(c, gs, 0, 0);
    } else if st.board.ReadSegment? {
      assert Position(gs, st.board.s, 0);
    } else if st.board.ReadSector? {
      assert Position(gs, st.board.s, st.board.i);
    } else if st.board.Finished? {
      assert Position(gs, |gs|, 0);
    }
  }

  /** Whenever the host is about to send a sector, no reply is pending and the card
      holds exactly the sectors before it, all of them acknowledged. */
  lemma NothingPendingAtSend(c: seq<Sector>, gs: seq<Segment>, run: seq<Event>)
    requires Suited(c, gs) && Legal(gs, Init(c), run)
    ensures var st := Final(gs, Init(c), run);
            st.host.AtSector? ==>
              && st.up == []
              && Position(gs, st.host.s, st.host.i)
              && st.card == Written(c, gs, st.host.s, st.host.i)
  {
    hide Step, Enabled, PackU32, HeaderBytes, Written;
    WrittenStart(c, gs);
    RunKeepsInvariant(c, gs, Init(c), run);
  }

  /** Sectors outside all segments are untouched at every moment of every run. */
  lemma OthersUntouched(c: seq<Sector>, gs: seq<Segment>, run: seq<Event>, lba: nat)
    requires Suited(c, gs) && Legal(gs, Init(c), run) && lba < |c|
    requires forall g :: g in gs ==> Apart(g, lba, 1)
    ensures var st := Final(gs, Init(c), run);
            |st.card| == |c| && st.card[lba] == c[lba]
  {
    hide Step, Enabled, PackU32, HeaderBytes, Written, Legal, Final;
    AlwaysAPrefix(c, gs, run);
    var st := Final(gs, Init(c), run);
    var s: nat, i: nat :| Position(gs, s, i) && st.card == Written(c, gs, s, i);
    WrittenKeeps(c, gs, s, i, lba);
  }

  lemma WrittenKeeps(c: seq<Sector>, gs: seq<Segment>, s: nat, i: nat, lba: nat)
    requires Fit(c, gs) && Position(gs, s, i) && lba < |c|
    requires forall g :: g in gs ==> Apart(g, lba, 1)
    ensures Written(c, gs, s, i)[lba] == c[lba]
  {
    hide WriteAll;
    WriteAllKeeps(c, gs[..s], lba);
    if i > 0 {
      assert gs[s] in gs && Apart(gs[s], lba, 1);
    }
  }

  // ---------------------------------------------------------------------
  // And it can succeed
  // ---------------------------------------------------------------------

  /** The events that transfer everything from sector `i` of segment `s` on when
      nothing goes wrong; a segment starts with its header. */
  function QuietRun(gs: seq<Segment>, s: nat, i: nat): seq<Event>
    requires s <= |gs|
    decreases |gs| - s, if s < |gs| then |gs[s].data| + 1 - i else 0
  {
    if s == |gs| then [HostSends, BoardReads(true, true), HostReads]
    else
      (if i == 0 then [HostSends, BoardReads(true, true)] else [])
      + [HostSends, BoardReads(true, true), HostReads]
      + if i + 1 < |gs[s].data| then QuietRun(gs, s, i + 1) else QuietRun(gs, s + 1, 0)
  }

  /** Both sides between two segments. */
  predicate Between(gs: seq<Segment>, st: State, s: nat) {
    s <= |gs| && st.host == AtSegment(s) && st.board == ReadSegment(s, |gs|) && st.down == [] && st.up == []
  }

  /** Both sides at sector `i` of segment `s`. */
  predicate Within(gs: seq<Segment>, st: State, s: nat, i: nat) {
    && s < |gs| && i < |gs[s].data| && st.host == AtSector(s, i)
    && st.board == ReadSector(s, |gs|, gs[s].lba, |gs[s].data|, i) && st.down == [] && st.up == []
  }

  lemma HeaderRound(gs: seq<Segment>, st: State, s: nat)
    requires Suited(st.card, gs) && Between(gs, st, s) && s < |gs|
    ensures Enabled(gs, st, HostSends)
    ensures var t := Step(gs, st, HostSends);
            && Enabled(gs, t, BoardReads(true, true))
            && Within(gs, Step(gs, t, BoardReads(true, true)), s, 0)
            && |Step(gs, t, BoardReads(true, true)).card| == |st.card|
  {
    hide PackU32, UnpackU32;
    assert gs[s] in gs;
    HeaderParses(gs[s], []);
    assert [] + HeaderBytes(gs[s]) == HeaderBytes(gs[s]) + [];
  }

  lemma SectorRound(gs: seq<Segment>, st: State, s: nat, i: nat)
    requires Suited(st.card, gs) && Within(gs, st, s, i)
    ensures Enabled(gs, st, HostSends)
    ensures var t := Step(gs, st, HostSends);
            && Enabled(gs, t, BoardReads(true, true))
            && var u := Step(gs, t, BoardReads(true, true));
               && Enabled(gs, u, HostReads)
               && var v := Step(gs, u, HostReads);
                  && |v.card| == |st.card|
                  && if i + 1 < |gs[s].data| then Within(gs, v, s, i + 1) else Between(gs, v, s + 1)
  {
    assert gs[s] in gs;
    var sector := gs[s].data[i];
    assert [] + sector == sector && sector[512..] == [];
  }

  lemma EndRound(gs: seq<Segment>, st: State)
    requires Between(gs, st, |gs|)
    ensures Enabled(gs, st, HostSends)
    ensures var t := Step(gs, st, HostSends);
            && Enabled(gs, t, BoardReads(true, true))
            && var u := Step(gs, t, BoardReads(true, true));
               Enabled(gs, u, HostReads) && Step(gs, u, HostReads).host == Returned
  {
  }

  lemma {:induction false} TwoThen(gs: seq<Segment>, st: State, e: Event, f: Event, rest: seq<Event>)
    requires Enabled(gs, st, e) && Enabled(gs, Step(gs, st, e), f)
    ensures var u := Step(gs, Step(gs, st, e), f);
            && (Legal(gs, st, [e, f] + rest) <==> Legal(gs, u, rest))
            && (Legal(gs, u, rest) ==> Final(gs, st, [e, f] + rest) == Final(gs, u, rest))
  {
    hide Step, Enabled;
    var run := [e, f] + rest;
    assert run[0] == e && run[1..][0] == f && run[1..][1..] == rest;
    var t := Step(gs, st, e);
    assert Legal(gs, t, run[1..]) <==> Legal(gs, Step(gs, t, f), rest);
  }

  lemma {:induction false} OneThen(gs: seq<Segment>, st: State, e: Event, rest: seq<Event>)
    requires Enabled(gs, st, e)
    ensures var u := Step(gs, st, e);
            && (Legal(gs, st, [e] + rest) <==> Legal(gs, u, rest))
            && (Legal(gs, u, rest) ==> Final(gs, st, [e] + rest) == Final(gs, u, rest))
  {
    hide Step, Enabled;
    var run := [e] + rest;
    assert run[0] == e && run[1..] == rest;
  }

  lemma {:induction false} QuietRunReturns(gs: seq<Segment>, st: State, s: nat, i: nat)
    requires Suited(st.card, gs)
    requires if i == 0 then Between(gs, st, s) else Within(gs, st, s, i)
    ensures Legal(gs, st, QuietRun(gs, s, i)) && Final(gs, st, QuietRun(gs, s, i)).host == Returned
    decreases |gs| - s, (if s < |gs| then |gs[s].data| - i + 1 else 0), 0
  {
    hide Step, Enabled, Legal, Final, QuietRun, Within, Between;
    if s == |gs| {
      SegmentsLeft(gs, st, s, i);
      EndRound(gs, st);
      var u := Step(gs, Step(gs, st, HostSends), BoardReads(true, true));
      TwoThen(gs, st, HostSends, BoardReads(true, true), [HostReads]);
      OneThen(gs, u, HostReads, []);
      NothingThen(gs, Step(gs, u, HostReads));
      QuietRunEnds(gs, i);
    } else {
      SegmentsLeft(gs, st, s, i);
      var rest := if i + 1 < |gs[s].data| then QuietRun(gs, s, i + 1) else QuietRun(gs, s + 1, 0);
      var tail := [HostSends, BoardReads(true, true)] + ([HostReads] + rest);
      QuietRunIs(gs, s, i, rest, tail);
      var st' := st;
      if i == 0 {
        HeaderRound(gs, st, s);
        TwoThen(gs, st, HostSends, BoardReads(true, true), tail);
        st' := Step(gs, Step(gs, st, HostSends), BoardReads(true, true));
      }
      QuietTail(gs, st', s, i, rest);
    }
  }

  lemma {:induction false} QuietTail(gs: seq<Segment>, st: State, s: nat, i: nat, rest: seq<Event>)
    requires Suited(st.card, gs) && Within(gs, st, s, i)
    requires rest == if i + 1 < |gs[s].data| then QuietRun(gs, s, i + 1) else QuietRun(gs, s + 1, 0)
    ensures var tail := [HostSends, BoardReads(true, true)] + ([HostReads] + rest);
            Legal(gs, st, tail) && Final(gs, st, tail).host == Returned
    decreases |gs| - s, |gs[s].data| - i, 1
  {
    hide Step, Enabled, Legal, Final, QuietRun, Between;
    SectorRound(gs, st, s, i);
    var u := Step(gs, Step(gs, st, HostSends), BoardReads(true, true));
    TwoThen(gs, st, HostSends, BoardReads(true, true), [HostReads] + rest);
    OneThen(gs, u, HostReads, rest);
    var v := Step(gs, u, HostReads);
    if i + 1 < |gs[s].data| {
      QuietRunReturns(gs, v, s, i + 1);
    } else {
      QuietRunReturns(gs, v, s + 1, 0);
    }
  }

  lemma SegmentsLeft(gs: seq<Segment>, st: State, s: nat, i: nat)
    requires Writable(gs) && if i == 0 then Between(gs, st, s) else Within(gs, st, s, i)
    ensures s <= |gs| && (s == |gs| ==> i == 0) && (s < |gs| ==> i < |gs[s].data|)
  {
    if s < |gs| { assert gs[s] in gs; }
  }

  lemma NothingThen(gs: seq<Segment>, st: State)
    ensures Legal(gs, st, []) && Final(gs, st, []) == st
  {
  }

  lemma QuietRunEnds(gs: seq<Segment>, i: nat)
    ensures QuietRun(gs, |gs|, i) == [HostSends, BoardReads(true, true)] + [HostReads]
    ensures [HostReads] + [] == [HostReads]
  {
  }

  lemma QuietRunIs(gs: seq<Segment>, s: nat, i: nat, rest: seq<Event>, tail: seq<Event>)
    requires s < |gs|
    requires rest == if i + 1 < |gs[s].data| then QuietRun(gs, s, i + 1) else QuietRun(gs, s + 1, 0)
    requires tail == [HostSends, BoardReads(true, true)] + ([HostReads] + rest)
    ensures QuietRun(gs, s, i) == if i == 0 then [HostSends, BoardReads(true, true)] + tail else tail
  {
  }

  /** When nothing fails, the host does return, with everything on the card. */
  lemma WriteCanSucceed(c: seq<Sector>, gs: seq<Segment>)
    requires Suited(c, gs)
    ensures var run := [BoardStarts(true), HostReads] + ([BoardReads(true, true), HostReads] + QuietRun(gs, 0, 0));
            && Legal(gs, Init(c), run)
            && Final(gs, Init(c), run).host == Returned && Final(gs, Init(c), run).card == WriteAll(c, gs)
  {
    var st := Init(c);
    var rest := [BoardReads(true, true), HostReads] + QuietRun(gs, 0, 0);
    var t := Step(gs, Step(gs, st, BoardStarts(true)), HostReads);
    assert [] + PackU32(|gs|) == PackU32(|gs|);
    CountRound(gs, t);
    var u := Step(gs, Step(gs, t, BoardReads(true, true)), HostReads);
    hide Step, Enabled, PackU32, UnpackU32;
    TwoThen(gs, st, BoardStarts(true), HostReads, rest);
    TwoThen(gs, t, BoardReads(true, true), HostReads, QuietRun(gs, 0, 0));
    QuietRunReturns(gs, u, 0, 0);
    ReturnMeansWritten(c, gs, [BoardStarts(true), HostReads] + rest);
  }

  lemma CountRound(gs: seq<Segment>, st: State)
    requires Writable(gs) && st.host == WaitGo && st.board == ReadCount && st.down == PackU32(|gs|) && st.up == []
    ensures Enabled(gs, st, BoardReads(true, true)) && Enabled(gs, Step(gs, st, BoardReads(true, true)), HostReads)
    ensures var u := Step(gs, Step(gs, st, BoardReads(true, true)), HostReads); Between(gs, u, 0) && u.card == st.card
  {
    hide PackU32, UnpackU32;
    U32RoundTrip(|gs|);
    assert st.down[..4] == st.down && st.down[4..] == [];
  }
}
