/**
 `patch_dtb_initrd_end`: replace the sentinel C0 DE DE AD in a device tree blob
 by the big-endian end address of the initrd, scanning and writing the same
 array in one pass.

 Because the scan goes on inside what it has just written, a patched address can
 complete a new sentinel with the bytes after it. The loop is proved to patch
 exactly the sentinels that were there if and only if no original sentinel is
 followed by such bytes, and an initrd whose size is a multiple of an XMODEM
 block is proved never to produce one.
 */
module Dtb {
  import Bits
  import opened Memory
  import opened U32

  const INITRD_LOAD_ADDR := 0x41F8_0000
  const SENTINEL: seq<bv8> := [0xC0, 0xDE, 0xDE, 0xAD]

  /** `real_end` as a devicetree cell, in 32-bit arithmetic. */
  function EndBytes(initrdSize: nat): (r: seq<bv8>)
    ensures |r| == 4
  {
    BigEndian((INITRD_LOAD_ADDR + initrdSize) % TWO_32)
  }

  /** A sentinel starts at `i`. */
  predicate Match(s: seq<bv8>, i: nat) {
    i + 4 <= |s| && s[i..i + 4] == SENTINEL
  }

  /** What the loop does from position `i` on: content and count. */
  function Scan(s: seq<bv8>, i: nat, e: seq<bv8>): (r: (seq<bv8>, nat))
    requires |e| == 4
    ensures |r.0| == |s|
    decreases |s| - i
  {
    if i + 4 > |s| then (s, 0)
    else if Match(s, i) then
      var r := Scan(Placed(s, i, e), i + 1, e);
      (r.0, r.1 + 1)
    else Scan(s, i + 1, e)
  }

  /** The loader's loop, on the `len` bytes at `base`. */
  method PatchInitrdEnd(mem: array<bv8>, base: nat, len: nat, initrdSize: nat) returns (patched: nat)
    requires base + len <= mem.Length
    modifies mem
    ensures var r := Scan(old(mem[..])[base..base + len], 0, EndBytes(initrdSize));
            mem[..] == Placed(old(mem[..]), base, r.0) && patched == r.1
  {
    hide BigEndian, Scan, Match, Placed;
    var realEnd := (INITRD_LOAD_ADDR + initrdSize) % TWO_32;
    ghost var e, was, cur := EndBytes(initrdSize), mem[..], mem[..][base..base + len];
    ghost var first := cur;
    PlacedBack(was, base, len);
    patched := 0;
    var i := 0;
    while i + 4 <= len
      invariant 0 <= i && |cur| == len
      invariant mem[..] == Placed(was, base, cur)
      invariant Scan(first, 0, e) == Plus(Scan(cur, i, e), patched)
      decreases len - i
    {
      var at := base + i;
      PlacedAt(was, base, cur, i);
      assert mem[at] == cur[i] && mem[at + 1] == cur[i + 1] && mem[at + 2] == cur[i + 2] && mem[at + 3] == cur[i + 3];
      MatchBytes(cur, i);
      ScanStep(cur, i, e, patched);
      if mem[at] == 0xC0 && mem[at + 1] == 0xDE && mem[at + 2] == 0xDE && mem[at + 3] == 0xAD {
        var bytes := BigEndian(realEnd);
        ghost var before := mem[..];
        mem[at], mem[at + 1], mem[at + 2], mem[at + 3] := bytes[0], bytes[1], bytes[2], bytes[3];
        FourBytes(before, at, bytes, mem[..]);
        PlacedInside(was, base, cur, i, bytes);
        cur := Placed(cur, i, bytes);
        patched := patched + 1;
      }
      i := i + 1;
    }
    ScanEnd(cur, i, e);
  }

  lemma PlacedBack(m: seq<bv8>, base: nat, len: nat)
    requires base + len <= |m|
    ensures Placed(m, base, m[base..base + len]) == m
  {
  }

  lemma PlacedAt(m: seq<bv8>, base: nat, cur: seq<bv8>, i: nat)
    requires base + |cur| <= |m| && i + 4 <= |cur|
    ensures var r := Placed(m, base, cur);
            && r[base + i] == cur[i] && r[base + i + 1] == cur[i + 1]
            && r[base + i + 2] == cur[i + 2] && r[base + i + 3] == cur[i + 3]
  {
  }

  lemma FourBytes(m: seq<bv8>, at: nat, b: seq<bv8>, n: seq<bv8>)
    requires |b| == 4 && at + 4 <= |m|
    requires n == m[at := b[0]][at + 1 := b[1]][at + 2 := b[2]][at + 3 := b[3]]
    ensures n == Placed(m, at, b)
  {
  }

  function Plus(r: (seq<bv8>, nat), n: nat): (seq<bv8>, nat) {
    (r.0, r.1 + n)
  }

  lemma ScanStep(s: seq<bv8>, i: nat, e: seq<bv8>, n: nat)
    requires |e| == 4 && i + 4 <= |s|
    ensures Plus(Scan(s, i, e), n)
         == if Match(s, i) then Plus(Scan(Placed(s, i, e), i + 1, e), n + 1) else Plus(Scan(s, i + 1, e), n)
  {
  }

  lemma ScanEnd(s: seq<bv8>, i: nat, e: seq<bv8>)
    requires |e| == 4 && i + 4 > |s|
    ensures Scan(s, i, e) == (s, 0)
  {
  }

  // ---------------------------------------------------------------------
  // What the patch should be
  // ---------------------------------------------------------------------

  /** Number of sentinels at or after `i`. */
  function Count(s: seq<bv8>, i: nat): nat
    decreases |s| - i
  {
    if i + 4 > |s| then 0 else (if Match(s, i) then 1 else 0) + Count(s, i + 1)
  }

  /** Byte `t` with every sentinel at or after `i` replaced. */
  function PatchedByte(s: seq<bv8>, i: nat, e: seq<bv8>, t: nat): bv8
    requires |e| == 4 && t < |s|
  {
    if t >= i && Match(s, t) then e[0]
    else if t >= i + 1 && Match(s, t - 1) then e[1]
    else if t >= i + 2 && Match(s, t - 2) then e[2]
    else if t >= i + 3 && Match(s, t - 3) then e[3]
    else s[t]
  }

  function Patched(s: seq<bv8>, i: nat, e: seq<bv8>): (r: seq<bv8>)
    requires |e| == 4
    ensures |r| == |s|
  {
    seq(|s|, t requires 0 <= t < |s| => PatchedByte(s, i, e, t))
  }

  /** The new bytes at `i` complete a sentinel with the bytes after them. */
  predicate Spurious(s: seq<bv8>, i: nat, e: seq<bv8>)
    requires |e| == 4 && i + 4 <= |s|
  {
    var w := Placed(s, i, e);
    Match(w, i + 1) || Match(w, i + 2) || Match(w, i + 3)
  }

  /** No sentinel at or after `i` is followed by such bytes. */
  predicate Clean(s: seq<bv8>, i: nat, e: seq<bv8>)
    requires |e| == 4
  {
    forall j :: i <= j < |s| - 3 ==> Match(s, j) ==> !Spurious(s, j, e)
  }

  // ---------------------------------------------------------------------
  // Sentinels in sequences
  // ---------------------------------------------------------------------

  lemma MatchBytes(s: seq<bv8>, i: nat)
    requires i + 4 <= |s|
    ensures Match(s, i) <==> s[i] == 0xC0 && s[i + 1] == 0xDE && s[i + 2] == 0xDE && s[i + 3] == 0xAD
  {
    var w := s[i..i + 4];
    assert w[0] == s[i] && w[1] == s[i + 1] && w[2] == s[i + 2] && w[3] == s[i + 3];
  }

  lemma MatchIs(s: seq<bv8>, i: nat)
    requires Match(s, i)
    ensures i + 4 <= |s| && s[i..i + 4] == [0xC0, 0xDE, 0xDE, 0xAD]
  {
  }

  lemma MatchTail(s: seq<bv8>, i: nat, j: nat)
    requires Match(s, i) && i < j < i + 4
    ensures s[j] != 0xC0
  {
    MatchBytes(s, i);
    assert j == i + 1 || j == i + 2 || j == i + 3;
  }

  /** Sentinels do not overlap. */
  lemma NoOverlap(s: seq<bv8>, i: nat)
    requires Match(s, i)
    ensures !Match(s, i + 1) && !Match(s, i + 2) && !Match(s, i + 3)
  {
    MatchBytes(s, i);
    if i + 5 <= |s| { MatchBytes(s, i + 1); }
    if i + 6 <= |s| { MatchBytes(s, i + 2); }
    if i + 7 <= |s| { MatchBytes(s, i + 3); }
  }

  lemma SameMatch(s: seq<bv8>, t: seq<bv8>, i: nat, j: nat)
    requires SameFrom(s, t, i) && i <= j
    ensures Match(s, j) <==> Match(t, j)
  {
    if j + 4 <= |s| {
      assert s[j..j + 4] == t[j..j + 4];
    }
  }

  lemma {:induction false} SameCount(s: seq<bv8>, t: seq<bv8>, i: nat)
    requires SameFrom(s, t, i)
    ensures Count(s, i) == Count(t, i)
    decreases |s| - i
  {
    if i + 4 <= |s| {
      SameMatch(s, t, i, i);
      SameCount(s, t, i + 1);
    }
  }

  lemma WriteLeavesRest(s: seq<bv8>, i: nat, e: seq<bv8>)
    requires |e| == 4 && i + 4 <= |s|
    ensures SameFrom(s, Placed(s, i, e), i + 4)
    ensures Placed(s, i, e)[..i] == s[..i] && Placed(s, i, e)[i..i + 4] == e
  {
  }

  lemma SameSpurious(s: seq<bv8>, t: seq<bv8>, i: nat, j: nat, e: seq<bv8>)
    requires |e| == 4 && SameFrom(s, t, i) && i <= j && j + 4 <= |s|
    ensures Spurious(s, j, e) <==> Spurious(t, j, e)
  {
    var v, w := Placed(s, j, e), Placed(t, j, e);
    assert SameFrom(v, w, j);
    SameMatch(v, w, j, j + 1);
    SameMatch(v, w, j, j + 2);
    SameMatch(v, w, j, j + 3);
  }

  lemma SameClean(s: seq<bv8>, t: seq<bv8>, i: nat, e: seq<bv8>)
    requires |e| == 4 && SameFrom(s, t, i)
    ensures Clean(s, i, e) <==> Clean(t, i, e)
  {
    forall j | i <= j && j + 4 <= |s|
      ensures (Match(s, j) ==> !Spurious(s, j, e)) <==> (Match(t, j) ==> !Spurious(t, j, e))
    {
      SameMatch(s, t, i, j);
      SameSpurious(s, t, i, j, e);
    }
  }

  lemma CountSkip(s: seq<bv8>, i: nat, n: nat)
    requires i + 4 <= |s| && n <= 3
    requires n >= 1 ==> !Match(s, i + 1)
    requires n >= 2 ==> !Match(s, i + 2)
    requires n >= 3 ==> !Match(s, i + 3)
    ensures Count(s, i) == (if Match(s, i) then 1 else 0) + Count(s, i + 1 + n)
  {
    assert n >= 1 ==> Count(s, i + 1) == Count(s, i + 2);
    assert n >= 2 ==> Count(s, i + 2) == Count(s, i + 3);
    assert n >= 3 ==> Count(s, i + 3) == Count(s, i + 4);
  }

  lemma ScanSkip(s: seq<bv8>, i: nat, n: nat, e: seq<bv8>)
    requires |e| == 4 && n <= 3
    requires n >= 1 ==> !Match(s, i)
    requires n >= 2 ==> !Match(s, i + 1)
    requires n >= 3 ==> !Match(s, i + 2)
    ensures Scan(s, i, e) == Scan(s, i + n, e)
  {
    assert n >= 1 ==> Scan(s, i, e) == Scan(s, i + 1, e);
    assert n >= 2 ==> Scan(s, i + 1, e) == Scan(s, i + 2, e);
    assert n >= 3 ==> Scan(s, i + 2, e) == Scan(s, i + 3, e);
  }

  // ---------------------------------------------------------------------
  // The loop patches exactly the sentinels, if and only if it is clean
  // ---------------------------------------------------------------------

  lemma CleanSkip(s: seq<bv8>, i: nat, e: seq<bv8>)
    requires |e| == 4 && i + 4 <= |s| && Match(s, i) && !Spurious(s, i, e)
    ensures Clean(s, i, e) <==> Clean(Placed(s, i, e), i + 4, e)
  {
    NoOverlap(s, i);
    WriteLeavesRest(s, i, e);
    SameClean(s, Placed(s, i, e), i + 4, e);
    hide Spurious, Match, Placed;
    assert Clean(s, i, e) <==> Clean(s, i + 4, e) by {
      if Clean(s, i + 4, e) {
        forall j | i <= j < |s| - 3 && Match(s, j) ensures !Spurious(s, j, e) {
          assert j == i || j == i + 1 || j == i + 2 || j == i + 3 || j >= i + 4;
        }
      }
    }
  }

  lemma CleanStep(s: seq<bv8>, i: nat, e: seq<bv8>)
    requires |e| == 4 && i + 4 <= |s| && Match(s, i) && !Spurious(s, i, e)
    ensures Scan(s, i, e) == (var r := Scan(Placed(s, i, e), i + 4, e); (r.0, r.1 + 1))
    ensures Count(s, i) == 1 + Count(Placed(s, i, e), i + 4)
  {
    hide Match, Count;
    var w := Placed(s, i, e);
    NoOverlap(s, i);
    CountSkip(s, i, 3);
    WriteLeavesRest(s, i, e);
    SameCount(s, w, i + 4);
    ScanSkip(w, i + 1, 3, e);
  }

  lemma PatchedStep(s: seq<bv8>, i: nat, e: seq<bv8>)
    requires |e| == 4 && i + 4 <= |s| && Match(s, i)
    ensures Patched(Placed(s, i, e), i + 4, e) == Patched(s, i, e)
  {
    hide Match;
    var w := Placed(s, i, e);
    WriteLeavesRest(s, i, e);
    NoOverlap(s, i);
    forall t | 0 <= t < |s| ensures PatchedByte(w, i + 4, e, t) == PatchedByte(s, i, e, t) {
      if t >= i + 4 { SameMatch(s, w, i + 4, t); }
      if t >= i + 5 { SameMatch(s, w, i + 4, t - 1); }
      if t >= i + 6 { SameMatch(s, w, i + 4, t - 2); }
      if t >= i + 7 { SameMatch(s, w, i + 4, t - 3); }
      if i <= t < i + 4 {
        assert w[t] == e[t - i];
      }
    }
  }

  lemma PatchedNoStep(s: seq<bv8>, i: nat, e: seq<bv8>)
    requires |e| == 4 && !Match(s, i)
    ensures Patched(s, i + 1, e) == Patched(s, i, e)
  {
    hide Match;
  }

  lemma {:induction false} CleanScan(s: seq<bv8>, i: nat, e: seq<bv8>)
    requires |e| == 4 && Clean(s, i, e)
    ensures Scan(s, i, e) == (Patched(s, i, e), Count(s, i))
    decreases |s| - i
  {
    if i + 4 > |s| {
      assert Patched(s, i, e) == s;
    } else if Match(s, i) {
      CleanStep(s, i, e);
      CleanSkip(s, i, e);
      PatchedStep(s, i, e);
      hide Match, Spurious, Patched;
      CleanScan(Placed(s, i, e), i + 4, e);
    } else {
      PatchedNoStep(s, i, e);
      hide Match, Spurious, Patched;
      CleanScan(s, i + 1, e);
    }
  }

  /** Any scan counts at least the sentinels, and more when one is followed by
      bytes that complete another. */
  lemma {:induction false} ScanCounts(s: seq<bv8>, i: nat, e: seq<bv8>)
    requires |e| == 4
    ensures Scan(s, i, e).1 >= Count(s, i)
    ensures !Clean(s, i, e) ==> Scan(s, i, e).1 > Count(s, i)
    decreases |s| - i
  {
    if i + 4 > |s| {
    } else if !Match(s, i) {
      hide Match, Spurious;
      ScanCounts(s, i + 1, e);
    } else if !Spurious(s, i, e) {
      CleanStep(s, i, e);
      CleanSkip(s, i, e);
      hide Match, Spurious;
      ScanCounts(Placed(s, i, e), i + 4, e);
    } else {
      ExtraPatch(s, i, e, 1);
    }
  }

  /** After a spurious match `k` bytes on, at least all later sentinels are still
      counted, on top of two. */
  lemma {:induction false} ExtraPatch(s: seq<bv8>, i: nat, e: seq<bv8>, k: nat)
    requires |e| == 4 && i + 4 <= |s| && Match(s, i) && 1 <= k <= 3
    requires Spurious(s, i, e)
    requires var w := Placed(s, i, e); (k >= 2 ==> !Match(w, i + 1)) && (k >= 3 ==> !Match(w, i + 2))
    ensures Scan(s, i, e).1 > Count(s, i)
    decreases |s| - i, 4 - k
  {
    var w := Placed(s, i, e);
    if !Match(w, i + k) {
      ExtraPatch(s, i, e, k + 1);
    } else {
      ExtraPatchAt(s, i, e, k);
    }
  }

  lemma {:induction false} ExtraPatchAt(s: seq<bv8>, i: nat, e: seq<bv8>, k: nat)
    requires |e| == 4 && i + 4 <= |s| && Match(s, i) && 1 <= k <= 3
    requires var w := Placed(s, i, e); (k >= 2 ==> !Match(w, i + 1)) && (k >= 3 ==> !Match(w, i + 2)) && Match(w, i + k)
    ensures Scan(s, i, e).1 > Count(s, i)
    decreases |s| - i, 0
  {
    hide Match, Scan, Count, Placed;
    var w := Placed(s, i, e);
    NoOverlap(s, i);
    CountSkip(s, i, 3);
    ScanStep(s, i, e, 0);
    ScanSkip(w, i + 1, k - 1, e);
    MatchFits(w, i + k);
    ScanStep(w, i + k, e, 0);
    ScanCounts(Placed(w, i + k, e), i + k + 1, e);
    TailCount(s, i, k, e);
  }

  lemma MatchFits(s: seq<bv8>, i: nat)
    requires Match(s, i)
    ensures i + 4 <= |s|
  {
  }

  lemma TailCount(s: seq<bv8>, i: nat, k: nat, e: seq<bv8>)
    requires |e| == 4 && i + 4 <= |s| && 1 <= k <= 3 && Match(Placed(s, i, e), i + k)
    ensures var v := Placed(Placed(s, i, e), i + k, e); Count(v, i + k + 1) >= Count(s, i + 4)
  {
    var w := Placed(s, i, e);
    var v := Placed(w, i + k, e);
    WriteLeavesRest(s, i, e);
    WriteLeavesRest(w, i + k, e);
    forall j | i + 4 <= j < i + 4 + k ensures s[j] != 0xC0 {
      MatchTail(w, i + k, j);
    }
    hide Match, Placed, Count;
    assert SameFrom(s, v, i + k + 4);
    SameCount(s, v, i + k + 4);
    CountMonotone(v, i + k + 1, i + k + 4);
    NoStart(s, i + 4, k);
  }

  lemma {:induction false} CountMonotone(s: seq<bv8>, i: nat, j: nat)
    requires i <= j
    ensures Count(s, i) >= Count(s, j)
    decreases j - i
  {
    if i < j {
      CountMonotone(s, i + 1, j);
    }
  }

  /** No sentinel starts among `k` bytes none of which is C0. */
  lemma {:induction false} NoStart(s: seq<bv8>, i: nat, k: nat)
    requires i + k <= |s| && forall j :: i <= j < i + k ==> s[j] != 0xC0
    ensures Count(s, i) == Count(s, i + k)
    decreases k
  {
    if k == 0 {
    } else {
      if i + 4 <= |s| { MatchBytes(s, i); }
      NoStart(s, i + 1, k - 1);
    }
  }

  /** The loop patches the sentinels that were there, all of them and nothing
      else, if and only if none is followed by bytes that complete another. */
  lemma PatchIsExactIff(dtb: seq<bv8>, e: seq<bv8>)
    requires |e| == 4
    ensures Scan(dtb, 0, e) == (Patched(dtb, 0, e), Count(dtb, 0)) <==> Clean(dtb, 0, e)
  {
    hide Clean, Scan;
    ScanCounts(dtb, 0, e);
    if Clean(dtb, 0, e) {
      CleanScan(dtb, 0, e);
    }
  }

  lemma {:induction false} NoMore(s: seq<bv8>, i: nat)
    requires Count(s, i) == 0
    ensures forall j: nat :: i <= j ==> !Match(s, j)
    decreases |s| - i
  {
    if i + 4 <= |s| {
      NoMore(s, i + 1);
    }
  }

  /** The place of the only sentinel. */
  lemma {:induction false} TheOne(s: seq<bv8>, i: nat) returns (at: nat)
    requires Count(s, i) == 1
    ensures i <= at && at + 4 <= |s| && forall j: nat :: i <= j ==> (Match(s, j) <==> j == at)
    decreases |s| - i
  {
    if Match(s, i) {
      at := i;
      NoMore(s, i + 1);
    } else {
      at := TheOne(s, i + 1);
    }
  }

  /** With one sentinel, the patched tree has the new bytes there and is else the same. */
  lemma OneCell(s: seq<bv8>, at: nat, e: seq<bv8>)
    requires |e| == 4 && at + 4 <= |s| && forall j: nat :: Match(s, j) <==> j == at
    ensures Patched(s, 0, e)[at..at + 4] == e
    ensures forall t :: 0 <= t < |s| && !(at <= t < at + 4) ==> Patched(s, 0, e)[t] == s[t]
  {
    hide Match;
    var p := Patched(s, 0, e);
    assert p[at] == e[0] && p[at + 1] == e[1] && p[at + 2] == e[2] && p[at + 3] == e[3];
  }

  /** One patch, and with it the tree as it should be, exactly if there is one sentinel
      and it is not followed by such bytes. */
  lemma OnePatchIff(dtb: seq<bv8>, e: seq<bv8>)
    requires |e| == 4
    ensures Scan(dtb, 0, e).1 == 1 <==> Count(dtb, 0) == 1 && Clean(dtb, 0, e)
    ensures Scan(dtb, 0, e).1 == 1 ==> Scan(dtb, 0, e).0 == Patched(dtb, 0, e)
  {
    ScanCounts(dtb, 0, e);
    if Clean(dtb, 0, e) {
      CleanScan(dtb, 0, e);
    } else {
      UncleanCounts(dtb, e);
    }
  }

  lemma UncleanCounts(dtb: seq<bv8>, e: seq<bv8>)
    requires |e| == 4 && !Clean(dtb, 0, e)
    ensures Count(dtb, 0) >= 1
  {
    var j :| 0 <= j < |dtb| - 3 && Match(dtb, j) && Spurious(dtb, j, e);
    CountMonotone(dtb, 0, j);
  }

  // ---------------------------------------------------------------------
  // Which sizes are safe
  // ---------------------------------------------------------------------

  lemma ByteIs(n: nat, b: bv8, v: nat)
    requires Bits.Value(b) == v && n % 256 == v
    ensures Bits.Byte(n) == b
  {
    hide Bits.Value, Bits.Byte, Bits.ByteBits, Bits.Digits;
    Bits.ByteValue(n);
    Bits.ValueInjective(Bits.Byte(n), b);
  }

  lemma SomeValues()
    ensures Bits.Value(0xC0) == 192 && Bits.Value(0xDE) == 222
    ensures Bits.Value(0) == 0 && Bits.Value(0x41) == 0x41 && Bits.Value(0xF8) == 0xF8
  {
    hide Bits.Number;
    Bits.Weights(Bits.ByteBits(0xC0));
    Bits.Weights(Bits.ByteBits(0xDE));
    Bits.Weights(Bits.ByteBits(0));
    Bits.Weights(Bits.ByteBits(0x41));
    Bits.Weights(Bits.ByteBits(0xF8));
  }

  lemma BlockSizeBytes(size: nat)
    requires size % 128 == 0 && size <= 0x8_0000
    ensures EndBytes(size)[1] != 0xC0 && EndBytes(size)[3] != 0xC0 && EndBytes(size)[3] != 0xDE
  {
    hide Bits.Value, Bits.Byte, Bits.ByteBits, Bits.Digits;
    var v := INITRD_LOAD_ADDR + size;
    assert v % TWO_32 == v;
    SomeValues();
    Bits.ByteValue(v);
    Bits.ByteValue(v / 256 / 256);
    assert v % 256 == 0 || v % 256 == 128;
    assert v / 256 / 256 == v / 65536;
    assert 0x41F8 <= v / 65536 <= 0x4200;
  }

  /** No end of `e` is the beginning of a sentinel. */
  predicate Safe(e: seq<bv8>)
    requires |e| == 4
  {
    && e[3] != 0xC0
    && !(e[2] == 0xC0 && e[3] == 0xDE)
    && !(e[1] == 0xC0 && e[2] == 0xDE && e[3] == 0xDE)
  }

  lemma SafeIsClean(dtb: seq<bv8>, e: seq<bv8>)
    requires |e| == 4 && Safe(e)
    ensures Clean(dtb, 0, e)
  {
    forall i | 0 <= i && i + 4 <= |dtb| && Match(dtb, i) ensures !Spurious(dtb, i, e) {
      var w := Placed(dtb, i, e);
      WriteLeavesRest(dtb, i, e);
      assert w[i + 1] == e[1] && w[i + 2] == e[2] && w[i + 3] == e[3];
      if i + 5 <= |w| { MatchBytes(w, i + 1); }
      if i + 6 <= |w| { MatchBytes(w, i + 2); }
      if i + 7 <= |w| { MatchBytes(w, i + 3); }
    }
  }

  /** A sentinel, and the bytes that complete another after it is replaced. */
  function Trap(e: seq<bv8>): (r: seq<bv8>)
    requires |e| == 4
    ensures 5 <= |r| <= 7
  {
    SENTINEL + if e[3] == 0xC0 then SENTINEL[1..] else if e[2] == 0xC0 then SENTINEL[2..] else SENTINEL[3..]
  }

  /** With an end address that is not safe every tree with the trap in it is
      miscounted. */
  lemma UnsafeMiscounts(p: seq<bv8>, q: seq<bv8>, e: seq<bv8>)
    requires |e| == 4 && !Safe(e)
    ensures var dtb := p + Trap(e) + q;
            !Clean(dtb, 0, e) && Scan(dtb, 0, e).1 > Count(dtb, 0)
  {
    hide Scan, Count, Match, Spurious, Safe, Trap;
    var trap := Trap(e);
    var dtb, i := p + trap + q, |p|;
    assert forall k :: 0 <= k < |trap| ==> dtb[i + k] == trap[k];
    Trapped(dtb, i, e);
    ScanCounts(dtb, 0, e);
  }

  lemma Trapped(s: seq<bv8>, i: nat, e: seq<bv8>)
    requires |e| == 4 && !Safe(e) && i + |Trap(e)| <= |s|
    requires forall k :: 0 <= k < |Trap(e)| ==> s[i + k] == Trap(e)[k]
    ensures Match(s, i) && Spurious(s, i, e)
  {
    hide Match, Placed;
    var trap, w := Trap(e), Placed(s, i, e);
    assert s[i + 0] == trap[0] && s[i + 1] == trap[1] && s[i + 2] == trap[2] && s[i + 3] == trap[3];
    MatchBytes(s, i);
    WriteLeavesRest(s, i, e);
    var there := w[i..i + 4];
    assert there[1] == w[i + 1] && there[2] == w[i + 2] && there[3] == w[i + 3];
    assert w[i + 4] == s[i + 4] == trap[4];
    assert |trap| > 5 ==> w[i + 5] == s[i + 5] == trap[5];
    assert |trap| > 6 ==> w[i + 6] == s[i + 6] == trap[6];
    MatchBytes(w, i + |trap| - 4);
  }

  /** Exactly which initrd sizes are safe for every device tree. */
  lemma SizesSafeIff(size: nat)
    ensures (forall dtb: seq<bv8> :: Clean(dtb, 0, EndBytes(size))) <==> Safe(EndBytes(size))
  {
    hide Clean, Scan, Count, EndBytes;
    var e := EndBytes(size);
    if Safe(e) {
      forall dtb: seq<bv8> ensures Clean(dtb, 0, e) { SafeIsClean(dtb, e); }
    } else {
      UnsafeMiscounts([], [], e);
    }
  }

  /** An initrd received in 128-byte blocks and ending within SDRAM never
      produces a second sentinel, whatever the device tree. */
  lemma BlockSizesAreClean(dtb: seq<bv8>, size: nat)
    requires size % 128 == 0 && size <= 0x8_0000
    ensures Clean(dtb, 0, EndBytes(size))
  {
    hide EndBytes;
    BlockSizeBytes(size);
    SafeIsClean(dtb, EndBytes(size));
  }

  lemma OddSizeBytes()
    ensures EndBytes(0xC0) == [0x41, 0xF8, 0x00, 0xC0]
  {
    hide Bits.Value, Bits.Byte;
    SomeValues();
    ByteIs(0x41F800C0, 0xC0, 192);
    ByteIs(0x41F800, 0, 0);
    ByteIs(0x41F8, 0xF8, 0xF8);
    ByteIs(0x41, 0x41, 0x41);
  }

  /** A tree of one sector that a card can hold, with an initrd of 192 bytes: one
      sentinel, but not one patch, so that the loader halts. */
  lemma OddSizeCounterexample()
    ensures var dtb := seq(505, _ => 0) + Trap(EndBytes(0xC0));
            |dtb| == 512 && Count(dtb, 0) == 1 && Scan(dtb, 0, EndBytes(0xC0)).1 != 1
  {
    hide EndBytes, Scan, Count, Match;
    var zeros: seq<bv8> := seq(505, _ => 0);
    OddSizeBytes();
    var trap := Trap(EndBytes(0xC0));
    var dtb := zeros + trap;
    UnsafeMiscounts(zeros, [], EndBytes(0xC0));
    assert zeros + trap + [] == dtb && |trap| == 7;
    NoStart(dtb, 0, 505);
    assert dtb[505..] == trap;
    MatchBytes(dtb, 505);
    NoOverlap(dtb, 505);
    CountSkip(dtb, 505, 3);
    CountEnds(dtb);
  }

  /** A tree of one sector with its sentinel at the very end is patched once, whatever
      the size. */
  lemma LastSentinel(e: seq<bv8>)
    requires |e| == 4
    ensures var dtb := seq(508, _ => 0) + SENTINEL; Count(dtb, 0) == 1 && Clean(dtb, 0, e)
  {
    hide Count;
    var zeros: seq<bv8> := seq(508, _ => 0);
    var dtb := zeros + SENTINEL;
    NoStart(dtb, 0, 508);
    assert forall j :: 508 <= j < 512 ==> dtb[j] == SENTINEL[j - 508];
    MatchBytes(dtb, 508);
    CountSkip(dtb, 508, 0);
    CountEnds(dtb);
    forall i | 0 <= i && i + 4 <= |dtb| && Match(dtb, i) ensures !Spurious(dtb, i, e) {
      MatchBytes(dtb, i);
      assert i == 508;
    }
  }

  lemma CountEnds(s: seq<bv8>)
    ensures |s| >= 3 ==> Count(s, |s| - 3) == 0
  {
  }
}
