/** Byte strings written into memory. */
module Memory {

  /** Memory with `bytes` stored at `at`. */
  function Placed(m: seq<bv8>, at: nat, bytes: seq<bv8>): (r: seq<bv8>)
    requires at + |bytes| <= |m|
    ensures |r| == |m|
  {
    m[..at] + bytes + m[at + |bytes|..]
  }

  /** What was stored is there. */
  lemma PlacedThere(m: seq<bv8>, at: nat, bytes: seq<bv8>)
    requires at + |bytes| <= |m|
    ensures Placed(m, at, bytes)[at..at + |bytes|] == bytes
  {
  }

  /** Everything else is as it was. */
  lemma PlacedElsewhere(m: seq<bv8>, at: nat, bytes: seq<bv8>, a: nat, b: nat)
    requires at + |bytes| <= |m| && a <= b <= |m| && (b <= at || at + |bytes| <= a)
    ensures Placed(m, at, bytes)[a..b] == m[a..b]
  {
  }

  /** Two adjacent stores are one. */
  lemma PlacedTwice(m: seq<bv8>, at: nat, x: seq<bv8>, y: seq<bv8>)
    requires at + |x| + |y| <= |m|
    ensures Placed(Placed(m, at, x), at + |x|, y) == Placed(m, at, x + y)
  {
  }

  /** A store inside a stored string changes that string. */
  lemma PlacedInside(m: seq<bv8>, at: nat, x: seq<bv8>, i: nat, y: seq<bv8>)
    requires at + |x| <= |m| && i + |y| <= |x|
    ensures Placed(Placed(m, at, x), at + i, y) == Placed(m, at, Placed(x, i, y))
  {
  }

  lemma PlacedNothing(m: seq<bv8>, at: nat)
    requires at <= |m|
    ensures Placed(m, at, []) == m
  {
  }

  /** Copy bytes to memory, one at a time. */
  method Store(mem: array<bv8>, at: nat, bytes: seq<bv8>)
    requires at + |bytes| <= mem.Length
    modifies mem
    ensures mem[..] == Placed(old(mem[..]), at, bytes)
  {
    ghost var was := mem[..];
    PlacedNothing(was, at);
    for i := 0 to |bytes|
      invariant mem[..] == Placed(was, at, bytes[..i])
    {
      mem[at + i] := bytes[i];
    }
    assert bytes[..|bytes|] == bytes;
  }

  /** Nothing changed from byte `n` on. */
  ghost predicate SameFrom(was: seq<bv8>, now: seq<bv8>, n: nat) {
    |was| == |now| && forall i :: n <= i < |was| ==> was[i] == now[i]
  }

  lemma SameStep(a: seq<bv8>, b: seq<bv8>, c: seq<bv8>, m: nat, n: nat)
    requires SameFrom(a, b, n) && SameFrom(b, c, m) && m <= n
    ensures SameFrom(a, c, n)
  {
  }

  lemma SameSelf(a: seq<bv8>, n: nat)
    ensures SameFrom(a, a, n)
  {
  }

  lemma MiddleSame(was: seq<bv8>, at: nat, x: seq<bv8>, n: nat)
    requires at + |x| <= n <= |was|
    ensures SameFrom(was, was[..at] + x + was[at + |x|..], n)
  {
  }

  lemma SameWiden(a: seq<bv8>, b: seq<bv8>, m: nat, n: nat)
    requires SameFrom(a, b, m) && m <= n
    ensures SameFrom(a, b, n)
  {
  }

  /** Memory with as much of `bytes` stored at `at` as there is memory. */
  function Clipped(m: seq<bv8>, at: nat, bytes: seq<bv8>): (r: seq<bv8>)
    ensures |r| == |m|
  {
    if at >= |m| then m else Placed(m, at, if at + |bytes| <= |m| then bytes else bytes[..|m| - at])
  }

  /** Copy bytes to memory; those past its end go nowhere. */
  method StoreClipped(mem: array<bv8>, at: nat, bytes: seq<bv8>)
    modifies mem
    ensures mem[..] == Clipped(old(mem[..]), at, bytes)
  {
    if at < mem.Length {
      Store(mem, at, if at + |bytes| <= mem.Length then bytes else bytes[..mem.Length - at]);
    }
  }
}
