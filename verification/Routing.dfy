/** Longest-prefix-match forwarding. */
module Routing {
  import opened Words
  import opened Ipv4

  /** Bitwise conjunction. */
  function And(a: nat, b: nat): nat {
    if a == 0 || b == 0 then 0 else 2 * And(a / 2, b / 2) + (a % 2) * (b % 2)
  }

  /** Prefixes have at most 32 bits. */
  type PrefixLength = x: int | 0 <= x <= 32

  /** The mask of a prefix length: ones shifted left in 64 bits, cut to 32. */
  function Mask(len: PrefixLength): u32 {
    0xFFFF_FFFF * Pow2(32 - len) % TWO64 % TWO32
  }

  datatype Route = Route(prefix: u32, len: PrefixLength, nextHop: Option<u32>, iface: nat)

  predicate Matches(r: Route, dest: u32) {
    And(dest, Mask(r.len)) == And(r.prefix, Mask(r.len))
  }

  /** The route the loop holds after looking at the first `n`: longer ones replace shorter ones. */
  function Best(routes: seq<Route>, dest: u32, n: nat): (best: Option<nat>)
    requires n <= |routes|
    ensures best.Some? ==> best.value < n
  {
    if n == 0 then None
    else
      var best := Best(routes, dest, n - 1);
      if Matches(routes[n - 1], dest) && (best.None? || routes[n - 1].len > routes[best.value].len) then Some(n - 1)
      else best
  }

  datatype Decision = Drop | Forward(iface: nat, nextHop: u32, dgram: Datagram)

  function Decide(routes: seq<Route>, dgram: Datagram): Decision {
    var best := Best(routes, dgram.header.dst, |routes|);
    if best.None? || dgram.header.ttl <= 1 then Drop
    else
      var r := routes[best.value];
      Forward(r.iface, if r.nextHop.Some? then r.nextHop.value else dgram.header.dst,
              dgram.(header := dgram.header.(ttl := dgram.header.ttl - 1)))
  }

  // ---- masks ----

  lemma DivisionUnique(x: nat, p: nat, q: nat)
    requires p > 0 && q * p <= x < q * p + p
    ensures x / p == q
  {
    var d, r := x / p, x % p;
    assert x == d * p + r;
    if d < q {
      SmallerQuotient(d, q, p);
    } else if d > q {
      SmallerQuotient(q, d, p);
    }
  }

  lemma SmallerQuotient(a: nat, b: nat, p: nat)
    requires a < b
    ensures a * p + p <= b * p
  {
    var d := b - a - 1;
    ProductIsNat(d, p);
    assert b == d + a + 1;
    assert b * p == d * p + a * p + p;
  }

  lemma ProductIsNat(x: nat, y: nat)
    ensures x * y >= 0
  {
  }

  lemma DivisionBounds(x: nat, p: nat)
    requires p > 0
    ensures x / p * p <= x < x / p * p + p
  {
  }

  /** Halving first and dividing by half as much is dividing. */
  lemma HalfFirst(x: nat, p: nat)
    requires p > 0
    ensures x / 2 / p == x / (2 * p)
  {
    var q := x / 2 / p;
    DivisionBounds(x / 2, p);
    assert q * (2 * p) == 2 * (q * p);
    DivisionUnique(x, 2 * p, q);
  }

  lemma AndStep(x: nat, m: nat)
    ensures And(x, 2 * m) == 2 * And(x / 2, m)
    ensures And(x, 2 * m + 1) == 2 * And(x / 2, m) + x % 2
  {
    assert 2 * m / 2 == m && (2 * m + 1) / 2 == m;
  }

  lemma {:induction false} AndOnes(x: nat, w: nat)
    requires x < Pow2(w)
    ensures And(x, Pow2(w) - 1) == x
  {
    if w == 0 {
    } else {
      AndOnes(x / 2, w - 1);
      AndStep(x, Pow2(w - 1) - 1);
    }
  }

  /** A mask of high ones keeps exactly the high bits. */
  lemma {:induction false} AndHigh(x: nat, w: nat, k: nat)
    requires x < Pow2(w) && k <= w
    ensures Pow2(k) <= Pow2(w) && And(x, Pow2(w) - Pow2(k)) == x / Pow2(k) * Pow2(k)
    decreases w
  {
    hide And;
    if k == 0 {
      AndOnes(x, w);
      Pow2Grows(0, w);
    } else {
      AndHigh(x / 2, w - 1, k - 1);
      AndStep(x, Pow2(w - 1) - Pow2(k - 1));
      HalfFirst(x, Pow2(k - 1));
      TwiceProduct(x / Pow2(k), Pow2(k - 1));
    }
  }

  lemma TwiceProduct(q: nat, p: nat)
    ensures 2 * (q * p) == q * (2 * p)
  {
  }

  lemma Pow2Of32()
    ensures Pow2(32) == TWO32
  {
    assert Pow2(8) == 256;
    assert Pow2(16) == TWO16;
    assert Pow2(24) == 0x100_0000;
  }

  lemma MaskIs(len: PrefixLength)
    ensures Mask(len) == Pow2(32) - Pow2(32 - len)
  {
    hide Pow2;
    Pow2Of32();
    Pow2Grows(32 - len, 32);
    ShiftedOnes(Pow2(32 - len));
  }

  lemma ShiftedOnes(p: nat)
    requires 1 <= p <= TWO32
    ensures 0xFFFF_FFFF * p % TWO64 % TWO32 == TWO32 - p
  {
    var wide := 0xFFFF_FFFF * p;
    assert wide < TWO64;
    LowWord(wide, p - 1, TWO32 - p);
  }

  lemma LowWord(x: nat, q: nat, r: nat)
    requires x == TWO32 * q + r && r < TWO32
    ensures x % TWO32 == r
  {
  }

  lemma SameMultiple(a: nat, b: nat, p: nat)
    requires p > 0
    ensures a * p == b * p <==> a == b
  {
    if a < b {
      SmallerQuotient(a, b, p);
    } else if b < a {
      SmallerQuotient(b, a, p);
    }
  }

  /** Masking keeps the high bits: it rounds down to a multiple of two to the number of the others. */
  lemma MaskKeepsHigh(x: u32, len: PrefixLength)
    ensures And(x, Mask(len)) == x / Pow2(32 - len) * Pow2(32 - len)
  {
    hide And, Mask, Pow2;
    Pow2Of32();
    MaskIs(len);
    AndHigh(x, 32, 32 - len);
  }

  /** A route matches exactly when the destination and the prefix agree on the high bits: they lie in
      the same block of two to the number of remaining bits, for every length from 0 to 32. */
  lemma MatchesIff(r: Route, dest: u32)
    ensures Matches(r, dest) <==> dest / Pow2(32 - r.len) == r.prefix / Pow2(32 - r.len)
  {
    hide And, Mask, Pow2;
    var p := Pow2(32 - r.len);
    MaskKeepsHigh(dest, r.len);
    MaskKeepsHigh(r.prefix, r.len);
    SameMultiple(dest / p, r.prefix / p, p);
  }

  // ---- the longest prefix ----

  /** The chosen route matches, no matching route is longer, and of the longest ones it was added
      first; none is chosen only if none matches. */
  lemma {:induction false} BestIsLongest(routes: seq<Route>, dest: u32, n: nat)
    requires n <= |routes|
    ensures match Best(routes, dest, n)
            case Some(b) =>
              && b < n && Matches(routes[b], dest)
              && (forall j :: 0 <= j < n && Matches(routes[j], dest) ==> routes[j].len <= routes[b].len)
              && (forall j :: 0 <= j < b && Matches(routes[j], dest) ==> routes[j].len < routes[b].len)
            case None => forall j :: 0 <= j < n ==> !Matches(routes[j], dest)
  {
    hide Matches;
    if n == 0 {
    } else {
      BestIsLongest(routes, dest, n - 1);
    }
  }

  /** Route `b` is the first-added of the longest that hold the destination in their block. */
  ghost predicate IsLongest(routes: seq<Route>, dest: u32, b: nat) {
    && b < |routes| && InBlock(routes[b], dest)
    && forall j :: 0 <= j < |routes| && InBlock(routes[j], dest) ==>
         routes[j].len < routes[b].len || (routes[j].len == routes[b].len && b <= j)
  }

  /** The destination and the prefix agree in their leading `len` bits. */
  predicate InBlock(r: Route, dest: u32) {
    dest / Pow2(32 - r.len) == r.prefix / Pow2(32 - r.len)
  }

  lemma BestIff(routes: seq<Route>, dest: u32, b: nat)
    ensures IsLongest(routes, dest, b) <==> Best(routes, dest, |routes|) == Some(b)
  {
    hide Matches, InBlock;
    forall j | 0 <= j < |routes| ensures Matches(routes[j], dest) <==> InBlock(routes[j], dest) {
      BlockIff(routes[j], dest);
    }
    BestIsLongest(routes, dest, |routes|);
  }

  lemma BlockIff(r: Route, dest: u32)
    ensures Matches(r, dest) <==> InBlock(r, dest)
  {
    hide Matches;
    MatchesIff(r, dest);
  }

  // ---- chains of forwards ----

  /** A datagram forwarded by one routing table after another. */
  ghost predicate Forwards(tables: seq<seq<Route>>, dgrams: seq<Datagram>) {
    && |dgrams| == |tables| + 1
    && forall k :: 0 <= k < |tables| ==>
         Decide(tables[k], dgrams[k]).Forward? && Decide(tables[k], dgrams[k]).dgram == dgrams[k + 1]
  }

  /** Through whatever routers, loops included, each forward takes one off the time to live and leaves
      at least one, and changes nothing else: a datagram is forwarded fewer times than its first
      time to live. */
  lemma {:induction false} ChainsAreShort(tables: seq<seq<Route>>, dgrams: seq<Datagram>)
    requires Forwards(tables, dgrams)
    ensures tables != [] ==> |tables| < dgrams[0].header.ttl
    ensures var first, last := dgrams[0], dgrams[|tables|];
      && last == first.(header := first.header.(ttl := last.header.ttl))
      && last.header.ttl == first.header.ttl - |tables|
      && (tables != [] ==> last.header.ttl >= 1)
    decreases |tables|
  {
    hide Best;
    if tables == [] {
    } else {
      var n := |tables| - 1;
      assert Decide(tables[n], dgrams[n]).Forward?;
      ChainsAreShort(tables[..n], dgrams[..n + 1]);
    }
  }
}
