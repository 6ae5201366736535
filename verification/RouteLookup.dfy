/**
 The routing table lookup: a binary search that compares the destination, masked by the
 probed entry, with that entry's prefix.  The promise is the one of a linear scan: NULL
 iff no entry matches.
 */
module RouteLookup {
  import opened Bits
  import opened Wrappers

  /** Addresses and masks are uint32_t values as stored: network order, read on a little-endian host. */
  type uint32 = x: int | 0 <= x < 0x1_0000_0000

  /** A 32-bit number from its bytes, the most significant one first. */
  function Word(a: nat, b: nat, c: nat, d: nat): nat {
    0x100_0000 * a + 0x1_0000 * b + 0x100 * c + d
  }

  /** The address a.b.c.d as inet_aton leaves it in memory, read by the host. */
  function Stored(a: byte, b: byte, c: byte, d: byte): uint32 {
    Word(d, c, b, a)
  }

  lemma LastByte(x: nat, p: byte, y: nat, q: byte)
    ensures 0x100 * x + p == 0x100 * y + q <==> x == y && p == q
  {
  }

  lemma StoredOnce(a: byte, b: byte, c: byte, d: byte, e: byte, f: byte, g: byte, h: byte)
    ensures Stored(a, b, c, d) == Stored(e, f, g, h) <==> a == e && b == f && c == g && d == h
  {
    var cd: int, gh: int := 0x100 * d as int + c, 0x100 * h as int + g;
    LastByte(0x100 * cd + b, a, 0x100 * gh + f, e);
    LastByte(cd, b, gh, f);
    LastByte(d, c, h, g);
  }

  datatype Entry = Entry(prefix: uint32, mask: uint32, nextHop: uint32, interface: int)

  predicate Matches(e: Entry, dest: uint32) {
    And(dest, e.mask) == e.prefix
  }

  /** What a linear scan looks for. */
  ghost predicate SomeMatch(table: seq<Entry>, dest: uint32) {
    exists i :: 0 <= i < |table| && Matches(table[i], dest)
  }

  predicate Before(a: Entry, b: Entry) {
    a.prefix < b.prefix || (a.prefix == b.prefix && a.mask <= b.mask)
  }

  /** An entry matches some destination iff its prefix lies under its mask. */
  lemma MatchesSomeIff(e: Entry)
    ensures (exists dest: uint32 :: Matches(e, dest)) <==> And(e.prefix, e.mask) == e.prefix
  {
    if dest: uint32 :| Matches(e, dest) {
      AndTwice(dest, e.mask);
    }
    if And(e.prefix, e.mask) == e.prefix {
      assert Matches(e, e.prefix);
    }
  }

  ghost predicate Sorted(table: seq<Entry>) {
    forall i, j :: 0 <= i < j < |table| ==> Before(table[i], table[j])
  }

  // ---------- The search ----------

  datatype Order = Less | Equal | Greater

  /** How the masked destination compares with the prefix of an entry. */
  function Side(e: Entry, dest: uint32): Order {
    if Matches(e, dest) then Equal else if And(dest, e.mask) < e.prefix then Less else Greater
  }

  function Sides(table: seq<Entry>, dest: uint32): (sides: seq<Order>)
    ensures |sides| == |table|
    ensures forall i :: 0 <= i < |table| ==> sides[i] == Side(table[i], dest)
  {
    seq(|table|, i requires 0 <= i < |table| => Side(table[i], dest))
  }

  /** The binary search between l and r inclusive. */
  function Probe(sides: seq<Order>, l: int, r: int): (found: Option<nat>)
    requires 0 <= l && r < |sides|
    ensures found.Some? ==> l <= found.value <= r && sides[found.value] == Equal
    decreases r - l + 1
  {
    if l > r then None
    else
      var m := l + (r - l) / 2;
      match sides[m]
      case Equal => Some(m)
      case Less => Probe(sides, l, m - 1)
      case Greater => Probe(sides, m + 1, r)
  }

  /** The scan for a longer mask, downwards from a matching entry. */
  function Settle(table: seq<Entry>, m: nat): (k: nat)
    requires m < |table|
    ensures k <= m && table[k].prefix == table[m].prefix
  {
    if m == 0 || table[m].prefix != table[m - 1].prefix || table[m].mask >= table[m - 1].mask then m
    else Settle(table, m - 1)
  }

  function Lookup(table: seq<Entry>, dest: uint32): (found: Option<nat>)
    ensures found.Some? ==> found.value < |table|
  {
    match Probe(Sides(table, dest), 0, |table| - 1)
    case None => None
    case Some(m) => Some(Settle(table, m))
  }

  lemma OneRoute(table: seq<Entry>, dest: uint32)
    requires |table| == 1
    ensures Lookup(table, dest) == if Matches(table[0], dest) then Some(0) else None
  {
    var sides := Sides(table, dest);
    assert sides[0] == Side(table[0], dest);
    assert Probe(sides, 0, 0) == if sides[0] == Equal then Some(0) else None;
  }

  lemma ProbeNext(sides: seq<Order>, l: int, r: int)
    requires 0 <= l <= r < |sides|
    ensures var m := l + (r - l) / 2;
            Probe(sides, l, r) == match sides[m]
                                  case Equal => Some(m)
                                  case Less => Probe(sides, l, m - 1)
                                  case Greater => Probe(sides, m + 1, r)
  {
  }

  /** The entry before i has the same prefix and a longer mask. */
  predicate LongerBefore(table: seq<Entry>, i: nat)
    requires i < |table|
  {
    i > 0 && table[i].prefix == table[i - 1].prefix && table[i].mask < table[i - 1].mask
  }

  /** From m down to k each entry has the same prefix as the one before it and a shorter mask. */
  ghost predicate LongerDownTo(table: seq<Entry>, k: nat, m: nat)
    requires m < |table|
  {
    forall i :: k < i <= m ==> LongerBefore(table, i)
  }

  /** These two properties determine the settled entry. */
  lemma {:induction false} SettleIs(table: seq<Entry>, k: nat, m: nat)
    requires k <= m < |table| && LongerDownTo(table, k, m) && !LongerBefore(table, k)
    ensures Settle(table, m) == k
  {
    if k < m {
      assert LongerBefore(table, m);
      SettleIs(table, k, m - 1);
    }
  }

  lemma {:induction false} SettleRuns(table: seq<Entry>, m: nat)
    requires m < |table|
    ensures LongerDownTo(table, Settle(table, m), m) && !LongerBefore(table, Settle(table, m))
  {
    if LongerBefore(table, m) {
      SettleRuns(table, m - 1);
    }
  }

  /** The inner loop of get_best_route: down to the entry with the longest mask of an unbroken run. */
  method LongestMask(table: seq<Entry>, probe: nat) returns (m: nat)
    requires probe < |table|
    ensures m <= probe && LongerDownTo(table, m, probe) && !LongerBefore(table, m)
  {
    m := probe;
    while !(m <= 0 || table[m].prefix != table[m - 1].prefix || table[m].mask >= table[m - 1].mask)
      invariant m <= probe && LongerDownTo(table, m, probe)
      decreases m
    {
      m := m - 1;
    }
  }

  /** get_best_route. */
  method GetBestRoute(table: seq<Entry>, dest: uint32) returns (found: Option<nat>)
    ensures found == Lookup(table, dest)
  {
    ghost var sides := Sides(table, dest);
    ghost var goal := Probe(sides, 0, |table| - 1);
    var l, r := 0, |table| - 1;
    while l <= r
      invariant 0 <= l && r < |table|
      invariant Probe(sides, l, r) == goal
      decreases r - l + 1
    {
      var m := l + (r - l) / 2;
      var prefix := And(dest, table[m].mask);
      ProbeNext(sides, l, r);
      assert sides[m] == Side(table[m], dest);
      if prefix == table[m].prefix {
        var k := LongestMask(table, m);
        SettleIs(table, k, m);
        return Some(k);
      } else if prefix < table[m].prefix {
        r := m - 1;
      } else {
        l := m + 1;
      }
    }
    found := None;
  }

  // ---------- Soundness: on a sorted table, what is returned matches ----------

  lemma SettleStays(table: seq<Entry>, m: nat)
    requires m < |table| && Sorted(table)
    ensures Settle(table, m) == m
  {
    if m > 0 && table[m].prefix == table[m - 1].prefix {
      assert Before(table[m - 1], table[m]);
    }
  }

  /** On a sorted table the inner scan never moves, and an entry that is returned matches. */
  lemma LookupSound(table: seq<Entry>, dest: uint32)
    requires Sorted(table)
    ensures Lookup(table, dest) == Probe(Sides(table, dest), 0, |table| - 1)
    ensures Lookup(table, dest).Some? ==> Matches(table[Lookup(table, dest).value], dest)
  {
    var probe := Probe(Sides(table, dest), 0, |table| - 1);
    if probe.Some? {
      SettleStays(table, probe.value);
    }
  }

  // ---------- Completeness ----------

  /** The promise of a linear scan. */
  ghost predicate Exact(table: seq<Entry>, dest: uint32) {
    Lookup(table, dest).Some? <==> SomeMatch(table, dest)
  }

  /** Probing entry m never sends the search away from a match. */
  ghost predicate GuidesAt(sides: seq<Order>, m: nat)
    requires m < |sides|
  {
    && (sides[m] == Less ==> forall i :: m <= i < |sides| ==> sides[i] != Equal)
    && (sides[m] == Greater ==> forall i :: 0 <= i <= m ==> sides[i] != Equal)
  }

  lemma {:induction false} ProbeComplete(sides: seq<Order>, l: int, r: int)
    requires 0 <= l && r < |sides|
    requires forall m :: 0 <= m < |sides| ==> GuidesAt(sides, m)
    requires forall i :: 0 <= i < |sides| && sides[i] == Equal ==> l <= i <= r
    ensures Probe(sides, l, r).None? ==> Equal !in sides
    decreases r - l + 1
  {
    if l <= r {
      var m := l + (r - l) / 2;
      assert GuidesAt(sides, m);
      if sides[m] == Less {
        ProbeComplete(sides, l, m - 1);
      } else if sides[m] == Greater {
        ProbeComplete(sides, m + 1, r);
      }
    }
  }

  lemma LookupExact(table: seq<Entry>, dest: uint32)
    requires Sorted(table)
    requires forall m :: 0 <= m < |table| ==> GuidesAt(Sides(table, dest), m)
    ensures Exact(table, dest)
  {
    var sides := Sides(table, dest);
    LookupSound(table, dest);
    ProbeComplete(sides, 0, |table| - 1);
    if SomeMatch(table, dest) {
      var i :| 0 <= i < |table| && Matches(table[i], dest);
      assert sides[i] == Equal;
    }
  }

  /** A pair of entries of a sorted table, the destination being on one side of the first. */
  predicate PairGuides(a: Entry, b: Entry, dest: uint32) {
    && (Side(a, dest) == Less ==> Side(b, dest) != Equal)
    && (Side(b, dest) == Greater ==> Side(a, dest) != Equal)
  }

  lemma PairsGuide(table: seq<Entry>, dest: uint32)
    requires Sorted(table)
    requires forall i, j :: 0 <= i < j < |table| ==> PairGuides(table[i], table[j], dest)
    ensures Exact(table, dest)
  {
    var sides := Sides(table, dest);
    forall m | 0 <= m < |table|
      ensures GuidesAt(sides, m)
    {
      assert forall i :: m < i < |table| ==> PairGuides(table[m], table[i], dest);
      assert forall i :: 0 <= i < m ==> PairGuides(table[i], table[m], dest);
    }
    LookupExact(table, dest);
  }

  // ---------- Exactly which routes can be looked up ----------

  /** A sorted table of the given routes, in which a route may occur several times. */
  ghost predicate TableOf(table: seq<Entry>, routes: set<Entry>) {
    Sorted(table) && forall i :: 0 <= i < |table| ==> table[i] in routes
  }

  ghost predicate AllGuide(routes: set<Entry>, dest: uint32) {
    forall a, b :: a in routes && b in routes && Before(a, b) ==> PairGuides(a, b, dest)
  }

  /** Two routes that misguide the search, in a table in which the matching one is missed. */
  lemma MisguidedTable(a: Entry, b: Entry, dest: uint32) returns (table: seq<Entry>)
    requires Before(a, b) && !PairGuides(a, b, dest)
    ensures Sorted(table) && !Exact(table, dest) && forall i :: 0 <= i < |table| ==> table[i] == a || table[i] == b
  {
    if Side(a, dest) == Less {
      table := [a, b];
      var sides := Sides(table, dest);
      assert sides[0] == Less && Matches(table[1], dest);
      assert Probe(sides, 0, -1).None?;
    } else {
      table := [a, b, b];
      var sides := Sides(table, dest);
      assert sides[1] == Greater && sides[2] == Greater && Matches(table[0], dest);
      assert Probe(sides, 2, 2) == Probe(sides, 3, 2);
    }
  }

  /** Every sorted table of the routes is searched correctly iff every two of the routes guide the search. */
  lemma ExactIff(routes: set<Entry>, dest: uint32)
    ensures (forall table :: TableOf(table, routes) ==> Exact(table, dest)) <==> AllGuide(routes, dest)
  {
    if AllGuide(routes, dest) {
      forall table | TableOf(table, routes)
        ensures Exact(table, dest)
      {
        assert forall i, j :: 0 <= i < j < |table| ==> PairGuides(table[i], table[j], dest);
        PairsGuide(table, dest);
      }
    } else {
      var a, b :| a in routes && b in routes && Before(a, b) && !PairGuides(a, b, dest);
      var table := MisguidedTable(a, b, dest);
      assert TableOf(table, routes);
    }
  }

  /** No matching entry has a longer mask than the one that is returned, if one is. */
  ghost predicate LongestReturned(table: seq<Entry>, dest: uint32) {
    var found := Lookup(table, dest);
    found.Some? ==> forall i :: 0 <= i < |table| && Matches(table[i], dest) ==> table[i].mask <= table[found.value].mask
  }

  ghost predicate OneMaskMatches(routes: set<Entry>, dest: uint32) {
    forall a, b :: a in routes && b in routes && Matches(a, dest) && Matches(b, dest) ==> a.mask == b.mask
  }

  /** Two matching routes with different masks, in a table that yields the shorter one. */
  lemma ShorterTable(a: Entry, b: Entry, dest: uint32) returns (table: seq<Entry>)
    requires Matches(a, dest) && Matches(b, dest) && a.mask < b.mask
    ensures Sorted(table) && !LongestReturned(table, dest)
    ensures forall i :: 0 <= i < |table| ==> table[i] == a || table[i] == b
  {
    if Before(a, b) {
      table := [a, b];
      assert Sides(table, dest)[0] == Equal;
      assert Matches(table[1], dest);
    } else {
      table := [b, a, a];
      assert Sides(table, dest)[1] == Equal;
      assert Matches(table[0], dest);
    }
    LookupSound(table, dest);
  }

  /** Every sorted table of the routes yields a longest match iff all matching routes have the same mask. */
  lemma LongestReturnedIff(routes: set<Entry>, dest: uint32)
    ensures (forall table :: TableOf(table, routes) ==> LongestReturned(table, dest)) <==> OneMaskMatches(routes, dest)
  {
    if OneMaskMatches(routes, dest) {
      forall table | TableOf(table, routes)
        ensures LongestReturned(table, dest)
      {
        LookupSound(table, dest);
      }
    } else {
      var a, b :| a in routes && b in routes && Matches(a, dest) && Matches(b, dest) && a.mask < b.mask;
      var table := ShorterTable(a, b, dest);
      assert TableOf(table, routes);
    }
  }

  /** What the comment in get_best_route promises: NULL iff nothing matches, or else a longest match. */
  ghost predicate LongestPrefixMatch(table: seq<Entry>, dest: uint32) {
    Exact(table, dest) && LongestReturned(table, dest)
  }

  lemma LongestPrefixMatchIff(routes: set<Entry>, dest: uint32)
    ensures (forall table :: TableOf(table, routes) ==> LongestPrefixMatch(table, dest))
            <==> AllGuide(routes, dest) && OneMaskMatches(routes, dest)
  {
    ExactIff(routes, dest);
    LongestReturnedIff(routes, dest);
  }

  // ---------- Two families of tables ----------

  lemma OneMaskGuides(a: Entry, b: Entry, dest: uint32)
    requires Before(a, b) && a.mask == b.mask
    ensures PairGuides(a, b, dest)
  {
  }

  /** When all masks are equal, NULL is returned iff a linear scan finds nothing. */
  lemma ExactForOneMask(table: seq<Entry>, dest: uint32)
    requires Sorted(table)
    requires forall i, j :: 0 <= i < j < |table| ==> table[i].mask == table[j].mask
    ensures Exact(table, dest)
  {
    forall i, j | 0 <= i < j < |table|
      ensures PairGuides(table[i], table[j], dest)
    {
      OneMaskGuides(table[i], table[j], dest);
    }
    PairsGuide(table, dest);
  }

  predicate Fits(x: nat, width: nat) {
    if width == 0 then x == 0 else Fits(x / 2, width - 1)
  }

  predicate AllOnes(mask: nat, width: nat) {
    if width == 0 then mask == 0 else mask % 2 == 1 && AllOnes(mask / 2, width - 1)
  }

  /** In a mask of the given width, as the host reads it, all one bits are above all zero bits. */
  predicate HighOrder(mask: nat, width: nat) {
    if width == 0 then mask == 0
    else AllOnes(mask, width) || (mask % 2 == 0 && HighOrder(mask / 2, width - 1))
  }

  /** The prefix lies under its mask, which is contiguous as the host reads it. */
  predicate Block(e: Entry) {
    HighOrder(e.mask, 32) && And(e.prefix, e.mask) == e.prefix
  }

  /** No destination matches both entries. */
  ghost predicate Disjoint(a: Entry, b: Entry) {
    forall dest: uint32 :: !(Matches(a, dest) && Matches(b, dest))
  }

  lemma {:induction false} AndAllOnes(x: nat, mask: nat, width: nat)
    requires AllOnes(mask, width) && Fits(x, width)
    ensures And(x, mask) == x
  {
    if width > 0 && x > 0 {
      AndAllOnes(x / 2, mask / 2, width - 1);
    }
  }

  lemma {:induction false} AllOnesBelow(width: nat)
    ensures AllOnes(Pow2(width) - 1, width)
  {
    if width > 0 {
      AllOnesBelow(width - 1);
      assert (Pow2(width) - 1) / 2 == Pow2(width - 1) - 1;
    }
  }

  lemma {:induction false} MaskIsMonotone(x: nat, y: nat, mask: nat, width: nat)
    requires HighOrder(mask, width) && Fits(y, width) && Fits(x, width) && x <= y
    ensures And(x, mask) <= And(y, mask)
  {
    if AllOnes(mask, width) {
      AndAllOnes(x, mask, width);
      AndAllOnes(y, mask, width);
    } else if mask > 0 {
      MaskIsMonotone(x / 2, y / 2, mask / 2, width - 1);
    }
  }

  lemma {:induction false} FitsBelow(x: nat, width: nat)
    requires x < Pow2(width)
    ensures Fits(x, width)
  {
    if width > 0 {
      FitsBelow(x / 2, width - 1);
    }
  }

  lemma Monotone32(x: uint32, y: uint32, mask: uint32)
    requires HighOrder(mask, 32) && x <= y
    ensures And(x, mask) <= And(y, mask)
  {
    assert Pow2(8) == 0x100 && Pow2(16) == 0x1_0000 && Pow2(24) == 0x100_0000 && Pow2(32) == 0x1_0000_0000;
    FitsBelow(x, 32);
    FitsBelow(y, 32);
    MaskIsMonotone(x, y, mask, 32);
  }

  lemma BlocksGuide(a: Entry, b: Entry, dest: uint32)
    requires Before(a, b) && Block(a) && Block(b) && Disjoint(a, b)
    ensures PairGuides(a, b, dest)
  {
    if Side(a, dest) == Less && Side(b, dest) == Equal {
      Monotone32(a.prefix, dest, a.mask);
    }
    if Side(b, dest) == Greater && Side(a, dest) == Equal {
      Monotone32(a.prefix, b.prefix, a.mask);
      Monotone32(b.prefix, dest, a.mask);
      assert Matches(a, b.prefix) && Matches(b, b.prefix);
    }
  }

  /**
   When the entries are pairwise disjoint blocks as the host reads them, NULL is returned iff
   a linear scan finds nothing.  By OrdinaryMaskIff these are not the usual prefixes.
   */
  lemma ExactForDisjointBlocks(table: seq<Entry>, dest: uint32)
    requires Sorted(table)
    requires forall i :: 0 <= i < |table| ==> Block(table[i])
    requires forall i, j :: 0 <= i < j < |table| ==> Disjoint(table[i], table[j])
    ensures Exact(table, dest)
  {
    forall i, j | 0 <= i < j < |table|
      ensures PairGuides(table[i], table[j], dest)
    {
      assert Disjoint(table[i], table[j]);
      BlocksGuide(table[i], table[j], dest);
    }
    PairsGuide(table, dest);
  }

  lemma {:induction false} AllOnesIs(mask: nat, width: nat)
    requires AllOnes(mask, width)
    ensures mask == Pow2(width) - 1
  {
    if width > 0 {
      AllOnesIs(mask / 2, width - 1);
    }
  }

  function HighPart(mask: nat, k: nat): nat {
    if k == 0 then mask else HighPart(mask / 2, k - 1)
  }

  predicate LowZero(mask: nat, k: nat) {
    k == 0 || (mask % 2 == 0 && LowZero(mask / 2, k - 1))
  }

  lemma {:induction false} OnesHighPart(mask: nat, width: nat, k: nat)
    requires AllOnes(mask, width) && k <= width
    ensures AllOnes(HighPart(mask, k), width - k)
  {
    if k > 0 {
      OnesHighPart(mask / 2, width - 1, k - 1);
    }
  }

  lemma {:induction false} OnesAbove(mask: nat, width: nat, k: nat)
    requires HighOrder(mask, width) && k <= width
    ensures LowZero(mask, k) || AllOnes(HighPart(mask, k), width - k)
  {
    if AllOnes(mask, width) {
      OnesHighPart(mask, width, k);
    } else if k > 0 {
      OnesAbove(mask / 2, width - 1, k - 1);
    }
  }

  lemma PairShift(mask: nat, k: nat)
    ensures HighPart(mask, k + 2) == HighPart(mask / 4, k)
    ensures LowZero(mask, k + 2) <==> mask % 4 == 0 && LowZero(mask / 4, k)
  {
    var h := mask / 2;
    assert h / 2 == mask / 4;
    assert mask == 4 * (h / 2) + 2 * (h % 2) + mask % 2;
    assert HighPart(mask, k + 2) == HighPart(h, k + 1) == HighPart(h / 2, k);
    assert LowZero(mask, k + 2) <==> mask % 2 == 0 && LowZero(h, k + 1);
  }

  lemma NibbleShift(mask: nat, k: nat)
    ensures HighPart(mask, k + 4) == HighPart(mask / 16, k)
    ensures LowZero(mask, k + 4) <==> mask % 16 == 0 && LowZero(mask / 16, k)
  {
    var h := mask / 4;
    assert h / 4 == mask / 16;
    assert mask == 16 * (h / 4) + 4 * (h % 4) + mask % 4;
    PairShift(mask, k + 2);
    PairShift(h, k);
  }

  lemma ByteShift(mask: nat)
    ensures HighPart(mask, 8) == mask / 0x100
    ensures LowZero(mask, 8) ==> mask % 0x100 == 0
  {
    var h := mask / 16;
    NibbleShift(mask, 4);
    NibbleShift(h, 0);
    assert mask == 0x100 * (h / 16) + 16 * (h % 16) + mask % 16;
  }

  /** A mask of which the last byte is not zero has only ones in the other bytes. */
  lemma LowByte(mask: nat)
    requires HighOrder(mask, 32) && mask % 0x100 != 0
    ensures mask / 0x100 == 0xff_ffff
  {
    OnesAbove(mask, 32, 8);
    ByteShift(mask);
    AllOnesIs(HighPart(mask, 8), 24);
    assert Pow2(8) == 0x100 && Pow2(16) == 0x1_0000 && Pow2(24) == 0x100_0000;
  }

  /** A mask that is contiguous and not zero has its highest bit. */
  lemma {:induction false} TopBit(mask: nat, width: nat)
    requires HighOrder(mask, width) && 0 < mask
    ensures 0 < width && Pow2(width - 1) <= mask
  {
    if AllOnes(mask, width) {
      AllOnesIs(mask, width);
    } else {
      TopBit(mask / 2, width - 1);
    }
  }

  lemma {:induction false} ZeroIsHighOrder(width: nat)
    ensures HighOrder(0, width)
  {
    if width > 0 {
      ZeroIsHighOrder(width - 1);
    }
  }

  lemma HighByte(a: nat, b: nat, c: nat, d: nat)
    requires b < 0x100 && c < 0x100 && d < 0x100
    requires HighOrder(Word(a, b, c, d), 32) && 0 < Word(a, b, c, d)
    ensures 0 < a
  {
    TopBit(Word(a, b, c, d), 32);
    assert Pow2(7) == 0x80 && Pow2(15) == 0x8000 && Pow2(23) == 0x80_0000 && Pow2(31) == 0x8000_0000;
  }

  /** A mask that is contiguous in network order is so to a little-endian host only for /0 and /32. */
  lemma OrdinaryMaskIff(a: nat, b: nat, c: nat, d: nat)
    requires a < 0x100 && b < 0x100 && c < 0x100 && d < 0x100
    requires HighOrder(Word(a, b, c, d), 32)
    ensures HighOrder(Word(d, c, b, a), 32) <==> Word(a, b, c, d) == 0 || Word(a, b, c, d) == 0xffff_ffff
  {
    if Word(a, b, c, d) == 0 {
      ZeroIsHighOrder(32);
    } else {
      HighByte(a, b, c, d);
      if HighOrder(Word(d, c, b, a), 32) {
        LowByte(Word(d, c, b, a));
        LowByte(Word(a, b, c, d));
      }
    }
  }

  // ---------- Where the promise fails ----------

  lemma Ands()
    ensures And(0x104, 0xff) == 4 && And(0x104, 0xffff) == 0x104
  {
    assert And(16, 15) == 0 && And(130, 127) == 2;
    assert AllOnes(15, 4) && AllOnes(255, 8) && AllOnes(0xfff, 12) && AllOnes(0xffff, 16);
    assert Fits(0x10, 12) && Fits(0x104, 16);
    AndAllOnes(0x104, 0xffff, 16);
  }

  /** 5.0.0.0/8 and 4.1.0.0/16 as stored: the route to 4.1.0.0 exists but is not found. */
  lemma MissedRoute() returns (table: seq<Entry>, dest: uint32)
    ensures Sorted(table) && SomeMatch(table, dest) && Lookup(table, dest).None?
  {
    table := [Entry(0x05, 0xff, 0, 0), Entry(0x104, 0xffff, 0, 1)];
    dest := 0x104;
    Ands();
    assert Matches(table[1], dest);
    assert Sides(table, dest)[0] == Less;
    assert Probe(Sides(table, dest), 0, -1).None?;
  }

  /** 4.0.0.0/8 and 4.1.0.0/16 as stored: 4.1.0.0 is sent along the shorter prefix. */
  lemma NotLongestPrefix() returns (table: seq<Entry>, dest: uint32)
    ensures Sorted(table) && |table| == 2 && Lookup(table, dest) == Some(0)
    ensures Matches(table[0], dest) && Matches(table[1], dest) && table[0].mask < table[1].mask
  {
    table := [Entry(0x04, 0xff, 0, 0), Entry(0x104, 0xffff, 0, 1)];
    dest := 0x104;
    Ands();
    assert Sides(table, dest)[0] == Equal;
  }

  // ---------- The comparison given to qsort ----------

  /** The sign of an unsigned 32-bit difference after it is narrowed to a signed int. */
  function SignOfDifference(a: uint32, b: uint32): Order {
    var difference := if a >= b then a - b else a - b + 0x1_0000_0000;
    if difference == 0 then Equal else if difference >= 0x8000_0000 then Less else Greater
  }

  function Cmp(a: Entry, b: Entry): Order {
    if a.prefix != b.prefix then SignOfDifference(a.prefix, b.prefix) else SignOfDifference(a.mask, b.mask)
  }

  predicate HalfRange(difference: int) {
    -0x8000_0000 <= difference < 0x8000_0000
  }

  /** cmp puts a before b iff it should iff the compared values are about half the range apart at most. */
  lemma CmpIff(a: Entry, b: Entry)
    ensures (Cmp(a, b) == Less <==> !Before(b, a))
            <==> HalfRange(if a.prefix != b.prefix then a.prefix - b.prefix else a.mask - b.mask)
    ensures Cmp(a, b) == Equal <==> Before(a, b) && Before(b, a)
  {
  }

  /** What qsort is asked for: no entry is greater than a later one. */
  ghost predicate CmpOrdered(table: seq<Entry>) {
    forall i, j :: 0 <= i < j < |table| ==> Cmp(table[i], table[j]) != Greater
  }

  /**
   In cmp's order masks may descend under one prefix, but only by half the range or more: the
   inner scan of the lookup moves once at most, and exactly when the entry before the probe has
   the same prefix and a mask that is longer by that much.
   */
  lemma CmpOrderScan(table: seq<Entry>, m: nat)
    requires CmpOrdered(table) && m < |table|
    ensures var moves := m > 0 && table[m - 1].prefix == table[m].prefix
                         && table[m].mask + 0x8000_0000 <= table[m - 1].mask;
            Settle(table, m) == if moves then m - 1 else m
  {
    assert m > 0 ==> Cmp(table[m - 1], table[m]) != Greater;
    assert m > 1 ==> Cmp(table[m - 2], table[m - 1]) != Greater;
  }

  /**
   The entry it settles on has the longest mask of all with its prefix up to the probe, iff the
   entry right before the probe is longer than the probe whenever any of them is.
   */
  lemma CmpOrderLongestIff(table: seq<Entry>, m: nat)
    requires CmpOrdered(table) && m < |table|
    ensures (forall i :: 0 <= i <= m && table[i].prefix == table[m].prefix ==>
               table[i].mask <= table[Settle(table, m)].mask)
            <==> ((exists i :: 0 <= i < m && table[i].prefix == table[m].prefix && table[m].mask < table[i].mask) ==>
                    table[m - 1].prefix == table[m].prefix && table[m].mask < table[m - 1].mask)
  {
    CmpOrderScan(table, m);
    if m > 0 && table[m - 1].prefix == table[m].prefix && table[m].mask < table[m - 1].mask {
      assert Cmp(table[m - 1], table[m]) != Greater;
      forall i | 0 <= i < m && table[i].prefix == table[m].prefix
        ensures table[i].mask <= table[m - 1].mask
      {
        assert i < m - 1 ==> Cmp(table[i], table[m - 1]) != Greater;
      }
    }
  }

  /** A table of the given routes in cmp's order; a route may occur several times. */
  ghost predicate CmpTableOf(table: seq<Entry>, routes: set<Entry>) {
    CmpOrdered(table) && forall i :: 0 <= i < |table| ==> table[i] in routes
  }

  /** An entry that is returned matches. */
  ghost predicate MatchReturned(table: seq<Entry>, dest: uint32) {
    Lookup(table, dest).Some? ==> Matches(table[Lookup(table, dest).value], dest)
  }

  /** The scan moves from b, which matches, to a, which does not. */
  predicate Strays(a: Entry, b: Entry, dest: uint32) {
    a.prefix == b.prefix && b.mask + 0x8000_0000 <= a.mask && Matches(b, dest) && !Matches(a, dest)
  }

  lemma StrayTable(a: Entry, b: Entry, dest: uint32)
    requires Strays(a, b, dest)
    ensures CmpOrdered([a, b, b]) && !MatchReturned([a, b, b], dest)
  {
    assert Sides([a, b, b], dest)[1] == Equal;
    CmpOrderScan([a, b, b], 1);
  }

  lemma NoStray(table: seq<Entry>, dest: uint32)
    requires CmpOrdered(table)
    requires forall i, j :: 0 <= i < |table| && 0 <= j < |table| ==> !Strays(table[i], table[j], dest)
    ensures MatchReturned(table, dest)
  {
    var probe := Probe(Sides(table, dest), 0, |table| - 1);
    if probe.Some? {
      CmpOrderScan(table, probe.value);
      assert Matches(table[probe.value], dest);
    }
  }

  /** Every table of the routes in cmp's order returns matches only, iff the scan strays between no two of them. */
  lemma CmpOrderMatchIff(routes: set<Entry>, dest: uint32)
    ensures (forall table :: CmpTableOf(table, routes) ==> MatchReturned(table, dest))
            <==> forall a, b :: a in routes && b in routes ==> !Strays(a, b, dest)
  {
    if a, b :| a in routes && b in routes && Strays(a, b, dest) {
      assert CmpTableOf([a, b, b], routes);
      StrayTable(a, b, dest);
    } else {
      forall table | CmpTableOf(table, routes)
        ensures MatchReturned(table, dest)
      {
        NoStray(table, dest);
      }
    }
  }

  lemma AndThree(b: byte, c: byte, d: byte, f: byte, g: byte, h: byte)
    ensures And(0x100 * (0x100 * d as int + c) + b, 0x100 * (0x100 * h as int + g) + f)
            == 0x100 * (0x100 * And(d, h) + And(c, g)) + And(b, f)
  {
    AndByte(0x100 * d as int + c, b, 0x100 * h as int + g, f);
    AndByte(d, c, h, g);
  }

  /** Addresses are masked byte by byte. */
  lemma AndWord(a: byte, b: byte, c: byte, d: byte, e: byte, f: byte, g: byte, h: byte)
    ensures And(Stored(a, b, c, d), Stored(e, f, g, h))
            == 0x100 * (0x100 * (0x100 * And(d, h) + And(c, g)) + And(b, f)) + And(a, e)
  {
    AndThree(b, c, d, f, g, h);
    AndByte(0x100 * (0x100 * d as int + c) + b, a, 0x100 * (0x100 * h as int + g) + f, e);
  }

  lemma AndFull(p: byte)
    ensures And(p, 0xff) == p && And(p, 0) == 0
  {
    assert AllOnes(0xf, 4) && AllOnes(0xff, 8) && Pow2(4) == 0x10 && Pow2(8) == 0x100;
    FitsBelow(p, 8);
    AndAllOnes(p, 0xff, 8);
  }

  lemma Masked(a: byte, b: byte, c: byte, d: byte)
    ensures And(Stored(a, b, c, d), Stored(255, 255, 255, 0)) == Stored(a, b, c, 0)
    ensures And(Stored(a, b, c, d), Stored(255, 255, 255, 128)) == Stored(a, b, c, 0) <==> d < 128
  {
    AndFull(a);
    AndFull(b);
    AndFull(c);
    AndFull(d);
    AndWord(a, b, c, d, 255, 255, 255, 0);
    AndWord(a, b, c, d, 255, 255, 255, 128);
    AndHighBit(d);
  }

  /**
   192.168.1.0/25, 192.168.1.0/24 and 192.168.2.0/24, in cmp's order: for every address of the
   /24 the probe finds the /24 and the scan moves on to the /25, even for those beyond it.
   */
  lemma ScanMoves(host: byte) returns (table: seq<Entry>, dest: uint32)
    ensures dest == Stored(192, 168, 1, host) && CmpOrdered(table) && |table| == 3
    ensures table[0].prefix == table[1].prefix == Stored(192, 168, 1, 0)
    ensures table[0].mask == Stored(255, 255, 255, 128) && table[1].mask == Stored(255, 255, 255, 0)
    ensures Matches(table[1], dest) && Lookup(table, dest) == Some(0)
    ensures Matches(table[0], dest) <==> host < 128
  {
    var net := Stored(192, 168, 1, 0);
    table := [Entry(net, Stored(255, 255, 255, 128), 0, 0), Entry(net, Stored(255, 255, 255, 0), 0, 1),
              Entry(Stored(192, 168, 2, 0), Stored(255, 255, 255, 0), 0, 2)];
    dest := Stored(192, 168, 1, host);
    Masked(192, 168, 1, host);
    assert Sides(table, dest)[1] == Equal;
    assert Probe(Sides(table, dest), 0, 2) == Some(1);
    CmpOrderScan(table, 1);
  }

  /** So cmp is no order: three entries, each less than the next, in a circle. */
  lemma CmpHasCycles() returns (a: Entry, b: Entry, c: Entry)
    ensures Cmp(a, b) == Less && Cmp(b, c) == Less && Cmp(c, a) == Less
  {
    a, b, c := Entry(0, 0xff, 0, 0), Entry(0x6000_0000, 0xff, 0, 0), Entry(0xc000_0000, 0xff, 0, 0);
  }
}
