/** The router's check of an IP header: TTL, checksum, the in-place update, the next hop. */
module PacketCheck {
  import opened Bits
  import opened Wrappers
  import opened Checksum
  import RouteLookup

  /** sizeof(struct iphdr); the fields used lie at these offsets (section 3.1 of RFC 791). */
  const HEADER_SIZE: nat := 20

  datatype Verdict =
    | TimeExceeded     // an ICMP error is sent
    | BadChecksum      // dropped silently
    | NetUnreachable   // an ICMP error is sent
    | Forward(route: nat)

  function Ttl(h: seq<byte>): byte
    requires |h| == HEADER_SIZE
  {
    h[8]
  }

  function Field(h: seq<byte>): nat
    requires |h| == HEADER_SIZE
  {
    Word16(h[10], h[11])
  }

  /** daddr as the little-endian host reads it. */
  function Destination(h: seq<byte>): RouteLookup.uint32
    requires |h| == HEADER_SIZE
  {
    0x1_0000 * Word16(h[19], h[18]) + Word16(h[17], h[16])
  }

  /** A received header is accepted when summing it, checksum field included, leaves nothing. */
  predicate Verifies(h: seq<byte>) {
    IpField(h) == 0
  }

  function Store(h: seq<byte>, field: nat): (r: seq<byte>)
    requires |h| == HEADER_SIZE && field < 0x1_0000
    ensures |r| == HEADER_SIZE && Field(r) == field
  {
    h[10 := field / 0x100][11 := field % 0x100]
  }

  /** The header with a smaller TTL and no checksum. */
  function Cleared(h: seq<byte>): (r: seq<byte>)
    requires |h| == HEADER_SIZE && Ttl(h) > 0
    ensures |r| == HEADER_SIZE
  {
    Store(h[8 := h[8] - 1], 0)
  }

  /** The header that is sent on. */
  function Updated(h: seq<byte>): (r: seq<byte>)
    requires |h| == HEADER_SIZE && Ttl(h) > 0
    ensures |r| == HEADER_SIZE
  {
    Store(Cleared(h), IpField(Cleared(h)))
  }

  predicate Accepted(h: seq<byte>)
    requires |h| == HEADER_SIZE
  {
    Ttl(h) > 1 && Verifies(h)
  }

  /** The next hop of an accepted header. */
  function NextHop(h: seq<byte>, table: seq<RouteLookup.Entry>): Verdict
    requires |h| == HEADER_SIZE
  {
    match RouteLookup.Lookup(table, Destination(h))
    case None => NetUnreachable
    case Some(i) => Forward(i)
  }

  /** The next hop depends on bytes 16 to 19 only. */
  lemma SameDestination(h: seq<byte>, h': seq<byte>, table: seq<RouteLookup.Entry>)
    requires |h| == HEADER_SIZE == |h'| && h[16..20] == h'[16..20]
    ensures NextHop(h, table) == NextHop(h', table)
  {
    assert forall i :: 0 <= i < 4 ==> h[16 + i] == h[16..20][i] && h'[16 + i] == h'[16..20][i];
  }

  /** A route to the one address a.b.c.d, as the routing table holds it. */
  predicate HostRoute(table: seq<RouteLookup.Entry>, a: byte, b: byte, c: byte, d: byte) {
    |table| == 1 && table[0].prefix == RouteLookup.Stored(a, b, c, d)
    && table[0].mask == RouteLookup.Stored(255, 255, 255, 255)
  }

  lemma WholeAddress(dest: RouteLookup.uint32)
    ensures And(dest, 0xffff_ffff) == dest
  {
    assert Pow2(8) == 0x100 && Pow2(16) == 0x1_0000 && Pow2(24) == 0x100_0000 && Pow2(32) == 0x1_0000_0000;
    RouteLookup.FitsBelow(dest, 32);
    RouteLookup.AllOnesBelow(32);
    RouteLookup.AndAllOnes(dest, 0xffff_ffff, 32);
  }

  lemma DestinationIs(h: seq<byte>, a: byte, b: byte, c: byte, d: byte)
    requires |h| == HEADER_SIZE
    ensures Destination(h) == RouteLookup.Stored(a, b, c, d) <==> h[16..20] == [a, b, c, d]
  {
    assert h[16..20] == [h[16], h[17], h[18], h[19]];
    assert Destination(h) == RouteLookup.Stored(h[16], h[17], h[18], h[19]);
    RouteLookup.StoredOnce(h[16], h[17], h[18], h[19], a, b, c, d);
  }

  /** With a route to one address only, a header is forwarded iff its bytes 16 to 19 are that address. */
  lemma HostRouteIff(h: seq<byte>, table: seq<RouteLookup.Entry>, a: byte, b: byte, c: byte, d: byte)
    requires |h| == HEADER_SIZE && HostRoute(table, a, b, c, d)
    ensures NextHop(h, table) == if h[16..20] == [a, b, c, d] then Forward(0) else NetUnreachable
  {
    WholeAddress(Destination(h));
    RouteLookup.OneRoute(table, Destination(h));
    DestinationIs(h, a, b, c, d);
  }

  lemma HostRoutes(h: seq<byte>, table: seq<RouteLookup.Entry>)
    requires |h| == HEADER_SIZE
    ensures forall a: byte, b: byte, c: byte, d: byte :: HostRoute(table, a, b, c, d) ==>
              (NextHop(h, table) == Forward(0) <==> h[16..20] == [a, b, c, d])
  {
    forall a: byte, b: byte, c: byte, d: byte | HostRoute(table, a, b, c, d)
      ensures NextHop(h, table) == Forward(0) <==> h[16..20] == [a, b, c, d]
    {
      HostRouteIff(h, table, a, b, c, d);
    }
  }

  method WriteField(header: array<byte>, field: nat)
    requires header.Length == HEADER_SIZE && field < 0x1_0000
    modifies header
    ensures header[..] == Store(old(header[..]), field)
  {
    header[10], header[11] := field / 0x100, field % 0x100;
  }

  /** The header of an accepted packet is updated in place. */
  method UpdateHeader(header: array<byte>, offset: nat)
    requires header.Length == HEADER_SIZE && offset < 4 && Ttl(header[..]) > 0
    modifies header
    ensures header[..] == Updated(old(header[..]))
  {
    ghost var h := header[..];
    header[8] := header[8] - 1;
    assert header[..] == h[8 := h[8] - 1];
    WriteField(header, 0);
    var check := IpChecksum(header[..], offset);
    WriteField(header, check);
  }

  lemma UpdatedDestination(h: seq<byte>)
    requires |h| == HEADER_SIZE && Ttl(h) > 0
    ensures Destination(Updated(h)) == Destination(h)
  {
  }

  /** check_packet on the header at an address that is offset modulo 4. */
  method CheckPacket(header: array<byte>, offset: nat, table: seq<RouteLookup.Entry>) returns (verdict: Verdict)
    requires header.Length == HEADER_SIZE && offset < 4
    modifies header
    ensures verdict == TimeExceeded <==> Ttl(old(header[..])) <= 1
    ensures verdict == BadChecksum <==> Ttl(old(header[..])) > 1 && !Verifies(old(header[..]))
    ensures if Accepted(old(header[..]))
            then header[..] == Updated(old(header[..])) && verdict == NextHop(old(header[..]), table)
            else header[..] == old(header[..])
    ensures forall a: byte, b: byte, c: byte, d: byte ::
              Accepted(old(header[..])) && HostRoute(table, a, b, c, d) ==>
                (verdict == Forward(0) <==> old(header[..])[16..20] == [a, b, c, d])
  {
    ghost var h := header[..];
    if header[8] <= 1 {
      return TimeExceeded;
    }
    var check := IpChecksum(header[..], offset);
    if check != 0 {
      return BadChecksum;
    }
    UpdateHeader(header, offset);
    var found := RouteLookup.GetBestRoute(table, Destination(header[..]));
    match found {
      case None => verdict := NetUnreachable;
      case Some(i) => verdict := Forward(i);
    }
    UpdatedDestination(h);
    HostRoutes(h, table);
    assert verdict == NextHop(h, table);
  }

  lemma {:induction false} TotalUpdate(data: seq<byte>, i: nat, b: byte, high: bool)
    requires i < |data|
    ensures Total(data[i := b], high) - Total(data, high)
            == if Flip(high, i) then Word16(b, 0) - Word16(data[i], 0) else b - data[i]
  {
    if i > 0 {
      assert data[i := b][1..] == data[1..][i - 1 := b];
      TotalUpdate(data[1..], i - 1, b, !high);
    } else {
      assert data[i := b][1..] == data[1..];
    }
  }

  lemma StoreTotal(h: seq<byte>, field: nat)
    requires |h| == HEADER_SIZE && field < 0x1_0000
    ensures Total(Store(h, field), true) == Total(h, true) - Field(h) + field
  {
    var h1 := h[10 := field / 0x100];
    FlipTwice(true, 5);
    FlipAdd(true, 10, 1);
    TotalUpdate(h, 10, field / 0x100, true);
    TotalUpdate(h1, 11, field % 0x100, true);
  }

  lemma ClearedTotal(h: seq<byte>)
    requires |h| == HEADER_SIZE && Ttl(h) > 0
    ensures Total(Cleared(h), true) == Total(h, true) - 0x100 - Field(h)
  {
    FlipTwice(true, 4);
    TotalUpdate(h, 8, h[8] - 1, true);
    StoreTotal(h[8 := h[8] - 1], 0);
  }

  lemma VerifiesIff(h: seq<byte>)
    ensures Verifies(h) <==> Canon(0xffff + Total(h, true)) == 0xffff
  {
    OnesSumIsCanon(h);
    if Total(h, true) > 0 {
      CanonShift(Total(h, true), 1);
    }
  }

  /** Storing ip_checksum of a header whose checksum field is zero makes the header verify. */
  lemma StoredChecksumVerifies(h: seq<byte>)
    requires |h| == HEADER_SIZE && Field(h) == 0
    ensures Verifies(Store(h, IpField(h)))
  {
    var t := Total(h, true);
    StoreTotal(h, IpField(h));
    VerifiesIff(Store(h, IpField(h)));
    OnesSumIsCanon(h);
    if t > 0 {
      var k := CanonForm(t);
      CanonShift(0xffff, k + 1);
    }
  }

  lemma NewField(before: nat, after: nat, field: nat)
    requires Canon(0xffff + before) == 0xffff
    requires 0 < after && after == before - 0x100 - field
    ensures 0xffff - Canon(after) == (field + 0x100) % 0xffff
  {
    var k := CanonForm(0xffff + before);
    var j := CanonForm(after);
    assert field + 0x100 == 0xffff * (k - j - 1) + (0xffff - Canon(after));
  }

  /**
   check_packet keeps headers valid: a header that verifies, with ttl > 1, leaves with
   ttl - 1, every other byte but the checksum unchanged, and verifies again.  The new
   field is the one of the incremental update of section 3 of RFC 1624.
   */
  lemma UpdatedHeader(h: seq<byte>)
    requires |h| == HEADER_SIZE && Ttl(h) > 1 && Verifies(h)
    ensures Verifies(Updated(h))
    ensures Ttl(Updated(h)) == Ttl(h) - 1
    ensures forall i :: 0 <= i < HEADER_SIZE && i != 8 && i != 10 && i != 11 ==> Updated(h)[i] == h[i]
    ensures Field(Updated(h)) == (Field(h) + 0x100) % 0xffff
  {
    StoredChecksumVerifies(Cleared(h));
    ClearedTotal(h);
    VerifiesIff(h);
    OnesSumIsCanon(Cleared(h));
    TotalZero(Cleared(h), true);
    assert Cleared(h)[8] > 0;
    NewField(Total(h, true), Total(Cleared(h), true), Field(h));
  }
}
