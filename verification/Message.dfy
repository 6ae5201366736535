/** Messages of the file transfer, their checksum, and the damage the link does to them. */
module Message {
  import opened Bits
  const MSGSIZE: nat := 1396

  /** A message in a fixed-size buffer of which the first len bytes matter. */
  datatype Msg = Msg(len: int, payload: seq<byte>, checksum: int)

  /** The meaning of the checksum: the exclusive or of all bytes of the buffer. */
  function XorAll(bytes: seq<byte>): nat {
    if bytes == [] then 0 else Xor(XorAll(bytes[..|bytes| - 1]), bytes[|bytes| - 1])
  }

  lemma LowAll8(b: byte)
    ensures Low(b, 8) == b
  {
    assert Pow2(4) == 16 && Pow2(8) == 256;
    LowAll(b, 8);
  }

  /** The inner loop of get_checksum. */
  method AddByte(before: nat, b: byte) returns (sum: nat)
    ensures sum == Xor(before, b)
  {
    sum := before;
    XorZero(before);
    for j := 0 to 8
      invariant sum == Xor(before, Low(b, j))
    {
      LowNext(b, j);
      XorAssoc(before, Low(b, j), And(Pow2(j), b));
      sum := Xor(sum, And(Pow2(j), b));
    }
    LowAll8(b);
  }

  /** No bytes sum to 0, one byte to itself, and the order of summing does not matter. */
  lemma {:induction false} XorAppend(a: seq<byte>, b: seq<byte>)
    ensures XorAll([]) == 0 && (|a| == 1 ==> XorAll(a) == a[0])
    ensures XorAll(a + b) == Xor(XorAll(a), XorAll(b))
  {
    XorZero(XorAll(a));
    if |a| == 1 {
      XorZero(a[0]);
      assert a[..0] == [];
    }
    if b == [] {
      assert a + b == a;
    } else {
      var n := |b| - 1;
      assert (a + b)[..|a + b| - 1] == a + b[..n];
      XorAppend(a, b[..n]);
      XorAssoc(XorAll(a), XorAll(b[..n]), b[n]);
    }
  }

  /** get_checksum, bit by bit over the whole buffer. */
  method GetChecksum(payload: seq<byte>) returns (sum: nat)
    ensures sum == XorAll(payload)
  {
    sum := 0;
    for i := 0 to |payload|
      invariant sum == XorAll(payload[..i])
    {
      sum := AddByte(sum, payload[i]);
      assert payload[..i + 1][..i] == payload[..i];
    }
    assert payload[..|payload|] == payload;
  }

  /** What check_checksum tests. */
  predicate Passes(m: Msg) {
    m.checksum == XorAll(m.payload)
  }

  /** The sender stores the checksum in the message, and the receiver's test succeeds. */
  method Seal(m: Msg) returns (sealed: Msg)
    ensures Passes(sealed) && sealed.payload == m.payload && sealed.len == m.len
  {
    var sum := GetChecksum(m.payload);
    sealed := m.(checksum := sum);
  }

  /** check_checksum: the same two loops, and a comparison. */
  method CheckChecksum(m: Msg) returns (ok: bool)
    ensures ok <==> Passes(m)
  {
    var sum := GetChecksum(m.payload);
    ok := m.checksum == sum;
  }

  lemma FlippedByte(b: byte, j: nat)
    requires j < 8
    ensures 0 <= Xor(b, Pow2(j)) < 0x100
  {
    assert Pow2(1) == 2 && Pow2(2) == 4 && Pow2(3) == 8 && Pow2(4) == 16 && Pow2(5) == 32 && Pow2(6) == 64;
    assert Pow2(7) == 128 && Pow2(8) == 256;
    XorBound(b, Pow2(j), 8);
  }

  /** Bit j of byte i of the payload is inverted. */
  function Flip(m: Msg, i: nat, j: nat): (r: Msg)
    requires i < |m.payload| && j < 8
  {
    FlippedByte(m.payload[i], j);
    m.(payload := m.payload[i := Xor(m.payload[i], Pow2(j))])
  }

  /** One bit of one byte of the payload changes, and nothing else. */
  lemma FlipIsOneBit(m: Msg, i: nat, j: nat)
    requires i < |m.payload| && j < 8
    ensures var m' := Flip(m, i, j);
            && m'.len == m.len && m'.checksum == m.checksum && |m'.payload| == |m.payload|
            && (forall k :: 0 <= k < |m.payload| && k != i ==> m'.payload[k] == m.payload[k])
            && var before: int, after: int := m.payload[i], m'.payload[i];
               after == before + Pow2(j) || after == before - Pow2(j)
  {
    FlippedByte(m.payload[i], j);
    XorOneBit(m.payload[i], j);
  }

  lemma {:induction false} XorFlipped(bytes: seq<byte>, i: nat, d: nat, b: byte)
    requires i < |bytes| && b == Xor(bytes[i], d)
    ensures XorAll(bytes[i := b]) == Xor(XorAll(bytes), d)
  {
    var n := |bytes| - 1;
    var flipped := bytes[i := b];
    var a := XorAll(bytes[..n]);
    if i == n {
      assert flipped[..n] == bytes[..n];
      XorAssoc(a, bytes[n], d);
    } else {
      XorFlipped(bytes[..n], i, d, b);
      assert flipped[..n] == bytes[..n][i := b];
      XorAssoc(a, d, bytes[n]);
      XorSym(d, bytes[n]);
      XorAssoc(a, bytes[n], d);
    }
  }

  /** The receiver's check passes an undamaged message and notices every single flipped bit. */
  lemma FlipIsNoticed(m: Msg, i: nat, j: nat)
    requires i < |m.payload| && j < 8 && Passes(m)
    ensures !Passes(Flip(m, i, j)) && Flip(m, i, j) != m
  {
    FlippedByte(m.payload[i], j);
    XorFlipped(m.payload, i, Pow2(j), Xor(m.payload[i], Pow2(j)));
    XorDiffers(XorAll(m.payload), Pow2(j));
  }
}
