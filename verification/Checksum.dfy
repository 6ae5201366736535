/**
 The two Internet checksums of the router, and the one's-complement sum of
 sections 1 and 2 of RFC 1071 that both are meant to compute.

 Machine integers are modelled by naturals; the masks and shifts of the source
 become remainders and quotients by powers of two.  A returned 16-bit checksum is
 represented by the value of its two stored bytes read in network order; the host
 is little-endian.
 */
module Checksum {
  import opened Bits

  /** A length up to which the 64-bit accumulator of ip_checksum cannot wrap. */
  const MAX_LENGTH: nat := 0x3_FFFF_FFF8

  /** The value of two bytes read in network order. */
  function Word16(hi: int, lo: int): int {
    0x100 * hi + lo
  }

  // ---------- The reference: RFC 1071 ----------

  /** 16-bit one's-complement addition with end-around carry. */
  function OnesAdd(a: nat, b: nat): (s: nat)
    requires a < 0x1_0000 && b < 0x1_0000
    ensures s < 0x1_0000
  {
    if a + b >= 0x1_0000 then a + b - 0xffff else a + b
  }

  /** One's-complement sum of the big-endian 16-bit words; an odd last byte is padded with zero. */
  function OnesSum(data: seq<byte>): (s: nat)
    ensures s < 0x1_0000
  {
    if data == [] then 0
    else if |data| == 1 then Word16(data[0], 0)
    else OnesAdd(Word16(data[0], data[1]), OnesSum(data[2..]))
  }

  predicate AllZero(data: seq<byte>) {
    forall i :: 0 <= i < |data| ==> data[i] == 0
  }

  /** Of the two one's-complement zeros, ip_checksum computes with 0xffff. */
  function NonZero(s: nat): nat {
    if s == 0 then 0xffff else s
  }

  // ---------- One's-complement representations ----------

  /** The 16-bit one's-complement representation of a natural number: zero only for zero. */
  function Canon(n: nat): (r: nat)
    ensures r < 0x1_0000
    ensures r == 0 <==> n == 0
  {
    if n < 0x1_0000 then n else Canon(n - 0xffff)
  }

  lemma {:induction false} CanonShift(n: nat, k: nat)
    requires n > 0
    ensures Canon(n + 0xffff * k) == Canon(n)
  {
    if k > 0 {
      CanonShift(n, k - 1);
    }
  }

  lemma {:induction false} CanonForm(n: nat) returns (k: nat)
    ensures n == Canon(n) + 0xffff * k
  {
    k := 0;
    if n >= 0x1_0000 {
      k := CanonForm(n - 0xffff);
      k := k + 1;
    }
  }

  lemma CanonPlus(a: nat, b: nat, c: nat)
    requires a > 0 && b > 0 && Canon(a) == Canon(b)
    ensures Canon(a + c) == Canon(b + c)
  {
    var i := CanonForm(a);
    var j := CanonForm(b);
    CanonShift(Canon(a) + c, i);
    CanonShift(Canon(a) + c, j);
  }

  lemma CanonTimes(a: nat, b: nat)
    requires a > 0 && b > 0 && Canon(a) == Canon(b)
    ensures Canon(0x100 * a) == Canon(0x100 * b)
  {
    var i := CanonForm(a);
    var j := CanonForm(b);
    CanonShift(0x100 * Canon(a), 0x100 * i);
    CanonShift(0x100 * Canon(a), 0x100 * j);
  }

  lemma CanonOfSum(a: nat, n: nat)
    requires a < 0x1_0000
    ensures Canon(a + n) == OnesAdd(a, Canon(n))
  {
    var k := CanonForm(n);
    if n > 0 {
      CanonShift(a + Canon(n), k);
    }
  }

  // ---------- Sums as natural numbers ----------

  /** Whether the byte n places after one of weight 256 (iff high) has weight 256. */
  function Flip(high: bool, n: nat): bool
    decreases n
  {
    if n == 0 then high else Flip(!high, n - 1)
  }

  lemma {:induction false} FlipAdd(high: bool, m: nat, n: nat)
    ensures Flip(high, m + n) == Flip(Flip(high, m), n)
    decreases m
  {
    if m > 0 {
      FlipAdd(!high, m - 1, n);
    }
  }

  lemma {:induction false} FlipTwice(high: bool, n: nat)
    ensures Flip(high, 2 * n) == high
    decreases n
  {
    if n > 0 {
      FlipTwice(high, n - 1);
    }
  }

  /** The plain sum in which bytes alternately weigh 256 and 1, starting with 256 iff high. */
  function Total(data: seq<byte>, high: bool): nat {
    if data == [] then 0
    else (if high then Word16(data[0], 0) else Word16(0, data[0])) + Total(data[1..], !high)
  }

  lemma {:induction false} OnesSumIsCanon(data: seq<byte>)
    ensures OnesSum(data) == Canon(Total(data, true))
  {
    if |data| >= 2 {
      OnesSumIsCanon(data[2..]);
      assert data[1..][1..] == data[2..];
      assert Total(data, true) == Word16(data[0], data[1]) + Total(data[2..], true);
      CanonOfSum(Word16(data[0], data[1]), Total(data[2..], true));
    }
  }

  lemma {:induction false} TotalZero(data: seq<byte>, high: bool)
    ensures Total(data, high) == 0 <==> AllZero(data)
  {
    if data != [] {
      TotalZero(data[1..], !high);
      assert data == [data[0]] + data[1..];
    }
  }

  lemma {:induction false} TotalAppend(a: seq<byte>, b: seq<byte>, high: bool)
    ensures Total(a + b, high) == Total(a, high) + Total(b, Flip(high, |a|))
  {
    if a == [] {
      assert a + b == b;
    } else {
      TotalAppend(a[1..], b, !high);
      assert (a + b)[1..] == a[1..] + b;
    }
  }

  lemma OtherOrderStep(x: nat, y: nat, b: nat, high: bool)
    requires Canon(x) == Canon(y)
    ensures high ==> Canon(0x1_0000 * b + x) == Canon(b + y)
    ensures !high ==> Canon(0x100 * b + x) == Canon(0x100 * b + y)
  {
    if x > 0 {
      CanonPlus(x, y, if high then b else 0x100 * b);
    }
    if b + x > 0 {
      CanonShift(b + x, b);
    }
  }

  /** Section 1.2 of RFC 1071, byte order independence: swapping all words swaps the sum. */
  lemma {:induction false} TotalOtherOrder(data: seq<byte>, high: bool)
    ensures Canon(0x100 * Total(data, high)) == Canon(Total(data, !high))
  {
    if data != [] {
      var rest := data[1..];
      TotalOtherOrder(rest, !high);
      TotalZero(rest, high);
      TotalZero(rest, !high);
      OtherOrderStep(0x100 * Total(rest, !high), Total(rest, high), data[0], high);
    }
  }

  // ---------- 32-bit blocks ----------

  function Zeros(n: nat): (z: seq<byte>)
    ensures |z| == n && AllZero(z)
  {
    seq(n, _ => 0)
  }

  /** The value ntohl gives to the four bytes of w. */
  function Be32(w: seq<byte>): (v: nat)
    requires |w| == 4
    ensures v < 0x1_0000_0000
  {
    0x1_0000 * Word16(w[0], w[1]) + Word16(w[2], w[3])
  }

  /** A zeroed word into which s was copied, leaving before bytes in front of it. */
  function Padded(before: nat, s: seq<byte>): (w: seq<byte>)
    requires before + |s| <= 4
    ensures |w| == 4
  {
    Zeros(before) + s + Zeros(4 - before - |s|)
  }

  lemma Total4(w: seq<byte>)
    requires |w| == 4
    ensures Total(w, true) == Word16(w[0], w[1]) + Word16(w[2], w[3])
  {
    assert w == [w[0]] + ([w[1]] + ([w[2]] + [w[3]]));
    TotalAppend([w[0]], [w[1]] + ([w[2]] + [w[3]]), true);
    TotalAppend([w[1]], [w[2]] + [w[3]], false);
    TotalAppend([w[2]], [w[3]], true);
  }

  /** 2^16 is 1 modulo 0xffff, so a 32-bit word may be added like its two halves. */
  lemma AddBe32(acc: nat, w: seq<byte>)
    requires 0 < acc && |w| == 4
    ensures Canon(acc + Be32(w)) == Canon(acc + Total(w, true))
  {
    Total4(w);
    CanonShift(acc + Total(w, true), Word16(w[0], w[1]));
  }

  lemma PaddedTotal(before: nat, s: seq<byte>)
    requires before + |s| <= 4
    ensures Total(Padded(before, s), true) == Total(s, Flip(true, before))
  {
    var tail := Zeros(4 - before - |s|);
    TotalAppend(Zeros(before) + s, tail, true);
    TotalAppend(Zeros(before), s, true);
    TotalZero(Zeros(before), true);
    TotalZero(tail, Flip(true, |Zeros(before) + s|));
  }

  /** acc, which starts at 0xffff, represents the sum of the first pos bytes. */
  predicate Accumulated(acc: nat, data: seq<byte>, pos: nat, high: bool)
    requires pos <= |data|
  {
    0 < acc && Canon(acc) == Canon(0xffff + Total(data[..pos], high))
  }

  /** Adding the word that holds the next n bytes keeps acc a representation of the sum. */
  lemma AddBlock(acc: nat, data: seq<byte>, pos: nat, n: nat, before: nat, high: bool)
    requires before + n <= 4 && pos + n <= |data|
    requires Flip(high, pos) == Flip(true, before)
    requires Accumulated(acc, data, pos, high)
    ensures Accumulated(acc + Be32(Padded(before, data[pos..pos + n])), data, pos + n, high)
  {
    var w := Padded(before, data[pos..pos + n]);
    assert Total(data[..pos + n], high) == Total(data[..pos], high) + Total(w, true) by {
      PaddedTotal(before, data[pos..pos + n]);
      assert data[..pos + n] == data[..pos] + data[pos..pos + n];
      TotalAppend(data[..pos], data[pos..pos + n], high);
    }
    CanonPlus(acc, 0xffff + Total(data[..pos], high), Total(w, true));
    AddBe32(acc, w);
  }

  // ---------- ip_checksum ----------

  function SwapBytes(v: nat): (r: nat)
    requires v < 0x1_0000
    ensures r < 0x1_0000
  {
    v / 0x100 + 0x100 * (v % 0x100)
  }

  lemma SwapTimes256(v: nat)
    requires 0 < v < 0x1_0000
    ensures SwapBytes(v) == Canon(0x100 * v)
  {
    CanonShift(SwapBytes(v), v / 0x100);
    assert 0x100 * v == SwapBytes(v) + 0xffff * (v / 0x100);
  }

  /** The checksum field that ip_checksum computes for data. */
  function IpField(data: seq<byte>): nat {
    0xffff - NonZero(OnesSum(data))
  }

  lemma FlipOffset(offset: nat)
    requires offset < 4
    ensures Flip(true, offset) == (offset % 2 == 0)
    ensures Flip(Flip(true, offset), 4 - offset)
  {
    assert !Flip(true, 1) && Flip(true, 2) && !Flip(true, 3);
    FlipAdd(true, offset, 4 - offset);
    FlipTwice(true, 2);
  }

  /** uint64_t addition. */
  function Add64(acc: nat, word: nat): (r: nat)
    ensures acc + word < 0x1_0000_0000_0000_0000 ==> r == acc + word
  {
    (acc + word) % 0x1_0000_0000_0000_0000
  }

  /** The loop over the complete 32-bit blocks; what is left is shorter than a block. */
  method AddWholeWords(data: seq<byte>, first: nat, acc0: nat, ghost high: bool) returns (acc: nat, pos: nat)
    requires first <= |data| <= MAX_LENGTH
    requires first < |data| ==> Flip(high, first)
    requires Accumulated(acc0, data, first, high) && acc0 <= 0x1_0000_fffe
    ensures pos <= |data| < pos + 4
    ensures pos < |data| ==> Flip(high, pos)
    ensures Accumulated(acc, data, pos, high)
    ensures acc < 0xffff_ffff_0000_0000
  {
    var length := |data| - first;
    acc, pos := acc0, first;
    var dataEnd := first + (length - length % 4);
    ghost var done := 0;
    while pos != dataEnd
      invariant pos == first + 4 * done && pos <= dataEnd
      invariant pos < |data| ==> Flip(high, pos)
      invariant Accumulated(acc, data, pos, high)
      invariant acc <= 0x1_0000_fffe + done * 0xffff_ffff
    {
      assert Padded(0, data[pos..pos + 4]) == data[pos..pos + 4];
      AddBlock(acc, data, pos, 4, 0, high);
      acc := Add64(acc, Be32(data[pos..pos + 4]));
      FlipAdd(high, pos, 4);
      pos, done := pos + 4, done + 1;
    }
  }

  /** The partial block at the end of the data. */
  method AddTail(data: seq<byte>, pos: nat, acc0: nat, ghost high: bool) returns (acc: nat)
    requires pos <= |data| < pos + 4
    requires pos < |data| ==> Flip(high, pos)
    requires Accumulated(acc0, data, pos, high) && acc0 < 0xffff_ffff_0000_0000
    ensures 0 < acc < 0x1_0000_0000_0000_0000
    ensures Canon(acc) == Canon(0xffff + Total(data, high))
  {
    acc := acc0;
    var length := |data| - pos;
    assert data[..|data|] == data;
    if length != 0 {
      AddBlock(acc, data, pos, length, 0, high);
      acc := Add64(acc, Be32(Padded(0, data[pos..pos + length])));
    }
  }

  /** The 64-bit accumulator after the unaligned head, the whole words and the tail. */
  method AddWords(data: seq<byte>, offset: nat) returns (acc: nat)
    requires offset < 4 && |data| <= MAX_LENGTH
    ensures 0 < acc < 0x1_0000_0000_0000_0000
    ensures Canon(acc) == Canon(0xffff + Total(data, offset % 2 == 0))
  {
    ghost var high := offset % 2 == 0;
    acc := 0xffff;
    var pos := 0;
    if offset != 0 {
      var count := if 4 - offset > |data| then |data| else 4 - offset;
      FlipOffset(offset);
      AddBlock(acc, data, pos, count, offset, high);
      acc := Add64(acc, Be32(Padded(offset, data[pos..pos + count])));
      pos := pos + count;
    }
    assert pos < |data| ==> Flip(high, pos);
    acc, pos := AddWholeWords(data, pos, acc, high);
    acc := AddTail(data, pos, acc, high);
  }

  /** The deferred carries: 32 bits at once, then 16 at a time until nothing is left to carry. */
  method FoldCarries(sum: nat) returns (acc: nat)
    requires 0 < sum < 0x1_0000_0000_0000_0000
    ensures 0 < acc < 0x1_0000 && acc == Canon(sum)
  {
    acc := sum % 0x1_0000_0000 + sum / 0x1_0000_0000;
    CanonShift(acc, 0x1_0001 * (sum / 0x1_0000_0000));
    while acc / 0x1_0000 != 0
      invariant 0 < acc && Canon(acc) == Canon(sum)
      decreases acc
    {
      CanonShift(acc % 0x1_0000 + acc / 0x1_0000, acc / 0x1_0000);
      acc := acc % 0x1_0000 + acc / 0x1_0000;
    }
  }

  /** For data at an odd address the sum was taken in the other byte order. */
  lemma FixOddStart(acc: nat, data: seq<byte>)
    requires 0 < acc < 0x1_0000 && acc == Canon(0xffff + Total(data, false))
    ensures Canon(0x100 * acc) == Canon(0xffff + Total(data, true))
  {
    var low, high := Total(data, false), Total(data, true);
    TotalOtherOrder(data, false);
    TotalZero(data, false);
    TotalZero(data, true);
    CanonTimes(acc, 0xffff + low);
    if low > 0 {
      CanonShift(0x100 * low, 0x100);
      CanonShift(high, 1);
    } else {
      CanonShift(0xffff, 0xff);
    }
  }

  /** ip_checksum for data whose address is offset modulo 4. */
  method IpChecksum(data: seq<byte>, offset: nat) returns (field: nat)
    requires offset < 4 && |data| <= MAX_LENGTH
    ensures field == IpField(data)
  {
    var acc := AddWords(data, offset);
    acc := FoldCarries(acc);
    if offset % 2 == 1 {
      SwapTimes256(acc);
      FixOddStart(acc, data);
      acc := SwapBytes(acc);
    }
    OnesSumIsCanon(data);
    CanonShift(NonZero(Total(data, true)), 1);
    field := 0xffff - acc;
  }

  /** ip_checksum is the complement of the RFC 1071 sum exactly on data that is not all zero. */
  lemma IpFieldIsRfcIff(data: seq<byte>)
    ensures IpField(data) == 0xffff - OnesSum(data) <==> !AllZero(data)
    ensures AllZero(data) ==> IpField(data) == 0
  {
    OnesSumIsCanon(data);
    TotalZero(data, true);
  }

  // ---------- icmp_checksum ----------

  /** One folding step: the carries above 16 bits are added in. */
  function Fold(n: nat): nat {
    n / 0x1_0000 + n % 0x1_0000
  }

  /** The field icmp_checksum stores when its little-endian words add up to sum. */
  function IcmpField(sum: nat): nat {
    var once := Fold(sum);
    SwapBytes(0xffff - (once + once / 0x1_0000) % 0x1_0000)
  }

  /** What icmp_checksum reads: an odd last byte is read together with the byte after the data. */
  function IcmpInput(data: seq<byte>, beyond: byte): seq<byte> {
    if |data| % 2 == 0 then data else data + [beyond]
  }

  lemma AddPair(a: seq<byte>, words: nat, w: seq<byte>)
    requires |a| == 2 * words && |w| == 2
    ensures Total(a + w, false) == Total(a, false) + Word16(w[1], w[0])
  {
    TotalAppend(a, w, false);
    FlipTwice(false, words);
    assert w == [w[0]] + [w[1]];
    TotalAppend([w[0]], [w[1]], false);
  }

  /** The word loop of icmp_checksum and the odd byte after it. */
  method SumWords(data: seq<byte>, beyond: byte) returns (cksum: nat)
    ensures cksum == Total(IcmpInput(data, beyond), false)
  {
    cksum := 0;
    var pos, size := 0, |data|;
    ghost var words := 0;
    while size > 1
      invariant 0 <= size && pos == 2 * words && pos + size == |data|
      invariant cksum == Total(data[..pos], false)
    {
      assert data[..pos + 2] == data[..pos] + data[pos..pos + 2];
      AddPair(data[..pos], words, data[pos..pos + 2]);
      cksum := cksum + Word16(data[pos + 1], data[pos]);
      pos, size := pos + 2, size - 2;
      words := words + 1;
    }
    if size != 0 {
      assert data + [beyond] == data[..pos] + [data[pos], beyond];
      AddPair(data[..pos], words, [data[pos], beyond]);
      cksum := cksum + Word16(beyond, data[pos]);
    } else {
      assert data[..pos] == data;
    }
  }

  /** Two folds are enough exactly when the second one leaves no carry. */
  predicate TwoFoldsSuffice(sum: nat) {
    Fold(Fold(sum)) < 0x1_0000
  }

  /** Words of size bytes, size a uint32_t, add up to less than 2^47. */
  lemma {:induction false} TotalBound(data: seq<byte>, words: nat)
    requires |data| == 2 * words
    ensures Total(data, false) <= 0xffff * words
  {
    if words > 0 {
      var init := data[..2 * (words - 1)];
      TotalBound(init, words - 1);
      AddPair(init, words - 1, data[2 * (words - 1)..]);
      assert data == init + data[2 * (words - 1)..];
    }
  }

  lemma FoldCanon(n: nat)
    ensures Canon(Fold(n)) == Canon(n)
  {
    if n > 0 {
      CanonShift(Fold(n), n / 0x1_0000);
      assert n == Fold(n) + 0xffff * (n / 0x1_0000);
    }
  }

  lemma LowBits(once: nat)
    requires once < 0xffff_0000
    ensures Fold(once) < 0x1_ffff
    ensures (once + once / 0x1_0000) % 0x1_0000 == Fold(once) % 0x1_0000
  {
    assert once + once / 0x1_0000 == Fold(once) + 0x1_0000 * (once / 0x1_0000);
  }

  /** What icmp_checksum complements, in terms of two full folds. */
  lemma IcmpTwoFolds(sum: nat)
    requires sum < 0x8000_0000_0000
    ensures Fold(Fold(sum)) < 0x1_ffff
    ensures IcmpField(sum) == SwapBytes(0xffff - Fold(Fold(sum)) % 0x1_0000)
  {
    assert Fold(sum) < 0xffff_0000;
    LowBits(Fold(sum));
  }

  lemma CarryLost(m: nat)
    requires m < 0x1_ffff
    ensures Canon(m) == m % 0x1_0000 <==> m < 0x1_0000
  {
  }

  lemma SwapInjective(a: nat, b: nat)
    requires a < 0x1_0000 && b < 0x1_0000
    ensures SwapBytes(a) == SwapBytes(b) <==> a == b
  {
    if SwapBytes(a) == SwapBytes(b) {
      assert a == 0x100 * (a / 0x100) + a % 0x100;
      assert b == 0x100 * (b / 0x100) + b % 0x100;
    }
  }

  /** After two folds icmp_checksum holds the one's-complement sum iff no carry is left over. */
  lemma IcmpFoldIff(sum: nat)
    requires sum < 0x8000_0000_0000
    ensures IcmpField(sum) == SwapBytes(0xffff - Canon(sum)) <==> TwoFoldsSuffice(sum)
  {
    var m := Fold(Fold(sum));
    assert Canon(sum) == Canon(m) by {
      FoldCanon(sum);
      FoldCanon(Fold(sum));
    }
    IcmpTwoFolds(sum);
    CarryLost(m);
    SwapInjective(0xffff - m % 0x1_0000, 0xffff - Canon(m));
  }

  lemma SwapComplement(v: nat)
    requires v < 0x1_0000
    ensures SwapBytes(0xffff - v) == 0xffff - SwapBytes(v)
  {
    var q, r := v / 0x100, v % 0x100;
    assert 0xffff - v == 0x100 * (0xff - q) + (0xff - r);
    assert (0xffff - v) / 0x100 == 0xff - q;
  }

  /** The little-endian sum, stored on the little-endian host, is the RFC 1071 sum. */
  lemma SwappedSum(data: seq<byte>)
    ensures SwapBytes(Canon(Total(data, false))) == OnesSum(data)
  {
    var low := Total(data, false);
    OnesSumIsCanon(data);
    TotalZero(data, false);
    TotalZero(data, true);
    if low > 0 {
      TotalOtherOrder(data, false);
      CanonTimes(Canon(low), low);
      SwapTimes256(Canon(low));
    }
  }

  /** On even lengths icmp_checksum is the complement of the RFC 1071 sum iff two folds suffice. */
  lemma IcmpFieldIsRfcIff(data: seq<byte>, words: nat)
    requires |data| == 2 * words && |data| < 0x1_0000_0000
    ensures IcmpField(Total(data, false)) == 0xffff - OnesSum(data) <==> TwoFoldsSuffice(Total(data, false))
  {
    TotalBound(data, words);
    IcmpFoldIff(Total(data, false));
    SwapComplement(Canon(Total(data, false)));
    SwappedSum(data);
  }

  lemma OddTotal(data: seq<byte>, beyond: byte, n: nat)
    requires |data| == 2 * n + 1
    ensures Total(data + [beyond], false) == Total(data, false) + Word16(beyond, 0)
  {
    TotalAppend(data, [beyond], false);
    FlipAdd(false, 1, 2 * n);
    FlipTwice(true, n);
  }

  lemma IcmpFieldIs(sum: nat, v: nat)
    requires sum < 0x8000_0000_0000 && v < 0x1_0000
    ensures Fold(Fold(sum)) < 0x1_ffff
    ensures IcmpField(sum) == 0xffff - SwapBytes(v) <==> Fold(Fold(sum)) % 0x1_0000 == v
  {
    IcmpTwoFolds(sum);
    SwapComplement(v);
    SwapInjective(0xffff - Fold(Fold(sum)) % 0x1_0000, 0xffff - v);
  }

  /** Neither a byte nor a byte and a lost carry vanish modulo 0xffff. */
  lemma ByteBehind(m: nat, low: nat, beyond: byte)
    requires m < 0x1_ffff && Canon(m) == Canon(low + Word16(beyond, 0))
    ensures m % 0x1_0000 == Canon(low) <==> beyond == 0 && m < 0x1_0000
  {
    var i := CanonForm(m);
    var j := CanonForm(low + Word16(beyond, 0));
    var k := CanonForm(low);
    assert m + 0xffff * j == Canon(low) + Word16(beyond, 0) + 0xffff * i + 0xffff * k;
  }

  /**
   On odd lengths the byte behind the data is summed too: the result is right iff that byte
   is zero and two folds suffice.
   */
  lemma IcmpOddIff(data: seq<byte>, beyond: byte, n: nat)
    requires |data| == 2 * n + 1 && |data| < 0x1_0000_0000
    ensures IcmpField(Total(data + [beyond], false)) == 0xffff - OnesSum(data)
            <==> beyond == 0 && TwoFoldsSuffice(Total(data + [beyond], false))
  {
    var low, sum := Total(data, false), Total(data + [beyond], false);
    OddTotal(data, beyond, n);
    TotalBound(data + [beyond], n + 1);
    assert Canon(Fold(Fold(sum))) == Canon(sum) by {
      FoldCanon(sum);
      FoldCanon(Fold(sum));
    }
    IcmpFieldIs(sum, Canon(low));
    ByteBehind(Fold(Fold(sum)), low, beyond);
    SwappedSum(data);
  }

  lemma IcmpIff(data: seq<byte>, beyond: byte)
    requires |data| < 0x1_0000_0000
    ensures var field := IcmpField(Total(IcmpInput(data, beyond), false));
            && (|data| % 2 == 0 ==> (field == 0xffff - OnesSum(data) <==> TwoFoldsSuffice(Total(data, false))))
            && (|data| % 2 == 1 ==>
                  (field == 0xffff - OnesSum(data)
                   <==> beyond == 0 && TwoFoldsSuffice(Total(data + [beyond], false))))
  {
    if |data| % 2 == 0 {
      IcmpFieldIsRfcIff(data, |data| / 2);
    } else {
      IcmpOddIff(data, beyond, |data| / 2);
    }
  }

  /** The last three lines of icmp_checksum. */
  method FoldTwice(sum: nat) returns (field: nat)
    ensures field == IcmpField(sum)
  {
    var cksum := sum / 0x1_0000 + sum % 0x1_0000;
    cksum := cksum + cksum / 0x1_0000;
    field := SwapBytes(0xffff - cksum % 0x1_0000);
  }

  /** icmp_checksum for data followed in memory by the byte beyond. */
  method IcmpChecksum(data: seq<byte>, beyond: byte) returns (field: nat)
    requires |data| < 0x1_0000_0000
    ensures field == IcmpField(Total(IcmpInput(data, beyond), false))
    ensures |data| % 2 == 0 ==> (field == 0xffff - OnesSum(data) <==> TwoFoldsSuffice(Total(data, false)))
    ensures |data| % 2 == 1 ==>
              (field == 0xffff - OnesSum(data) <==> beyond == 0 && TwoFoldsSuffice(Total(data + [beyond], false)))
  {
    var sum := SumWords(data, beyond);
    field := FoldTwice(sum);
    IcmpIff(data, beyond);
  }

  lemma TwoFoldsBelow32Bits(sum: nat)
    requires sum < 0x1_0000_0000
    ensures TwoFoldsSuffice(sum)
  {
    assert Fold(sum) <= 0x1_fffe;
  }

  /**
   The two functions store the same two bytes exactly when some byte is not zero and two
   folds suffice, as they do below 2^32; on zeros they store ffff and 0000.
   */
  lemma ChecksumsAgreeIff(data: seq<byte>)
    requires |data| % 2 == 0 && |data| < 0x1_0000_0000
    ensures !AllZero(data) ==>
              (IcmpField(Total(data, false)) == IpField(data) <==> TwoFoldsSuffice(Total(data, false)))
    ensures AllZero(data) ==> IcmpField(Total(data, false)) == 0xffff && IpField(data) == 0
    ensures Total(data, false) < 0x1_0000_0000 ==> TwoFoldsSuffice(Total(data, false))
  {
    IcmpFieldIsRfcIff(data, |data| / 2);
    IpFieldIsRfcIff(data);
    if AllZero(data) {
      TotalZero(data, false);
    }
    if Total(data, false) < 0x1_0000_0000 {
      TwoFoldsBelow32Bits(Total(data, false));
    }
  }

  /** The bytes of n words, all of them ff. */
  function Ones(n: nat): (data: seq<byte>)
    ensures |data| == 2 * n
  {
    if n == 0 then [] else Ones(n - 1) + [0xff, 0xff]
  }

  lemma {:induction false} OnesTotal(n: nat)
    ensures Total(Ones(n), false) == 0xffff * n
  {
    if n > 0 {
      OnesTotal(n - 1);
      AddPair(Ones(n - 1), n - 1, [0xff, 0xff]);
    }
  }

  lemma CarryData(n: nat) returns (data: seq<byte>)
    requires n == 65538
    ensures |data| == 2 * (n + 1) && !TwoFoldsSuffice(Total(data, false))
  {
    data := Ones(n) + [1, 0];
    OnesTotal(n);
    AddPair(Ones(n), n, [1, 0]);
  }

  /** Some data leaves a carry: 65538 words ffff and then one word 1. */
  lemma CarryIsLeft() returns (data: seq<byte>)
    ensures |data| % 2 == 0 && |data| < 0x1_0000_0000 && !TwoFoldsSuffice(Total(data, false))
    ensures IcmpField(Total(data, false)) != 0xffff - OnesSum(data)
  {
    data := CarryData(65538);
    IcmpFieldIsRfcIff(data, 65539);
  }
}
