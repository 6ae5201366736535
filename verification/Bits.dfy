/** Bytes, and bitwise operations on naturals, bit by bit. */
module Bits {

  type byte = x: int | 0 <= x < 0x100

  function And(x: nat, y: nat): (r: nat)
    ensures r <= x
  {
    if x == 0 || y == 0 then 0
    else 2 * And(x / 2, y / 2) + (if x % 2 == 1 && y % 2 == 1 then 1 else 0)
  }

  function Xor(x: nat, y: nat): nat {
    if x == 0 && y == 0 then 0 else 2 * Xor(x / 2, y / 2) + (x + y) % 2
  }

  /** 1 << n */
  function Pow2(n: nat): (p: nat)
    ensures p > 0
  {
    if n == 0 then 1 else 2 * Pow2(n - 1)
  }

  lemma {:induction false} XorZero(x: nat)
    ensures Xor(x, 0) == x && Xor(0, x) == x && Xor(x, x) == 0
  {
    if x > 0 {
      XorZero(x / 2);
    }
  }

  lemma {:induction false} XorSym(x: nat, y: nat)
    ensures Xor(x, y) == Xor(y, x)
  {
    if x > 0 || y > 0 {
      XorSym(x / 2, y / 2);
    }
  }

  /** The lowest bit and the rest of an exclusive or. */
  lemma XorStep(a: nat, p: nat, b: nat, q: nat)
    requires p < 2 && q < 2
    ensures Xor(2 * a + p, 2 * b + q) == 2 * Xor(a, b) + (if p == q then 0 else 1)
  {
    assert (2 * a + p) / 2 == a && (2 * b + q) / 2 == b;
    assert (2 * a + p + (2 * b + q)) % 2 == (p + q) % 2;
  }

  lemma XorAssocStep(a: nat, p: nat, b: nat, q: nat, c: nat, r: nat)
    requires p < 2 && q < 2 && r < 2 && Xor(Xor(a, b), c) == Xor(a, Xor(b, c))
    ensures Xor(Xor(2 * a + p, 2 * b + q), 2 * c + r) == Xor(2 * a + p, Xor(2 * b + q, 2 * c + r))
  {
    var pq, qr := if p == q then 0 else 1, if q == r then 0 else 1;
    XorStep(a, p, b, q);
    XorStep(b, q, c, r);
    XorStep(Xor(a, b), pq, c, r);
    XorStep(a, p, Xor(b, c), qr);
  }

  lemma {:induction false} XorAssoc(x: nat, y: nat, z: nat)
    ensures Xor(Xor(x, y), z) == Xor(x, Xor(y, z))
  {
    if x > 0 || y > 0 || z > 0 {
      XorAssoc(x / 2, y / 2, z / 2);
      XorAssocStep(x / 2, x % 2, y / 2, y % 2, z / 2, z % 2);
    }
  }

  /** Flipping bits never gives back the same number. */
  lemma XorDiffers(x: nat, d: nat)
    requires d > 0
    ensures Xor(x, d) != x
  {
    XorAssoc(x, x, d);
    XorZero(x);
    XorZero(d);
  }

  lemma {:induction false} XorBound(x: nat, y: nat, n: nat)
    requires x < Pow2(n) && y < Pow2(n)
    ensures Xor(x, y) < Pow2(n)
  {
    if n > 0 {
      XorBound(x / 2, y / 2, n - 1);
    }
  }

  /** Inverting bit j adds or takes away 2^j. */
  lemma {:induction false} XorOneBit(x: nat, j: nat)
    ensures Xor(x, Pow2(j)) == x + Pow2(j) || Xor(x, Pow2(j)) == x - Pow2(j)
  {
    if j == 0 {
      XorZero(x / 2);
    } else {
      XorOneBit(x / 2, j - 1);
      XorStep(x / 2, x % 2, Pow2(j - 1), 0);
    }
  }

  /** The n low bits of p. */
  function Low(p: nat, n: nat): nat {
    if n == 0 then 0 else 2 * Low(p / 2, n - 1) + p % 2
  }

  lemma {:induction false} LowAll(p: nat, n: nat)
    requires p < Pow2(n)
    ensures Low(p, n) == p
  {
    if n > 0 {
      LowAll(p / 2, n - 1);
    }
  }

  lemma AndEven(x: nat, p: nat)
    ensures And(2 * x, p) == 2 * And(x, p / 2)
  {
    assert (2 * x) / 2 == x;
  }

  /** Bit n of p, taken out with a mask, completes the n low bits to n + 1. */
  lemma {:induction false} LowNext(p: nat, n: nat)
    ensures Xor(Low(p, n), And(Pow2(n), p)) == Low(p, n + 1)
  {
    var h, r := p / 2, p % 2;
    if n == 0 {
      XorZero(And(1, p));
      assert And(0, h) == 0 && Low(h, 0) == 0;
    } else {
      LowNext(h, n - 1);
      AndEven(Pow2(n - 1), p);
      XorStep(Low(h, n - 1), r, And(Pow2(n - 1), h), 0);
    }
  }

  lemma AndStep(x: nat, p: nat, y: nat, q: nat)
    requires p < 2 && q < 2
    ensures And(2 * x + p, 2 * y + q) == 2 * And(x, y) + (if p == 1 && q == 1 then 1 else 0)
  {
    assert (2 * x + p) / 2 == x && (2 * y + q) / 2 == y;
    assert (2 * x + p) % 2 == p && (2 * y + q) % 2 == q;
  }

  /** x << k */
  function Shifted(x: nat, k: nat): nat {
    if k == 0 then x else 2 * Shifted(x, k - 1)
  }

  lemma AndHalves(x: nat, p: nat, y: nat, q: nat, high: nat)
    requires And(x + p / 2, y + q / 2) == high + And(p / 2, q / 2)
    ensures And(2 * x + p, 2 * y + q) == 2 * high + And(p, q)
  {
    AndStep(x + p / 2, p % 2, y + q / 2, q % 2);
    AndStep(p / 2, p % 2, q / 2, q % 2);
    assert 2 * x + p == 2 * (x + p / 2) + p % 2 && 2 * y + q == 2 * (y + q / 2) + q % 2;
  }

  /** Masking works on high and low parts alone. */
  lemma {:induction false} AndParts(x: nat, p: nat, y: nat, q: nat, k: nat)
    requires p < Pow2(k) && q < Pow2(k)
    ensures And(Shifted(x, k) + p, Shifted(y, k) + q) == Shifted(And(x, y), k) + And(p, q)
  {
    if k == 0 {
      assert p == 0 && q == 0;
    } else {
      AndParts(x, p / 2, y, q / 2, k - 1);
      AndHalves(Shifted(x, k - 1), p, Shifted(y, k - 1), q, Shifted(And(x, y), k - 1));
      assert Shifted(x, k) == 2 * Shifted(x, k - 1) && Shifted(y, k) == 2 * Shifted(y, k - 1);
    }
  }

  lemma ShiftedTwice(x: nat, k: nat)
    ensures Shifted(x, k + 2) == 4 * Shifted(x, k)
  {
    assert Shifted(x, k + 2) == 2 * Shifted(x, k + 1);
  }

  lemma ShiftedSmall(x: nat)
    ensures Shifted(x, 7) == 0x80 * x && Shifted(x, 8) == 0x100 * x
  {
    ShiftedTwice(x, 0);
    ShiftedTwice(x, 2);
    ShiftedTwice(x, 4);
    assert Shifted(x, 7) == 2 * Shifted(x, 6);
  }

  /** Bytes are masked byte by byte. */
  lemma AndByte(x: nat, p: byte, y: nat, q: byte)
    ensures And(0x100 * x + p, 0x100 * y + q) == 0x100 * And(x, y) + And(p, q)
  {
    ShiftedSmall(x);
    ShiftedSmall(y);
    ShiftedSmall(And(x, y));
    assert Pow2(8) == 0x100;
    AndParts(x, p, y, q, 8);
  }

  lemma AndHighBit(p: byte)
    ensures And(p, 0x80) == 0 <==> p < 0x80
  {
    ShiftedSmall(p / 0x80);
    ShiftedSmall(1);
    ShiftedSmall(And(p / 0x80, 1));
    assert Pow2(7) == 0x80;
    AndParts(p / 0x80, p % 0x80, 1, 0, 7);
    AndStep(0, p / 0x80, 0, 1);
  }

  /** Masking twice is masking once. */
  lemma {:induction false} AndTwice(x: nat, m: nat)
    ensures And(And(x, m), m) == And(x, m)
  {
    if x > 0 && m > 0 {
      AndTwice(x / 2, m / 2);
      AndStep(And(x / 2, m / 2), if x % 2 == 1 && m % 2 == 1 then 1 else 0, m / 2, m % 2);
    }
  }
}
