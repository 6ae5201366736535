/** Decimal text: what printf("%d") writes and what strtol reads back. */
module Decimal {

  predicate IsSpace(c: char) {
    c == ' ' || ('\t' <= c <= '\r')
  }

  predicate IsDigit(c: char) {
    '0' <= c <= '9'
  }

  function DigitValue(c: char): nat
    requires IsDigit(c)
  {
    c as int - '0' as int
  }

  function SkipSpaces(s: string, i: nat): (j: nat)
    requires i <= |s|
    ensures i <= j <= |s|
    decreases |s| - i
  {
    if i < |s| && IsSpace(s[i]) then SkipSpaces(s, i + 1) else i
  }

  function SkipDigits(s: string, i: nat): (j: nat)
    requires i <= |s|
    ensures i <= j <= |s|
    ensures forall k :: i <= k < j ==> IsDigit(s[k])
    ensures j < |s| ==> !IsDigit(s[j])
    decreases |s| - i
  {
    if i < |s| && IsDigit(s[i]) then SkipDigits(s, i + 1) else i
  }

  function Value(digits: string): nat
    requires forall k :: 0 <= k < |digits| ==> IsDigit(digits[k])
  {
    if digits == [] then 0 else 10 * Value(digits[..|digits| - 1]) + DigitValue(digits[|digits| - 1])
  }

  /** Where the digits start: after spaces and a sign. */
  function NumberStart(s: string, i: nat): (j: nat)
    requires i <= |s|
    ensures i <= j <= |s|
  {
    var k := SkipSpaces(s, i);
    if k < |s| && (s[k] == '-' || s[k] == '+') then k + 1 else k
  }

  /** The first position that strtol looks at and does not use. */
  function NumberEnd(s: string, i: nat): (j: nat)
    requires i <= |s|
    ensures i <= j <= |s|
  {
    SkipDigits(s, NumberStart(s, i))
  }

  predicate Negative(s: string, i: nat)
    requires i <= |s|
  {
    var k := SkipSpaces(s, i);
    k < |s| && s[k] == '-'
  }

  function Clamp(v: int): int {
    if v > 0x7fff_ffff_ffff_ffff then 0x7fff_ffff_ffff_ffff
    else if v < -0x8000_0000_0000_0000 then -0x8000_0000_0000_0000 else v
  }

  /** strtol(s + i, NULL, 10) on a 64-bit long; the end of s ends the number. */
  function Strtol(s: string, i: nat): int
    requires i <= |s|
  {
    var v: int := Value(s[NumberStart(s, i)..NumberEnd(s, i)]);
    Clamp(if Negative(s, i) then -v else v)
  }

  /** A long stored in an int wraps around. */
  function ToInt32(v: int): (r: int)
    ensures -0x8000_0000 <= r < 0x8000_0000
    decreases if v < 0 then -v else v + 1
  {
    if v >= 0x8000_0000 then ToInt32(v - 0x1_0000_0000)
    else if v < -0x8000_0000 then ToInt32(v + 0x1_0000_0000)
    else v
  }

  function DigitChar(d: nat): (c: char)
    requires d < 10
    ensures IsDigit(c) && DigitValue(c) == d
  {
    ('0' as int + d) as char
  }

  /** printf("%d", n) for n that is not negative. */
  function ToText(n: nat): (s: string)
    ensures s != [] && forall k :: 0 <= k < |s| ==> IsDigit(s[k])
  {
    if n < 10 then [DigitChar(n)] else ToText(n / 10) + [DigitChar(n % 10)]
  }

  lemma Digits(n: nat)
    requires n < 10
    ensures "0123456789"[n] == DigitChar(n)
  {
    var digits := "0123456789";
    assert digits[0] == '0' && digits[1] == '1' && digits[2] == '2' && digits[3] == '3' && digits[4] == '4';
    assert digits[5] == '5' && digits[6] == '6' && digits[7] == '7' && digits[8] == '8' && digits[9] == '9';
  }

  /** Ten digits, the usual ones, and no leading zero. */
  lemma {:induction false} NoLeadingZero(n: nat)
    ensures n < 10 ==> ToText(n) == ["0123456789"[n]]
    ensures ToText(n)[0] == '0' <==> n == 0
  {
    if n < 10 {
      Digits(n);
    } else {
      NoLeadingZero(n / 10);
      assert ToText(n)[0] == ToText(n / 10)[0];
    }
  }

  lemma {:induction false} TextValue(n: nat)
    ensures Value(ToText(n)) == n
  {
    var s := ToText(n);
    if n < 10 {
      assert s[..0] == [];
    } else {
      TextValue(n / 10);
      assert s[..|s| - 1] == ToText(n / 10);
    }
  }

  lemma SkipDigitsIs(s: string, i: nat, j: nat)
    requires i <= j <= |s| && (j < |s| ==> !IsDigit(s[j]))
    requires forall k :: i <= k < j ==> IsDigit(s[k])
    ensures SkipDigits(s, i) == j
  {
  }

  /** A printed number is read back, whatever surrounds it, if no digit follows. */
  lemma ReadBack(before: string, n: nat, after: string)
    requires after == [] || !IsDigit(after[0])
    requires n < 0x8000_0000
    ensures var s := before + ToText(n) + after;
            && Strtol(s, |before|) == n && ToInt32(Strtol(s, |before|)) == n
            && NumberEnd(s, |before|) == |before| + |ToText(n)|
  {
    var t := ToText(n);
    var s := before + t + after;
    var i := |before|;
    assert s[i] == t[0];
    assert NumberStart(s, i) == i && !Negative(s, i);
    assert forall k :: i <= k < i + |t| ==> s[k] == t[k - i];
    SkipDigitsIs(s, i, i + |t|);
    assert s[i..i + |t|] == t;
    TextValue(n);
  }

  lemma {:induction false} SkipSpacesIs(s: string, i: nat, j: nat)
    requires i <= j <= |s| && (j < |s| ==> !IsSpace(s[j]))
    requires forall k :: i <= k < j ==> IsSpace(s[k])
    ensures SkipSpaces(s, i) == j
    decreases j - i
  {
    if i < j {
      SkipSpacesIs(s, i + 1, j);
    }
  }

  /** A sign that strtol understands. */
  predicate IsSign(sign: string) {
    sign == "" || sign == "-" || sign == "+"
  }

  lemma SignedParts(before: string, spaces: string, sign: string, t: string, after: string)
    requires t != [] && (forall m :: 0 <= m < |t| ==> IsDigit(t[m])) && IsSign(sign)
    requires after == [] || !IsDigit(after[0])
    ensures var s := before + spaces + sign + t + after;
            var i, j, k := |before|, |before + spaces|, |before + spaces + sign|;
            && k + |t| <= |s| && s[k..k + |t|] == t
            && (forall m :: i <= m < j ==> s[m] == spaces[m - i])
            && (forall m :: k <= m < k + |t| ==> IsDigit(s[m])) && (k + |t| < |s| ==> !IsDigit(s[k + |t|]))
            && (if sign == "" then IsDigit(s[j]) else k == j + 1 && s[j] == sign[0])
  {
    var s := before + spaces + sign + t + after;
    var k := |before + spaces + sign|;
    assert forall m :: k <= m < k + |t| ==> s[m] == t[m - k];
  }

  /** Spaces from i, a sign at j if there is one, and digits from k to m. */
  lemma NumberIs(s: string, i: nat, j: nat, k: nat, m: nat)
    requires i <= j <= k < m <= |s| && (forall x :: i <= x < j ==> IsSpace(s[x]))
    requires if k == j then IsDigit(s[j]) else k == j + 1 && (s[j] == '-' || s[j] == '+')
    requires (forall x :: k <= x < m ==> IsDigit(s[x])) && (m < |s| ==> !IsDigit(s[m]))
    ensures NumberStart(s, i) == k && NumberEnd(s, i) == m && (Negative(s, i) <==> k > j && s[j] == '-')
  {
    SkipSpacesIs(s, i, j);
    SkipDigitsIs(s, k, m);
  }

  /** Spaces, a sign and a number of any size are read as the nearest 64-bit value. */
  lemma ReadSigned(before: string, spaces: string, sign: string, n: nat, after: string)
    requires (forall k :: 0 <= k < |spaces| ==> spaces[k] == ' ' || '\t' <= spaces[k] <= '\r') && IsSign(sign)
    requires after == [] || !IsDigit(after[0])
    ensures var s := before + spaces + sign + ToText(n) + after;
            var v: int := if sign == "-" then 0 - n else n;
            Strtol(s, |before|) == if v > 0x7fff_ffff_ffff_ffff then 0x7fff_ffff_ffff_ffff
                                   else if v < -0x8000_0000_0000_0000 then -0x8000_0000_0000_0000 else v
  {
    var t := ToText(n);
    var s := before + spaces + sign + t + after;
    SignedParts(before, spaces, sign, t, after);
    NumberIs(s, |before|, |before + spaces|, |before + spaces + sign|, |before + spaces + sign + t|);
    TextValue(n);
  }

  /** Where no number begins, strtol gives 0. */
  lemma NotANumber(s: string, i: nat)
    requires i < |s| && s[i] != ' ' && !('\t' <= s[i] <= '\r') && s[i] != '-' && s[i] != '+' && !('0' <= s[i] <= '9')
    ensures Strtol(s, i) == 0 && NumberEnd(s, i) == i
  {
    assert s[i..i] == [];
  }

  /** A long is stored in an int modulo 2^32. */
  lemma {:induction false} ToInt32Wraps(v: int) returns (k: int)
    ensures v == ToInt32(v) + 0x1_0000_0000 * k
    decreases if v < 0 then -v else v + 1
  {
    if v >= 0x8000_0000 {
      k := ToInt32Wraps(v - 0x1_0000_0000);
      k := k + 1;
    } else if v < -0x8000_0000 {
      k := ToInt32Wraps(v + 0x1_0000_0000);
      k := k - 1;
    } else {
      k := 0;
    }
  }
}
