/**
 Decimal rendering as the Go library does it: `strconv.Itoa`, the
 zero-padded `fmt` verb `%0Nd`, and Go's integer division, which truncates
 toward zero. Each rendering is paired with a parser and a round-trip lemma,
 so that a rendered string is known to denote the number it came from.
 */
module Decimal {

  predicate IsDigit(c: char) { '0' <= c <= '9' }

  predicate AllDigits(s: string) { forall i :: 0 <= i < |s| ==> IsDigit(s[i]) }

  function DigitValue(c: char): (d: int)
    requires IsDigit(c)
    ensures 0 <= d < 10
  {
    c as int - '0' as int
  }

  function DigitChar(d: int): (c: char)
    requires 0 <= d < 10
    ensures IsDigit(c) && DigitValue(c) == d
  {
    ('0' as int + d) as char
  }

  function Pow10(k: nat): (p: nat)
    ensures p >= 1
  {
    if k == 0 then 1 else 10 * Pow10(k - 1)
  }

  /** The shortest decimal numeral of `n`: no sign, no leading zero. */
  function Digits(n: nat): (s: string)
    ensures |s| >= 1 && AllDigits(s)
    decreases n
  {
    if n < 10 then [DigitChar(n)] else Digits(n / 10) + [DigitChar(n % 10)]
  }

  /** The value of a numeral, read most significant digit first. */
  function ParseDigits(s: string): nat
    requires AllDigits(s)
  {
    if s == [] then 0 else 10 * ParseDigits(s[..|s| - 1]) + DigitValue(s[|s| - 1])
  }

  lemma {:induction false} DigitsRoundTrip(n: nat)
    ensures ParseDigits(Digits(n)) == n
    decreases n
  {
    if n >= 10 {
      var s := Digits(n);
      assert s[..|s| - 1] == Digits(n / 10);
      DigitsRoundTrip(n / 10);
    }
  }

  lemma {:induction false} DigitsNoLeadingZero(n: nat)
    ensures Digits(n)[0] == '0' <==> n == 0
    decreases n
  {
    if n >= 10 {
      DigitsNoLeadingZero(n / 10);
    }
  }

  /** A numeral of at most `k` digits is exactly a number below 10^k. */
  lemma {:induction false} DigitsLength(n: nat, k: nat)
    requires k >= 1
    ensures |Digits(n)| <= k <==> n < Pow10(k)
    decreases n
  {
    if n >= 10 {
      if k == 1 {
        assert Pow10(1) == 10;
      } else {
        DigitsLength(n / 10, k - 1);
      }
    } else {
      PowMonotone(1, k);
      assert Pow10(1) == 10;
    }
  }

  lemma {:induction false} PowMonotone(j: nat, k: nat)
    requires j <= k
    ensures Pow10(j) <= Pow10(k)
    decreases k
  {
    if j < k {
      PowMonotone(j, k - 1);
    }
  }

  /** `strconv.Itoa`: a `-` for negative numbers, then the digits of the magnitude. */
  function Itoa(n: int): string
  {
    if n < 0 then "-" + Digits(-n) else Digits(n)
  }

  /** A string `strconv.Itoa` can produce: optional `-`, then at least one digit. */
  predicate IsDecimal(s: string)
  {
    if |s| > 0 && s[0] == '-' then |s| >= 2 && AllDigits(s[1..]) else |s| >= 1 && AllDigits(s)
  }

  function ParseInt(s: string): int
    requires IsDecimal(s)
  {
    if |s| > 0 && s[0] == '-' then -(ParseDigits(s[1..]) as int) else ParseDigits(s)
  }

  /** No leading zero after the optional `-`, except the numeral `0` itself; no `-0`. */
  predicate Canonical(s: string)
  {
    if |s| > 0 && s[0] == '-' then |s| >= 2 && s[1] != '0' else s == "0" || (|s| >= 1 && s[0] != '0')
  }

  lemma ItoaRoundTrip(n: int)
    ensures IsDecimal(Itoa(n)) && ParseInt(Itoa(n)) == n
    ensures Canonical(Itoa(n))
  {
    if n < 0 {
      DigitsRoundTrip(-n);
      DigitsNoLeadingZero(-n);
      assert Itoa(n)[1..] == Digits(-n);
    } else {
      DigitsRoundTrip(n);
      DigitsNoLeadingZero(n);
      assert Digits(n)[0] != '-';
      if n == 0 {
        assert Digits(0) == "0";
      }
    }
  }

  /** A numeral without a leading zero is the shortest numeral of its value. */
  lemma {:induction false} DigitsUnique(s: string)
    requires AllDigits(s) && |s| >= 1 && (s[0] != '0' || |s| == 1)
    ensures Digits(ParseDigits(s)) == s
    decreases |s|
  {
    var last := s[|s| - 1];
    var d := DigitValue(last);
    assert DigitChar(d) == last;
    if |s| >= 2 {
      var p := s[..|s| - 1];
      DigitsUnique(p);
      var m := ParseDigits(p);
      DigitsNoLeadingZero(m);
      assert Digits(ParseDigits(s)) == Digits(m) + [DigitChar(d)];
    }
  }

  /** The canonical decimals are exactly what `strconv.Itoa` produces. */
  lemma ItoaUnique(s: string)
    requires IsDecimal(s) && Canonical(s)
    ensures s == Itoa(ParseInt(s))
  {
    if s[0] == '-' {
      DigitsUnique(s[1..]);
      DigitsNoLeadingZero(ParseDigits(s[1..]));
      assert s == "-" + s[1..];
    } else {
      DigitsUnique(s);
    }
  }

  function Zeros(k: nat): (s: string)
    ensures |s| == k && AllDigits(s)
    ensures forall i :: 0 <= i < k ==> s[i] == '0'
  {
    seq(k, _ => '0')
  }

  function Max(a: int, b: int): int { if a < b then b else a }

  /**
   `fmt.Sprintf("%0Nd", n)` with N = `width`: the digits of the magnitude,
   preceded by the sign when negative, padded with zeros between the sign and
   the digits up to `width` characters in all.
   */
  function ZeroPad(n: int, width: nat): (r: string)
    ensures |r| == Max(width, |Itoa(n)|)
    ensures n >= 0 ==> AllDigits(r)
  {
    var sign := if n < 0 then "-" else "";
    var digits := Digits(if n < 0 then -n else n);
    var fill := if |sign| + |digits| < width then width - |sign| - |digits| else 0;
    sign + Zeros(fill) + digits
  }

  lemma {:induction false} LeadingZeros(k: nat, s: string)
    requires AllDigits(s)
    ensures ParseDigits(Zeros(k) + s) == ParseDigits(s)
    decreases |s|
  {
    if s == [] {
      ZerosValue(k);
      assert Zeros(k) + s == Zeros(k);
    } else {
      var t := Zeros(k) + s;
      assert t[..|t| - 1] == Zeros(k) + s[..|s| - 1];
      LeadingZeros(k, s[..|s| - 1]);
    }
  }

  lemma {:induction false} ZerosValue(k: nat)
    ensures ParseDigits(Zeros(k)) == 0
    decreases k
  {
    if k > 0 {
      assert Zeros(k)[..k - 1] == Zeros(k - 1);
      ZerosValue(k - 1);
    }
  }

  /** Zero padding changes the length, never the value. */
  lemma ZeroPadRoundTrip(n: int, width: nat)
    ensures IsDecimal(ZeroPad(n, width)) && ParseInt(ZeroPad(n, width)) == n
  {
    var digits := Digits(if n < 0 then -n else n);
    var r := ZeroPad(n, width);
    DigitsRoundTrip(if n < 0 then -n else n);
    if n < 0 {
      var fill := |r| - 1 - |digits|;
      assert r[1..] == Zeros(fill) + digits;
      LeadingZeros(fill, digits);
    } else {
      var fill := |r| - |digits|;
      assert r == Zeros(fill) + digits;
      LeadingZeros(fill, digits);
      if fill == 0 {
        DigitsNoLeadingZero(n);
      }
      assert r[0] != '-';
    }
  }

  /** Go's `a / b`: the quotient truncated toward zero (Dafny's `/` is Euclidean). */
  function TruncDiv(a: int, b: int): (q: int)
    requires b > 0
    ensures a >= 0 ==> 0 <= q * b <= a < q * b + b
    ensures a < 0 ==> q * b - b < a <= q * b <= 0
  {
    var m := if a >= 0 then a else -a;
    var p := m / b;
    EuclidBounds(m, b, p);
    if a >= 0 then p else NegTimes(p, b); -p
  }

  lemma EuclidBounds(m: nat, b: int, p: int)
    requires b > 0 && p == m / b
    ensures 0 <= p * b <= m < p * b + b
  {
    assert m == p * b + m % b;
  }

  lemma NegTimes(p: int, b: int)
    ensures (-p) * b == -(p * b)
  {
  }
}
