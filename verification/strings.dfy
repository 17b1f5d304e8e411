/**
 * The handful of PHP string functions the core relies on: decimal digits
 * (used by date and number formatting), `explode`, `strtolower` and
 * `number_format`.
 */
module Strings {

  predicate IsDigit(c: char) {
    '0' <= c <= '9'
  }

  predicate AllDigits(s: string) {
    forall i :: 0 <= i < |s| ==> IsDigit(s[i])
  }

  function DigitChar(k: nat): (c: char)
    requires k < 10
    ensures IsDigit(c) && c as int - '0' as int == k
  {
    ('0' as int + k) as char
  }

  function DigitValue(c: char): nat
    requires IsDigit(c)
  {
    c as int - '0' as int
  }

  lemma DigitCharOfValue(c: char)
    requires IsDigit(c)
    ensures DigitChar(DigitValue(c)) == c
  {
    assert DigitChar(DigitValue(c)) as int == c as int;
  }

  function Pow10(k: nat): (p: nat)
    ensures p >= 1
  {
    if k == 0 then 1 else 10 * Pow10(k - 1)
  }

  /** Decimal representation of `n`, without leading zeros ("0" for zero). */
  function NatToString(n: nat): (s: string)
    ensures |s| >= 1 && AllDigits(s)
    ensures n < 10 <==> |s| == 1
    decreases n
  {
    if n < 10 then [DigitChar(n)] else NatToString(n / 10) + [DigitChar(n % 10)]
  }

  /** The value of a string of decimal digits. */
  function DigitsValue(s: string): nat
    requires AllDigits(s)
  {
    if s == [] then 0 else DigitsValue(s[..|s| - 1]) * 10 + DigitValue(s[|s| - 1])
  }

  /** NatToString is a right inverse of DigitsValue. */
  lemma {:induction false} DigitsValueOfNatToString(n: nat)
    ensures DigitsValue(NatToString(n)) == n
    decreases n
  {
    if n >= 10 {
      var s := NatToString(n);
      assert s[..|s| - 1] == NatToString(n / 10);
      DigitsValueOfNatToString(n / 10);
    }
  }

  /** The number of digits NatToString produces is governed by powers of ten. */
  lemma {:induction false} NatToStringLength(n: nat, k: nat)
    requires k >= 1
    ensures |NatToString(n)| <= k <==> n < Pow10(k)
    decreases k
  {
    if k > 1 {
      if n >= 10 {
        NatToStringLength(n / 10, k - 1);
      }
    }
  }

  function Zeros(k: nat): (s: string)
    ensures |s| == k && forall i :: 0 <= i < k ==> s[i] == '0'
  {
    if k == 0 then [] else Zeros(k - 1) + ['0']
  }

  /** Left-pads `s` with '0' up to `width` characters (sprintf's "%0*d"). */
  function ZeroPad(s: string, width: nat): (r: string)
    ensures |r| == if |s| >= width then |s| else width
    ensures AllDigits(s) ==> AllDigits(r)
  {
    if |s| >= width then s else Zeros(width - |s|) + s
  }

  lemma {:induction false} DigitsValueOfZeros(k: nat)
    ensures AllDigits(Zeros(k)) && DigitsValue(Zeros(k)) == 0
  {
    if k > 0 {
      assert Zeros(k)[..k - 1] == Zeros(k - 1);
      DigitsValueOfZeros(k - 1);
    }
  }

  /** One more digit on the right: ten times the value, plus the digit. */
  lemma DigitsValueSnoc(s: string, d: char)
    requires AllDigits(s) && IsDigit(d)
    ensures AllDigits(s + [d])
    ensures DigitsValue(s + [d]) == DigitsValue(s) * 10 + DigitValue(d)
  {
    assert (s + [d])[..|s|] == s;
  }

  lemma ShiftByOneDigit(v: nat, p: nat)
    ensures (v * p) * 10 == v * (10 * p)
  {
  }

  /** Appending digits on the right scales the value of the prefix. */
  lemma {:induction false} DigitsValueAppend(a: string, b: string)
    requires AllDigits(a) && AllDigits(b)
    ensures AllDigits(a + b)
    ensures DigitsValue(a + b) == DigitsValue(a) * Pow10(|b|) + DigitsValue(b)
    decreases |b|
  {
    if b == [] {
      assert a + b == a;
    } else {
      var b', d := b[..|b| - 1], b[|b| - 1];
      assert b == b' + [d];
      assert a + b == (a + b') + [d];
      DigitsValueAppend(a, b');
      DigitsValueSnoc(a + b', d);
      DigitsValueSnoc(b', d);
      ShiftByOneDigit(DigitsValue(a), Pow10(|b'|));
    }
  }

  /** Leading zeros do not change the value. */
  lemma ZeroPadValue(s: string, width: nat)
    requires AllDigits(s)
    ensures DigitsValue(ZeroPad(s, width)) == DigitsValue(s)
  {
    if |s| < width {
      DigitsValueOfZeros(width - |s|);
      DigitsValueAppend(Zeros(width - |s|), s);
    }
  }

  /**
   * PHP explode($sep, $s): the pieces of `s` between occurrences of `sep`,
   * in order, empty pieces kept, no trimming.
   */
  function Split(s: string, sep: char): (parts: seq<string>)
    ensures |parts| >= 1
    ensures forall i :: 0 <= i < |parts| ==> sep !in parts[i]
    decreases |s|
  {
    if s == [] then [""]
    else if s[0] == sep then [""] + Split(s[1..], sep)
    else
      var rest := Split(s[1..], sep);
      [[s[0]] + rest[0]] + rest[1..]
  }

  /** PHP implode($sep, $parts). */
  function Join(parts: seq<string>, sep: char): string
    requires |parts| >= 1
  {
    if |parts| == 1 then parts[0] else parts[0] + [sep] + Join(parts[1..], sep)
  }

  /** Joining the pieces of a split gives back the original string. */
  lemma {:induction false} JoinSplit(s: string, sep: char)
    ensures Join(Split(s, sep), sep) == s
    decreases |s|
  {
    if s != [] {
      JoinSplit(s[1..], sep);
      var rest := Split(s[1..], sep);
      if s[0] != sep {
        var parts := Split(s, sep);
        assert parts[1..] == rest[1..];
        if |rest| > 1 {
          assert rest == [rest[0]] + rest[1..];
        }
      }
    }
  }

  /** Splitting a join of separator-free pieces gives back the pieces. */
  lemma {:induction false} SplitJoin(parts: seq<string>, sep: char)
    requires |parts| >= 1
    requires forall i :: 0 <= i < |parts| ==> sep !in parts[i]
    ensures Split(Join(parts, sep), sep) == parts
    decreases |parts|, |parts[0]|
  {
    var head := parts[0];
    if head == [] {
      if |parts| > 1 {
        assert Join(parts, sep) == [sep] + Join(parts[1..], sep);
        SplitJoin(parts[1..], sep);
        assert ([sep] + Join(parts[1..], sep))[1..] == Join(parts[1..], sep);
      }
    } else {
      var shorter := [head[1..]] + parts[1..];
      assert sep !in shorter[0];
      assert forall i :: 1 <= i < |shorter| ==> shorter[i] == parts[i];
      SplitJoin(shorter, sep);
      var j := Join(parts, sep);
      assert j == [head[0]] + Join(shorter, sep) by {
        if |parts| > 1 {
          assert shorter[1..] == parts[1..];
        }
      }
      assert j[1..] == Join(shorter, sep);
      assert head == [head[0]] + head[1..];
    }
  }

  function ToLowerChar(c: char): char {
    if 'A' <= c <= 'Z' then (c as int + 32) as char else c
  }

  /** PHP 8 strtolower: ASCII letters only, byte by byte. */
  function ToLowerAscii(s: string): (r: string)
    ensures |r| == |s|
    ensures forall i :: 0 <= i < |s| ==> r[i] == ToLowerChar(s[i])
  {
    if s == [] then [] else [ToLowerChar(s[0])] + ToLowerAscii(s[1..])
  }

  /** PHP round() to an integer: halves go away from zero. */
  function RoundHalfAwayFromZero(x: real): (n: int)
    ensures x >= 0.0 ==> n >= 0 && n as real - 0.5 <= x < n as real + 0.5
    ensures x < 0.0 ==> n <= 0 && n as real - 0.5 < x <= n as real + 0.5
  {
    if x >= 0.0 then (x + 0.5).Floor else -((-x + 0.5).Floor)
  }

  lemma DivMod(n: nat, p: nat)
    requires p >= 1
    ensures n / p >= 0 && 0 <= n % p < p && n == (n / p) * p + n % p
  {
  }

  /** The digits of n / 10^d with exactly `d` decimals, '.' as the point, no grouping. */
  function FixedPoint(n: nat, d: nat): string {
    if d == 0 then NatToString(n)
    else
      var p := Pow10(d);
      DivMod(n, p);
      NatToString(n / p) + "." + ZeroPad(NatToString(n % p), d)
  }

  /** x shifted `d` decimal places to the left. */
  function Scaled(x: real, d: nat): real {
    x * Pow10(d) as real
  }

  /** number_format($x, $d, '.', ''); a value that rounds to zero carries no sign. */
  function NumberFormat(x: real, d: nat): string {
    var n := RoundHalfAwayFromZero(Scaled(x, d));
    if n < 0 then "-" + FixedPoint(-n, d) else FixedPoint(n, d)
  }

  /** A plain decimal: digits, and when `d` > 0 a point followed by exactly `d` digits. */
  predicate IsFixedPoint(s: string, d: nat) {
    if d == 0 then |s| >= 1 && AllDigits(s)
    else |s| >= d + 2 && AllDigits(s[..|s| - d - 1]) && s[|s| - d - 1] == '.' && AllDigits(s[|s| - d..])
  }

  /** The number of 10^-d units a plain decimal stands for. */
  function FixedPointValue(s: string, d: nat): nat
    requires IsFixedPoint(s, d)
  {
    if d == 0 then DigitsValue(s)
    else DigitsValue(s[..|s| - d - 1]) * Pow10(d) + DigitsValue(s[|s| - d..])
  }

  /** Reading back the digits FixedPoint writes gives the number. */
  lemma FixedPointRoundTrip(n: nat, d: nat)
    ensures IsFixedPoint(FixedPoint(n, d), d)
    ensures FixedPointValue(FixedPoint(n, d), d) == n
  {
    if d == 0 {
      DigitsValueOfNatToString(n);
    } else {
      var p := Pow10(d);
      DivMod(n, p);
      FractionDigits(n % p, d);
      DigitsValueOfNatToString(n / p);
      PointSplit(NatToString(n / p), ZeroPad(NatToString(n % p), d), d);
    }
  }

  /** The fraction part: the remainder written with exactly `d` digits. */
  lemma FractionDigits(r: nat, d: nat)
    requires d >= 1 && r < Pow10(d)
    ensures var b := ZeroPad(NatToString(r), d);
      |b| == d && AllDigits(b) && DigitsValue(b) == r
  {
    NatToStringLength(r, d);
    ZeroPadValue(NatToString(r), d);
    DigitsValueOfNatToString(r);
  }

  /** Digits, a point and `d` more digits form a plain decimal. */
  lemma PointSplit(a: string, b: string, d: nat)
    requires |a| >= 1 && AllDigits(a) && |b| == d >= 1 && AllDigits(b)
    ensures IsFixedPoint(a + "." + b, d)
    ensures FixedPointValue(a + "." + b, d) == DigitsValue(a) * Pow10(d) + DigitsValue(b)
  {
    var s := a + "." + b;
    assert s[..|s| - d - 1] == a;
    assert s[|s| - d..] == b;
  }

  /**
   * number_format rounds half away from zero to `d` decimals: a
   * non-negative value prints as a plain decimal within half a unit of it.
   */
  lemma NumberFormatRounds(x: real, d: nat)
    requires x >= 0.0
    ensures IsFixedPoint(NumberFormat(x, d), d)
    ensures var v := FixedPointValue(NumberFormat(x, d), d) as real;
      v - 0.5 <= Scaled(x, d) < v + 0.5
  {
    ScaledNonNegative(x, d);
    var n := RoundHalfAwayFromZero(Scaled(x, d));
    assert NumberFormat(x, d) == FixedPoint(n, d);
    FixedPointRoundTrip(n, d);
  }

  lemma ScaledNonNegative(x: real, d: nat)
    requires x >= 0.0
    ensures Scaled(x, d) >= 0.0
  {
  }

  /** A value that is a whole number of 10^-d units prints exactly. */
  lemma NumberFormatExact(x: real, d: nat)
    requires x >= 0.0 && Scaled(x, d).Floor as real == Scaled(x, d)
    ensures IsFixedPoint(NumberFormat(x, d), d)
    ensures FixedPointValue(NumberFormat(x, d), d) as real == Scaled(x, d)
  {
    NumberFormatRounds(x, d);
    var w := Scaled(x, d).Floor;
    var v := FixedPointValue(NumberFormat(x, d), d);
    assert v - 1 < w < v + 1;
  }
}
