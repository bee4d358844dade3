/** Decimal integers as the C library prints them with "%d" (snprintf) and
    reads them back with "%d" (sscanf). */
module DecimalFormat {
  import opened Basics

  /** The largest value of a C `int`. */
  const IntMax: nat := 2147483647

  predicate IsDigit(c: char)
  {
    '0' <= c <= '9'
  }

  predicate AllDigits(s: seq<char>)
  {
    forall i :: 0 <= i < |s| ==> IsDigit(s[i])
  }

  function DigitChar(d: nat): (c: char)
    requires d < 10
    ensures IsDigit(c)
  {
    ('0' as int + d) as char
  }

  function DigitValue(c: char): (d: nat)
    requires IsDigit(c)
    ensures d < 10 && DigitChar(d) == c
  {
    c as int - '0' as int
  }

  /** The characters snprintf writes for "%d" with a non-negative value:
      at least one digit, and no leading zero unless the value is 0. */
  function Decimal(n: nat): (s: seq<char>)
    ensures |s| > 0 && AllDigits(s)
    ensures s[0] == '0' ==> n == 0
    decreases n
  {
    if n < 10 then [DigitChar(n)] else Decimal(n / 10) + [DigitChar(n % 10)]
  }

  /** The value of a run of digits, accumulated most significant first. */
  function DigitsValue(s: seq<char>): nat
    requires AllDigits(s)
  {
    if s == [] then 0 else 10 * DigitsValue(s[..|s| - 1]) + DigitValue(s[|s| - 1])
  }

  function Pow10(k: nat): (p: nat)
    ensures p >= 1
  {
    if k == 0 then 1 else 10 * Pow10(k - 1)
  }

  /** Reading back what "%d" printed gives the value printed. */
  lemma {:induction false} DecimalRoundTrip(n: nat)
    ensures DigitsValue(Decimal(n)) == n
    decreases n
  {
    if n >= 10 {
      var s := Decimal(n);
      assert s[..|s| - 1] == Decimal(n / 10);
      DecimalRoundTrip(n / 10);
    }
  }

  /** Distinct values print differently. */
  lemma DecimalInjective(a: nat, b: nat)
    ensures Decimal(a) == Decimal(b) <==> a == b
  {
    DecimalRoundTrip(a);
    DecimalRoundTrip(b);
  }

  lemma {:induction false} DecimalLengthBound(n: nat, k: nat)
    requires k >= 1 && n < Pow10(k)
    ensures |Decimal(n)| <= k
    decreases n
  {
    if n >= 10 {
      assert Pow10(1) == 10;
      assert k >= 2;
      DecimalLengthBound(n / 10, k - 1);
    }
  }

  /** A value of exactly `k` digits prints in `k` characters. */
  lemma {:induction false} DecimalLengthExact(n: nat, k: nat)
    requires k >= 1 && Pow10(k - 1) <= n < Pow10(k)
    ensures |Decimal(n)| == k
    decreases k
  {
    if k > 1 {
      var p := Pow10(k - 2);
      assert Pow10(k - 1) == 10 * p;
      assert Pow10(k) == 10 * (10 * p);
      assert p <= n / 10 < 10 * p;
      DecimalLengthExact(n / 10, k - 1);
    }
  }

  /** A C `int` that is not negative prints in at most ten digits. */
  lemma IntDecimalWidth(n: nat)
    requires n <= IntMax
    ensures |Decimal(n)| <= 10
  {
    assert Pow10(1) == 10;
    assert Pow10(2) == 100;
    assert Pow10(3) == 1000;
    assert Pow10(4) == 10000;
    assert Pow10(5) == 100000;
    assert Pow10(6) == 1000000;
    assert Pow10(7) == 10000000;
    assert Pow10(8) == 100000000;
    assert Pow10(9) == 1000000000;
    assert Pow10(10) == 10000000000;
    DecimalLengthBound(n, 10);
  }

  /** The white-space characters of C's isspace(). */
  predicate IsSpace(c: char)
  {
    c == ' ' || c == '\t' || c == '\n' || c == '\r' || c as int == 11 || c as int == 12
  }

  function SkipSpaces(s: seq<char>): (r: seq<char>)
    ensures |r| <= |s| && r == s[|s| - |r|..]
    ensures r == [] || !IsSpace(r[0])
  {
    if s != [] && IsSpace(s[0]) then SkipSpaces(s[1..]) else s
  }

  /** The number of digits at the front of `s`. */
  function DigitRun(s: seq<char>): (n: nat)
    ensures n <= |s| && AllDigits(s[..n])
    ensures n < |s| ==> !IsDigit(s[n])
  {
    if s != [] && IsDigit(s[0]) then
      var m := DigitRun(s[1..]);
      assert s[..1 + m] == [s[0]] + s[1..][..m];
      1 + m
    else 0
  }

  lemma {:induction false} DigitRunAll(s: seq<char>)
    requires AllDigits(s)
    ensures DigitRun(s) == |s|
  {
    if s != [] {
      DigitRunAll(s[1..]);
    }
  }

  /** The "%d" conversion of sscanf: white space is skipped, an optional
      sign is taken, then one or more digits; anything after the digits is
      left unread. None when no digit follows. */
  function ScanDecimal(s: seq<char>): Option<int>
  {
    var r := SkipSpaces(s);
    var negative := r != [] && r[0] == '-';
    var u := if r != [] && (r[0] == '-' || r[0] == '+') then r[1..] else r;
    var n := DigitRun(u);
    var magnitude: int := if n == 0 then 0 else DigitsValue(u[..n]);
    if n == 0 then None
    else if negative then Some(-magnitude)
    else Some(magnitude)
  }

  /** White space alone gives no value; a value is negative only after a
      '-', and a digit as the first byte after the white space always
      gives a non-negative value. */
  lemma ScanDecimalShape(s: seq<char>)
    ensures var r := ScanDecimal(s);
            && ((forall i :: 0 <= i < |s| ==> IsSpace(s[i])) ==> r.None?)
            && (r.Some? && r.value < 0 ==> SkipSpaces(s) != [] && SkipSpaces(s)[0] == '-')
            && (SkipSpaces(s) != [] && IsDigit(SkipSpaces(s)[0]) ==> r.Some? && r.value >= 0)
  {
    var r := SkipSpaces(s);
    if r != [] {
      assert r[0] == s[|s| - |r|];
      if IsDigit(r[0]) {
        assert r[0] != '-' && r[0] != '+';
        assert DigitRun(r) > 0;
      }
    }
  }

  /** "%d" reads back, after any white space, the value "%d" printed. */
  lemma ScanDecimalRoundTrip(spaces: seq<char>, n: nat)
    requires forall i :: 0 <= i < |spaces| ==> IsSpace(spaces[i])
    ensures ScanDecimal(spaces + Decimal(n)) == Some(n)
  {
    SkipSpacesPrefix(spaces, Decimal(n));
    DigitRunAll(Decimal(n));
    assert Decimal(n)[..|Decimal(n)|] == Decimal(n);
    DecimalRoundTrip(n);
  }

  lemma {:induction false} SkipSpacesPrefix(spaces: seq<char>, rest: seq<char>)
    requires forall i :: 0 <= i < |spaces| ==> IsSpace(spaces[i])
    requires rest == [] || !IsSpace(rest[0])
    ensures SkipSpaces(spaces + rest) == rest
  {
    if spaces != [] {
      assert (spaces + rest)[1..] == spaces[1..] + rest;
      SkipSpacesPrefix(spaces[1..], rest);
    }
  }
}
