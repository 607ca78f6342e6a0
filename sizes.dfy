/**
 * `format_size`: a byte count as text, in B below 1024 and otherwise in KB,
 * MB or GB (powers of 1024) with one, one and two decimals. Python formats
 * the quotient `n / 1024^k` with `.1f`/`.2f`, which rounds the exact value
 * half to even; the quotient is exact while `n < 2^53`, and the model
 * rounds the exact rational.
 */
module SizeFormat {
  import opened Text

  const KiB: nat := 1024
  const MiB: nat := 1024 * 1024
  const GiB: nat := 1024 * 1024 * 1024

  /** `q` is the integer nearest to `a / b`, and the even one when `a / b` lies halfway between two. */
  predicate RoundsTo(a: int, b: int, q: int)
    requires b > 0
  {
    var e := 2 * (a - q * b);
    -b <= e <= b && ((e == b || e == -b) ==> q % 2 == 0)
  }

  /** At most one integer is the rounding of `a / b`. */
  lemma RoundsToUnique(a: int, b: int, q1: int, q2: int)
    requires b > 0 && RoundsTo(a, b, q1) && RoundsTo(a, b, q2)
    ensures q1 == q2
  {
    if q1 < q2 {
      NotBothRoundings(a, b, q1, q2);
    } else if q2 < q1 {
      NotBothRoundings(a, b, q2, q1);
    }
  }

  /** Of two different integers, at most one is the rounding of `a / b`. */
  lemma NotBothRoundings(a: int, b: int, lo: int, hi: int)
    requires b > 0 && lo < hi
    ensures !(RoundsTo(a, b, lo) && RoundsTo(a, b, hi))
  {
    var e1, e2 := 2 * (a - lo * b), 2 * (a - hi * b);
    var k := hi - lo;
    assert e1 - e2 == 2 * (k * b) by {
      assert hi * b - lo * b == k * b;
    }
    MonotoneProduct(k, b);
    if k >= 2 {
      MonotoneProduct2(k, b);
    }
  }

  lemma MonotoneProduct(k: int, b: int)
    requires k >= 1 && b > 0
    ensures k * b >= b
  {
  }

  lemma MonotoneProduct2(k: int, b: int)
    requires k >= 2 && b > 0
    ensures k * b >= 2 * b
  {
  }

  /** `a / b` rounded half to even. */
  function RoundHalfEven(a: nat, b: nat): (q: nat)
    requires b > 0
    ensures RoundsTo(a, b, q)
  {
    var q, r := a / b, a % b;
    assert a == q * b + r;
    if 2 * r < b then q
    else if 2 * r > b || q % 2 == 1 then
      assert a - (q + 1) * b == r - b;
      q + 1
    else q
  }

  /** `q / 10` written with one decimal, as `.1f` writes it. */
  function OneDecimal(q: nat): string {
    NatToDecimal(q / 10) + "." + [DigitChar(q % 10)]
  }

  /** `q / 100` written with two decimals, as `.2f` writes it. */
  function TwoDecimals(q: nat): string {
    NatToDecimal(q / 100) + "." + [DigitChar(q / 10 % 10), DigitChar(q % 10)]
  }

  /** Python's `format_size`. */
  function FormatSize(n: int): string {
    if n < KiB then IntToDecimal(n) + " B"
    else if n < MiB then OneDecimal(RoundHalfEven(10 * n, KiB)) + " KB"
    else if n < GiB then OneDecimal(RoundHalfEven(10 * n, MiB)) + " MB"
    else TwoDecimals(RoundHalfEven(100 * n, GiB)) + " GB"
  }

  /**
   * `s` is `w.f unit` with `w` a decimal numeral without leading zeros and
   * `f` exactly `d` digits, and the digits of `w` and `f` read as one
   * number are `a / b` rounded half to even: the string shows the quotient
   * to `d` decimals when `a` is the byte count times `10^d`.
   */
  ghost predicate Shows(s: string, unit: string, d: nat, a: nat, b: nat)
    requires b > 0
  {
    exists w: string, f: string ::
      && s == w + "." + f + " " + unit
      && |w| >= 1 && AllDigits(w) && (w[0] == '0' ==> w == "0")
      && |f| == d && AllDigits(f) && AllDigits(w + f)
      && RoundsTo(a, b, DecimalValue(w + f))
  }

  lemma OneDecimalShows(q: nat, unit: string, a: nat, b: nat)
    requires b > 0 && RoundsTo(a, b, q)
    ensures Shows(OneDecimal(q) + " " + unit, unit, 1, a, b)
  {
    var w, f := NatToDecimal(q / 10), [DigitChar(q % 10)];
    DecimalRoundTrip(q / 10);
    DecimalSnoc(w, f[0]);
    DigitRoundTrip(q % 10);
    assert w + f == w + [f[0]];
    assert DecimalValue(w + f) == q;
    assert OneDecimal(q) + " " + unit == w + "." + f + " " + unit;
  }

  lemma DivTwice(q: nat)
    ensures q / 10 / 10 == q / 100
  {
  }

  lemma TwoDecimalsShows(q: nat, unit: string, a: nat, b: nat)
    requires b > 0 && RoundsTo(a, b, q)
    ensures Shows(TwoDecimals(q) + " " + unit, unit, 2, a, b)
  {
    var w, f := NatToDecimal(q / 100), [DigitChar(q / 10 % 10), DigitChar(q % 10)];
    DecimalRoundTrip(q / 100);
    DivTwice(q);
    DecimalSnoc(w, f[0]);
    DigitRoundTrip(q / 10 % 10);
    var s' := w + [f[0]];
    assert DecimalValue(s') == q / 10;
    DecimalSnoc(s', f[1]);
    DigitRoundTrip(q % 10);
    assert w + f == s' + [f[1]];
    assert DecimalValue(w + f) == q;
    assert AllDigits(f) by { assert f[0] == DigitChar(q / 10 % 10) && f[1] == DigitChar(q % 10); }
    assert TwoDecimals(q) + " " + unit == w + "." + f + " " + unit;
  }

  /**
   * What `format_size` shows: below 1 KiB the exact count in bytes; below
   * 1 MiB tenths of KB; below 1 GiB tenths of MB; beyond, hundredths of GB.
   */
  lemma FormatSizeMeaning(n: int)
    ensures n < KiB ==> exists w :: FormatSize(n) == w + " B" && |w| >= 1
                             && (AllDigits(w) || (w[0] == '-' && AllDigits(w[1..])))
                             && IntValue(w) == n
    ensures KiB <= n < MiB ==> Shows(FormatSize(n), "KB", 1, 10 * n, KiB)
    ensures MiB <= n < GiB ==> Shows(FormatSize(n), "MB", 1, 10 * n, MiB)
    ensures GiB <= n ==> Shows(FormatSize(n), "GB", 2, 100 * n, GiB)
  {
    if n < KiB {
      BytesShown(n);
    } else if n < MiB {
      OneDecimalShows(RoundHalfEven(10 * n, KiB), "KB", 10 * n, KiB);
    } else if n < GiB {
      OneDecimalShows(RoundHalfEven(10 * n, MiB), "MB", 10 * n, MiB);
    } else {
      TwoDecimalsShows(RoundHalfEven(100 * n, GiB), "GB", 100 * n, GiB);
    }
  }

  /** Below 1 KiB the count is written exactly, as a signed decimal numeral. */
  lemma BytesShown(n: int)
    requires n < KiB
    ensures exists w :: FormatSize(n) == w + " B" && |w| >= 1
                      && (AllDigits(w) || (w[0] == '-' && AllDigits(w[1..])))
                      && IntValue(w) == n
  {
    IntRoundTrip(n);
    var w := IntToDecimal(n);
    assert FormatSize(n) == w + " B";
  }

  lemma FormatSizeBytesExample()
    ensures FormatSize(999) == "999 B"
    ensures FormatSize(0) == "0 B"
  {
  }

  /** 1536 bytes are exactly 1.5 KiB. */
  lemma FormatSizeKiloExample()
    ensures FormatSize(1536) == "1.5 KB"
  {
    assert RoundHalfEven(15360, KiB) == 15;
  }

  /** Just under 1 MiB the rounding carries over into `1024.0 KB`, as Python's `.1f` does. */
  lemma FormatSizeCarryExample()
    ensures FormatSize(1048575) == "1024.0 KB"
  {
    assert RoundHalfEven(10485750, KiB) == 10240;
  }

  lemma FormatSizeGigaExample()
    ensures FormatSize(1073741824) == "1.00 GB"
  {
    assert RoundHalfEven(107374182400, GiB) == 100;
  }
}
