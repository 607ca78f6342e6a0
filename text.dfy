/**
 * The few Python string operations the scanner relies on, written out:
 * `str.isspace`/`str.strip`, `str.split(",")`, `str.startswith`/`endswith`,
 * `str.lstrip(".")` and the rendering of an `int` in decimal.
 */
module Text {

  /** The characters for which Python's `str.isspace()` holds; `str.strip()` without arguments removes exactly these. */
  predicate IsSpace(c: char) {
    || ('\t' <= c <= '\r')
    || ('\U{1c}' <= c <= '\U{1f}')
    || c == ' '
    || c == '\U{85}'
    || c == '\U{a0}'
    || c == '\U{1680}'
    || ('\U{2000}' <= c <= '\U{200a}')
    || c == '\U{2028}'
    || c == '\U{2029}'
    || c == '\U{202f}'
    || c == '\U{205f}'
    || c == '\U{3000}'
  }

  /** Every character of `s` is white space (so `s.strip()` is empty). */
  predicate Blank(s: string) {
    forall i :: 0 <= i < |s| ==> IsSpace(s[i])
  }

  /** Neither the first nor the last character of `s` is white space. */
  predicate IsStripped(s: string) {
    s == [] || (!IsSpace(s[0]) && !IsSpace(s[|s| - 1]))
  }

  /** `s.lstrip()`: the longest suffix of `s` that does not start with white space. */
  function TrimStart(s: string): (r: string)
    ensures |r| <= |s| && r == s[|s| - |r|..]
    ensures r == [] || !IsSpace(r[0])
    ensures forall i :: 0 <= i < |s| - |r| ==> IsSpace(s[i])
  {
    if s != [] && IsSpace(s[0]) then TrimStart(s[1..]) else s
  }

  /** `s.rstrip()`: the longest prefix of `s` that does not end with white space. */
  function TrimEnd(s: string): (r: string)
    ensures |r| <= |s| && r == s[..|r|]
    ensures r == [] || !IsSpace(r[|r| - 1])
    ensures forall i :: |r| <= i < |s| ==> IsSpace(s[i])
  {
    if s != [] && IsSpace(s[|s| - 1]) then TrimEnd(s[..|s| - 1]) else s
  }

  /** `s.strip()`. */
  function Strip(s: string): string {
    TrimEnd(TrimStart(s))
  }

  /** What `s.strip()` gives: no white space at either end, only characters of `s`, and nothing exactly when `s` is blank. */
  lemma StripSpec(s: string)
    ensures IsStripped(Strip(s))
    ensures forall c :: c in Strip(s) ==> c in s
    ensures Strip(s) == [] <==> Blank(s)
  {
    var t := TrimStart(s);
    var r := TrimEnd(t);
    assert forall c :: c in r ==> c in t;
    assert forall c :: c in t ==> c in s;
    assert r == [] ==> t == [];
  }

  lemma StrippedIsFixed(s: string)
    requires IsStripped(s)
    ensures Strip(s) == s
  {
    if s != [] {
      assert TrimStart(s) == s;
      assert TrimEnd(s) == s;
    }
  }

  /** Joins `parts` with commas: the inverse of `SplitComma`. */
  function JoinComma(parts: seq<string>): string {
    if |parts| == 0 then ""
    else if |parts| == 1 then parts[0]
    else parts[0] + "," + JoinComma(parts[1..])
  }

  /** `s.split(",")`: the maximal comma-free pieces of `s`, in order; an empty string gives `[""]`. */
  function SplitComma(s: string): (r: seq<string>)
    ensures |r| >= 1
    ensures forall i :: 0 <= i < |r| ==> ',' !in r[i]
    ensures JoinComma(r) == s
  {
    if s == [] then [""]
    else if s[0] == ',' then
      var t := SplitComma(s[1..]);
      assert JoinComma([""] + t) == "" + "," + JoinComma(t) by {
        assert ([""] + t)[1..] == t;
      }
      [""] + t
    else
      var t := SplitComma(s[1..]);
      var r := [[s[0]] + t[0]] + t[1..];
      assert JoinComma(r) == s by {
        if |t| == 1 {
          assert s == [s[0]] + s[1..];
        } else {
          assert r[1..] == t[1..];
          assert JoinComma(t) == t[0] + "," + JoinComma(t[1..]);
          assert s == [s[0]] + s[1..];
        }
      }
      r
  }

  lemma {:induction false} SplitCommaFree(a: string)
    requires ',' !in a
    ensures SplitComma(a) == [a]
  {
    if a != [] {
      SplitCommaFree(a[1..]);
      assert [a[0]] + a[1..] == a;
    }
  }

  lemma {:induction false} SplitAfterPiece(a: string, b: string)
    requires ',' !in a
    ensures SplitComma(a + "," + b) == [a] + SplitComma(b)
  {
    if a == [] {
      assert (a + "," + b)[1..] == b;
    } else {
      var s := a + "," + b;
      assert s[0] == a[0];
      assert s[1..] == a[1..] + "," + b;
      SplitAfterPiece(a[1..], b);
      assert [a[0]] + a[1..] == a;
    }
  }

  /** Splitting a comma-joined list of comma-free pieces gives the pieces back. */
  lemma {:induction false} SplitJoinRoundTrip(parts: seq<string>)
    requires |parts| >= 1
    requires forall i :: 0 <= i < |parts| ==> ',' !in parts[i]
    ensures SplitComma(JoinComma(parts)) == parts
  {
    if |parts| == 1 {
      SplitCommaFree(parts[0]);
    } else {
      SplitJoinRoundTrip(parts[1..]);
      SplitAfterPiece(parts[0], JoinComma(parts[1..]));
      assert [parts[0]] + parts[1..] == parts;
    }
  }

  predicate StartsWith(s: string, prefix: string) {
    |prefix| <= |s| && s[..|prefix|] == prefix
  }

  predicate EndsWith(s: string, suffix: string) {
    |suffix| <= |s| && s[|s| - |suffix|..] == suffix
  }

  /** `s.lstrip(".")`: `s` without its leading dots. */
  function TrimLeadingDots(s: string): string {
    if s != [] && s[0] == '.' then TrimLeadingDots(s[1..]) else s
  }

  /** What `lstrip(".")` removes is a run of dots at the front, and all of it. */
  lemma {:induction false} TrimLeadingDotsSpec(s: string)
    ensures var r := TrimLeadingDots(s);
            && |r| <= |s| && r == s[|s| - |r|..]
            && (r == [] || r[0] != '.')
            && (forall i :: 0 <= i < |s| - |r| ==> s[i] == '.')
  {
    if s != [] && s[0] == '.' {
      var t := s[1..];
      var r := TrimLeadingDots(t);
      TrimLeadingDotsSpec(t);
      assert TrimLeadingDots(s) == r;
      assert t[|t| - |r|..] == s[|s| - |r|..];
      forall i | 1 <= i < |s| - |r| ensures s[i] == '.' {
        assert s[i] == t[i - 1];
      }
    } else {
      assert TrimLeadingDots(s) == s && s[0..] == s;
    }
  }

  predicate IsDigit(c: char) {
    '0' <= c <= '9'
  }

  predicate AllDigits(s: string) {
    forall i :: 0 <= i < |s| ==> IsDigit(s[i])
  }

  function DigitChar(d: nat): (c: char)
    requires d < 10
    ensures IsDigit(c)
  {
    (48 + d) as char
  }

  function DigitValue(c: char): (d: nat)
    requires IsDigit(c)
    ensures d < 10 && DigitChar(d) == c
  {
    (c as int) - 48
  }

  /** Python's `str(k)` for a non-negative integer: decimal digits, no leading zero. */
  function NatToDecimal(k: nat): (s: string)
    ensures |s| >= 1 && AllDigits(s)
    ensures s[0] == '0' ==> s == "0"
  {
    if k < 10 then [DigitChar(k)] else NatToDecimal(k / 10) + [DigitChar(k % 10)]
  }

  /** The number a string of decimal digits denotes. */
  function DecimalValue(s: string): nat
    requires AllDigits(s)
  {
    if s == [] then 0 else 10 * DecimalValue(s[..|s| - 1]) + DigitValue(s[|s| - 1])
  }

  lemma DigitRoundTrip(d: nat)
    requires d < 10
    ensures DigitValue(DigitChar(d)) == d
  {
  }

  /** Appending a digit to a numeral multiplies its value by ten and adds the digit. */
  lemma DecimalSnoc(s: string, c: char)
    requires AllDigits(s) && IsDigit(c)
    ensures AllDigits(s + [c])
    ensures DecimalValue(s + [c]) == 10 * DecimalValue(s) + DigitValue(c)
  {
    var t := s + [c];
    assert t[..|t| - 1] == s;
    assert forall i :: 0 <= i < |t| ==> t[i] == if i < |s| then s[i] else c;
  }

  /** Reading back the decimal rendering of `k` gives `k`. */
  lemma {:induction false} DecimalRoundTrip(k: nat)
    ensures DecimalValue(NatToDecimal(k)) == k
  {
    if k >= 10 {
      DecimalRoundTrip(k / 10);
      var s := NatToDecimal(k);
      assert s[..|s| - 1] == NatToDecimal(k / 10);
    }
  }

  /** Python's `str(i)` (and `f"{i}"`) for any integer. */
  function IntToDecimal(i: int): (s: string)
    ensures |s| >= 1
    ensures i >= 0 ==> AllDigits(s)
    ensures i < 0 ==> s[0] == '-' && AllDigits(s[1..])
  {
    if i < 0 then "-" + NatToDecimal(-i) else NatToDecimal(i)
  }

  /** The integer a rendering of the form `["-"] digits` denotes. */
  function IntValue(s: string): int
    requires |s| >= 1
    requires AllDigits(s) || (s[0] == '-' && AllDigits(s[1..]))
  {
    if AllDigits(s) then DecimalValue(s) else -(DecimalValue(s[1..]) as int)
  }

  lemma IntRoundTrip(i: int)
    ensures IntValue(IntToDecimal(i)) == i
  {
    if i < 0 {
      var d := NatToDecimal(-i);
      var s := "-" + d;
      assert s == IntToDecimal(i);
      assert !AllDigits(s) by {
        assert !IsDigit(s[0]);
      }
      assert s[1..] == d;
      DecimalRoundTrip(-i);
    } else {
      DecimalRoundTrip(i);
    }
  }
}
