/**
 * The decimal conversions the downloader relies on: `strconv.Itoa` and `%d`
 * (used to build scratch-file names and Range headers) and
 * `strconv.ParseInt(s, 10, 64)` (used to read Content-Length).
 */
module Strconv {
  import opened Types
  import opened GoInt

  predicate IsDigit(c: char) { '0' <= c <= '9' }

  predicate AllDigits(s: string) { forall k :: 0 <= k < |s| ==> IsDigit(s[k]) }

  function DigitValue(c: char): (d: int)
    requires IsDigit(c)
    ensures 0 <= d < 10
  {
    c as int - '0' as int
  }

  function DigitChar(d: int): (c: char)
    requires 0 <= d < 10
    ensures IsDigit(c) && DigitValue(c) == d
  {
    (d + '0' as int) as char
  }

  /** The decimal digits of `n`, most significant first, without leading zeros. */
  function FormatNat(n: nat): (s: string)
    ensures |s| >= 1 && AllDigits(s)
  {
    if n < 10 then [DigitChar(n)] else FormatNat(n / 10) + [DigitChar(n % 10)]
  }

  /** `strconv.Itoa(n)`, which is also what `fmt.Sprintf("%d", n)` prints. */
  function Itoa(n: int): (s: string)
    ensures |s| >= 1
    ensures n >= 0 ==> AllDigits(s)
    ensures n < 0 ==> s[0] == '-'
  {
    if n < 0 then "-" + FormatNat(-n) else FormatNat(n)
  }

  /** The number a digit string denotes (the reading a server gives to a decimal field). */
  function DecimalValue(s: string): nat
    requires AllDigits(s)
  {
    if s == [] then 0 else 10 * DecimalValue(s[..|s| - 1]) + DigitValue(s[|s| - 1])
  }

  /** Reading back the digits of `n` gives `n`. */
  lemma {:induction false} DecimalValueOfFormatNat(n: nat)
    ensures DecimalValue(FormatNat(n)) == n
  {
    if n >= 10 {
      var s := FormatNat(n);
      assert s[..|s| - 1] == FormatNat(n / 10);
      DecimalValueOfFormatNat(n / 10);
    }
  }

  /** Distinct numbers print differently, so names built from them are distinct. */
  lemma ItoaInjective(m: int, n: int)
    ensures Itoa(m) == Itoa(n) <==> m == n
  {
    if Itoa(m) == Itoa(n) {
      if m >= 0 && n >= 0 {
        FormatNatInjective(m, n);
      } else if m < 0 && n < 0 {
        assert FormatNat(-m) == Itoa(m)[1..] == Itoa(n)[1..] == FormatNat(-n);
        FormatNatInjective(-m, -n);
      }
    }
  }

  lemma FormatNatInjective(m: nat, n: nat)
    requires FormatNat(m) == FormatNat(n)
    ensures m == n
  {
    DecimalValueOfFormatNat(m);
    DecimalValueOfFormatNat(n);
  }

  datatype NumError = ErrSyntax | ErrRange

  /** A parse result: the value Go returns and the error it returns beside it. */
  datatype Parsed = Parsed(value: Int64, err: Option<NumError>)

  /**
   * The digit loop of `strconv.ParseUint(s, 10, 64)`, continuing from the
   * accumulated value `acc`: a non-digit is a syntax error with value 0, and
   * the first digit that would take the value past 2^64 - 1 stops the scan
   * with a range error and the value 2^64 - 1.
   */
  function ScanUint(s: string, acc: nat): (r: (nat, Option<NumError>))
    requires acc <= MaxUint64
    ensures r.0 <= MaxUint64
  {
    if s == [] then (acc, None)
    else if !IsDigit(s[0]) then (0, Some(ErrSyntax))
    else
      var n := 10 * acc + DigitValue(s[0]);
      if n > MaxUint64 then (MaxUint64, Some(ErrRange)) else ScanUint(s[1..], n)
  }

  /** `strconv.ParseUint(s, 10, 64)`: the empty string is a syntax error. */
  function ParseUint(s: string): (r: (nat, Option<NumError>))
    ensures r.0 <= MaxUint64
  {
    if s == [] then (0, Some(ErrSyntax)) else ScanUint(s, 0)
  }

  /** The range check `ParseInt` applies to the unsigned result of `ParseUint`. */
  function SignedFrom(neg: bool, un: nat, err: Option<NumError>): (p: Parsed)
    requires un <= MaxUint64
  {
    if err == Some(ErrSyntax) then Parsed(0, err)
    else if !neg && un > MaxInt64 then Parsed(MaxInt64, Some(ErrRange))
    else if neg && un > -MinInt64 then Parsed(MinInt64, Some(ErrRange))
    else Parsed(if neg then -(un as int) else un, None)
  }

  /**
   * `strconv.ParseInt(s, 10, 64)`: an optional sign, then decimal digits.
   * Malformed input yields 0 with a syntax error; a value outside int64
   * yields the nearest int64 bound with a range error.
   */
  function ParseInt(s: string): (p: Parsed)
    ensures p.err == Some(ErrSyntax) ==> p.value == 0
    ensures s == "" ==> p == Parsed(0, Some(ErrSyntax))
  {
    if s == [] then Parsed(0, Some(ErrSyntax))
    else
      var digits := if s[0] == '+' || s[0] == '-' then s[1..] else s;
      var (un, err) := ParseUint(digits);
      SignedFrom(s[0] == '-', un, err)
  }

  /** Scanning a concatenation scans the first part, then continues with the second. */
  lemma {:induction false} ScanUintConcat(p: string, q: string, acc: nat)
    requires acc <= MaxUint64
    ensures var (v, e) := ScanUint(p, acc);
            ScanUint(p + q, acc) == if e.None? then ScanUint(q, v) else (v, e)
  {
    if p != [] {
      assert (p + q)[0] == p[0] && (p + q)[1..] == p[1..] + q;
      if IsDigit(p[0]) && 10 * acc + DigitValue(p[0]) <= MaxUint64 {
        ScanUintConcat(p[1..], q, 10 * acc + DigitValue(p[0]));
      }
    } else {
      assert p + q == q;
    }
  }

  lemma {:induction false} ScanUintFormatNat(n: nat)
    requires n <= MaxUint64
    ensures ScanUint(FormatNat(n), 0) == (n, None)
  {
    if n >= 10 {
      ScanUintFormatNat(n / 10);
      ScanUintConcat(FormatNat(n / 10), [DigitChar(n % 10)], 0);
    }
  }

  /** Round trip: every int64 that `Itoa` prints is parsed back by `ParseInt` without error. */
  lemma ParseIntItoa(n: Int64)
    ensures ParseInt(Itoa(n)) == Parsed(n, None)
  {
    var s := Itoa(n);
    if n < 0 {
      var m: nat := -(n as int);
      assert s[0] == '-' && s[1..] == FormatNat(m);
      ScanUintFormatNat(m);
      assert ParseUint(s[1..]) == (m, None);
      assert SignedFrom(true, m, None) == Parsed(n, None);
    } else {
      assert IsDigit(s[0]) && s == FormatNat(n);
      ScanUintFormatNat(n);
      assert ParseUint(s) == (n, None);
      assert SignedFrom(false, n, None) == Parsed(n, None);
    }
  }
}
