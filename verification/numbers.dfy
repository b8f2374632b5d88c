/** The numeric conversions of the JavaScript runtime that the parsers call:
    `Number(s)` and `parseFloat(s)` (each followed by `Number.isFinite`), and
    `parseInt(s, 10)`. A conversion that yields NaN or an infinity is `None`.

    The literal grammar covered is the decimal one,
      [+-]? ( digits ( '.' digits? )? | '.' digits ) ( [eE] [+-]? digits )?
    which is what spectrometer files contain; the hexadecimal, octal and binary
    forms and the overflow of large exponents to infinity are not modelled. */
module Numbers {
  import opened Wrappers
  import opened Text

  predicate IsDigit(c: char) {
    '0' <= c <= '9'
  }

  predicate AllDigits(s: String) {
    forall i :: 0 <= i < |s| ==> IsDigit(s[i])
  }

  function DigitValue(c: char): (d: nat)
    requires IsDigit(c)
    ensures d < 10
  {
    c as int - '0' as int
  }

  function DigitChar(d: nat): (c: char)
    requires d < 10
    ensures IsDigit(c) && DigitValue(c) == d
  {
    ('0' as int + d) as char
  }

  /** The value of a digit string read most significant digit first. */
  function DigitsValue(ds: String): nat
    requires AllDigits(ds)
  {
    if |ds| == 0 then 0 else DigitsValue(ds[..|ds| - 1]) * 10 + DigitValue(ds[|ds| - 1])
  }

  function Pow10(n: nat): (p: nat)
    ensures p >= 1
  {
    if n == 0 then 1 else 10 * Pow10(n - 1)
  }

  /** 10 raised to an integer power. */
  function Scale10(e: int): (r: real)
    ensures r > 0.0
  {
    if e >= 0 then Pow10(e) as real else 1.0 / Pow10(-e) as real
  }

  /** The parts of a decimal literal: sign, digits before and after the point and
      the exponent digits. */
  datatype Literal = Literal(negative: bool, whole: String, fraction: String,
                             expNegative: bool, exponent: String)

  predicate WellFormed(l: Literal) {
    AllDigits(l.whole) && AllDigits(l.fraction) && AllDigits(l.exponent)
    && |l.whole| + |l.fraction| > 0
  }

  function Value(l: Literal): real
    requires WellFormed(l)
  {
    var magnitude := DigitsValue(l.whole) as real
                     + DigitsValue(l.fraction) as real / Pow10(|l.fraction|) as real;
    var e: int := if l.expNegative then 0 - DigitsValue(l.exponent) as int else DigitsValue(l.exponent);
    (if l.negative then -magnitude else magnitude) * Scale10(e)
  }

  function SignLength(s: String): (a: nat)
    ensures a <= 1 && a <= |s|
  {
    if |s| > 0 && (s[0] == '+' || s[0] == '-') then 1 else 0
  }

  /** The exponent part starting at `m`: its sign, its digits and its length, or
      length 0 when there is none. */
  function ScanExponent(s: String, m: nat): (r: (bool, String, nat))
    requires m <= |s|
    ensures AllDigits(r.1) && m + r.2 <= |s|
    ensures r.2 == 0 <==> r.1 == []
  {
    if m < |s| && (s[m] == 'e' || s[m] == 'E') then
      var b := SignLength(s[m + 1..]);
      var d := RunLength(s[m + 1 + b..], IsDigit);
      if d == 0 then (false, [], 0)
      else (b == 1 && s[m + 1] == '-', s[m + 1 + b..m + 1 + b + d], 1 + b + d)
    else (false, [], 0)
  }

  /** The longest prefix of `s` that is a decimal literal, with its length. */
  function ScanLiteral(s: String): (r: Option<(Literal, nat)>)
    ensures r.Some? ==> WellFormed(r.value.0) && 0 < r.value.1 <= |s|
  {
    var a := SignLength(s);
    var w := RunLength(s[a..], IsDigit);
    var dot := a + w < |s| && s[a + w] == '.';
    var f := if dot then RunLength(s[a + w + 1..], IsDigit) else 0;
    if w + f == 0 then None
    else
      var m := if dot then a + w + 1 + f else a + w;
      var whole := DigitRun(s, a, w);
      var fraction := if dot then DigitRun(s, a + w + 1, f) else [];
      var (expNegative, exponent, e) := ScanExponent(s, m);
      Some((Literal(a == 1 && s[0] == '-', whole, fraction, expNegative, exponent), m + e))
  }

  /** The `n` digits found at `start` by `RunLength`. */
  function DigitRun(s: String, start: nat, n: nat): (ds: String)
    requires start <= |s| && n == RunLength(s[start..], IsDigit)
    ensures |ds| == n && AllDigits(ds) && ds == s[start..start + n]
  {
    assert s[start..start + n] == s[start..][..n];
    s[start..start + n]
  }

  /** `Number(s)` when it is finite: white space around the literal is allowed and
      a blank string converts to 0. */
  function ParseNumber(s: String): Option<real> {
    var t := Trim(s);
    if t == [] then Some(0.0)
    else match ScanLiteral(t)
      case Some((l, n)) => if n == |t| then Some(Value(l)) else None
      case None => None
  }

  /** `parseFloat(s)` when it is finite: leading white space is skipped and the
      longest literal prefix is read; trailing text is ignored. */
  function ParseFloat(s: String): Option<real> {
    match ScanLiteral(TrimStart(s))
    case Some((l, _)) => Some(Value(l))
    case None => None
  }

  /** `parseInt(s, 10)` unless it is NaN: leading white space, an optional sign,
      then the longest run of digits. */
  function ParseInt(s: String): Option<int> {
    var t := TrimStart(s);
    var a := SignLength(t);
    var d := RunLength(t[a..], IsDigit);
    if d == 0 then None
    else
      var v: int := DigitsValue(t[a..a + d]);
      Some(if a == 1 && t[0] == '-' then -v else v)
  }

  /** Decimal notation of a natural number, without leading zeros. */
  function FormatNat(n: nat): (s: String)
    ensures |s| >= 1 && AllDigits(s)
    ensures DigitsValue(s) == n
    ensures s[0] != '0' || n == 0
  {
    if n < 10 then [DigitChar(n)]
    else
      var s := FormatNat(n / 10) + [DigitChar(n % 10)];
      assert s[..|s| - 1] == FormatNat(n / 10);
      s
  }

  /** `String(i)` for an integer. */
  function FormatInt(i: int): String {
    if i < 0 then "-" + FormatNat(-i) else FormatNat(i)
  }

  /** The token grammar `[-+]?\d+(?:\.\d+)?` of the RELAB data-line pattern. */
  predicate IsPlainDecimal(t: String) {
    var a := SignLength(t);
    var w := RunLength(t[a..], IsDigit);
    && w > 0
    && (|| a + w == |t|
        || (t[a + w] == '.' && a + w + 1 < |t|
            && a + w + 1 + RunLength(t[a + w + 1..], IsDigit) == |t|))
  }

  lemma RunLengthAll(s: String)
    requires AllDigits(s)
    ensures RunLength(s, IsDigit) == |s|
  {
    RunLengthExact(s, |s|, IsDigit);
  }

  lemma ScanDigits(ds: String)
    requires |ds| >= 1 && AllDigits(ds)
    ensures ScanLiteral(ds) == Some((Literal(false, ds, [], false, []), |ds|))
  {
    assert SignLength(ds) == 0;
    assert ds[0..] == ds;
    assert ds[0..|ds|] == ds;
    RunLengthAll(ds);
    assert ScanExponent(ds, |ds|) == (false, [], 0);
  }

  lemma ValueOfWhole(ds: String)
    requires |ds| >= 1 && AllDigits(ds)
    ensures Value(Literal(false, ds, [], false, [])) == DigitsValue(ds) as real
  {
    assert DigitsValue([]) == 0;
    assert Scale10(0) == 1.0;
  }

  /** A digit string is read back whole: `Number` and `parseFloat` both return its
      value. */
  lemma DigitsParse(ds: String)
    requires |ds| >= 1 && AllDigits(ds)
    ensures ParseNumber(ds) == Some(DigitsValue(ds) as real)
    ensures ParseFloat(ds) == Some(DigitsValue(ds) as real)
  {
    TrimOfTrimmedEnds(ds);
    assert LeadingSpaces(ds) == 0;
    assert TrimStart(ds) == ds;
    ScanDigits(ds);
    ValueOfWhole(ds);
  }

  /** Round trip: formatting a natural number and converting it back with `Number`
      or `parseFloat` gives the number. */
  lemma FormatNatParses(n: nat)
    ensures ParseNumber(FormatNat(n)) == Some(n as real)
    ensures ParseFloat(FormatNat(n)) == Some(n as real)
  {
    DigitsParse(FormatNat(n));
  }

  /** Round trip for `parseInt` over every integer. */
  lemma FormatIntParses(i: int)
    ensures ParseInt(FormatInt(i)) == Some(i)
  {
    var s := FormatInt(i);
    var ds := FormatNat(if i < 0 then -i else i);
    var a := if i < 0 then 1 else 0;
    assert s[a..] == ds;
    assert !IsSpace(s[0]);
    assert LeadingSpaces(s) == 0;
    assert TrimStart(s) == s;
    assert SignLength(s) == a;
    RunLengthAll(ds);
    assert s[a..a + |ds|] == ds;
  }

  /** Every token of the RELAB data-line pattern is a finite number for
      `parseFloat`, and `Number` agrees with it. */
  lemma PlainDecimalParses(t: String)
    requires IsPlainDecimal(t)
    ensures ParseFloat(t).Some?
    ensures ParseNumber(t) == ParseFloat(t)
  {
    var a := SignLength(t);
    var w := RunLength(t[a..], IsDigit);
    assert t[a] == t[a..][0];
    assert !IsSpace(t[0]);
    assert IsDigit(t[|t| - 1]) by {
      if a + w == |t| {
        assert t[|t| - 1] == t[a..][w - 1];
      } else {
        var f := RunLength(t[a + w + 1..], IsDigit);
        assert t[|t| - 1] == t[a + w + 1..][f - 1];
      }
    }
    assert LeadingSpaces(t) == 0;
    assert TrimStart(t) == t;
    TrimOfTrimmedEnds(t);
    var r := ScanLiteral(t);
    assert r.Some? && r.value.1 == |t|;
  }

  /** Two numbers with something between them begin and end with a digit. */
  lemma NumberEnds(a: nat, b: nat, mid: String)
    ensures var line := FormatNat(a) + mid + FormatNat(b);
      |line| > 0 && IsDigit(line[0]) && IsDigit(line[|line| - 1])
  {
    var line := FormatNat(a) + mid + FormatNat(b);
    assert line[0] == FormatNat(a)[0];
    assert line[|line| - 1] == FormatNat(b)[|FormatNat(b)| - 1];
  }

  /** Two numbers joined by the character `d` hold digits and `d` only. */
  lemma PairChars(a: nat, b: nat, d: char)
    ensures var line := FormatNat(a) + [d] + FormatNat(b);
      forall c :: c in line ==> IsDigit(c) || c == d
  {
    var line := FormatNat(a) + [d] + FormatNat(b);
    forall i | 0 <= i < |line| ensures IsDigit(line[i]) || line[i] == d {
      if i < |FormatNat(a)| {
        assert line[i] == FormatNat(a)[i];
      } else if i > |FormatNat(a)| {
        assert line[i] == FormatNat(b)[i - |FormatNat(a)| - 1];
      }
    }
  }

  lemma TrimOfTrimmedEnds(t: String)
    requires |t| > 0 && !IsSpace(t[0]) && !IsSpace(t[|t| - 1])
    ensures Trim(t) == t
  {
    assert LeadingSpaces(t) == 0;
    assert TrailingSpaces(t) == 0;
  }
}
