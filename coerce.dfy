/** The two pandas coercions the loader applies column-wise with
    `errors="coerce"`: `pd.to_numeric` on `days_to_expiry` and
    `pd.to_datetime` on `doc_expiry_date`. A value the coercion cannot read
    becomes a missing marker (`None` here, NaN / NaT in pandas). */
module Coerce {
  import opened Wrappers

  // ---------------------------------------------------------------------------
  // Decimal digits
  // ---------------------------------------------------------------------------

  predicate IsDigit(c: char)
  {
    '0' <= c <= '9'
  }

  predicate AllDigits(s: string)
  {
    forall i :: 0 <= i < |s| ==> IsDigit(s[i])
  }

  function DigitValue(c: char): nat
    requires IsDigit(c)
  {
    c as int - '0' as int
  }

  function DigitChar(d: nat): (c: char)
    requires d < 10
    ensures IsDigit(c) && DigitValue(c) == d
  {
    ('0' as int + d) as char
  }

  /** The value of a string of decimal digits, most significant first. */
  function DigitsValue(s: string): nat
    requires AllDigits(s)
  {
    if s == [] then 0 else DigitsValue(s[..|s| - 1]) * 10 + DigitValue(s[|s| - 1])
  }

  /** Decimal rendering of a natural number without leading zeros. */
  function ShowNat(n: nat): (r: string)
    ensures |r| > 0 && AllDigits(r)
  {
    if n < 10 then [DigitChar(n)] else ShowNat(n / 10) + [DigitChar(n % 10)]
  }

  /** `str(n)` for a Python integer. */
  function ShowInt(n: int): (r: string)
    ensures |r| > 0
  {
    if n < 0 then "-" + ShowNat(-n) else ShowNat(n)
  }

  lemma {:induction false} ShowNatValue(n: nat)
    ensures DigitsValue(ShowNat(n)) == n
  {
    if n >= 10 {
      var s := ShowNat(n);
      assert s[..|s| - 1] == ShowNat(n / 10);
      ShowNatValue(n / 10);
    }
  }

  // ---------------------------------------------------------------------------
  // pd.to_numeric(..., errors="coerce") on text
  // ---------------------------------------------------------------------------

  /** An optional sign followed by at least one decimal digit. */
  predicate IsIntText(s: string)
  {
    var digits := if |s| > 0 && (s[0] == '-' || s[0] == '+') then s[1..] else s;
    |digits| > 0 && AllDigits(digits)
  }

  /** Reads an integer from text; anything else ("N/A", "", "twelve") is missing. */
  function ParseInt(s: string): (r: Option<int>)
    ensures r.Some? <==> IsIntText(s)
    ensures r.Some? && s[0] == '-' ==> r.value <= 0
    ensures r.Some? && s[0] != '-' ==> r.value >= 0
  {
    if |s| > 0 && (s[0] == '-' || s[0] == '+') then
      if |s| > 1 && AllDigits(s[1..]) then
        var v: int := DigitsValue(s[1..]);
        Some(if s[0] == '-' then -v else v)
      else None
    else if |s| > 0 && AllDigits(s) then Some(DigitsValue(s))
    else None
  }

  /** Reading back the decimal rendering of a number gives the number. */
  lemma ParseShowInt(n: int)
    ensures ParseInt(ShowInt(n)) == Some(n)
  {
    if n < 0 {
      var s := ShowInt(n);
      assert s[1..] == ShowNat(-n);
      ShowNatValue(-n);
    } else {
      ShowNatValue(n);
    }
  }

  // ---------------------------------------------------------------------------
  // pd.to_datetime(..., errors="coerce") on ISO dates
  // ---------------------------------------------------------------------------

  datatype Date = Date(year: int, month: int, day: int)

  predicate IsLeapYear(y: int)
  {
    y % 4 == 0 && (y % 100 != 0 || y % 400 == 0)
  }

  function DaysInMonth(y: int, m: int): int
    requires 1 <= m <= 12
  {
    if m == 2 then (if IsLeapYear(y) then 29 else 28)
    else if m == 4 || m == 6 || m == 9 || m == 11 then 30
    else 31
  }

  predicate ValidDate(d: Date)
  {
    1 <= d.month <= 12 && 1 <= d.day <= DaysInMonth(d.year, d.month)
  }

  predicate DateLessEq(a: Date, b: Date)
  {
    a.year < b.year || (a.year == b.year && (a.month < b.month || (a.month == b.month && a.day <= b.day)))
  }

  /** A pandas Timestamp is a signed 64-bit count of nanoseconds around 1970,
      so the midnights it can hold run from 1677-09-22 to 2262-04-11; a date
      outside that range is coerced to NaT. */
  const FirstTimestampDate := Date(1677, 9, 22)
  const LastTimestampDate := Date(2262, 4, 11)

  predicate Representable(d: Date)
  {
    ValidDate(d) && DateLessEq(FirstTimestampDate, d) && DateLessEq(d, LastTimestampDate)
  }

  /** Reads a `YYYY-MM-DD` date; any other text, an impossible calendar date
      or one outside the Timestamp range is missing. */
  function ParseDate(s: string): (r: Option<Date>)
    ensures r.Some? ==> Representable(r.value)
    ensures r.Some? ==> |s| == 10 && s[4] == '-' && s[7] == '-'
  {
    if |s| == 10 && s[4] == '-' && s[7] == '-'
       && AllDigits(s[..4]) && AllDigits(s[5..7]) && AllDigits(s[8..])
    then
      var d := Date(DigitsValue(s[..4]), DigitsValue(s[5..7]), DigitsValue(s[8..]));
      if Representable(d) then Some(d) else None
    else None
  }

  function Digits2(n: nat): (r: string)
    requires n < 100
    ensures |r| == 2 && AllDigits(r) && DigitsValue(r) == n
  {
    var r := [DigitChar(n / 10), DigitChar(n % 10)];
    assert r[..1] == [DigitChar(n / 10)] && r[..1][..0] == [];
    assert DigitsValue(r[..1]) == n / 10;
    r
  }

  function Digits4(n: nat): (r: string)
    requires n < 10000
    ensures |r| == 4 && AllDigits(r) && DigitsValue(r) == n
  {
    var r := Digits2(n / 100) + Digits2(n % 100);
    assert r[..3] == Digits2(n / 100) + [r[2]];
    assert r[..3][..2] == Digits2(n / 100);
    r
  }

  /** `YYYY-MM-DD`, the form the snapshot carries dates in. */
  function FormatDate(d: Date): (s: string)
    requires Representable(d)
    ensures |s| == 10
  {
    Digits4(d.year) + "-" + Digits2(d.month) + "-" + Digits2(d.day)
  }

  /** Every date a Timestamp can hold survives formatting and parsing. */
  lemma ParseFormatDate(d: Date)
    requires Representable(d)
    ensures ParseDate(FormatDate(d)) == Some(d)
  {
    var s := FormatDate(d);
    assert s[..4] == Digits4(d.year);
    assert s[5..7] == Digits2(d.month);
    assert s[8..] == Digits2(d.day);
  }

  lemma DigitRoundTrip(c: char)
    requires IsDigit(c)
    ensures DigitChar(DigitValue(c)) == c
  {
  }

  lemma Digits2Of(t: string)
    requires |t| == 2 && AllDigits(t)
    ensures DigitsValue(t) < 100 && Digits2(DigitsValue(t)) == t
  {
    assert t[..1][..0] == [] && t[..1] == [t[0]];
    assert DigitsValue(t[..1]) == DigitValue(t[0]);
    assert DigitsValue(t) == DigitValue(t[0]) * 10 + DigitValue(t[1]);
    DigitRoundTrip(t[0]);
    DigitRoundTrip(t[1]);
    assert t == [t[0], t[1]];
  }

  lemma Digits4Of(t: string)
    requires |t| == 4 && AllDigits(t)
    ensures DigitsValue(t) < 10000 && Digits4(DigitsValue(t)) == t
  {
    var hi, lo := t[..2], t[2..];
    Digits2Of(hi);
    Digits2Of(lo);
    assert t[..3][..2] == hi && t[..3] == hi + [t[2]] && t[..2] == hi;
    assert DigitsValue(lo) == DigitValue(t[2]) * 10 + DigitValue(t[3]) by {
      assert lo[..1] == [t[2]] && lo[..1][..0] == [];
    }
    var n := DigitsValue(t);
    var d2, d3 := DigitValue(t[2]), DigitValue(t[3]);
    assert n == DigitsValue(t[..3]) * 10 + d3;
    assert DigitsValue(t[..3]) == DigitsValue(hi) * 10 + d2;
    assert n == DigitsValue(hi) * 100 + (d2 * 10 + d3);
    assert n == DigitsValue(hi) * 100 + DigitsValue(lo);
    assert n / 100 == DigitsValue(hi) && n % 100 == DigitsValue(lo);
    assert t == hi + lo;
  }

  /** A date the parser accepts is written exactly as `FormatDate` writes it. */
  lemma FormatParseDate(s: string)
    requires ParseDate(s).Some?
    ensures FormatDate(ParseDate(s).value) == s
  {
    Digits4Of(s[..4]);
    Digits2Of(s[5..7]);
    Digits2Of(s[8..]);
    assert s == s[..4] + "-" + s[5..7] + "-" + s[8..];
  }

  /** `str()` of a Timestamp at midnight. */
  function TimestampText(d: Date): string
    requires Representable(d)
  {
    FormatDate(d) + " 00:00:00"
  }
}
