/** Rendering a date with Go's reference layout "2006-01-02": the year as a
    decimal of at least four digits, the month and the day of the month as
    decimals of at least two digits, each zero-padded, with a minus sign
    before the padding for a negative year (Go's `appendInt` with widths 4,
    2 and 2). A parser for that shape is the partner that shows nothing is
    lost by rendering. */
module DateLayout {
  import opened Wrappers
  import opened Calendar

  predicate IsDigit(c: char) {
    '0' <= c <= '9'
  }

  predicate AllDigits(s: string) {
    forall i :: 0 <= i < |s| ==> IsDigit(s[i])
  }

  function DigitChar(n: nat): (c: char)
    requires n < 10
    ensures IsDigit(c) && c as int - '0' as int == n
  {
    ('0' as int + n) as char
  }

  /** The shortest decimal numeral of `n`, most significant digit first; below
      10000 it has as many digits as the order of magnitude of `n` asks for. */
  function Decimal(n: nat): (s: string)
    ensures 1 <= |s| && AllDigits(s)
    ensures n < 10 <==> |s| == 1
    ensures 10 <= n < 100 ==> |s| == 2
    ensures 100 <= n < 1000 ==> |s| == 3
    ensures 1000 <= n < 10000 ==> |s| == 4
  {
    if n < 10 then [DigitChar(n)] else Decimal(n / 10) + [DigitChar(n % 10)]
  }

  function Zeros(k: nat): (s: string)
    ensures |s| == k && AllDigits(s)
    ensures forall i :: 0 <= i < k ==> s[i] == '0'
  {
    if k == 0 then [] else Zeros(k - 1) + ['0']
  }

  /** Left-pads `s` with zeros to at least `width` characters. */
  function PadLeft(s: string, width: nat): (r: string)
    ensures |r| == if |s| >= width then |s| else width
    ensures r[|r| - |s|..] == s
  {
    if |s| >= width then s else Zeros(width - |s|) + s
  }

  /** Go's `appendInt(b, x, width)`: a minus sign for a negative value, then
      the magnitude in decimal, zero-padded to `width` digits. */
  function FormatInt(x: int, width: nat): (s: string)
    ensures |s| >= 1
    ensures x < 0 <==> s[0] == '-'
    ensures x >= 0 ==> AllDigits(s)
    ensures x < 0 ==> AllDigits(s[1..])
  {
    if x < 0 then "-" + PadLeft(Decimal(-x), width) else PadLeft(Decimal(x), width)
  }

  /** A date rendered with the layout "2006-01-02". A valid date reads back
      as itself (ParseFormatDate, FormatDateInjective) and, for a year in
      0..9999, has the fixed ten-character shape (FormatDateShape). */
  function FormatDate(d: Date): (s: string)
    ensures Valid(d) ==> ParseDate(s) == Some(d)
  {
    ParseFormatDateWhenValid(d);
    FormatInt(d.year, 4) + "-" + FormatInt(d.month, 2) + "-" + FormatInt(d.day, 2)
  }

  /** The value of a string of decimal digits, the last digit least significant. */
  function DigitsValue(s: string): (n: int)
    requires AllDigits(s)
    ensures n >= 0
  {
    if s == [] then 0
    else DigitsValue(s[..|s| - 1]) * 10 + (s[|s| - 1] as int - '0' as int)
  }

  /** A decimal integer with an optional leading minus sign. */
  function ParseInt(s: string): (r: Option<int>)
    ensures r.Some? ==> |s| >= 1
  {
    if |s| >= 2 && s[0] == '-' && AllDigits(s[1..]) then Some(-DigitsValue(s[1..]))
    else if |s| >= 1 && AllDigits(s) then Some(DigitsValue(s))
    else None
  }

  /** Reads back a string of the shape `<year>-MM-DD`, the year being an
      optionally signed decimal of any length. */
  function ParseDate(s: string): (r: Option<Date>)
    ensures r.Some? ==> |s| >= 7 && s[|s| - 6] == '-' && s[|s| - 3] == '-'
  {
    if |s| < 7 || s[|s| - 6] != '-' || s[|s| - 3] != '-' then None
    else
      var mm, dd := s[|s| - 5..|s| - 3], s[|s| - 2..];
      match ParseInt(s[..|s| - 6])
      case None => None
      case Some(y) =>
        if AllDigits(mm) && AllDigits(dd) then Some(Date(y, DigitsValue(mm), DigitsValue(dd)))
        else None
  }

  lemma {:induction false} DigitsValueDecimal(n: nat)
    ensures DigitsValue(Decimal(n)) == n
  {
    if n >= 10 {
      var s := Decimal(n / 10) + [DigitChar(n % 10)];
      assert s[..|s| - 1] == Decimal(n / 10);
      DigitsValueDecimal(n / 10);
    }
  }

  lemma {:induction false} DigitsValueLeadingZeros(k: nat, s: string)
    requires AllDigits(s)
    ensures DigitsValue(Zeros(k) + s) == DigitsValue(s)
    decreases |s|
  {
    if s == [] {
      assert Zeros(k) + s == Zeros(k);
      AllZerosValue(k);
    } else {
      var t := s[..|s| - 1];
      assert (Zeros(k) + s)[..|Zeros(k) + s| - 1] == Zeros(k) + t;
      DigitsValueLeadingZeros(k, t);
    }
  }

  lemma {:induction false} AllZerosValue(k: nat)
    ensures DigitsValue(Zeros(k)) == 0
  {
    if k > 0 {
      assert Zeros(k)[..k - 1] == Zeros(k - 1);
      AllZerosValue(k - 1);
    }
  }

  /** Zero padding does not change the value read back. */
  lemma PaddedDecimalValue(n: nat, width: nat)
    ensures AllDigits(PadLeft(Decimal(n), width))
    ensures DigitsValue(PadLeft(Decimal(n), width)) == n
  {
    DigitsValueDecimal(n);
    if |Decimal(n)| < width {
      DigitsValueLeadingZeros(width - |Decimal(n)|, Decimal(n));
    }
  }

  /** Reading back a rendered integer gives the integer. */
  lemma ParseFormatInt(x: int, width: nat)
    ensures ParseInt(FormatInt(x, width)) == Some(x)
  {
    var p := PadLeft(Decimal(if x < 0 then -x else x), width);
    PaddedDecimalValue(if x < 0 then -x else x, width);
    if x < 0 {
      assert FormatInt(x, width) == "-" + p;
      ParseSigned(p);
    } else {
      assert FormatInt(x, width) == p;
      ParseUnsigned(p);
    }
  }

  lemma ParseSigned(p: string)
    requires |p| >= 1 && AllDigits(p)
    ensures ParseInt("-" + p) == Some(-DigitsValue(p))
  {
    assert ("-" + p)[1..] == p;
  }

  lemma ParseUnsigned(p: string)
    requires |p| >= 1 && AllDigits(p)
    ensures ParseInt(p) == Some(DigitsValue(p))
  {
    assert IsDigit(p[0]);
  }

  /** A month or a day of a valid date renders as exactly two digits whose
      value is the field. */
  lemma TwoDigitField(x: int)
    requires 1 <= x <= 31
    ensures |FormatInt(x, 2)| == 2 && AllDigits(FormatInt(x, 2))
    ensures DigitsValue(FormatInt(x, 2)) == x
  {
    PaddedDecimalValue(x, 2);
  }

  /** ParseDate splits off the last six characters whatever the year part is. */
  lemma ParseDateSplit(ys: string, ms: string, ds: string, y: int)
    requires |ms| == 2 && |ds| == 2 && AllDigits(ms) && AllDigits(ds)
    requires ParseInt(ys) == Some(y)
    ensures ParseDate(ys + "-" + ms + "-" + ds) == Some(Date(y, DigitsValue(ms), DigitsValue(ds)))
  {
    var s := ys + "-" + ms + "-" + ds;
    assert s[..|s| - 6] == ys;
    assert s[|s| - 5..|s| - 3] == ms;
    assert s[|s| - 2..] == ds;
  }

  /** Reading back a rendered valid date gives the date, whatever its year. */
  lemma ParseFormatDate(d: Date)
    requires Valid(d)
    ensures ParseDate(FormatDate(d)) == Some(d)
  {
    ParseFormatDateWhenValid(d);
  }

  lemma ParseFormatDateWhenValid(d: Date)
    ensures Valid(d) ==>
      ParseDate(FormatInt(d.year, 4) + "-" + FormatInt(d.month, 2) + "-" + FormatInt(d.day, 2)) == Some(d)
  {
    if Valid(d) {
      TwoDigitField(d.month);
      TwoDigitField(d.day);
      ParseFormatInt(d.year, 4);
      ParseDateSplit(FormatInt(d.year, 4), FormatInt(d.month, 2), FormatInt(d.day, 2), d.year);
    }
  }

  /** Different valid dates render differently. */
  lemma FormatDateInjective(a: Date, b: Date)
    requires Valid(a) && Valid(b)
    ensures FormatDate(a) == FormatDate(b) <==> a == b
  {
    if FormatDate(a) == FormatDate(b) {
      ParseFormatDate(a);
      ParseFormatDate(b);
    }
  }

  /** The character shape of the layout for years 0..9999: ten characters,
      `YYYY-MM-DD`, digits everywhere except the two hyphens. */
  predicate IsLayoutShaped(s: string) {
    |s| == 10 && s[4] == '-' && s[7] == '-'
    && AllDigits(s[..4]) && AllDigits(s[5..7]) && AllDigits(s[8..])
  }

  /** A valid date with a four-digit year renders in the fixed shape, and
      its fields can be read off at fixed positions. */
  lemma FormatDateShape(d: Date)
    requires Valid(d) && 0 <= d.year <= 9999
    ensures IsLayoutShaped(FormatDate(d))
    ensures DigitsValue(FormatDate(d)[..4]) == d.year
    ensures DigitsValue(FormatDate(d)[5..7]) == d.month
    ensures DigitsValue(FormatDate(d)[8..]) == d.day
  {
    TwoDigitField(d.month);
    TwoDigitField(d.day);
    FourDigitYear(d.year);
    LayoutSplit(FormatInt(d.year, 4), FormatInt(d.month, 2), FormatInt(d.day, 2));
  }

  /** A year in 0..9999 renders as exactly four digits whose value is the year. */
  lemma FourDigitYear(y: int)
    requires 0 <= y <= 9999
    ensures |FormatInt(y, 4)| == 4 && AllDigits(FormatInt(y, 4))
    ensures DigitsValue(FormatInt(y, 4)) == y
  {
    PaddedDecimalValue(y, 4);
  }

  lemma LayoutSplit(ys: string, ms: string, ds: string)
    requires |ys| == 4 && |ms| == 2 && |ds| == 2
    requires AllDigits(ys) && AllDigits(ms) && AllDigits(ds)
    ensures IsLayoutShaped(ys + "-" + ms + "-" + ds)
    ensures var s := ys + "-" + ms + "-" + ds; s[..4] == ys && s[5..7] == ms && s[8..] == ds
  {
    var s := ys + "-" + ms + "-" + ds;
    assert s[..4] == ys && s[5..7] == ms && s[8..] == ds;
  }
}
