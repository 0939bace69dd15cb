/** The text tests the column parser applies to single tokens. */
module Tokens {
  import opened Text
  import opened Wrappers

  /** The text is a fused weekday and time: `^([A-Z]{2,3})(\d{4})$`. */
  predicate IsFusion(text: string) {
    && 6 <= |text| <= 7
    && AllUpper(text[..|text| - 4])
    && AllDigits(text[|text| - 4..])
  }

  /** Splits a fused weekday+time word such as "TU1413" into its letters and its four
      digits; any other word is returned whole. */
  function ParseMergedText(text: string): (r: seq<string>)
    ensures |r| == 1 || |r| == 2
    ensures |r| == 2 <==> IsFusion(text)
    ensures |r| == 1 ==> r[0] == text
    ensures |r| == 2 ==> r[0] + r[1] == text
    ensures |r| == 2 ==> 2 <= |r[0]| <= 3 && AllUpper(r[0]) && |r[1]| == 4 && AllDigits(r[1])
  {
    if IsFusion(text) then
      assert text == text[..|text| - 4] + text[|text| - 4..];
      [text[..|text| - 4], text[|text| - 4..]]
    else [text]
  }

  /** The regular expression's two groups are determined by the text: letters and digits
      never overlap, so no other split into 2-3 letters and 4 digits exists. */
  lemma FusionSplitUnique(text: string, letters: string, digits: string)
    requires letters + digits == text
    requires 2 <= |letters| <= 3 && AllUpper(letters) && |digits| == 4 && AllDigits(digits)
    ensures ParseMergedText(text) == [letters, digits]
  {
    assert text[..|text| - 4] == letters && text[|text| - 4..] == digits;
  }

  /** A day number: one or two digits with a value in 1..31 (`isdigit`, length and range tests). */
  predicate IsDayToken(t: string) {
    1 <= |t| <= 2 && AllDigits(t) && 1 <= DigitsValue(t) <= 31
  }

  function DayValue(t: string): (d: nat)
    requires IsDayToken(t)
    ensures 1 <= d <= 31
  {
    DigitsValue(t)
  }

  /** A time: exactly four digits, `^\d{4}$`. */
  predicate IsTimeToken(t: string) {
    |t| == 4 && AllDigits(t)
  }

  /** "HH:MM" text: two digits, a colon, two digits. */
  predicate IsClockText(s: string) {
    |s| == 5 && s[2] == ':' && IsDigit(s[0]) && IsDigit(s[1]) && IsDigit(s[3]) && IsDigit(s[4])
  }

  /** `f"{t[:2]}:{t[2:]}"` of a four-digit token. */
  function FormatTime(t: string): (s: string)
    requires IsTimeToken(t)
    ensures IsClockText(s)
    ensures s[..2] + s[3..] == t
  {
    t[..2] + ":" + t[2..]
  }

  /** Day tokens and time tokens never coincide, so the parser's first two tests are exclusive. */
  lemma DayAndTimeExclusive(t: string)
    ensures !(IsDayToken(t) && IsTimeToken(t))
  {
  }

  /** The value of the digits after a decimal point: "15" is 0.15. */
  function FractionValue(f: string): (v: real)
    requires AllDigits(f)
    ensures 0.0 <= v <= 1.0
  {
    if f == [] then 0.0 else (DigitValue(f[0]) as real + FractionValue(f[1..])) / 10.0
  }

  /** Reads an unsigned decimal from left to right: `whole` holds the digits before the point
      read so far. After the point only digits may follow, and the number needs at least one
      digit in all. */
  function ScanDecimal(t: string, whole: string): (r: Option<real>)
    requires AllDigits(whole)
    ensures r.Some? ==> r.value >= 0.0
  {
    if t == [] then
      if whole != [] then Some(DigitsValue(whole) as real) else None
    else if IsDigit(t[0]) then
      ScanDecimal(t[1..], whole + [t[0]])
    else if t[0] == '.' && AllDigits(t[1..]) && |whole| + |t[1..]| > 0 then
      Some(DigitsValue(whole) as real + FractionValue(t[1..]))
    else None
  }

  /** `float(t)` for plain decimals with an optional sign. */
  function ParseHeight(t: string): (r: Option<real>)
  {
    if |t| > 0 && (t[0] == '+' || t[0] == '-') then
      match ScanDecimal(t[1..], [])
      case None => None
      case Some(v) => Some(if t[0] == '-' then -v else v)
    else ScanDecimal(t, [])
  }

  /** Leading digits move into the whole part one by one. */
  lemma {:induction false} ScanDigits(w: string, rest: string, whole: string)
    requires AllDigits(w) && AllDigits(whole)
    ensures ScanDecimal(w + rest, whole) == ScanDecimal(rest, whole + w)
  {
    if w == [] {
      assert w + rest == rest && whole + w == whole;
    } else {
      assert (w + rest)[0] == w[0] && (w + rest)[1..] == w[1..] + rest;
      assert whole + w == (whole + [w[0]]) + w[1..];
      ScanDigits(w[1..], rest, whole + [w[0]]);
    }
  }

  /** A string of digits reads as its integer value: `float("2") == 2.0`. */
  lemma ParseHeightWhole(w: string)
    requires |w| > 0 && AllDigits(w)
    ensures ParseHeight(w) == Some(DigitsValue(w) as real)
  {
    assert IsDigit(w[0]);
    assert ParseHeight(w) == ScanDecimal(w, []);
    ScanDigits(w, [], []);
    assert w + [] == w && [] + w == w;
    assert ScanDecimal([], w) == Some(DigitsValue(w) as real);
  }

  /** Digits, a point and digits read as the whole part plus the fraction:
      `float("1.62") == 1 + 0.62`. */
  lemma ParseHeightDecimal(w: string, f: string)
    requires AllDigits(w) && AllDigits(f) && |w| + |f| > 0
    ensures ParseHeight(w + "." + f) == Some(DigitsValue(w) as real + FractionValue(f))
  {
    var t := w + "." + f;
    assert t == w + ("." + f);
    ScanDigits(w, "." + f, []);
    assert [] + w == w;
    assert ("." + f)[0] == '.' && ("." + f)[1..] == f;
    assert t[0] == if w == [] then '.' else w[0];
  }

  /** The number of digits `u` starts with. */
  function LeadingDigits(u: string): (n: nat)
    ensures n <= |u| && AllDigits(u[..n])
    ensures n < |u| ==> !IsDigit(u[n])
  {
    if u == [] || !IsDigit(u[0]) then 0
    else
      var n := 1 + LeadingDigits(u[1..]);
      assert u[..n] == [u[0]] + u[1..][..n - 1];
      n
  }

  /** An unsigned decimal as `float` reads it: digits, then optionally a point and digits,
      with at least one digit on either side of the point ("7", "1.62", ".5", "1."). */
  predicate IsUnsignedDecimal(u: string) {
    var n := LeadingDigits(u);
    || (n == |u| && n > 0)
    || (n < |u| && u[n] == '.' && AllDigits(u[n + 1..]) && |u| > 1)
  }

  /** The value of an unsigned decimal: its whole part plus its fraction. */
  function UnsignedValue(u: string): (v: real)
    requires IsUnsignedDecimal(u)
    ensures v >= 0.0
  {
    var n := LeadingDigits(u);
    if n == |u| then DigitsValue(u) as real
    else DigitsValue(u[..n]) as real + FractionValue(u[n + 1..])
  }

  /** The scanner accepts exactly the unsigned decimals, with their value. */
  lemma ScanDecimalExact(u: string)
    ensures ScanDecimal(u, []) == if IsUnsignedDecimal(u) then Some(UnsignedValue(u)) else None
  {
    var n := LeadingDigits(u);
    var w, rest := u[..n], u[n..];
    assert u == w + rest;
    ScanDigits(w, rest, []);
    assert [] + w == w;
    if rest != [] {
      assert rest[0] == u[n] && rest[1..] == u[n + 1..];
    } else {
      assert w == u;
    }
  }

  /** `float(t)` succeeds exactly on an optional sign followed by an unsigned decimal, and
      gives its value, negated after a minus sign. */
  lemma ParseHeightExact(t: string)
    ensures var signed := |t| > 0 && (t[0] == '+' || t[0] == '-');
      var u := if signed then t[1..] else t;
      && (ParseHeight(t).Some? <==> IsUnsignedDecimal(u))
      && (ParseHeight(t).Some? ==>
            ParseHeight(t).value == if signed && t[0] == '-' then -UnsignedValue(u) else UnsignedValue(u))
  {
    if |t| > 0 && (t[0] == '+' || t[0] == '-') {
      ScanDecimalExact(t[1..]);
    } else {
      ScanDecimalExact(t);
    }
  }

  /** Every character of an unsigned decimal is a digit, except one point right after the
      leading digits. */
  lemma UnsignedChar(u: string, j: nat)
    requires j < |u|
    ensures IsUnsignedDecimal(u) ==> IsDigit(u[j]) || (j == LeadingDigits(u) && u[j] == '.')
  {
    var n := LeadingDigits(u);
    if IsUnsignedDecimal(u) {
      if j < n {
        assert u[..n][j] == u[j];
      } else if j > n {
        assert u[n + 1..][j - n - 1] == u[j];
      }
    }
  }

  /** A token holding a character other than a digit or a point, apart from a leading sign,
      is never a number: "MO", "TUE" and "1,2" are skipped as noise. */
  lemma ForeignCharNotNumber(t: string, i: nat)
    requires i < |t| && !IsDigit(t[i]) && t[i] != '.'
    requires !(i == 0 && (t[0] == '+' || t[0] == '-'))
    ensures ParseHeight(t) == None
  {
    ParseHeightExact(t);
    var signed := |t| > 0 && (t[0] == '+' || t[0] == '-');
    var u := if signed then t[1..] else t;
    var j := if signed then i - 1 else i;
    assert u[j] == t[i];
    UnsignedChar(u, j);
  }

  /** A token with two points is never a number: "1.2.3" is skipped as noise. */
  lemma TwoPointsNotNumber(t: string, i: nat, j: nat)
    requires i < j < |t| && t[i] == '.' && t[j] == '.'
    ensures ParseHeight(t) == None
  {
    ParseHeightExact(t);
    var signed := |t| > 0 && (t[0] == '+' || t[0] == '-');
    var u := if signed then t[1..] else t;
    var i', j' := if signed then i - 1 else i, if signed then j - 1 else j;
    assert u[i'] == '.' && u[j'] == '.';
    UnsignedChar(u, i');
    UnsignedChar(u, j');
  }

  /** A day number is also a valid height exactly when it is 1 or 2 (as "2", "02", ...),
      so such a token right after a time is read as that time's height. */
  lemma DayTokenAsHeight(t: string)
    requires IsDayToken(t)
    ensures IsHeight(t) <==> DayValue(t) <= 2
  {
    ParseHeightWhole(t);
  }

  /** The parser accepts a height when it parses as a number in [0.0, 2.5]. */
  predicate IsHeight(t: string) {
    var h := ParseHeight(t);
    h.Some? && 0.0 <= h.value <= 2.5
  }
}
