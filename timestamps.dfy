/** UTC timestamps in the fixed layout "2006-01-02T15:04:05Z" (Go's reference
    time), as read by `time.Parse` in both catalog scans, and Go's
    `Time.After` on them. */
module Timestamps {
  import opened Results

  /** A calendar instant in UTC, to the second. */
  datatype Timestamp = Timestamp(year: nat, month: nat, day: nat, hour: nat, minute: nat, second: nat)

  predicate IsLeap(year: nat) {
    year % 4 == 0 && (year % 100 != 0 || year % 400 == 0)
  }

  function DaysIn(month: nat, year: nat): nat
    requires 1 <= month <= 12
  {
    if month == 2 then (if IsLeap(year) then 29 else 28)
    else if month == 4 || month == 6 || month == 9 || month == 11 then 30
    else 31
  }

  /** The ranges `time.Parse` enforces: a four-digit year, a month of the year,
      a day that exists in that month, and a time of day to the second. */
  predicate Valid(t: Timestamp) {
    t.year <= 9999 && 1 <= t.month <= 12 && 1 <= t.day <= DaysIn(t.month, t.year)
    && t.hour < 24 && t.minute < 60 && t.second < 60
  }

  // ---------------------------------------------------------------------
  // Digits

  predicate IsDigit(c: char) {
    '0' <= c <= '9'
  }

  function DigitValue(c: char): nat
    requires IsDigit(c)
  {
    c as int - '0' as int
  }

  function DigitChar(d: nat): char
    requires d < 10
  {
    ('0' as int + d) as char
  }

  /** A number below 100 as exactly two decimal digits. */
  function Digits2(n: nat): string
    requires n < 100
  {
    [DigitChar(n / 10), DigitChar(n % 10)]
  }

  /** A number below 10000 as exactly four decimal digits. */
  function Digits4(n: nat): string
    requires n < 10000
  {
    Digits2(n / 100) + Digits2(n % 100)
  }

  /** The two-digit number at positions `i` and `i + 1`. */
  function Two(s: string, i: nat): nat
    requires i + 1 < |s| && IsDigit(s[i]) && IsDigit(s[i + 1])
  {
    10 * DigitValue(s[i]) + DigitValue(s[i + 1])
  }

  // ---------------------------------------------------------------------
  // Layout "2006-01-02T15:04:05Z"

  /** The text of a valid timestamp in the layout. */
  function Format(t: Timestamp): (s: string)
    requires Valid(t)
  {
    var y, mo, d := Digits4(t.year), Digits2(t.month), Digits2(t.day);
    var h, mi, se := Digits2(t.hour), Digits2(t.minute), Digits2(t.second);
    [y[0], y[1], y[2], y[3], '-', mo[0], mo[1], '-', d[0], d[1], 'T',
     h[0], h[1], ':', mi[0], mi[1], ':', se[0], se[1], 'Z']
  }

  predicate IsDigitAt(s: string, i: nat)
    requires i < |s|
  {
    IsDigit(s[i])
  }

  /** Twenty code points: digits where the layout has digits, and the
      layout's own '-', 'T', ':' and 'Z' elsewhere. */
  predicate WellShaped(s: string) {
    |s| == 20
    && IsDigitAt(s, 0) && IsDigitAt(s, 1) && IsDigitAt(s, 2) && IsDigitAt(s, 3) && s[4] == '-'
    && IsDigitAt(s, 5) && IsDigitAt(s, 6) && s[7] == '-'
    && IsDigitAt(s, 8) && IsDigitAt(s, 9) && s[10] == 'T'
    && IsDigitAt(s, 11) && IsDigitAt(s, 12) && s[13] == ':'
    && IsDigitAt(s, 14) && IsDigitAt(s, 15) && s[16] == ':'
    && IsDigitAt(s, 17) && IsDigitAt(s, 18) && s[19] == 'Z'
  }

  /** `time.Parse("2006-01-02T15:04:05Z", s)`. A success is a valid timestamp
      whose text is exactly `s`; a failure names the rejected text. */
  function ParseTimestamp(s: string): (r: Result<Timestamp>)
    ensures r.Ok? ==> Valid(r.value) && Format(r.value) == s
    ensures r.Err? ==> r.error == BadTimestamp(s)
  {
    if !WellShaped(s) then Err(BadTimestamp(s))
    else
      var t := Timestamp(100 * Two(s, 0) + Two(s, 2), Two(s, 5), Two(s, 8), Two(s, 11), Two(s, 14), Two(s, 17));
      if Valid(t) then
        FormatParsed(s, t);
        Ok(t)
      else Err(BadTimestamp(s))
  }

  lemma DigitRoundTrip(c: char)
    requires IsDigit(c)
    ensures DigitChar(DigitValue(c)) == c
  {
  }

  lemma Digits2OfTwo(s: string, i: nat)
    requires i + 1 < |s| && IsDigit(s[i]) && IsDigit(s[i + 1])
    ensures Two(s, i) < 100 && Digits2(Two(s, i)) == s[i..i + 2]
  {
    DigitRoundTrip(s[i]);
    DigitRoundTrip(s[i + 1]);
  }

  /** The text a timestamp was read from is the text it formats to. */
  lemma FormatParsed(s: string, t: Timestamp)
    requires WellShaped(s) && Valid(t)
    requires t == Timestamp(100 * Two(s, 0) + Two(s, 2), Two(s, 5), Two(s, 8), Two(s, 11), Two(s, 14), Two(s, 17))
    ensures Format(t) == s
  {
    Digits2OfTwo(s, 0);
    Digits2OfTwo(s, 2);
    Digits2OfTwo(s, 5);
    Digits2OfTwo(s, 8);
    Digits2OfTwo(s, 11);
    Digits2OfTwo(s, 14);
    Digits2OfTwo(s, 17);
    Century(Two(s, 0), Two(s, 2));
    FormatShape(t);
    SameLayout(Format(t), s);
  }

  lemma Century(a: nat, b: nat)
    requires b < 100
    ensures (100 * a + b) / 100 == a && (100 * a + b) % 100 == b
  {
  }

  /** Two texts in the layout's shape are equal when their digit pairs and
      separators are. */
  lemma SameLayout(f: string, s: string)
    requires |f| == 20 && |s| == 20
    requires f[0..2] == s[0..2] && f[2..4] == s[2..4] && f[5..7] == s[5..7] && f[8..10] == s[8..10]
    requires f[11..13] == s[11..13] && f[14..16] == s[14..16] && f[17..19] == s[17..19]
    requires f[4] == s[4] && f[7] == s[7] && f[10] == s[10] && f[13] == s[13] && f[16] == s[16] && f[19] == s[19]
    ensures f == s
  {
    forall i | 0 <= i < 20
      ensures f[i] == s[i]
    {
      if i < 4 {
        var j := if i < 2 then 0 else 2;
        assert f[i] == f[j..j + 2][i - j] && s[i] == s[j..j + 2][i - j];
      } else if i in {5, 6, 8, 9, 11, 12, 14, 15, 17, 18} {
        var j := if i % 3 == 2 then i else i - 1;
        assert f[i] == f[j..j + 2][i - j] && s[i] == s[j..j + 2][i - j];
      }
    }
  }

  /** Every valid timestamp is read back from its own text. */
  lemma ParseFormat(t: Timestamp)
    requires Valid(t)
    ensures ParseTimestamp(Format(t)) == Ok(t)
  {
    var s := Format(t);
    FormatShape(t);
    TwoOfDigits2(s, 0, t.year / 100);
    TwoOfDigits2(s, 2, t.year % 100);
    TwoOfDigits2(s, 5, t.month);
    TwoOfDigits2(s, 8, t.day);
    TwoOfDigits2(s, 11, t.hour);
    TwoOfDigits2(s, 14, t.minute);
    TwoOfDigits2(s, 17, t.second);
    assert WellShaped(s);
    assert 100 * Two(s, 0) + Two(s, 2) == t.year;
  }

  /** Where each component's digits sit in the text of a timestamp. */
  lemma FormatShape(t: Timestamp)
    requires Valid(t)
    ensures var s := Format(t);
      |s| == 20 && s[4] == '-' && s[7] == '-' && s[10] == 'T' && s[13] == ':' && s[16] == ':' && s[19] == 'Z'
      && s[0..2] == Digits2(t.year / 100) && s[2..4] == Digits2(t.year % 100)
      && s[5..7] == Digits2(t.month) && s[8..10] == Digits2(t.day)
      && s[11..13] == Digits2(t.hour) && s[14..16] == Digits2(t.minute) && s[17..19] == Digits2(t.second)
  {
  }

  lemma TwoOfDigits2(s: string, i: nat, n: nat)
    requires n < 100 && i + 2 <= |s| && s[i..i + 2] == Digits2(n)
    ensures IsDigit(s[i]) && IsDigit(s[i + 1]) && Two(s, i) == n
  {
    assert s[i] == Digits2(n)[0] && s[i + 1] == Digits2(n)[1];
  }

  /** The layout accepts exactly the texts of valid timestamps. */
  lemma ParseAcceptsExactlyFormatted(s: string)
    ensures ParseTimestamp(s).Ok? <==> exists t :: Valid(t) && Format(t) == s
  {
    if t :| Valid(t) && Format(t) == s {
      ParseFormat(t);
    }
  }

  // ---------------------------------------------------------------------
  // Order

  /** `a` is an earlier instant than `b`: the first component in which they
      differ is smaller in `a`. */
  predicate Precedes(a: Timestamp, b: Timestamp) {
    if a.year != b.year then a.year < b.year
    else if a.month != b.month then a.month < b.month
    else if a.day != b.day then a.day < b.day
    else if a.hour != b.hour then a.hour < b.hour
    else if a.minute != b.minute then a.minute < b.minute
    else a.second < b.second
  }

  /** Go's `t.After(u)`: `t` is strictly later than `u`. */
  predicate After(t: Timestamp, u: Timestamp) {
    Precedes(u, t)
  }

  /** After is a strict total order: never reflexive, transitive, and any two
      distinct timestamps are ordered one way. */
  lemma AfterIsStrictTotalOrder(a: Timestamp, b: Timestamp, c: Timestamp)
    ensures !After(a, a)
    ensures After(a, b) && After(b, c) ==> After(a, c)
    ensures a != b ==> After(a, b) != After(b, a)
  {
  }
}
