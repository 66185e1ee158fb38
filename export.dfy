/**
 The name of the downloadable result (main.py line 156):
 `f"extracted_{datetime.now():%Y%m%d_%H%M%S}.md"`, for a date-time given as input.
 */
module Export {
  import opened Optional

  /** The range of each field taken on its own; `InCalendar` ties the day to the month. */
  type Year = y: int | 1 <= y <= 9999 witness 1
  type Month = m: int | 1 <= m <= 12 witness 1
  type Day = d: int | 1 <= d <= 31 witness 1
  type Hour = h: int | 0 <= h <= 23
  type Minute = m: int | 0 <= m <= 59
  type Second = s: int | 0 <= s <= 59

  datatype DateTime = DateTime(year: Year, month: Month, day: Day, hour: Hour, minute: Minute, second: Second)

  /** The proleptic Gregorian leap-year rule Python's `datetime` uses. */
  predicate IsLeapYear(year: int) {
    year % 4 == 0 && (year % 100 != 0 || year % 400 == 0)
  }

  function DaysInMonth(year: Year, month: Month): (n: int)
    ensures 28 <= n <= 31
    ensures month == 2 ==> (n == 29 <==> IsLeapYear(year))
  {
    if month == 2 then (if IsLeapYear(year) then 29 else 28)
    else if month == 4 || month == 6 || month == 9 || month == 11 then 30
    else 31
  }

  /** The day exists in its month: what a `datetime` value always satisfies. */
  predicate InCalendar(dt: DateTime) {
    dt.day <= DaysInMonth(dt.year, dt.month)
  }

  /** A date-time Python's `datetime` can hold. */
  type Timestamp = dt: DateTime | InCalendar(dt) witness DateTime(1, 1, 1, 0, 0, 0)

  const Prefix := "extracted_"
  const Extension := ".md"

  predicate IsDigit(c: char) {
    '0' <= c <= '9'
  }

  predicate AllDigits(s: string) {
    forall i :: 0 <= i < |s| ==> IsDigit(s[i])
  }

  function Pow10(n: nat): (p: nat)
    ensures p >= 1
  {
    if n == 0 then 1 else 10 * Pow10(n - 1)
  }

  function DigitChar(d: int): (c: char)
    requires 0 <= d < 10
    ensures IsDigit(c) && c as int - '0' as int == d
  {
    ('0' as int + d) as char
  }

  /** `n` written in decimal with exactly `width` digits, zero-padded on the left. */
  function Digits(n: nat, width: nat): (r: string)
    ensures |r| == width && AllDigits(r)
    decreases width
  {
    if width == 0 then "" else Digits(n / 10, width - 1) + [DigitChar(n % 10)]
  }

  /** The number a string of decimal digits denotes. */
  function DigitsValue(s: string): (v: nat)
    requires AllDigits(s)
    ensures v < Pow10(|s|)
    decreases |s|
  {
    if s == [] then 0 else DigitsValue(s[..|s| - 1]) * 10 + (s[|s| - 1] as int - '0' as int)
  }

  /** Reading back a zero-padded number gives the number, when it fits the width. */
  lemma {:induction false} DigitsValueOfDigits(n: nat, width: nat)
    requires n < Pow10(width)
    ensures DigitsValue(Digits(n, width)) == n
    decreases width
  {
    if width > 0 {
      var r := Digits(n, width);
      assert r[..|r| - 1] == Digits(n / 10, width - 1);
      DigitsValueOfDigits(n / 10, width - 1);
    }
  }

  /** Writing back the value of a digit string at its own width gives the string. */
  lemma {:induction false} DigitsOfDigitsValue(s: string)
    requires AllDigits(s)
    ensures Digits(DigitsValue(s), |s|) == s
    decreases |s|
  {
    if s != [] {
      var init := s[..|s| - 1];
      var d := s[|s| - 1] as int - '0' as int;
      var v := DigitsValue(s);
      assert v == DigitsValue(init) * 10 + d;
      assert v / 10 == DigitsValue(init) && v % 10 == d;
      DigitsOfDigitsValue(init);
      assert s == init + [s[|s| - 1]];
    }
  }

  /**
   `extracted_YYYYMMDD_HHMMSS.md`: 28 characters, the date and the time as
   digit runs separated by an underscore.
   */
  function ExportFilename(dt: Timestamp): (r: string)
    ensures |r| == 28
    ensures r[..10] == Prefix && r[18] == '_' && r[25..] == Extension
    ensures AllDigits(r[10..18]) && AllDigits(r[19..25])
  {
    var date := Digits(dt.year, 4) + Digits(dt.month, 2) + Digits(dt.day, 2);
    var time := Digits(dt.hour, 2) + Digits(dt.minute, 2) + Digits(dt.second, 2);
    var r := Prefix + date + "_" + time + Extension;
    assert r[10..18] == date;
    assert r[19..25] == time;
    r
  }

  /** A digit run cut in two gives two digit runs. */
  lemma DigitRun(s: string, lo: int, mid: int, hi: int)
    requires 0 <= lo <= mid <= hi <= |s| && AllDigits(s[lo..hi])
    ensures AllDigits(s[lo..mid]) && AllDigits(s[mid..hi])
  {
    assert forall k :: 0 <= k < mid - lo ==> s[lo..mid][k] == s[lo..hi][k];
    assert forall k :: 0 <= k < hi - mid ==> s[mid..hi][k] == s[lo..hi][k + mid - lo];
  }

  /** The shape of an export filename, before its fields are range-checked. */
  predicate Shaped(s: string) {
    |s| == 28 && s[..10] == Prefix && s[18] == '_' && s[25..] == Extension
    && AllDigits(s[10..18]) && AllDigits(s[19..25])
  }

  lemma ShapedFields(s: string)
    requires Shaped(s)
    ensures AllDigits(s[10..14]) && AllDigits(s[14..16]) && AllDigits(s[16..18])
    ensures AllDigits(s[19..21]) && AllDigits(s[21..23]) && AllDigits(s[23..25])
  {
    DigitRun(s, 10, 14, 18);
    DigitRun(s, 14, 16, 18);
    DigitRun(s, 19, 21, 25);
    DigitRun(s, 21, 23, 25);
  }

  /**
   Recovers the date-time from an export filename; None for any other string,
   including one whose digits name a day the month does not have.
   */
  function ParseExportFilename(s: string): Option<Timestamp> {
    if Shaped(s) then
      ShapedFields(s);
      var year := DigitsValue(s[10..14]);
      var month := DigitsValue(s[14..16]);
      var day := DigitsValue(s[16..18]);
      var hour := DigitsValue(s[19..21]);
      var minute := DigitsValue(s[21..23]);
      var second := DigitsValue(s[23..25]);
      if 1 <= year <= 9999 && 1 <= month <= 12 && 1 <= day <= DaysInMonth(year, month)
         && hour <= 23 && minute <= 59 && second <= 59
      then Some(DateTime(year, month, day, hour, minute, second))
      else None
    else None
  }

  lemma DigitFields(r: string, dt: Timestamp)
    requires r == ExportFilename(dt)
    ensures r[10..14] == Digits(dt.year, 4) && r[14..16] == Digits(dt.month, 2) && r[16..18] == Digits(dt.day, 2)
    ensures r[19..21] == Digits(dt.hour, 2) && r[21..23] == Digits(dt.minute, 2) && r[23..25] == Digits(dt.second, 2)
  {
    var date := Digits(dt.year, 4) + Digits(dt.month, 2) + Digits(dt.day, 2);
    var time := Digits(dt.hour, 2) + Digits(dt.minute, 2) + Digits(dt.second, 2);
    assert r == Prefix + date + "_" + time + Extension;
    assert r[10..18] == date;
    assert r[19..25] == time;
    assert r[10..14] == date[..4];
    assert r[14..16] == date[4..6];
    assert r[16..18] == date[6..];
    assert r[19..21] == time[..2];
    assert r[21..23] == time[2..4];
    assert r[23..25] == time[4..];
  }

  /** Every export filename reads back as the date-time it was made from. */
  lemma ExportFilenameRoundTrip(dt: Timestamp)
    ensures ParseExportFilename(ExportFilename(dt)) == Some(dt)
  {
    var r := ExportFilename(dt);
    DigitFields(r, dt);
    assert Pow10(4) == 10000 && Pow10(2) == 100;
    DigitsValueOfDigits(dt.year, 4);
    DigitsValueOfDigits(dt.month, 2);
    DigitsValueOfDigits(dt.day, 2);
    DigitsValueOfDigits(dt.hour, 2);
    DigitsValueOfDigits(dt.minute, 2);
    DigitsValueOfDigits(dt.second, 2);
  }

  /** A 28-character string is the concatenation of the runs an export filename is made of. */
  lemma FilenameRuns(s: string)
    requires |s| == 28
    ensures s == s[..10] + (s[10..14] + s[14..16] + s[16..18]) + [s[18]]
              + (s[19..21] + s[21..23] + s[23..25]) + s[25..]
  {
    assert s[10..18] == s[10..14] + s[14..16] + s[16..18];
    assert s[19..25] == s[19..21] + s[21..23] + s[23..25];
    assert s == s[..10] + s[10..18] + [s[18]] + s[19..25] + s[25..];
  }

  /** A string that reads as a date-time is exactly that date-time's export filename. */
  lemma ParseExportFilenameSound(s: string)
    requires ParseExportFilename(s).Some?
    ensures ExportFilename(ParseExportFilename(s).value) == s
  {
    var dt := ParseExportFilename(s).value;
    ShapedFields(s);
    DigitsOfDigitsValue(s[10..14]);
    DigitsOfDigitsValue(s[14..16]);
    DigitsOfDigitsValue(s[16..18]);
    DigitsOfDigitsValue(s[19..21]);
    DigitsOfDigitsValue(s[21..23]);
    DigitsOfDigitsValue(s[23..25]);
    FilenameRuns(s);
    var date := Digits(dt.year, 4) + Digits(dt.month, 2) + Digits(dt.day, 2);
    var time := Digits(dt.hour, 2) + Digits(dt.minute, 2) + Digits(dt.second, 2);
    assert s == Prefix + date + "_" + time + Extension;
  }

  /** Distinct date-times give distinct filenames. */
  lemma ExportFilenameInjective(a: Timestamp, b: Timestamp)
    requires ExportFilename(a) == ExportFilename(b)
    ensures a == b
  {
    ExportFilenameRoundTrip(a);
    ExportFilenameRoundTrip(b);
  }
}
