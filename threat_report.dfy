/**
 * The gate of `generate_threat_report`: an empty threat table produces no
 * spreadsheet; otherwise the spreadsheet is named from the configured prefix
 * and the day's date, formatted as `%Y%m%d`.
 */
module ThreatReport {
  import opened Wrappers
  import opened Extraction

  /** The year, month and day of `datetime.now()`, as three integers. */
  datatype Date = Date(year: int, month: int, day: int)

  /**
   * A year, month and day whose `%Y%m%d` has a fixed width of eight digits.
   * It admits a day 31 in every month: month lengths and leap years do not
   * matter to the stamp, so the range is wider than the calendar's.
   */
  predicate ValidDate(d: Date)
  {
    1000 <= d.year <= 9999 && 1 <= d.month <= 12 && 1 <= d.day <= 31
  }

  function Digit(n: int): char
    requires 0 <= n < 10
  {
    (n + '0' as int) as char
  }

  predicate IsDigit(c: char)
  {
    '0' <= c <= '9'
  }

  function DigitValue(c: char): int
  {
    c as int - '0' as int
  }

  /** `n` written with exactly `width` decimal digits, leading zeros included. */
  function Padded(n: int, width: nat): (r: string)
    requires 0 <= n
    ensures |r| == width
    ensures forall i :: 0 <= i < width ==> IsDigit(r[i])
  {
    if width == 0 then [] else Padded(n / 10, width - 1) + [Digit(n % 10)]
  }

  /** The value of a string of decimal digits. */
  function DecimalValue(s: string): int
  {
    if s == [] then 0 else 10 * DecimalValue(s[..|s| - 1]) + DigitValue(s[|s| - 1])
  }

  /** Padding is undone by reading the digits back, as long as `n` fits the width. */
  lemma {:induction false} PaddedValue(n: int, width: nat, bound: int)
    requires 0 <= n < bound && bound == Pow10(width)
    ensures DecimalValue(Padded(n, width)) == n
  {
    if width > 0 {
      var p := Padded(n, width);
      assert p[..|p| - 1] == Padded(n / 10, width - 1);
      PaddedValue(n / 10, width - 1, Pow10(width - 1));
    }
  }

  function Pow10(k: nat): (p: int)
    ensures p >= 1
  {
    if k == 0 then 1 else 10 * Pow10(k - 1)
  }

  /** `strftime('%Y%m%d')`. */
  function DateStamp(d: Date): (r: string)
    requires ValidDate(d)
    ensures |r| == 8 && forall i :: 0 <= i < 8 ==> IsDigit(r[i])
  {
    Padded(d.year, 4) + Padded(d.month, 2) + Padded(d.day, 2)
  }

  /** Reads a `%Y%m%d` stamp back into a date. */
  function ParseStamp(s: string): Option<Date>
  {
    if |s| == 8 && forall i :: 0 <= i < 8 ==> IsDigit(s[i]) then
      Some(Date(DecimalValue(s[..4]), DecimalValue(s[4..6]), DecimalValue(s[6..])))
    else
      None
  }

  /** The stamp determines the date: different days give different file names. */
  lemma StampRoundTrip(d: Date)
    requires ValidDate(d)
    ensures ParseStamp(DateStamp(d)) == Some(d)
  {
    var y, m, dd := Padded(d.year, 4), Padded(d.month, 2), Padded(d.day, 2);
    var s := DateStamp(d);
    assert s[..4] == y && s[4..6] == m && s[6..] == dd;
    PaddedValue(d.year, 4, 10000);
    PaddedValue(d.month, 2, 100);
    PaddedValue(d.day, 2, 100);
  }

  const ReportInfix := "_Threat_Report_"
  const ReportExtension := ".xlsx"

  /**
   * `generate_threat_report`: no file for an empty table; otherwise the name
   * of the spreadsheet it writes.
   */
  function ThreatReportName(table: seq<Observation>, prefix: string, today: Date): (r: Option<string>)
    requires ValidDate(today)
    ensures r.None? <==> table == []
  {
    if table != [] then Some(prefix + ReportInfix + DateStamp(today) + ReportExtension) else None
  }

  /**
   * A report name starts with the prefix, carries the date's stamp after
   * `_Threat_Report_`, and ends with `.xlsx`; prefix and date can be read
   * back from it.
   */
  lemma ThreatReportNameParts(table: seq<Observation>, prefix: string, today: Date)
    requires ValidDate(today) && table != []
    ensures var name := ThreatReportName(table, prefix, today).value;
      var n := |prefix| + |ReportInfix|;
      && |name| == n + 8 + |ReportExtension|
      && name[..|prefix|] == prefix
      && name[|prefix|..n] == ReportInfix
      && ParseStamp(name[n..n + 8]) == Some(today)
      && name[n + 8..] == ReportExtension
  {
    var name := ThreatReportName(table, prefix, today).value;
    var n := |prefix| + |ReportInfix|;
    assert name[n..n + 8] == DateStamp(today);
    StampRoundTrip(today);
  }
}
