/**
 * The daily index as a contract between its writer and its reader: the
 * history page fetches the index from the address the capture function
 * stores it under, shows the same date, and recovers from each snapshot's
 * path the period the capture function filed it under.
 */
module IndexContract {
  import opened Wrappers
  import opened Text
  import opened Calendar
  import opened IndexDocument
  import SnapshotIndex
  import History

  /** Digit strings of one length with one value are the same string. */
  lemma {:induction false} ValueOfInjective(a: string, b: string)
    requires |a| == |b| && AllDigits(a) && AllDigits(b) && ValueOf(a) == ValueOf(b)
    ensures a == b
  {
    if a != [] {
      var n := |a| - 1;
      LastDigit(ValueOf(a[..n]), DigitValue(a[n]));
      LastDigit(ValueOf(b[..n]), DigitValue(b[n]));
      assert a[n] == DigitChar(DigitValue(a[n])) == DigitChar(DigitValue(b[n])) == b[n];
      ValueOfInjective(a[..n], b[..n]);
      assert a == a[..n] + [a[n]] && b == b[..n] + [b[n]];
    }
  }

  /** The last decimal digit and the rest of `10 * x + d`. */
  lemma LastDigit(x: nat, d: nat)
    requires d < 10
    ensures (10 * x + d) % 10 == d && (10 * x + d) / 10 == x
  {
  }

  /** `pad(n)` in the page and `%m`/`%d` in the function write a month or a day alike. */
  lemma PadIsTwoDigits(n: int)
    requires 0 <= n < 100
    ensures History.Pad(n) == SnapshotIndex.TwoDigits(n)
  {
    ValueOfInjective(History.Pad(n), SnapshotIndex.TwoDigits(n));
  }

  /**
   * The page fetches a day's index where the function stores it, and its
   * heading shows the date the function writes into the document.
   */
  lemma AddressAgreement(base: string, d: Date)
    requires IsValid(d) && d.year >= 1
    ensures History.IndexUrl(base, d) == base + "/" + SnapshotIndex.IndexBlobPath(d)
    ensures History.DayLabel(d) == SnapshotIndex.DateStr(d)
  {
    PadIsTwoDigits(d.month);
    PadIsTwoDigits(d.day);
  }

  /**
   * A path that starts `dddd/dd/dd/` has no match of the period pattern
   * before its third slash: the groups after the first two slashes are
   * cut short by the next slash before any `_`.
   */
  lemma NoMatchInDatePrefix(p: string)
    requires SlashedDateAt(p)
    ensures forall q, k :: 0 <= q < 10 ==> !History.MatchesAt(p, q, k)
  {
  }

  /** `yyyy/mm/dd/`: digits, with slashes at positions 4, 7 and 10. */
  predicate SlashedDateAt(p: string) {
    |p| >= 11 && p[4] == '/' && p[7] == '/' && p[10] == '/'
    && IsDigit(p[0]) && IsDigit(p[1]) && IsDigit(p[2]) && IsDigit(p[3])
    && IsDigit(p[5]) && IsDigit(p[6]) && IsDigit(p[8]) && IsDigit(p[9])
  }

  /** A four-digit year and two two-digit fields make a date of each shape. */
  lemma DateShapes(y: string, mm: string, dd: string)
    requires |y| == 4 && |mm| == 2 && |dd| == 2 && AllDigits(y) && AllDigits(mm) && AllDigits(dd)
    ensures SlashedDateAt(y + "/" + mm + "/" + dd + "/")
    ensures History.DateTailAt("_" + (y + "-" + mm + "-" + dd), 0)
  {
  }

  /** The characters the period pattern looks at in `date/period_date-with-dashes_filename`. */
  lemma PathShape(date: string, period: string, ds: string, filename: string)
    requires |date| == 11 && SlashedDateAt(date)
    requires |ds| == 10 && History.DateTailAt("_" + ds, 0)
    ensures var p, L := date + period + "_" + ds + "_" + filename, |period|;
            SlashedDateAt(p) && |p| >= 22 + L && p[11..11 + L] == period && History.DateTailAt(p, 11 + L)
  {
    var p, L := date + period + "_" + ds + "_" + filename, |period|;
    var tail := "_" + ds;
    forall i | 0 <= i < 11
      ensures p[i] == date[i] && p[11 + L + i] == tail[i]
    {
    }
    forall i | 0 <= i < L
      ensures p[11 + i] == period[i]
    {
    }
    assert p[11..11 + L] == period;
  }

  /** The characters of a blob path the period pattern looks at. */
  lemma BlobPathShape(d: Date, period: string, filename: string)
    requires IsValid(d) && 1000 <= d.year <= 9999
    ensures var p, L := SnapshotIndex.BlobPath(d, period, filename), |period|;
            SlashedDateAt(p) && |p| >= 22 + L && p[11..11 + L] == period && History.DateTailAt(p, 11 + L)
  {
    var y, mm, dd := Decimal(d.year), SnapshotIndex.TwoDigits(d.month), SnapshotIndex.TwoDigits(d.day);
    DecimalLength(d.year);
    var date := y + "/" + mm + "/" + dd + "/";
    var ds := SnapshotIndex.DateStr(d);
    assert ds == y + "-" + mm + "-" + dd;
    DateShapes(y, mm, dd);
    assert SnapshotIndex.PrefixPattern(d, period) == date + period + "_";
    PathShape(date, period, ds, filename);
  }

  /**
   * The round trip of the period through the blob path: for a four-digit
   * year and any non-empty run of word characters as the period, the page
   * reads back the period the function wrote.
   */
  lemma PeriodRoundTrip(d: Date, period: string, filename: string)
    requires IsValid(d) && 1000 <= d.year <= 9999
    requires period != [] && forall i :: 0 <= i < |period| ==> IsWordChar(period[i])
    ensures History.PeriodOf(SnapshotIndex.BlobPath(d, period, filename)) == period
  {
    var p := SnapshotIndex.BlobPath(d, period, filename);
    BlobPathShape(d, period, filename);
    NoMatchInDatePrefix(p);
    assert History.MatchesAt(p, 10, |period|);
    History.PeriodOfLeftmostMatch(p, 10, |period|);
  }

  /**
   * Every snapshot the function records lands in the page's section for
   * the period of its hour, a known period: never in `unknown`, and the
   * grouping loop does not throw on it.
   */
  lemma WriterEntryGroupedByHour(d: Date, hour: int, time: string, preset: Option<string>, filename: string)
    requires IsValid(d) && 1000 <= d.year <= 9999
    ensures var e := Entry(Some(time), preset, Some(SnapshotIndex.BlobPath(d, SnapshotIndex.HourLabel(hour), filename)));
            History.EntryPeriod(e) == SnapshotIndex.HourLabel(hour)
            && History.Rank(History.EntryPeriod(e)) >= 0
            && History.GroupableEntry(e)
  {
    var period := SnapshotIndex.HourLabel(hour);
    SnapshotIndex.HourLabelIsPeriodWord(hour);
    PeriodRoundTrip(d, period, filename);
  }
}
