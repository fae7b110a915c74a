/**
 * The capture function's side of the daily index: which period an hour
 * belongs to, the preset list read from configuration, the blob names it
 * writes, the upsert of one entry per (preset, period) into the day's
 * `snapshots` list, and the run over all presets that collects failures
 * and decides whether the index is uploaded.
 */
module SnapshotIndex {
  import opened Wrappers
  import opened Text
  import opened Calendar
  import opened IndexDocument

  // ---------------------------------------------------------------------
  // Period of the day

  /** `hour_label`: the period word an hour of the day is filed under. */
  function HourLabel(hour: int): (period: string)
    ensures period == "early" || period == "midday" || period == "late" || period == "night"
  {
    if 5 <= hour < 10 then "early"
    else if 10 <= hour < 15 then "midday"
    else if 15 <= hour < 21 then "late"
    else "night"
  }

  /** Every hour of the day gets exactly one period, by these ranges. */
  lemma HourLabelRanges(hour: int)
    requires 0 <= hour < 24
    ensures HourLabel(hour) == "early" <==> 5 <= hour <= 9
    ensures HourLabel(hour) == "midday" <==> 10 <= hour <= 14
    ensures HourLabel(hour) == "late" <==> 15 <= hour <= 20
    ensures HourLabel(hour) == "night" <==> hour <= 4 || 21 <= hour
  {
  }

  /** A period word is a non-empty run of word characters without `_`. */
  predicate IsPeriodWord(period: string) {
    period != [] && forall i :: 0 <= i < |period| ==> IsWordChar(period[i]) && period[i] != '_'
  }

  lemma HourLabelIsPeriodWord(hour: int)
    ensures IsPeriodWord(HourLabel(hour))
  {
  }

  // ---------------------------------------------------------------------
  // Configuration: CAMERA_PRESETS

  function NonEmptyStripped(pieces: seq<string>): (tokens: seq<string>)
    ensures |tokens| <= |pieces|
    ensures forall t :: t in tokens ==> t != "" && IsStripped(t)
    ensures (forall p :: p in pieces ==> ',' !in p) ==> forall t :: t in tokens ==> ',' !in t
  {
    if pieces == [] then []
    else
      var t := Strip(pieces[0]);
      var rest := NonEmptyStripped(pieces[1..]);
      if t == "" then rest else [t] + rest
  }

  /** A single piece contributes its stripped text, or nothing when it is blank. */
  lemma NonEmptyStrippedSingle(piece: string)
    ensures NonEmptyStripped([piece]) == if Strip(piece) == "" then [] else [Strip(piece)]
  {
    assert |[piece][1..]| == 0;
  }

  /**
   * Blank pieces are dropped without disturbing the rest: the tokens of
   * two runs of pieces are the tokens of the first followed by those of
   * the second, so the kept tokens are the non-blank stripped pieces in
   * their order.
   */
  lemma {:induction false} NonEmptyStrippedConcat(a: seq<string>, b: seq<string>)
    ensures NonEmptyStripped(a + b) == NonEmptyStripped(a) + NonEmptyStripped(b)
  {
    if a == [] {
      NonEmptyStrippedNil(b);
    } else {
      var h, t := a[0], a[1..];
      assert a == [h] + t;
      assert a + b == [h] + (t + b);
      NonEmptyStrippedCons(h, t + b);
      NonEmptyStrippedCons(h, t);
      NonEmptyStrippedConcat(t, b);
      Reassociate(NonEmptyStripped([h]), NonEmptyStripped(t), NonEmptyStripped(b));
    }
  }

  lemma NonEmptyStrippedNil(b: seq<string>)
    ensures NonEmptyStripped([] + b) == NonEmptyStripped([]) + NonEmptyStripped(b)
  {
    var none: seq<string> := [];
    assert none + b == b;
    assert NonEmptyStripped(none) == none;
    assert none + NonEmptyStripped(b) == NonEmptyStripped(b);
  }

  lemma Reassociate(p: seq<string>, q: seq<string>, r: seq<string>)
    ensures p + (q + r) == (p + q) + r
  {
  }

  lemma NonEmptyStrippedCons(piece: string, rest: seq<string>)
    ensures NonEmptyStripped([piece] + rest) == NonEmptyStripped([piece]) + NonEmptyStripped(rest)
  {
    assert ([piece] + rest)[0] == piece && ([piece] + rest)[1..] == rest;
    NonEmptyStrippedSingle(piece);
  }

  /**
   * `PRESETS`: the comma-separated pieces of the raw setting, each
   * stripped of surrounding whitespace, with empty pieces dropped.
   */
  function ParsePresets(raw: string): (presets: seq<string>)
    ensures forall t :: t in presets ==> t != "" && IsStripped(t) && ',' !in t
  {
    NonEmptyStripped(Split(raw, ','))
  }

  lemma {:induction false} NonEmptyStrippedKeeps(tokens: seq<string>)
    requires forall t :: t in tokens ==> t != "" && IsStripped(t)
    ensures NonEmptyStripped(tokens) == tokens
  {
    if tokens != [] {
      assert tokens[0] in tokens;
      assert forall t :: t in tokens[1..] ==> t in tokens;
      StripOfStripped(tokens[0]);
      NonEmptyStrippedKeeps(tokens[1..]);
    }
  }

  /**
   * Writing a preset list as a comma-joined setting and parsing it gives
   * the list back, in the same order.
   */
  lemma ParsePresetsOfJoin(tokens: seq<string>)
    requires forall t :: t in tokens ==> t != "" && IsStripped(t) && ',' !in t
    ensures ParsePresets(Join(tokens, ',')) == tokens
  {
    if tokens == [] {
      assert Split("", ',') == [""];
      StripOfStripped("");
    } else {
      SplitJoin(tokens, ',');
      NonEmptyStrippedKeeps(tokens);
    }
  }

  /**
   * The pieces of a setting written with whitespace around each preset,
   * `"  a , b\t"`: parsing strips the padding and keeps every preset.
   */
  lemma {:induction false} NonEmptyStrippedPadded(pieces: seq<string>, tokens: seq<string>,
                                                  before: seq<string>, after: seq<string>)
    requires |pieces| == |tokens| == |before| == |after|
    requires forall i :: 0 <= i < |pieces| ==> pieces[i] == before[i] + tokens[i] + after[i]
    requires forall i :: 0 <= i < |pieces| ==> AllSpace(before[i]) && AllSpace(after[i])
    requires forall i :: 0 <= i < |pieces| ==> tokens[i] != "" && IsStripped(tokens[i])
    ensures NonEmptyStripped(pieces) == tokens
  {
    if pieces != [] {
      StripPadded(before[0], tokens[0], after[0]);
      NonEmptyStrippedPadded(pieces[1..], tokens[1..], before[1..], after[1..]);
    }
  }

  /**
   * Parsing a comma-joined preset list whose entries carry whitespace
   * padding gives back the presets without it, in their order.
   */
  lemma ParsePresetsPadded(pieces: seq<string>, tokens: seq<string>, before: seq<string>, after: seq<string>)
    requires |pieces| == |tokens| == |before| == |after|
    requires forall i :: 0 <= i < |pieces| ==> pieces[i] == before[i] + tokens[i] + after[i]
    requires forall i :: 0 <= i < |pieces| ==> AllSpace(before[i]) && AllSpace(after[i])
    requires forall i :: 0 <= i < |pieces| ==> tokens[i] != "" && IsStripped(tokens[i]) && ',' !in tokens[i]
    ensures ParsePresets(Join(pieces, ',')) == tokens
  {
    if pieces == [] {
      assert Split("", ',') == [""];
      StripOfStripped("");
    } else {
      forall p | p in pieces
        ensures ',' !in p
      {
        var i :| 0 <= i < |pieces| && pieces[i] == p;
        assert !IsSpace(',');
        assert ',' !in before[i] && ',' !in after[i];
      }
      SplitJoin(pieces, ',');
      NonEmptyStrippedPadded(pieces, tokens, before, after);
    }
  }

  /** `PRESETS or [None]`: the presets to visit; `None` stands for "stay where the camera is". */
  function Targets(presets: seq<string>): seq<Option<string>> {
    if presets == [] then [None] else seq(|presets|, i requires 0 <= i < |presets| => Some(presets[i]))
  }

  /** `preset or 'current'`: the label a target is reported and indexed under. */
  function Label(target: Option<string>): string {
    if target.Some? && target.value != "" then target.value else "current"
  }

  /**
   * With no preset configured there is exactly one target, labelled
   * `current`; otherwise the targets are the presets, labelled by themselves.
   */
  lemma TargetLabels(raw: string)
    ensures var presets := ParsePresets(raw);
            var targets := Targets(presets);
            (presets == [] ==> targets == [None] && Label(targets[0]) == "current")
            && (presets != [] ==> |targets| == |presets|
                                  && forall i :: 0 <= i < |presets| ==> Label(targets[i]) == presets[i])
  {
    var presets := ParsePresets(raw);
    var targets := Targets(presets);
    if presets != [] {
      forall i | 0 <= i < |presets|
        ensures Label(targets[i]) == presets[i]
      {
        assert presets[i] in presets;
        assert targets[i] == Some(presets[i]);
      }
    }
  }

  // ---------------------------------------------------------------------
  // Names written to storage

  /** A UTC instant as `datetime.utcnow()` gives it, to the minute. */
  datatype Instant = Instant(date: Date, hour: int, minute: int)

  predicate IsUtcInstant(t: Instant) {
    IsValid(t.date) && 1 <= t.date.year <= 9999 && 0 <= t.hour < 24 && 0 <= t.minute < 60
  }

  /** A field `strftime` renders with two zero-padded digits (`%m`, `%d`, `%H`, `%M`). */
  function TwoDigits(n: int): (r: string)
    requires 0 <= n < 100
    ensures |r| == 2 && AllDigits(r) && ValueOf(r) == n
  {
    var r := [DigitChar(n / 10), DigitChar(n % 10)];
    assert r[..1] == [DigitChar(n / 10)] && [DigitChar(n / 10)][..0] == [];
    assert ValueOf(r[..1]) == n / 10;
    assert ValueOf(r) == 10 * (n / 10) + n % 10;
    r
  }

  /** `strftime('%Y/%m/%d')` */
  function DatePrefix(d: Date): string
    requires IsValid(d) && d.year >= 1
  {
    Decimal(d.year) + "/" + TwoDigits(d.month) + "/" + TwoDigits(d.day)
  }

  /** `strftime('%Y-%m-%d')` */
  function DateStr(d: Date): string
    requires IsValid(d) && d.year >= 1
  {
    Decimal(d.year) + "-" + TwoDigits(d.month) + "-" + TwoDigits(d.day)
  }

  /** `strftime('%H:%M')` */
  function TimeText(t: Instant): string
    requires IsUtcInstant(t)
  {
    TwoDigits(t.hour) + ":" + TwoDigits(t.minute)
  }

  /** Where the day's index document is stored. */
  function IndexBlobPath(d: Date): string
    requires IsValid(d) && d.year >= 1
  {
    DatePrefix(d) + "/index.json"
  }

  /** `prefix_pattern`: what every path of the day's entries for one period starts with. */
  function PrefixPattern(d: Date, period: string): string
    requires IsValid(d) && d.year >= 1
  {
    DatePrefix(d) + "/" + period + "_"
  }

  /** `blob_path`: the name one snapshot is uploaded under; it lies in its period's prefix. */
  function BlobPath(d: Date, period: string, filename: string): (path: string)
    requires IsValid(d) && d.year >= 1
    ensures StartsWith(path, PrefixPattern(d, period))
  {
    var path := PrefixPattern(d, period) + DateStr(d) + "_" + filename;
    assert path[..|PrefixPattern(d, period)|] == PrefixPattern(d, period);
    path
  }

  /** `os.path.basename`: what follows the last `/`. */
  function Basename(p: string): (name: string)
    ensures '/' !in name
    ensures |name| <= |p| && p[|p| - |name|..] == name
    ensures |name| < |p| ==> p[|p| - |name| - 1] == '/'
  {
    if p == [] || p[|p| - 1] == '/' then []
    else
      var name := Basename(p[..|p| - 1]) + [p[|p| - 1]];
      assert p[..|p| - 1][|p| - |name|..] == name[..|name| - 1];
      name
  }

  // ---------------------------------------------------------------------
  // The upsert into `snapshots`

  /** The entry the loop looks for: same preset label, path inside the period prefix. */
  predicate IsMatch(e: Entry, name: string, prefix: string) {
    e.preset == Some(name) && StartsWith(e.path.GetOr(""), prefix)
  }

  /** The index of the first matching entry, if any. */
  function FirstMatch(s: seq<Entry>, name: string, prefix: string): (k: Option<nat>)
    ensures k.Some? ==> k.value < |s| && IsMatch(s[k.value], name, prefix)
                        && forall j :: 0 <= j < k.value ==> !IsMatch(s[j], name, prefix)
    ensures k.None? ==> forall j :: 0 <= j < |s| ==> !IsMatch(s[j], name, prefix)
  {
    if s == [] then None
    else if IsMatch(s[0], name, prefix) then Some(0)
    else
      match FirstMatch(s[1..], name, prefix)
      case Some(k) => Some(k + 1)
      case None => None
  }

  function CountMatches(s: seq<Entry>, name: string, prefix: string): nat {
    if s == [] then 0
    else (if IsMatch(s[0], name, prefix) then 1 else 0) + CountMatches(s[1..], name, prefix)
  }

  /**
   * The list after the update: the first matching entry gets the new time
   * and path in place, or, if none matches, a new entry is appended.
   */
  function Upserted(s: seq<Entry>, name: string, prefix: string, time: string, path: string): seq<Entry> {
    match FirstMatch(s, name, prefix)
    case Some(k) => s[k := s[k].(time := Some(time), path := Some(path))]
    case None => s + [Entry(Some(time), Some(name), Some(path))]
  }

  lemma {:induction false} CountMatchesZero(s: seq<Entry>, name: string, prefix: string)
    ensures CountMatches(s, name, prefix) == 0 <==> FirstMatch(s, name, prefix).None?
  {
    if s != [] {
      CountMatchesZero(s[1..], name, prefix);
    }
  }

  lemma {:induction false} CountMatchesAppend(s: seq<Entry>, e: Entry, name: string, prefix: string)
    ensures CountMatches(s + [e], name, prefix)
            == CountMatches(s, name, prefix) + (if IsMatch(e, name, prefix) then 1 else 0)
  {
    if s != [] {
      assert (s + [e])[1..] == s[1..] + [e];
      CountMatchesAppend(s[1..], e, name, prefix);
    } else {
      assert [e][1..] == [];
    }
  }

  lemma {:induction false} CountMatchesUpdate(s: seq<Entry>, k: nat, e: Entry, name: string, prefix: string)
    requires k < |s|
    ensures CountMatches(s[k := e], name, prefix)
            == CountMatches(s, name, prefix)
               - (if IsMatch(s[k], name, prefix) then 1 else 0)
               + (if IsMatch(e, name, prefix) then 1 else 0)
  {
    if k == 0 {
      assert s[k := e][1..] == s[1..];
    } else {
      assert s[k := e][1..] == s[1..][k - 1 := e];
      CountMatchesUpdate(s[1..], k - 1, e, name, prefix);
    }
  }

  /** The list grows by one exactly when no entry matched; otherwise its length is kept. */
  lemma UpsertedLength(s: seq<Entry>, name: string, prefix: string, time: string, path: string)
    ensures |Upserted(s, name, prefix, time, path)|
            == |s| + (if CountMatches(s, name, prefix) == 0 then 1 else 0)
  {
    CountMatchesZero(s, name, prefix);
  }

  /**
   * After the upsert the first entry for (label, prefix) carries exactly
   * the new reading, provided the new path lies in the prefix.
   */
  lemma UpsertedRecords(s: seq<Entry>, name: string, prefix: string, time: string, path: string)
    requires StartsWith(path, prefix)
    ensures var r := Upserted(s, name, prefix, time, path);
            FirstMatch(r, name, prefix).Some?
            && r[FirstMatch(r, name, prefix).value] == Entry(Some(time), Some(name), Some(path))
  {
    var r := Upserted(s, name, prefix, time, path);
    match FirstMatch(s, name, prefix)
    case Some(k) =>
      assert IsMatch(r[k], name, prefix);
      assert forall j :: 0 <= j < k ==> r[j] == s[j];
    case None =>
      assert IsMatch(r[|s|], name, prefix);
      assert forall j :: 0 <= j < |s| ==> r[j] == s[j];
  }

  /** Repeating the same upsert changes nothing further. */
  lemma UpsertIdempotent(s: seq<Entry>, name: string, prefix: string, time: string, path: string)
    requires StartsWith(path, prefix)
    ensures var r := Upserted(s, name, prefix, time, path);
            Upserted(r, name, prefix, time, path) == r
  {
    UpsertedRecords(s, name, prefix, time, path);
  }

  /**
   * The number of entries for (label, prefix) becomes one if there was
   * none and is otherwise unchanged; so "at most one" is kept.
   */
  lemma UpsertMatchCount(s: seq<Entry>, name: string, prefix: string, time: string, path: string)
    requires StartsWith(path, prefix)
    ensures var n := CountMatches(s, name, prefix);
            CountMatches(Upserted(s, name, prefix, time, path), name, prefix) == if n == 0 then 1 else n
  {
    CountMatchesZero(s, name, prefix);
    var e := Entry(Some(time), Some(name), Some(path));
    match FirstMatch(s, name, prefix)
    case Some(k) =>
      CountMatchesUpdate(s, k, s[k].(time := Some(time), path := Some(path)), name, prefix);
    case None =>
      CountMatchesAppend(s, e, name, prefix);
  }

  /** Two prefixes of one string are prefixes of each other. */
  lemma StartsWithBoth(x: string, p: string, q: string)
    requires StartsWith(x, p) && StartsWith(x, q)
    ensures StartsWith(p, q) || StartsWith(q, p)
  {
    if |q| <= |p| {
      assert p[..|q|] == x[..|q|];
    } else {
      assert q[..|p|] == x[..|p|];
    }
  }

  predicate Incomparable(p: string, q: string) {
    !StartsWith(p, q) && !StartsWith(q, p)
  }

  /**
   * The upsert for (label, prefix) leaves the number of entries of every
   * other preset, and of every prefix no path can share with `prefix`,
   * unchanged.
   */
  lemma UpsertOtherCounts(s: seq<Entry>, name: string, prefix: string, time: string, path: string,
                          name2: string, prefix2: string)
    requires StartsWith(path, prefix)
    requires name2 != name || Incomparable(prefix, prefix2)
    ensures CountMatches(Upserted(s, name, prefix, time, path), name2, prefix2)
            == CountMatches(s, name2, prefix2)
  {
    var e := Entry(Some(time), Some(name), Some(path));
    assert !IsMatch(e, name2, prefix2) by {
      if name2 == name && StartsWith(path, prefix2) {
        StartsWithBoth(path, prefix, prefix2);
      }
    }
    match FirstMatch(s, name, prefix)
    case Some(k) =>
      var e2 := s[k].(time := Some(time), path := Some(path));
      assert !IsMatch(s[k], name2, prefix2) by {
        if name2 == name && StartsWith(s[k].path.GetOr(""), prefix2) {
          StartsWithBoth(s[k].path.GetOr(""), prefix, prefix2);
        }
      }
      assert !IsMatch(e2, name2, prefix2) by {
        if name2 == name && StartsWith(path, prefix2) {
          StartsWithBoth(path, prefix, prefix2);
        }
      }
      CountMatchesUpdate(s, k, e2, name2, prefix2);
    case None =>
      CountMatchesAppend(s, e, name2, prefix2);
  }

  lemma StartsWithCommonPrefix(a: string, x: string, y: string)
    ensures StartsWith(a + x, a + y) <==> StartsWith(x, y)
  {
    if StartsWith(a + x, a + y) {
      assert x[..|y|] == (a + x)[..|a + y|][|a|..];
    }
    if StartsWith(x, y) {
      assert (a + x)[..|a + y|] == a + x[..|y|];
    }
  }

  /** The prefixes of two different periods of the same day share no path. */
  lemma PeriodPrefixesIncomparable(d: Date, h1: int, h2: int)
    requires IsValid(d) && d.year >= 1
    requires HourLabel(h1) != HourLabel(h2)
    ensures Incomparable(PrefixPattern(d, HourLabel(h1)), PrefixPattern(d, HourLabel(h2)))
  {
    var a := DatePrefix(d) + "/";
    var l1, l2 := HourLabel(h1), HourLabel(h2);
    assert PrefixPattern(d, l1) == a + (l1 + "_");
    assert PrefixPattern(d, l2) == a + (l2 + "_");
    StartsWithCommonPrefix(a, l1 + "_", l2 + "_");
    StartsWithCommonPrefix(a, l2 + "_", l1 + "_");
    // the four period words start with four different letters
    assert l1[0] != l2[0];
    assert !StartsWith(l1 + "_", l2 + "_") by {
      assert (l1 + "_")[0] != (l2 + "_")[0];
    }
    assert !StartsWith(l2 + "_", l1 + "_") by {
      assert (l1 + "_")[0] != (l2 + "_")[0];
    }
  }

  /** At most one entry per (preset label, period) in the day's list. */
  ghost predicate UniquePerPresetAndPeriod(s: seq<Entry>, d: Date)
    requires IsValid(d) && d.year >= 1
  {
    forall name: string, hour: int :: CountMatches(s, name, PrefixPattern(d, HourLabel(hour))) <= 1
  }

  /** One upsert with the writer's prefix, and a path inside it, keeps the list unique per (preset, period). */
  lemma UpsertKeepsUnique(s: seq<Entry>, d: Date, hour: int, name: string, time: string, path: string)
    requires IsValid(d) && d.year >= 1
    requires UniquePerPresetAndPeriod(s, d)
    requires StartsWith(path, PrefixPattern(d, HourLabel(hour)))
    ensures UniquePerPresetAndPeriod(Upserted(s, name, PrefixPattern(d, HourLabel(hour)), time, path), d)
  {
    var prefix := PrefixPattern(d, HourLabel(hour));
    var r := Upserted(s, name, prefix, time, path);
    forall name2: string, hour2: int
      ensures CountMatches(r, name2, PrefixPattern(d, HourLabel(hour2))) <= 1
    {
      var prefix2 := PrefixPattern(d, HourLabel(hour2));
      if name2 == name && HourLabel(hour2) == HourLabel(hour) {
        UpsertMatchCount(s, name, prefix, time, path);
      } else {
        if HourLabel(hour2) != HourLabel(hour) {
          PeriodPrefixesIncomparable(d, hour, hour2);
        }
        UpsertOtherCounts(s, name, prefix, time, path, name2, prefix2);
      }
    }
  }

  // ---------------------------------------------------------------------
  // The index object `index_data`, updated in place

  /** What reading `index.json` gave: nothing usable, or a parsed document. */
  datatype Stored = Unreadable | Parsed(doc: IndexDoc)

  class DailyIndex {
    var date: Option<string>
    var snapshots: Option<seq<Entry>>

    function Doc(): IndexDoc
      reads this
    {
      IndexDoc(date, snapshots)
    }

    /** The stored document, or `{"date": date_str, "snapshots": []}` when it could not be read. */
    constructor Load(stored: Stored, dateStr: string)
      ensures stored.Parsed? ==> Doc() == stored.doc
      ensures stored.Unreadable? ==> Doc() == IndexDoc(Some(dateStr), Some([]))
    {
      if stored.Parsed? {
        date, snapshots := stored.doc.date, stored.doc.snapshots;
      } else {
        date, snapshots := Some(dateStr), Some([]);
      }
    }

    /**
     * Step 4 of the run: update the first entry of `label` whose path
     * lies in `prefix`, or append a new one. Fails, changing nothing,
     * when the document has no `snapshots` list.
     */
    method Upsert(name: string, prefix: string, time: string, path: string) returns (ok: bool)
      modifies this
      ensures ok <==> old(snapshots).Some?
      ensures date == old(date)
      ensures snapshots == if ok then Some(Upserted(old(snapshots).value, name, prefix, time, path))
                           else old(snapshots)
    {
      if snapshots.None? {
        return false;
      }
      ok := true;
      var s := snapshots.value;
      var i := 0;
      while i < |s|
        invariant 0 <= i <= |s|
        invariant snapshots == Some(s)
        invariant forall j :: 0 <= j < i ==> !IsMatch(s[j], name, prefix)
      {
        if IsMatch(s[i], name, prefix) {
          snapshots := Some(s[i := s[i].(time := Some(time), path := Some(path))]);
          return;
        }
        i := i + 1;
      }
      snapshots := Some(s + [Entry(Some(time), Some(name), Some(path))]);
    }
  }

  // ---------------------------------------------------------------------
  // The run over all targets

  /**
   * What happened to one target, as seen by the run: the local file
   * `snapshot_with_retry` returned (or `None` if it raised), whether the
   * image upload succeeded, and whether the `latest/` copy succeeded.
   */
  datatype TargetRun = TargetRun(capture: Option<string>, uploadOk: bool, aliasOk: bool)

  /** A target is reported as failed when any of its steps raised. */
  predicate TargetFails(run: TargetRun, hasList: bool) {
    run.capture.None? || !run.uploadOk || !hasList || !run.aliasOk
  }

  /**
   * The blob path a target's image was uploaded under: none when the
   * capture or the upload raised. It lies in the prefix of the hour's period.
   */
  function UploadedPath(now: Instant, run: TargetRun): (path: Option<string>)
    requires IsUtcInstant(now)
    ensures path.Some? <==> run.capture.Some? && run.uploadOk
    ensures path.Some? ==> StartsWith(path.value, PrefixPattern(now.date, HourLabel(now.hour)))
  {
    if run.capture.Some? && run.uploadOk
    then Some(BlobPath(now.date, HourLabel(now.hour), Basename(run.capture.value)))
    else None
  }

  /** The uploaded paths of all targets, in processing order. */
  function UploadedPaths(now: Instant, runs: nat -> TargetRun, count: nat): (paths: seq<Option<string>>)
    requires IsUtcInstant(now)
    ensures |paths| == count
    ensures forall i :: 0 <= i < count ==> paths[i] == UploadedPath(now, runs(i))
  {
    seq(count, i requires 0 <= i < count => UploadedPath(now, runs(i)))
  }

  /**
   * The `snapshots` list after the first `n` targets: every target whose
   * image was uploaded is upserted under its label with the run's period
   * prefix and time, provided the list exists.
   */
  function Replay(snaps: Option<seq<Entry>>, prefix: string, time: string, targets: seq<Option<string>>,
                  paths: seq<Option<string>>, n: nat): (r: Option<seq<Entry>>)
    requires n <= |targets| && n <= |paths|
    ensures r.Some? <==> snaps.Some?
  {
    if n == 0 then snaps
    else
      var prev := Replay(snaps, prefix, time, targets, paths, n - 1);
      if prev.Some? && paths[n - 1].Some?
      then Some(Upserted(prev.value, Label(targets[n - 1]), prefix, time, paths[n - 1].value))
      else prev
  }

  /** The labels of the failed targets among the first `n`, in processing order. */
  function Failures(targets: seq<Option<string>>, runs: nat -> TargetRun, hasList: bool, n: nat): seq<string>
    requires n <= |targets|
  {
    if n == 0 then []
    else
      Failures(targets, runs, hasList, n - 1)
      + (if TargetFails(runs(n - 1), hasList) then [Label(targets[n - 1])] else [])
  }

  /**
   * The failure list is empty exactly when no target failed, and holds at
   * most one label per target. This is about `Failures` only: when the index
   * upload raises first, the run ends with that error and reports no
   * failed target (`HandleSnapshotSequence`).
   */
  lemma {:induction false} FailuresEmptyIff(targets: seq<Option<string>>, runs: nat -> TargetRun, hasList: bool, n: nat)
    requires n <= |targets|
    ensures |Failures(targets, runs, hasList, n)| <= n
    ensures Failures(targets, runs, hasList, n) == [] <==> forall i :: 0 <= i < n ==> !TargetFails(runs(i), hasList)
  {
    if n > 0 {
      FailuresEmptyIff(targets, runs, hasList, n - 1);
    }
  }

  /** Once one target's image was uploaded into an existing list, the list is non-empty, so the index is uploaded. */
  lemma {:induction false} ReplayNonEmpty(snaps: Option<seq<Entry>>, prefix: string, time: string,
                                          targets: seq<Option<string>>, paths: seq<Option<string>>, n: nat, i: nat)
    requires i < n <= |targets| && n <= |paths|
    requires snaps.Some? && paths[i].Some?
    ensures Replay(snaps, prefix, time, targets, paths, n).Some?
    ensures Replay(snaps, prefix, time, targets, paths, n).value != []
  {
    var prev := Replay(snaps, prefix, time, targets, paths, n - 1);
    if i < n - 1 {
      ReplayNonEmpty(snaps, prefix, time, targets, paths, n - 1, i);
    }
    if paths[n - 1].Some? {
      UpsertedLength(prev.value, Label(targets[n - 1]), prefix, time, paths[n - 1].value);
    }
  }

  /** A whole run keeps the day's list unique per (preset, period). */
  lemma {:induction false} ReplayKeepsUnique(snaps: Option<seq<Entry>>, d: Date, hour: int, time: string,
                                             targets: seq<Option<string>>, paths: seq<Option<string>>, n: nat)
    requires IsValid(d) && d.year >= 1 && n <= |targets| && n <= |paths|
    requires forall i :: 0 <= i < n && paths[i].Some? ==> StartsWith(paths[i].value, PrefixPattern(d, HourLabel(hour)))
    requires snaps.Some? && UniquePerPresetAndPeriod(snaps.value, d)
    ensures UniquePerPresetAndPeriod(Replay(snaps, PrefixPattern(d, HourLabel(hour)), time, targets, paths, n).value, d)
  {
    if n > 0 {
      var prefix := PrefixPattern(d, HourLabel(hour));
      ReplayKeepsUnique(snaps, d, hour, time, targets, paths, n - 1);
      var prev := Replay(snaps, prefix, time, targets, paths, n - 1);
      if paths[n - 1].Some? {
        UpsertKeepsUnique(prev.value, d, hour, Label(targets[n - 1]), time, paths[n - 1].value);
      }
    }
  }

  /**
   * Steps 1 to 5 for one target: capture, upload, upsert and alias copy.
   * `failed` is whether one of them raised, so the label joins `failures`.
   */
  method VisitTarget(index: DailyIndex, now: Instant, target: Option<string>, run: TargetRun) returns (failed: bool)
    requires IsUtcInstant(now)
    modifies index
    ensures index.date == old(index.date)
    ensures var path := UploadedPath(now, run);
            index.snapshots == if old(index.snapshots).Some? && path.Some?
                               then Some(Upserted(old(index.snapshots).value, Label(target),
                                                  PrefixPattern(now.date, HourLabel(now.hour)), TimeText(now), path.value))
                               else old(index.snapshots)
    ensures failed == TargetFails(run, old(index.snapshots).Some?)
  {
    if run.capture.None? || !run.uploadOk {
      return true;
    }
    var period := HourLabel(now.hour);
    var blobPath := BlobPath(now.date, period, Basename(run.capture.value));
    var ok := index.Upsert(Label(target), PrefixPattern(now.date, period), TimeText(now), blobPath);
    failed := !ok || !run.aliasOk;
  }

  /** The loop over the targets: the list is replayed through them, and the failed labels are collected. */
  method VisitTargets(index: DailyIndex, now: Instant, targets: seq<Option<string>>, runs: nat -> TargetRun)
    returns (failures: seq<string>)
    requires IsUtcInstant(now)
    modifies index
    ensures index.date == old(index.date)
    ensures index.snapshots == Replay(old(index.snapshots), PrefixPattern(now.date, HourLabel(now.hour)), TimeText(now),
                                      targets, UploadedPaths(now, runs, |targets|), |targets|)
    ensures failures == Failures(targets, runs, old(index.snapshots).Some?, |targets|)
  {
    ghost var initial := index.snapshots;
    ghost var paths := UploadedPaths(now, runs, |targets|);
    var prefix, time := PrefixPattern(now.date, HourLabel(now.hour)), TimeText(now);
    failures := [];
    for i := 0 to |targets|
      invariant index.date == old(index.date)
      invariant index.snapshots == Replay(initial, prefix, time, targets, paths, i)
      invariant failures == Failures(targets, runs, initial.Some?, i)
    {
      var failed := VisitTarget(index, now, targets[i], runs(i));
      if failed {
        failures := failures + [Label(targets[i])];
      }
    }
  }

  /** How `handle_snapshot_sequence` ends. */
  datatype Outcome =
    | Completed
    | Raised(failed: seq<string>)    // RuntimeError naming the failed presets
    | IndexUploadFailed              // the index upload itself raised

  /**
   * `handle_snapshot_sequence`: load the day's index, visit every
   * target, upsert the entries of the targets whose image was uploaded,
   * upload the index if its list is non-empty, then raise if any target
   * failed. Storage and camera results come in as `stored`, `runs` and
   * `indexUploadOk`.
   */
  method HandleSnapshotSequence(now: Instant, presetsRaw: string, stored: Stored,
                                runs: nat -> TargetRun, indexUploadOk: bool)
    returns (doc: IndexDoc, uploaded: bool, outcome: Outcome)
    requires IsUtcInstant(now)
    ensures var initial := if stored.Parsed? then stored.doc else IndexDoc(Some(DateStr(now.date)), Some([]));
            var targets := Targets(ParsePresets(presetsRaw));
            var failures := Failures(targets, runs, initial.snapshots.Some?, |targets|);
            && doc.date == initial.date
            && doc.snapshots == Replay(initial.snapshots, PrefixPattern(now.date, HourLabel(now.hour)), TimeText(now),
                                       targets, UploadedPaths(now, runs, |targets|), |targets|)
            && (uploaded <==> doc.snapshots.Some? && doc.snapshots.value != [])
            && outcome == (if uploaded && !indexUploadOk then IndexUploadFailed
                           else if failures != [] then Raised(failures)
                           else Completed)
  {
    var index := new DailyIndex.Load(stored, DateStr(now.date));
    var targets := Targets(ParsePresets(presetsRaw));
    var failures := VisitTargets(index, now, targets, runs);
    doc := index.Doc();
    uploaded := doc.snapshots.Some? && doc.snapshots.value != [];
    if uploaded && !indexUploadOk {
      outcome := IndexUploadFailed;
    } else if failures != [] {
      outcome := Raised(failures);
    } else {
      outcome := Completed;
    }
  }
}
