/**
 * The history page's side of the daily index: the address of a day's
 * `index.json`, the period recovered from each entry's path, the grouping
 * of the entries by period, the order of the groups and of the entries
 * inside a group, and the step to the previous or next day.
 */
module History {
  import opened Wrappers
  import opened Text
  import opened Calendar
  import opened IndexDocument

  // ---------------------------------------------------------------------
  // Addresses

  /** `pad(n)`: `String(n).padStart(2, '0')`. */
  function Pad(n: nat): (r: string)
    ensures AllDigits(r) && ValueOf(r) == n
    ensures n <= 99 ==> |r| == 2
    ensures n >= 10 ==> r == Decimal(n)
  {
    DecimalLength(n);
    ValueOfLeadingZero(Decimal(n));
    var r := PadStart(Decimal(n), 2, '0');
    assert n < 10 ==> r == "0" + Decimal(n);
    r
  }

  /** The day shown in the page heading, `yyyy-mm-dd`. */
  function DayLabel(d: Date): string
    requires IsValid(d)
  {
    IntText(d.year) + "-" + Pad(d.month) + "-" + Pad(d.day)
  }

  /** The address `loadDay` fetches: `STORAGE_BASE/yyyy/mm/dd/index.json`. */
  function IndexUrl(base: string, d: Date): string
    requires IsValid(d)
  {
    base + "/" + IntText(d.year) + "/" + Pad(d.month) + "/" + Pad(d.day) + "/index.json"
  }

  // ---------------------------------------------------------------------
  // The period of an entry: path.match(/\/(\w+)_\d{4}-\d{2}-\d{2}/)

  /** `_\d{4}-\d{2}-\d{2}` starts at `j`. */
  predicate DateTailAt(s: string, j: int) {
    0 <= j && j + 11 <= |s|
    && s[j] == '_'
    && IsDigit(s[j + 1]) && IsDigit(s[j + 2]) && IsDigit(s[j + 3]) && IsDigit(s[j + 4])
    && s[j + 5] == '-' && IsDigit(s[j + 6]) && IsDigit(s[j + 7])
    && s[j + 8] == '-' && IsDigit(s[j + 9]) && IsDigit(s[j + 10])
  }

  /** The pattern matches at `i` with a captured group of `k` word characters. */
  ghost predicate MatchesAt(s: string, i: int, k: int) {
    0 <= i && 1 <= k && i + 1 + k <= |s|
    && s[i] == '/'
    && (forall j :: i + 1 <= j < i + 1 + k ==> IsWordChar(s[j]))
    && DateTailAt(s, i + 1 + k)
  }

  /** The number of word characters from `j` on. */
  function WordRun(s: string, j: nat): nat
    requires j <= |s|
    decreases |s| - j
  {
    if j < |s| && IsWordChar(s[j]) then 1 + WordRun(s, j + 1) else 0
  }

  /** The run is the maximal stretch of word characters starting at `j`. */
  lemma {:induction false} WordRunSpec(s: string, j: nat)
    requires j <= |s|
    ensures j + WordRun(s, j) <= |s|
    ensures forall q :: j <= q < j + WordRun(s, j) ==> IsWordChar(s[q])
    ensures j + WordRun(s, j) == |s| || !IsWordChar(s[j + WordRun(s, j)])
    decreases |s| - j
  {
    if j < |s| && IsWordChar(s[j]) {
      WordRunSpec(s, j + 1);
    }
  }

  lemma {:induction false} WordRunExact(s: string, j: nat, m: nat)
    requires j + m <= |s|
    requires forall q :: j <= q < j + m ==> IsWordChar(s[q])
    requires j + m == |s| || !IsWordChar(s[j + m])
    ensures WordRun(s, j) == m
    decreases m
  {
    if m > 0 {
      WordRunExact(s, j + 1, m - 1);
    }
  }

  /**
   * The length of the group the pattern captures at `i`, 0 if it does not
   * match there. `\w+` cannot run past the `-` of the date, so of the
   * lengths the greedy group could back off to only one is possible.
   */
  function GroupLengthAt(s: string, i: nat): nat
    requires i < |s|
  {
    if s[i] != '/' then 0
    else
      var n := WordRun(s, i + 1);
      if n >= 6 && DateTailAt(s, i + n - 4) then n - 5 else 0
  }

  /** A non-zero group length is a match of the pattern with that group. */
  lemma GroupLengthSound(s: string, i: nat)
    requires i < |s|
    ensures GroupLengthAt(s, i) > 0 ==> MatchesAt(s, i, GroupLengthAt(s, i))
  {
    if s[i] == '/' {
      WordRunSpec(s, i + 1);
    }
  }

  /** A match at `i` has exactly the group length the scan computes. */
  lemma MatchLengthForced(s: string, i: nat, k: int)
    requires MatchesAt(s, i, k)
    ensures GroupLengthAt(s, i) == k
  {
    assert forall q :: i + 1 <= q < i + 6 + k ==> IsWordChar(s[q]) by {
      forall q | i + 1 <= q < i + 6 + k
        ensures IsWordChar(s[q])
      {
        if q >= i + 1 + k {
          assert q == i + 1 + k || IsDigit(s[q]);
        }
      }
    }
    WordRunExact(s, i + 1, k + 5);
  }

  /** The leftmost match from `i` on, as its captured group. */
  function MatchFrom(s: string, i: nat): Option<string>
    requires i <= |s|
    decreases |s| - i
  {
    if i == |s| then None
    else
      var k := GroupLengthAt(s, i);
      if k > 0 then Some(s[i + 1..i + 1 + k]) else MatchFrom(s, i + 1)
  }

  /** `match ? match[1] : 'unknown'` */
  function PeriodOf(path: string): string {
    match MatchFrom(path, 0)
    case Some(p) => p
    case None => "unknown"
  }

  lemma {:induction false} MatchFromLeftmost(s: string, j: nat, i: nat, k: int)
    requires j <= i && MatchesAt(s, i, k)
    requires forall q, k' :: j <= q < i ==> !MatchesAt(s, q, k')
    ensures MatchFrom(s, j) == Some(s[i + 1..i + 1 + k])
    decreases i - j
  {
    if j == i {
      MatchLengthForced(s, i, k);
    } else {
      GroupLengthSound(s, j);
      MatchFromLeftmost(s, j + 1, i, k);
    }
  }

  /** The period is the group of the leftmost match. */
  lemma PeriodOfLeftmostMatch(s: string, i: nat, k: int)
    requires MatchesAt(s, i, k)
    requires forall q, k' :: 0 <= q < i ==> !MatchesAt(s, q, k')
    ensures PeriodOf(s) == s[i + 1..i + 1 + k]
  {
    MatchFromLeftmost(s, 0, i, k);
  }

  lemma {:induction false} MatchFromNone(s: string, j: nat)
    requires j <= |s|
    requires forall q, k :: j <= q ==> !MatchesAt(s, q, k)
    ensures MatchFrom(s, j) == None
    decreases |s| - j
  {
    if j < |s| {
      GroupLengthSound(s, j);
      MatchFromNone(s, j + 1);
    }
  }

  /** A path the pattern does not match gets the period `unknown`. */
  lemma PeriodOfNoMatch(s: string)
    requires forall q, k :: !MatchesAt(s, q, k)
    ensures PeriodOf(s) == "unknown"
  {
    MatchFromNone(s, 0);
  }

  // ---------------------------------------------------------------------
  // Grouping by period

  /**
   * Names every plain object inherits from `Object.prototype`: for these
   * `groups[period]` is already truthy, no array is created, and `push`
   * throws.
   */
  const INHERITED_NAMES: set<string> := {
    "constructor", "hasOwnProperty", "isPrototypeOf", "propertyIsEnumerable",
    "toLocaleString", "toString", "valueOf",
    "__proto__", "__defineGetter__", "__defineSetter__", "__lookupGetter__", "__lookupSetter__"
  }

  predicate HasPaths(s: seq<Entry>) {
    forall i :: 0 <= i < |s| ==> s[i].path.Some?
  }

  function EntryPeriod(e: Entry): string
    requires e.path.Some?
  {
    PeriodOf(e.path.value)
  }

  /** The loop body runs through for `e`: it has a path and its period is not an inherited name. */
  predicate GroupableEntry(e: Entry) {
    e.path.Some? && EntryPeriod(e) !in INHERITED_NAMES
  }

  /** The grouping loop runs through for every entry. */
  predicate Groupable(s: seq<Entry>) {
    forall i :: 0 <= i < |s| ==> GroupableEntry(s[i])
  }

  /** The period of every entry, in input order. */
  function Periods(s: seq<Entry>): (ks: seq<string>)
    requires HasPaths(s)
    ensures |ks| == |s| && forall i :: 0 <= i < |s| ==> ks[i] == EntryPeriod(s[i])
  {
    seq(|s|, i requires 0 <= i < |s| && HasPaths(s) => EntryPeriod(s[i]))
  }

  /** The keys without repetitions, in the order they first occur. */
  function Distinct(ks: seq<string>): (r: seq<string>)
    ensures forall i, j :: 0 <= i < j < |r| ==> r[i] != r[j]
    ensures forall k :: k in r <==> k in ks
    ensures forall k :: multiset(r)[k] <= 1
  {
    if ks == [] then []
    else
      var prev, k := Distinct(ks[..|ks| - 1]), ks[|ks| - 1];
      assert ks == ks[..|ks| - 1] + [k];
      if k in prev then prev else prev + [k]
  }

  /** The entries whose key is `p`, in input order. */
  function Members(s: seq<Entry>, ks: seq<string>, p: string): seq<Entry>
    requires |ks| == |s|
  {
    if s == [] then []
    else
      var n := |s| - 1;
      Members(s[..n], ks[..n], p) + (if ks[n] == p then [s[n]] else [])
  }

  /** Every member is an entry whose key is `p`. */
  lemma {:induction false} MembersKeyed(s: seq<Entry>, ks: seq<string>, p: string)
    requires |ks| == |s|
    ensures forall e :: e in Members(s, ks, p) ==> exists i :: 0 <= i < |s| && s[i] == e && ks[i] == p
  {
    if s != [] {
      var n := |s| - 1;
      MembersKeyed(s[..n], ks[..n], p);
      forall e | e in Members(s[..n], ks[..n], p)
        ensures exists i :: 0 <= i < |s| && s[i] == e && ks[i] == p
      {
        var i :| 0 <= i < n && s[..n][i] == e && ks[..n][i] == p;
        assert s[i] == e && ks[i] == p;
      }
    }
  }

  /** The periods in the order they first occur (the key order of `groups`). */
  function FirstSeen(s: seq<Entry>): (periods: seq<string>)
    requires HasPaths(s)
    ensures forall i, j :: 0 <= i < j < |periods| ==> periods[i] != periods[j]
    ensures forall i :: 0 <= i < |s| ==> EntryPeriod(s[i]) in periods
    ensures forall p :: p in periods ==> exists i :: 0 <= i < |s| && EntryPeriod(s[i]) == p
  {
    var ks := Periods(s);
    assert forall i :: 0 <= i < |s| ==> ks[i] in ks;
    Distinct(ks)
  }

  /** The entries of one period, in input order (`groups[period]`). */
  function Group(s: seq<Entry>, p: string): (g: seq<Entry>)
    requires HasPaths(s)
    ensures forall e :: e in g ==> e.path.Some? && EntryPeriod(e) == p
  {
    MembersKeyed(s, Periods(s), p);
    Members(s, Periods(s), p)
  }

  /**
   * The position of the first occurrence of `k` in `ks`: `Text.IndexOf`
   * over strings instead of characters, kept separate for solver stability
   * (see there).
   */
  function FirstIndex(ks: seq<string>, k: string): (i: nat)
    requires k in ks
    ensures i < |ks| && ks[i] == k
    ensures forall j :: 0 <= j < i ==> ks[j] != k
  {
    if ks[0] == k then 0 else 1 + FirstIndex(ks[1..], k)
  }

  /** Where a key already occurs, a key appended after it does not move its first occurrence. */
  lemma FirstIndexSnoc(ks: seq<string>, k: string, x: string)
    requires x in ks
    ensures FirstIndex(ks + [k], x) == FirstIndex(ks, x)
  {
    var a, b := FirstIndex(ks + [k], x), FirstIndex(ks, x);
    assert (ks + [k])[b] == x;
    assert ks[a] == x;
  }

  /** `Distinct` lists the keys in the order of their first occurrences. */
  lemma {:induction false} DistinctFirstOccurrence(ks: seq<string>, i: nat, j: nat)
    requires i < j < |Distinct(ks)|
    ensures FirstIndex(ks, Distinct(ks)[i]) < FirstIndex(ks, Distinct(ks)[j])
  {
    var n := |ks| - 1;
    var prev, k := ks[..n], ks[n];
    assert ks == prev + [k];
    DistinctSnoc(prev, k);
    var dp := Distinct(prev);
    if j < |dp| {
      DistinctFirstOccurrence(prev, i, j);
    }
    OrderOnSnoc(prev, k, dp, Distinct(ks), i, j);
  }

  /** One step of `DistinctFirstOccurrence`: appending a key keeps the order of the first occurrences. */
  lemma OrderOnSnoc(prev: seq<string>, k: string, dp: seq<string>, d: seq<string>, i: nat, j: nat)
    requires forall x :: x in dp ==> x in prev
    requires d == (if k in prev then dp else dp + [k])
    requires i < j < |d|
    requires j < |dp| ==> FirstIndex(prev, dp[i]) < FirstIndex(prev, dp[j])
    ensures FirstIndex(prev + [k], d[i]) < FirstIndex(prev + [k], d[j])
  {
    assert d[i] == dp[i] && dp[i] in prev;
    FirstIndexSnoc(prev, k, dp[i]);
    if j < |dp| {
      assert d[j] == dp[j] && dp[j] in prev;
      FirstIndexSnoc(prev, k, dp[j]);
    } else {
      assert d[j] == k && k !in prev;
      assert FirstIndex(prev + [k], k) == |prev|;
    }
  }

  /**
   * The group keys come in the order in which their periods first occur
   * among the entries: a key listed earlier first occurs earlier.
   */
  lemma FirstSeenOrder(s: seq<Entry>, i: nat, j: nat)
    requires HasPaths(s)
    requires i < j < |FirstSeen(s)|
    ensures FirstIndex(Periods(s), FirstSeen(s)[i]) < FirstIndex(Periods(s), FirstSeen(s)[j])
  {
    DistinctFirstOccurrence(Periods(s), i, j);
  }

  /**
   * `g` is the subsequence of `s` at the strictly increasing positions
   * `idx`, and those are all the positions whose key is `p`.
   */
  ghost predicate Picks(s: seq<Entry>, ks: seq<string>, p: string, g: seq<Entry>, idx: seq<nat>)
    requires |ks| == |s|
  {
    && |idx| == |g|
    && (forall m :: 0 <= m < |idx| ==> idx[m] < |s| && g[m] == s[idx[m]] && ks[idx[m]] == p)
    && (forall m, m' :: 0 <= m < m' < |idx| ==> idx[m] < idx[m'])
    && (forall i :: 0 <= i < |s| && ks[i] == p ==> i in idx)
  }

  lemma {:induction false} MembersIndices(s: seq<Entry>, ks: seq<string>, p: string) returns (idx: seq<nat>)
    requires |ks| == |s|
    ensures Picks(s, ks, p, Members(s, ks, p), idx)
  {
    if s == [] {
      idx := [];
    } else {
      var n := |s| - 1;
      var prev := MembersIndices(s[..n], ks[..n], p);
      idx := PicksSnoc(s, ks, p, Members(s[..n], ks[..n], p), prev);
    }
  }

  /** Extending the picks of all but the last entry to all entries. */
  lemma PicksSnoc(s: seq<Entry>, ks: seq<string>, p: string, g: seq<Entry>, prev: seq<nat>) returns (idx: seq<nat>)
    requires |ks| == |s| > 0
    requires Picks(s[..|s| - 1], ks[..|s| - 1], p, g, prev)
    ensures Picks(s, ks, p, g + (if ks[|s| - 1] == p then [s[|s| - 1]] else []), idx)
  {
    var n := |s| - 1;
    PicksWiden(s, ks, p, g, prev);
    if ks[n] == p {
      idx := prev + [n];
      var g' := g + [s[n]];
      assert forall m :: 0 <= m < |prev| ==> idx[m] == prev[m] && g'[m] == g[m];
      assert forall i :: 0 <= i < n && i in prev ==> i in idx;
    } else {
      idx := prev;
      assert g + [] == g;
    }
  }

  /** The picks of all but the last entry, read against all entries. */
  lemma PicksWiden(s: seq<Entry>, ks: seq<string>, p: string, g: seq<Entry>, prev: seq<nat>)
    requires |ks| == |s| > 0
    requires Picks(s[..|s| - 1], ks[..|s| - 1], p, g, prev)
    ensures forall m :: 0 <= m < |prev| ==> prev[m] < |s| - 1 && g[m] == s[prev[m]] && ks[prev[m]] == p
    ensures forall i :: 0 <= i < |s| - 1 && ks[i] == p ==> i in prev
  {
    var n := |s| - 1;
    forall m | 0 <= m < |prev|
      ensures prev[m] < n && g[m] == s[prev[m]] && ks[prev[m]] == p
    {
      assert s[..n][prev[m]] == s[prev[m]] && ks[..n][prev[m]] == ks[prev[m]];
    }
    forall i | 0 <= i < n && ks[i] == p
      ensures i in prev
    {
      assert ks[..n][i] == p;
    }
  }

  /**
   * `groups[period]` is the in-order subsequence of the entries whose
   * period is `period`: the entries at strictly increasing positions,
   * and every entry of that period among them.
   */
  lemma GroupInOrder(s: seq<Entry>, p: string)
    requires HasPaths(s)
    ensures exists idx :: Picks(s, Periods(s), p, Group(s, p), idx)
  {
    var idx := MembersIndices(s, Periods(s), p);
    assert Picks(s, Periods(s), p, Group(s, p), idx);
  }

  lemma {:induction false} MembersOfAbsent(s: seq<Entry>, ks: seq<string>, p: string)
    requires |ks| == |s| && p !in ks
    ensures Members(s, ks, p) == []
  {
    if s != [] {
      var n := |s| - 1;
      assert p !in ks[..n];
      MembersOfAbsent(s[..n], ks[..n], p);
    }
  }

  /** The entries of the groups named by `keys`, counted with multiplicity. */
  ghost function Gathered(keys: seq<string>, s: seq<Entry>, ks: seq<string>): multiset<Entry>
    requires |ks| == |s|
  {
    if keys == [] then multiset{} else multiset(Members(s, ks, keys[0])) + Gathered(keys[1..], s, ks)
  }

  lemma MembersSnoc(s: seq<Entry>, ks: seq<string>, e: Entry, k: string, p: string)
    requires |ks| == |s|
    ensures Members(s + [e], ks + [k], p) == Members(s, ks, p) + (if k == p then [e] else [])
  {
    assert (s + [e])[..|s|] == s;
    assert (ks + [k])[..|ks|] == ks;
  }

  lemma DistinctSnoc(ks: seq<string>, k: string)
    ensures Distinct(ks + [k]) == if k in ks then Distinct(ks) else Distinct(ks) + [k]
  {
    assert (ks + [k])[..|ks|] == ks;
  }

  lemma {:induction false} GatheredAppendEntry(keys: seq<string>, s: seq<Entry>, ks: seq<string>, e: Entry, k: string)
    requires |ks| == |s|
    requires multiset(keys)[k] <= 1
    ensures Gathered(keys, s + [e], ks + [k])
            == Gathered(keys, s, ks) + (if k in keys then multiset{e} else multiset{})
  {
    if keys != [] {
      var p, rest := keys[0], keys[1..];
      CountCons(keys, k);
      MembersSnoc(s, ks, e, k, p);
      GatheredAppendEntry(rest, s, ks, e, k);
      var here := Members(s, ks, p);
      if k == p {
        assert Gathered(rest, s + [e], ks + [k]) == Gathered(rest, s, ks);
        assert multiset(here + [e]) == multiset(here) + multiset{e};
      } else {
        assert Members(s + [e], ks + [k], p) == here;
      }
    }
  }

  /** A key counted at most once in `keys` is counted at most once in its tail, and not there if it is the head. */
  lemma CountCons(keys: seq<string>, k: string)
    requires keys != [] && multiset(keys)[k] <= 1
    ensures multiset(keys[1..])[k] <= 1
    ensures k == keys[0] ==> k !in keys[1..]
    ensures k in keys <==> k == keys[0] || k in keys[1..]
  {
    assert keys == [keys[0]] + keys[1..];
    assert multiset(keys) == multiset{keys[0]} + multiset(keys[1..]);
  }

  lemma {:induction false} GatheredAppendKey(keys: seq<string>, p: string, s: seq<Entry>, ks: seq<string>)
    requires |ks| == |s|
    ensures Gathered(keys + [p], s, ks) == Gathered(keys, s, ks) + multiset(Members(s, ks, p))
  {
    if keys == [] {
      assert [p][1..] == [];
    } else {
      assert (keys + [p])[1..] == keys[1..] + [p];
      GatheredAppendKey(keys[1..], p, s, ks);
    }
  }

  /** Grouping by any keys is a partition: each entry lies in exactly one group. */
  lemma {:induction false} MembersPartition(s: seq<Entry>, ks: seq<string>)
    requires |ks| == |s|
    ensures Gathered(Distinct(ks), s, ks) == multiset(s)
  {
    if s != [] {
      var n := |s| - 1;
      var init, e, inks, k := s[..n], s[n], ks[..n], ks[n];
      assert s == init + [e] && ks == inks + [k];
      MembersPartition(init, inks);
      var prev := Distinct(inks);
      DistinctSnoc(inks, k);
      GatheredAppendEntry(prev, init, inks, e, k);
      if k !in prev {
        GatheredAppendKey(prev, k, s, ks);
        MembersOfAbsent(init, inks, k);
        MembersSnoc(init, inks, e, k, k);
      }
    }
  }

  /** Grouping is a partition: every entry lies in exactly one group, the groups hold nothing else. */
  lemma GroupingIsPartition(s: seq<Entry>)
    requires HasPaths(s)
    ensures Gathered(FirstSeen(s), s, Periods(s)) == multiset(s)
  {
    MembersPartition(s, Periods(s));
  }

  /** The map the grouping loop builds from entries `s` with keys `ks`: each key to its members. */
  function GroupsOf(s: seq<Entry>, ks: seq<string>): (groups: map<string, seq<Entry>>)
    requires |ks| == |s|
    ensures forall q :: q in groups <==> q in ks
  {
    map q | q in ks :: Members(s, ks, q)
  }

  /** Adding one entry appends it to its key's group, creating the group if the key is new. */
  lemma GroupsOfSnoc(s: seq<Entry>, ks: seq<string>, e: Entry, k: string)
    requires |ks| == |s|
    ensures GroupsOf(s + [e], ks + [k])
            == GroupsOf(s, ks)[k := (if k in ks then GroupsOf(s, ks)[k] else []) + [e]]
  {
    var before, after := GroupsOf(s, ks), GroupsOf(s + [e], ks + [k]);
    var updated := before[k := (if k in ks then before[k] else []) + [e]];
    if k !in ks {
      MembersOfAbsent(s, ks, k);
    }
    forall q | q in after
      ensures after[q] == updated[q]
    {
      MembersSnoc(s, ks, e, k, q);
    }
    assert after.Keys == updated.Keys;
  }

  /** One iteration of the grouping loop keeps its invariant, for any keys. */
  lemma GroupingStep(prefix: seq<Entry>, ks: seq<string>, e: Entry, k: string,
                     periods: seq<string>, groups: map<string, seq<Entry>>,
                     periods': seq<string>, groups': map<string, seq<Entry>>)
    requires |ks| == |prefix|
    requires periods == Distinct(ks) && groups == GroupsOf(prefix, ks)
    requires periods' == (if k in groups then periods else periods + [k])
    requires groups' == groups[k := (if k in groups then groups[k] else []) + [e]]
    ensures periods' == Distinct(ks + [k]) && groups' == GroupsOf(prefix + [e], ks + [k])
  {
    DistinctSnoc(ks, k);
    GroupsOfSnoc(prefix, ks, e, k);
  }

  /** The first `i` entries are groupable and `ks` holds their periods. */
  ghost predicate KeyedUpTo(s: seq<Entry>, i: nat, ks: seq<string>) {
    i <= |s| && |ks| == i && forall j :: 0 <= j < i ==> GroupableEntry(s[j]) && ks[j] == EntryPeriod(s[j])
  }

  lemma KeyedStep(s: seq<Entry>, i: nat, ks: seq<string>)
    requires KeyedUpTo(s, i, ks) && i < |s| && GroupableEntry(s[i])
    ensures KeyedUpTo(s, i + 1, ks + [EntryPeriod(s[i])])
  {
    var ks' := ks + [EntryPeriod(s[i])];
    forall j | 0 <= j < i + 1
      ensures GroupableEntry(s[j]) && ks'[j] == EntryPeriod(s[j])
    {
      if j < i {
        assert ks'[j] == ks[j];
      }
    }
  }

  /** The grouping loop's invariant after the first `i` entries, with `ks` their periods. */
  ghost predicate GroupedUpTo(s: seq<Entry>, i: nat, ks: seq<string>, periods: seq<string>,
                              groups: map<string, seq<Entry>>)
  {
    i <= |s| && KeyedUpTo(s, i, ks)
    && periods == Distinct(ks)
    && groups == GroupsOf(s[..i], ks)
  }

  /** One iteration of the grouping loop: entry `i` goes to the end of its period's group. */
  lemma GroupedStep(s: seq<Entry>, i: nat, ks: seq<string>, periods: seq<string>, groups: map<string, seq<Entry>>,
                    periods': seq<string>, groups': map<string, seq<Entry>>)
    requires GroupedUpTo(s, i, ks, periods, groups) && i < |s| && GroupableEntry(s[i])
    requires var p := EntryPeriod(s[i]);
             periods' == (if p in groups then periods else periods + [p])
             && groups' == groups[p := (if p in groups then groups[p] else []) + [s[i]]]
    ensures GroupedUpTo(s, i + 1, ks + [EntryPeriod(s[i])], periods', groups')
  {
    var p := EntryPeriod(s[i]);
    assert |ks| == i && periods == Distinct(ks) && groups == GroupsOf(s[..i], ks);
    GroupingStep(s[..i], ks, s[i], p, periods, groups, periods', groups');
    TakeSnoc(s, i);
    KeyedStep(s, i, ks);
  }

  lemma TakeSnoc<T>(s: seq<T>, i: nat)
    requires i < |s|
    ensures s[..i + 1] == s[..i] + [s[i]]
  {
  }

  /** After the last entry the loop's groups are the page's groups. */
  lemma GroupedAll(s: seq<Entry>, ks: seq<string>, periods: seq<string>, groups: map<string, seq<Entry>>)
    requires GroupedUpTo(s, |s|, ks, periods, groups)
    ensures Groupable(s) && HasPaths(s)
    ensures periods == FirstSeen(s)
    ensures forall p :: p in groups <==> p in periods
    ensures forall p :: p in groups ==> groups[p] == Group(s, p)
  {
    assert s[..|s|] == s;
    assert ks == Periods(s);
  }

  /** The loop of `renderSnapshots` that fills `groups`; `ok` is false when it throws. */
  method GroupByPeriod(s: seq<Entry>) returns (ok: bool, periods: seq<string>, groups: map<string, seq<Entry>>)
    ensures ok <==> Groupable(s)
    ensures ok ==> periods == FirstSeen(s)
    ensures ok ==> forall p :: p in groups <==> p in periods
    ensures ok ==> forall p :: p in groups ==> groups[p] == Group(s, p)
  {
    periods, groups := [], map[];
    ghost var ks: seq<string> := [];
    for i := 0 to |s|
      invariant GroupedUpTo(s, i, ks, periods, groups)
    {
      var e := s[i];
      if !GroupableEntry(e) {
        return false, [], map[];
      }
      var p := EntryPeriod(e);
      ghost var periods0, groups0 := periods, groups;
      if p !in groups {
        groups := groups[p := []];
        periods := periods + [p];
      }
      groups := groups[p := groups[p] + [e]];
      GroupedStep(s, i, ks, periods0, groups0, periods, groups);
      ks := ks + [p];
    }
    GroupedAll(s, ks, periods, groups);
    ok := true;
  }

  // ---------------------------------------------------------------------
  // Order of the groups

  const PERIOD_ORDER: seq<string> := ["early", "midday", "late", "night"]

  /** `periodOrder.indexOf(period)`: −1 for a period not in the list. */
  function Rank(p: string): (r: int)
    ensures -1 <= r < |PERIOD_ORDER|
    ensures r >= 0 ==> PERIOD_ORDER[r] == p
    ensures r == -1 ==> p !in PERIOD_ORDER
  {
    if p == "early" then 0 else if p == "midday" then 1 else if p == "late" then 2 else if p == "night" then 3 else -1
  }

  /** The keys of one rank, in their order. */
  function OfRank(keys: seq<string>, r: int): (sub: seq<string>)
    ensures forall k :: k in sub ==> k in keys && Rank(k) == r
  {
    if keys == [] then []
    else (if Rank(keys[0]) == r then [keys[0]] else []) + OfRank(keys[1..], r)
  }

  /**
   * The keys after the stable sort by rank (`Array.prototype.sort` is
   * stable): unknown periods first, then early, midday, late, night.
   */
  function OrderGroups(keys: seq<string>): seq<string> {
    OfRank(keys, -1) + OfRank(keys, 0) + OfRank(keys, 1) + OfRank(keys, 2) + OfRank(keys, 3)
  }

  predicate RankSorted(keys: seq<string>) {
    forall i, j :: 0 <= i < j < |keys| ==> Rank(keys[i]) <= Rank(keys[j])
  }

  lemma RankSortedConcat(a: seq<string>, b: seq<string>)
    requires RankSorted(a) && RankSorted(b)
    requires forall x, y :: x in a && y in b ==> Rank(x) <= Rank(y)
    ensures RankSorted(a + b)
  {
    forall i, j | 0 <= i < j < |a + b|
      ensures Rank((a + b)[i]) <= Rank((a + b)[j])
    {
      if i < |a| && j >= |a| {
        assert (a + b)[i] in a && (a + b)[j] in b;
      }
    }
  }

  lemma {:induction false} OfRankPermutation(keys: seq<string>)
    ensures multiset(keys)
            == multiset(OfRank(keys, -1)) + multiset(OfRank(keys, 0)) + multiset(OfRank(keys, 1))
               + multiset(OfRank(keys, 2)) + multiset(OfRank(keys, 3))
  {
    if keys != [] {
      var k, rest := keys[0], keys[1..];
      assert keys == [k] + rest;
      OfRankPermutation(rest);
      var r := Rank(k);
      forall q | q in {-1, 0, 1, 2, 3}
        ensures multiset(OfRank(keys, q)) == (if r == q then multiset{k} else multiset{}) + multiset(OfRank(rest, q))
      {
      }
    }
  }

  lemma {:induction false} OfRankConcat(a: seq<string>, b: seq<string>, r: int)
    ensures OfRank(a + b, r) == OfRank(a, r) + OfRank(b, r)
  {
    if a != [] {
      assert (a + b)[1..] == a[1..] + b;
      OfRankConcat(a[1..], b, r);
    } else {
      assert a + b == b;
    }
  }

  lemma {:induction false} OfRankTwice(keys: seq<string>, r: int, r2: int)
    ensures OfRank(OfRank(keys, r2), r) == if r == r2 then OfRank(keys, r) else []
  {
    if keys != [] {
      OfRankTwice(keys[1..], r, r2);
      OfRankConcat(if Rank(keys[0]) == r2 then [keys[0]] else [], OfRank(keys[1..], r2), r);
    }
  }

  lemma {:induction false} OfRankSorted(keys: seq<string>, r: int)
    ensures RankSorted(OfRank(keys, r))
  {
    var sub := OfRank(keys, r);
    forall i, j | 0 <= i < j < |sub|
      ensures Rank(sub[i]) <= Rank(sub[j])
    {
      assert sub[i] in sub && sub[j] in sub;
    }
  }

  /** The ordered groups are the same groups: nothing is lost or repeated. */
  lemma OrderGroupsPermutation(keys: seq<string>)
    ensures multiset(OrderGroups(keys)) == multiset(keys)
  {
    OfRankPermutation(keys);
  }

  /** The ordered groups are sorted by rank: unknown periods (rank −1) before all known ones. */
  lemma OrderGroupsSorted(keys: seq<string>)
    ensures RankSorted(OrderGroups(keys))
  {
    var b0, b1, b2, b3, b4 := OfRank(keys, -1), OfRank(keys, 0), OfRank(keys, 1), OfRank(keys, 2), OfRank(keys, 3);
    OfRankSorted(keys, -1);
    OfRankSorted(keys, 0);
    OfRankSorted(keys, 1);
    OfRankSorted(keys, 2);
    OfRankSorted(keys, 3);
    RankSortedConcat(b0, b1);
    RankSortedConcat(b0 + b1, b2);
    RankSortedConcat(b0 + b1 + b2, b3);
    RankSortedConcat(b0 + b1 + b2 + b3, b4);
  }

  /** Periods of equal rank keep their first-occurrence order (the sort is stable). */
  lemma OrderGroupsStable(keys: seq<string>, r: int)
    ensures OfRank(OrderGroups(keys), r) == OfRank(keys, r)
  {
    var b0, b1, b2, b3, b4 := OfRank(keys, -1), OfRank(keys, 0), OfRank(keys, 1), OfRank(keys, 2), OfRank(keys, 3);
    OfRankConcat(b0, b1, r);
    OfRankConcat(b0 + b1, b2, r);
    OfRankConcat(b0 + b1 + b2, b3, r);
    OfRankConcat(b0 + b1 + b2 + b3, b4, r);
    assert OfRank(OrderGroups(keys), r)
        == OfRank(b0, r) + OfRank(b1, r) + OfRank(b2, r) + OfRank(b3, r) + OfRank(b4, r);
    OfRankTwice(keys, r, -1);
    OfRankTwice(keys, r, 0);
    OfRankTwice(keys, r, 1);
    OfRankTwice(keys, r, 2);
    OfRankTwice(keys, r, 3);
    if r < -1 || r > 3 {
      OfRankOutside(keys, r);
    }
  }

  lemma {:induction false} OfRankOutside(keys: seq<string>, r: int)
    requires r < -1 || r > 3
    ensures OfRank(keys, r) == []
  {
    if keys != [] {
      OfRankOutside(keys[1..], r);
    }
  }

  // ---------------------------------------------------------------------
  // Order inside a group: entries.sort((a, b) => a.preset.localeCompare(b.preset))

  /** The sort key; a missing preset compares as the text `undefined`. */
  function PresetKey(e: Entry): string {
    e.preset.GetOr("undefined")
  }

  /** Code-point lexicographic order on strings. */
  predicate StrLeq(a: string, b: string)
    decreases |a|
  {
    a == [] || (b != [] && (a[0] < b[0] || (a[0] == b[0] && StrLeq(a[1..], b[1..]))))
  }

  lemma {:induction false} StrLeqTotal(a: string, b: string)
    ensures StrLeq(a, b) || StrLeq(b, a)
    decreases |a|
  {
    if a != [] && b != [] && a[0] == b[0] {
      StrLeqTotal(a[1..], b[1..]);
    }
  }

  lemma {:induction false} StrLeqTrans(a: string, b: string, c: string)
    requires StrLeq(a, b) && StrLeq(b, c)
    ensures StrLeq(a, c)
    decreases |a|
  {
    if a != [] && b != [] && c != [] && a[0] == b[0] && b[0] == c[0] {
      StrLeqTrans(a[1..], b[1..], c[1..]);
    }
  }

  /** The comparator's verdict: `x` may stay before `y`. */
  predicate InOrder(x: Entry, y: Entry) {
    StrLeq(PresetKey(x), PresetKey(y))
  }

  predicate PresetSorted(s: seq<Entry>) {
    forall i :: 0 < i < |s| ==> InOrder(s[i - 1], s[i])
  }

  /** Sorted neighbours give a sorted list: every earlier preset is at most every later one. */
  lemma {:induction false} PresetSortedPairwise(s: seq<Entry>, i: nat, j: nat)
    requires PresetSorted(s) && i < j < |s|
    ensures StrLeq(PresetKey(s[i]), PresetKey(s[j]))
    decreases j - i
  {
    if i + 1 < j {
      PresetSortedPairwise(s, i + 1, j);
      StrLeqTrans(PresetKey(s[i]), PresetKey(s[i + 1]), PresetKey(s[j]));
    }
  }

  /**
   * `x` placed into `s` as a stable sort places it: behind every entry it
   * may stay after, in front of the trailing entries that must come after it.
   */
  function Insert(s: seq<Entry>, x: Entry): (r: seq<Entry>)
    ensures |r| == |s| + 1
    ensures multiset(r) == multiset(s) + multiset{x}
    ensures r[|r| - 1] == x || (s != [] && r[|r| - 1] == s[|s| - 1])
  {
    if s == [] || InOrder(s[|s| - 1], x) then s + [x]
    else
      var n := |s| - 1;
      assert s == s[..n] + [s[n]];
      Insert(s[..n], x) + [s[n]]
  }

  /**
   * The stable sort by preset, written as insertion sort: what
   * `entries.sort(...)` leaves, since `Array.prototype.sort` is stable.
   */
  function InsertionSorted(s: seq<Entry>): (r: seq<Entry>)
    ensures multiset(r) == multiset(s)
  {
    if s == [] then []
    else
      var n := |s| - 1;
      assert s == s[..n] + [s[n]];
      Insert(InsertionSorted(s[..n]), s[n])
  }

  lemma InsertionSortedSnoc(s: seq<Entry>, i: nat)
    requires i < |s|
    ensures InsertionSorted(s[..i + 1]) == Insert(InsertionSorted(s[..i]), s[i])
  {
    assert s[..i + 1][..i] == s[..i];
  }

  /** Inserting into a sorted list keeps it sorted. */
  lemma {:induction false} InsertSorted(s: seq<Entry>, x: Entry)
    requires PresetSorted(s)
    ensures PresetSorted(Insert(s, x))
  {
    if s != [] && !InOrder(s[|s| - 1], x) {
      var n := |s| - 1;
      var t := Insert(s[..n], x);
      InsertSorted(s[..n], x);
      StrLeqTotal(PresetKey(x), PresetKey(s[n]));
      assert InOrder(t[|t| - 1], s[n]) by {
        if t[|t| - 1] != x {
          assert t[|t| - 1] == s[n - 1];
        }
      }
    }
  }

  /** The stable sort orders the entries by preset. */
  lemma {:induction false} InsertionSortedSorted(s: seq<Entry>)
    ensures PresetSorted(InsertionSorted(s))
  {
    if s != [] {
      var n := |s| - 1;
      InsertionSortedSorted(s[..n]);
      InsertSorted(InsertionSorted(s[..n]), s[n]);
    }
  }

  /** The entries of `s` whose preset key is `k`, in order. */
  function WithKey(s: seq<Entry>, k: string): seq<Entry> {
    if s == [] then []
    else
      var n := |s| - 1;
      WithKey(s[..n], k) + (if PresetKey(s[n]) == k then [s[n]] else [])
  }

  lemma WithKeySnoc(s: seq<Entry>, e: Entry, k: string)
    ensures WithKey(s + [e], k) == WithKey(s, k) + (if PresetKey(e) == k then [e] else [])
  {
    assert (s + [e])[..|s|] == s;
  }

  /** The entries `x` passes have a different key, so `x` lands behind every entry of its own key. */
  lemma {:induction false} InsertWithKey(s: seq<Entry>, x: Entry, k: string)
    ensures WithKey(Insert(s, x), k) == WithKey(s, k) + (if PresetKey(x) == k then [x] else [])
  {
    if s == [] || InOrder(s[|s| - 1], x) {
      WithKeySnoc(s, x, k);
    } else {
      var n := |s| - 1;
      var t, e := s[..n], s[n];
      assert s == t + [e];
      assert Insert(s, x) == Insert(t, x) + [e];
      StrLeqTotal(PresetKey(x), PresetKey(x));
      InsertWithKey(t, x, k);
      WithKeyPass(Insert(t, x), t, e, x, k);
    }
  }

  lemma WithKeyPass(u: seq<Entry>, t: seq<Entry>, e: Entry, x: Entry, k: string)
    requires PresetKey(e) != PresetKey(x)
    requires WithKey(u, k) == WithKey(t, k) + (if PresetKey(x) == k then [x] else [])
    ensures WithKey(u + [e], k) == WithKey(t + [e], k) + (if PresetKey(x) == k then [x] else [])
  {
    WithKeySnoc(u, e, k);
    WithKeySnoc(t, e, k);
  }

  /**
   * The sort is stable: the entries with any one preset come out in the
   * order they came in.
   */
  lemma {:induction false} InsertionSortedStable(s: seq<Entry>, k: string)
    ensures WithKey(InsertionSorted(s), k) == WithKey(s, k)
  {
    if s != [] {
      var n := |s| - 1;
      assert s == s[..n] + [s[n]];
      InsertionSortedStable(s[..n], k);
      InsertWithKey(InsertionSorted(s[..n]), s[n], k);
      WithKeySnoc(s[..n], s[n], k);
    }
  }

  /** Exchanges two neighbouring cells; nothing else moves. */
  method SwapAdjacent(a: array<Entry>, j: int)
    requires 0 < j < a.Length
    modifies a
    ensures a[..] == old(a[..])[j - 1 := old(a[j])][j := old(a[j - 1])]
  {
    a[j - 1], a[j] := a[j], a[j - 1];
  }

  /**
   * The state of the pass inserting `x` into the sorted prefix `t`: the
   * first `i + 1` cells hold `t` with `x` at `j`, and the entries of `t`
   * from `j` on are those `x` has to pass.
   */
  ghost predicate Passing(b: seq<Entry>, t: seq<Entry>, x: Entry, i: int, j: int) {
    0 <= j <= i < |b| && |t| == i
    && b[..i + 1] == t[..j] + [x] + t[j..]
    && Insert(t, x) == Insert(t[..j], x) + t[j..]
  }

  /** The cells after `i` still hold what `o` held there. */
  ghost predicate Unmoved(b: seq<Entry>, o: seq<Entry>, i: int) {
    |b| == |o| && forall k :: 0 <= k < |b| && i < k ==> b[k] == o[k]
  }

  lemma UnmovedTrans(b: seq<Entry>, m: seq<Entry>, o: seq<Entry>, i: int)
    requires Unmoved(b, m, i) && Unmoved(m, o, i - 1)
    ensures Unmoved(b, o, i)
  {
  }

  lemma PassingAt(b: seq<Entry>, t: seq<Entry>, x: Entry, i: int, j: int)
    requires Passing(b, t, x, i, j)
    ensures b[j] == x && (j > 0 ==> b[j - 1] == t[j - 1])
  {
    assert b[j] == b[..i + 1][j];
    if j > 0 {
      assert b[j - 1] == b[..i + 1][j - 1];
    }
  }

  /** Swapping `x` past an entry that must come after it moves the pass one place left. */
  lemma PassingStep(b: seq<Entry>, t: seq<Entry>, x: Entry, i: int, j: int, o: seq<Entry>)
    requires Passing(b, t, x, i, j) && j > 0 && !InOrder(t[j - 1], x)
    requires Unmoved(b, o, i)
    ensures Passing(b[j - 1 := b[j]][j := b[j - 1]], t, x, i, j - 1)
    ensures Unmoved(b[j - 1 := b[j]][j := b[j - 1]], o, i)
  {
    PassingAt(b, t, x, i, j);
    var c := b[j - 1 := b[j]][j := b[j - 1]];
    TakeSwap(b, i + 1, j);
    assert t[..j] == t[..j - 1] + [t[j - 1]];
    SpliceSwap(t[..j - 1], t[j - 1], x, t[j..]);
    assert [t[j - 1]] + t[j..] == t[j - 1..];
    InsertPass(t, x, j);
  }

  lemma TakeSwap(b: seq<Entry>, n: int, j: int)
    requires 0 < j < n <= |b|
    ensures b[j - 1 := b[j]][j := b[j - 1]][..n] == b[..n][j - 1 := b[j]][j := b[j - 1]]
  {
  }

  lemma SpliceSwap(p: seq<Entry>, y: Entry, x: Entry, q: seq<Entry>)
    ensures (p + [y] + [x] + q)[|p| := x][|p| + 1 := y] == p + [x] + ([y] + q)
  {
  }

  /** `x` passes the last entry of the prefix when that entry must come after it. */
  lemma InsertPass(t: seq<Entry>, x: Entry, j: int)
    requires 0 < j <= |t| && !InOrder(t[j - 1], x)
    requires Insert(t, x) == Insert(t[..j], x) + t[j..]
    ensures Insert(t, x) == Insert(t[..j - 1], x) + t[j - 1..]
  {
    var u := t[..j];
    assert u[..j - 1] == t[..j - 1] && u[j - 1] == t[j - 1];
    InsertUnfold(u, x);
    Regroup(Insert(t[..j - 1], x), t[j - 1], t[j..], t[j - 1..]);
  }

  lemma InsertUnfold(u: seq<Entry>, x: Entry)
    requires u != [] && !InOrder(u[|u| - 1], x)
    ensures Insert(u, x) == Insert(u[..|u| - 1], x) + [u[|u| - 1]]
  {
  }

  lemma Regroup(p: seq<Entry>, e: Entry, q: seq<Entry>, r: seq<Entry>)
    requires r == [e] + q
    ensures p + [e] + q == p + r
  {
  }

  /** A pass that stops behind an entry `x` may follow has inserted `x`. */
  lemma PassingDone(b: seq<Entry>, t: seq<Entry>, x: Entry, i: int, j: int)
    requires Passing(b, t, x, i, j) && (j == 0 || InOrder(t[j - 1], x))
    ensures b[..i + 1] == Insert(t, x)
  {
    assert t[..j] + [x] == Insert(t[..j], x);
  }

  /** One pass of insertion: moves `a[i]` left past the entries that must come after it. */
  method InsertAt(a: array<Entry>, i: int)
    requires 0 <= i < a.Length
    modifies a
    ensures a[..i + 1] == Insert(old(a[..i]), old(a[i]))
    ensures Unmoved(a[..], old(a[..]), i)
  {
    ghost var o, t, x := a[..], a[..i], a[i];
    assert t[..i] == t && t[i..] == [];
    var j := i;
    while j > 0 && !InOrder(a[j - 1], a[j])
      invariant Passing(a[..], t, x, i, j) && Unmoved(a[..], o, i)
    {
      PassingAt(a[..], t, x, i, j);
      PassingStep(a[..], t, x, i, j, o);
      SwapAdjacent(a, j);
      j := j - 1;
    }
    PassingAt(a[..], t, x, i, j);
    PassingDone(a[..], t, x, i, j);
  }

  /**
   * The in-place sort of one group's entries by preset (insertion by
   * adjacent swaps): the array ends as the stable sort of what it held.
   */
  method SortByPreset(a: array<Entry>)
    modifies a
    ensures a[..] == InsertionSorted(old(a[..]))
    ensures PresetSorted(a[..])
    ensures multiset(a[..]) == multiset(old(a[..]))
  {
    ghost var s := a[..];
    var i := 0;
    while i < a.Length
      invariant 0 <= i <= a.Length
      invariant a[..i] == InsertionSorted(s[..i])
      invariant Unmoved(a[..], s, i - 1)
    {
      ghost var m := a[..];
      assert m[i] == s[i];
      InsertAt(a, i);
      UnmovedTrans(a[..], m, s, i);
      InsertionSortedSnoc(s, i);
      i := i + 1;
    }
    assert a[..] == a[..a.Length] && s == s[..a.Length];
    InsertionSortedSorted(s);
  }

  // ---------------------------------------------------------------------
  // What the grid shows

  datatype Section = Section(period: string, entries: seq<Entry>)

  /** `NoImages` is the "no images found for this day" paragraph. */
  datatype View = NoImages | Sections(sections: seq<Section>)

  /**
   * One section per period, in the order of `OrderGroups`, each holding
   * exactly that period's entries stably sorted by preset.
   */
  ghost predicate SectionsFor(sections: seq<Section>, s: seq<Entry>)
    requires HasPaths(s)
  {
    var order := OrderGroups(FirstSeen(s));
    |sections| == |order|
    && forall i :: 0 <= i < |sections| ==> SectionOf(sections[i], s, order[i])
  }

  /**
   * The section of period `p`: exactly that period's entries, stably
   * sorted by preset (entries with equal presets keep their input order,
   * `InsertionSortedStable`).
   */
  ghost predicate SectionOf(section: Section, s: seq<Entry>, p: string)
    requires HasPaths(s)
  {
    section.period == p
    && section.entries == InsertionSorted(Group(s, p))
    && PresetSorted(section.entries)
    && multiset(section.entries) == multiset(Group(s, p))
  }

  /**
   * What `renderSnapshots(s)` leaves in the grid: the message for an
   * empty list or when grouping throws (the `.catch` renders the empty
   * list), the ordered sections otherwise.
   */
  ghost predicate Rendered(view: View, s: seq<Entry>) {
    if s == [] || !Groupable(s) then view == NoImages
    else view.Sections? && SectionsFor(view.sections, s)
  }

  /** One section: the group copied into an array and sorted there. */
  method SortedSection(p: string, g: seq<Entry>) returns (section: Section)
    ensures section.period == p
    ensures section.entries == InsertionSorted(g)
    ensures PresetSorted(section.entries) && multiset(section.entries) == multiset(g)
  {
    var a := new Entry[|g|](k requires 0 <= k < |g| => g[k]);
    assert a[..] == g;
    SortByPreset(a);
    section := Section(p, a[..]);
  }

  /** The loop over the ordered groups that appends one section per period. */
  method BuildSections(s: seq<Entry>, order: seq<string>, groups: map<string, seq<Entry>>)
    returns (sections: seq<Section>)
    requires HasPaths(s)
    requires forall p :: p in order ==> p in groups && groups[p] == Group(s, p)
    ensures |sections| == |order|
    ensures forall j :: 0 <= j < |order| ==> SectionOf(sections[j], s, order[j])
  {
    sections := [];
    for i := 0 to |order|
      invariant |sections| == i
      invariant forall j :: 0 <= j < i ==> SectionOf(sections[j], s, order[j])
    {
      var p := order[i];
      var section := SortedSection(p, groups[p]);
      ghost var prev := sections;
      sections := sections + [section];
      forall j | 0 <= j <= i
        ensures SectionOf(sections[j], s, order[j])
      {
        if j < i {
          assert sections[j] == prev[j];
        }
      }
    }
  }

  method RenderSnapshots(s: seq<Entry>) returns (view: View)
    ensures Rendered(view, s)
  {
    if |s| == 0 {
      return NoImages;
    }
    var ok, periods, groups := GroupByPeriod(s);
    if !ok {
      return NoImages;
    }
    assert HasPaths(s);
    var order := OrderGroups(periods);
    assert forall p :: p in order ==> p in periods by {
      OrderGroupsPermutation(periods);
      forall p | p in order
        ensures p in periods
      {
        assert p in multiset(order);
      }
    }
    var sections := BuildSections(s, order, groups);
    view := Sections(sections);
  }

  // ---------------------------------------------------------------------
  // Loading a day

  /** How `fetch(url)` and `res.json()` ended. */
  datatype Response = NetworkError | NotOk(status: int) | BadJson | Json(doc: IndexDoc)

  /** The list handed to `renderSnapshots`: a failed or non-OK fetch, or a missing list, shows as empty. */
  function Shown(response: Response): (s: seq<Entry>)
    ensures !response.Json? ==> s == []
  {
    if response.Json? && response.doc.snapshots.Some? then response.doc.snapshots.value else []
  }

  /** `loadDay(date)`: the heading, the address fetched and what the grid then shows. */
  method LoadDay(base: string, d: Date, response: Response) returns (dayLabel: string, url: string, view: View)
    requires IsValid(d)
    ensures dayLabel == DayLabel(d) && url == IndexUrl(base, d)
    ensures Rendered(view, Shown(response))
  {
    dayLabel := DayLabel(d);
    url := IndexUrl(base, d);
    view := RenderSnapshots(Shown(response));
  }

  /** The page state `currentDate` with the previous-day and next-day buttons. */
  class DayBrowser {
    const base: string
    var current: Date

    ghost predicate Valid()
      reads this
    {
      IsValid(current)
    }

    constructor (base: string, today: Date)
      requires IsValid(today)
      ensures Valid() && this.base == base && current == today
    {
      this.base := base;
      current := today;
    }

    /** The page's first `loadDay(currentDate)`: the day it starts on, unchanged. */
    method ShowCurrentDay(response: Response) returns (dayLabel: string, url: string, view: View)
      requires Valid()
      ensures dayLabel == DayLabel(current) && url == IndexUrl(base, current)
      ensures Rendered(view, Shown(response))
    {
      dayLabel, url, view := LoadDay(base, current, response);
    }

    /** The `prev-day` button: one day back, then load that day. */
    method ShowPrevDay(response: Response) returns (dayLabel: string, url: string, view: View)
      requires Valid()
      modifies this
      ensures Valid() && current == PrevDay(old(current))
      ensures dayLabel == DayLabel(current) && url == IndexUrl(base, current)
      ensures Rendered(view, Shown(response))
    {
      current := PrevDay(current);
      dayLabel, url, view := LoadDay(base, current, response);
    }

    /** The `next-day` button: one day forward, then load that day. */
    method ShowNextDay(response: Response) returns (dayLabel: string, url: string, view: View)
      requires Valid()
      modifies this
      ensures Valid() && current == NextDay(old(current))
      ensures dayLabel == DayLabel(current) && url == IndexUrl(base, current)
      ensures Rendered(view, Shown(response))
    {
      current := NextDay(current);
      dayLabel, url, view := LoadDay(base, current, response);
    }
  }
}
