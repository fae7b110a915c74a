/**
 * Character classes and string operations shared by the models: ASCII
 * digits, regular-expression word characters, Python whitespace, decimal
 * rendering of naturals, left padding, `str.strip`, `str.split` and its
 * inverse, the join with a one-character separator.
 */
module Text {

  predicate IsDigit(c: char) { '0' <= c <= '9' }

  /** `\w` of a JavaScript regular expression without the `u` flag. */
  predicate IsWordChar(c: char) {
    'a' <= c <= 'z' || 'A' <= c <= 'Z' || IsDigit(c) || c == '_'
  }

  /** The ASCII characters Python's `str.strip()` removes. */
  predicate IsSpace(c: char) {
    c == ' ' || '\t' <= c <= '\r' || '\U{1C}' <= c <= '\U{1F}'
  }

  predicate AllDigits(s: string) {
    forall i :: 0 <= i < |s| ==> IsDigit(s[i])
  }

  predicate StartsWith(s: string, prefix: string) {
    |prefix| <= |s| && s[..|prefix|] == prefix
  }

  function DigitChar(d: int): (c: char)
    requires 0 <= d < 10
    ensures IsDigit(c) && c as int == '0' as int + d
  {
    ('0' as int + d) as char
  }

  function DigitValue(c: char): (d: nat)
    requires IsDigit(c)
    ensures d < 10 && DigitChar(d) == c
  {
    c as int - '0' as int
  }

  /** The number a string of decimal digits denotes (leading zeros allowed). */
  function ValueOf(s: string): nat
    requires AllDigits(s)
  {
    if s == [] then 0 else 10 * ValueOf(s[..|s| - 1]) + DigitValue(s[|s| - 1])
  }

  /** The shortest decimal rendering of `n`, as `String(n)` and `str(n)` give it. */
  function Decimal(n: nat): (r: string)
    ensures |r| >= 1 && AllDigits(r)
    ensures r[0] == '0' ==> n == 0
    ensures ValueOf(r) == n
    decreases n
  {
    if n < 10 then [DigitChar(n)]
    else
      var r := Decimal(n / 10) + [DigitChar(n % 10)];
      assert r[..|r| - 1] == Decimal(n / 10);
      r
  }

  lemma DecimalLength(n: nat)
    ensures n < 10 ==> |Decimal(n)| == 1
    ensures 10 <= n < 100 ==> |Decimal(n)| == 2
    ensures 100 <= n < 1000 ==> |Decimal(n)| == 3
    ensures 1000 <= n < 10000 ==> |Decimal(n)| == 4
  {
    if n >= 10 {
      DecimalLength(n / 10);
    }
  }

  /** `String(i)` of an integer: a minus sign before the decimal digits of a negative one. */
  function IntText(i: int): string {
    if i < 0 then "-" + Decimal(-i) else Decimal(i)
  }

  /** `s.padStart(width, c)`: `c` repeated on the left up to `width` characters. */
  function PadStart(s: string, width: nat, c: char): (r: string)
    ensures |r| == if |s| >= width then |s| else width
    ensures r[|r| - |s|..] == s
    ensures forall i :: 0 <= i < |r| - |s| ==> r[i] == c
  {
    if |s| >= width then s else seq(width - |s|, _ => c) + s
  }

  /** Leading zeros do not change the value of a digit string. */
  lemma {:induction false} ValueOfLeadingZero(s: string)
    requires AllDigits(s)
    ensures AllDigits("0" + s) && ValueOf("0" + s) == ValueOf(s)
  {
    if s != [] {
      var t := "0" + s;
      assert t[..|t| - 1] == "0" + s[..|s| - 1];
      ValueOfLeadingZero(s[..|s| - 1]);
    }
  }

  // ---------------------------------------------------------------------
  // Python's str.strip()

  predicate IsStripped(t: string) {
    t == [] || (!IsSpace(t[0]) && !IsSpace(t[|t| - 1]))
  }

  /** The length of the run of whitespace `s` starts with. */
  function LeadingSpaces(s: string): (n: nat)
    ensures n <= |s|
    ensures forall k :: 0 <= k < n ==> IsSpace(s[k])
    ensures n == |s| || !IsSpace(s[n])
  {
    if s == [] || !IsSpace(s[0]) then 0 else 1 + LeadingSpaces(s[1..])
  }

  /** The length of the run of whitespace `s` ends with. */
  function TrailingSpaces(s: string): (n: nat)
    ensures n <= |s|
    ensures forall k :: |s| - n <= k < |s| ==> IsSpace(s[k])
    ensures n == |s| || !IsSpace(s[|s| - n - 1])
  {
    if s == [] || !IsSpace(s[|s| - 1]) then 0 else 1 + TrailingSpaces(s[..|s| - 1])
  }

  /** `s.strip()`: `s` without its maximal leading and trailing runs of whitespace. */
  function Strip(s: string): (r: string)
    ensures IsStripped(r)
    ensures forall c :: c in r ==> c in s
  {
    var i := LeadingSpaces(s);
    var j := TrailingSpaces(s[i..]);
    assert IsStripped(s[i..|s| - j]) by {
      if i < |s| - j {
        assert s[|s| - j - 1] == s[i..][|s| - i - j - 1];
      }
    }
    s[i..|s| - j]
  }

  /**
   * What `strip` cuts: the result is a slice of `s`, everything cut off
   * on either side is whitespace, and the result neither starts nor ends
   * with whitespace.
   */
  lemma StripSpec(s: string)
    ensures var i, r := LeadingSpaces(s), Strip(s);
            i + |r| <= |s| && r == s[i..i + |r|]
    ensures forall k :: 0 <= k < LeadingSpaces(s) ==> IsSpace(s[k])
    ensures forall k :: LeadingSpaces(s) + |Strip(s)| <= k < |s| ==> IsSpace(s[k])
  {
    var i := LeadingSpaces(s);
    var j := TrailingSpaces(s[i..]);
    assert Strip(s) == s[i..|s| - j];
    TrailingCut(s, i, j);
  }

  /** A whitespace run at the end of `s[i..]` is one at the end of `s`. */
  lemma TrailingCut(s: string, i: nat, j: nat)
    requires i + j <= |s|
    requires forall k :: |s[i..]| - j <= k < |s[i..]| ==> IsSpace(s[i..][k])
    ensures forall k :: |s| - j <= k < |s| ==> IsSpace(s[k])
  {
    forall k | |s| - j <= k < |s|
      ensures IsSpace(s[k])
    {
      assert s[k] == s[i..][k - i];
    }
  }

  predicate AllSpace(s: string) {
    forall k :: 0 <= k < |s| ==> IsSpace(s[k])
  }

  /**
   * `strip` removes exactly the padding: a non-empty stripped string
   * with whitespace-only runs on either side strips back to itself.
   */
  lemma StripPadded(a: string, t: string, b: string)
    requires AllSpace(a) && AllSpace(b)
    requires t != [] && IsStripped(t)
    ensures Strip(a + t + b) == t
  {
    var s := a + t + b;
    assert s[|a|] == t[0];
    var i := LeadingSpaces(s);
    assert forall k :: 0 <= k < |a| ==> s[k] == a[k];
    assert i == |a|;
    var u := s[i..];
    assert u == t + b;
    assert u[|t| - 1] == t[|t| - 1];
    var j := TrailingSpaces(u);
    assert forall k :: |t| <= k < |u| ==> u[k] == b[k - |t|];
    assert j == |b|;
    assert s[i..|s| - j] == t;
  }

  lemma StripOfStripped(t: string)
    requires IsStripped(t)
    ensures Strip(t) == t
  {
    assert t[0..] == t;
  }

  // ---------------------------------------------------------------------
  // Python's str.split(sep) and its inverse sep.join(parts)

  /**
   * The position of the first `c` in `s`. `History.FirstIndex` is the same
   * search over a sequence of strings; the two stay separate because a
   * generic version makes the solver's work on `JoinSplit` and on
   * `Onvif.DottedLengthGreatest` much larger and unstable.
   */
  function IndexOf(s: string, c: char): (k: nat)
    requires c in s
    ensures k < |s| && s[k] == c
    ensures forall j :: 0 <= j < |s| && s[j] == c ==> k <= j
  {
    if s[0] == c then 0 else 1 + IndexOf(s[1..], c)
  }

  function Join(parts: seq<string>, sep: char): string {
    if parts == [] then ""
    else if |parts| == 1 then parts[0]
    else parts[0] + [sep] + Join(parts[1..], sep)
  }

  /**
   * `s.split(sep)`: the pieces between the separators, empty pieces
   * included, so there is always one piece more than separators.
   */
  function Split(s: string, sep: char): (parts: seq<string>)
    ensures |parts| >= 1
    ensures forall p :: p in parts ==> sep !in p
    decreases |s|
  {
    if sep in s then
      var k := IndexOf(s, sep);
      [s[..k]] + Split(s[k + 1..], sep)
    else
      [s]
  }

  /** Joining the pieces gives the split string back. */
  lemma {:induction false} JoinSplit(s: string, sep: char)
    ensures Join(Split(s, sep), sep) == s
    decreases |s|
  {
    if sep in s {
      var k := IndexOf(s, sep);
      var a, b := s[..k], s[k + 1..];
      assert Split(s, sep) == [a] + Split(b, sep);
      JoinSplit(b, sep);
      Rejoin(s, k);
      JoinSplitStep(s, a, b, sep);
    }
  }

  lemma JoinSplitStep(s: string, a: string, b: string, sep: char)
    requires s == a + [sep] + b
    requires Split(s, sep) == [a] + Split(b, sep)
    requires Join(Split(b, sep), sep) == b
    ensures Join(Split(s, sep), sep) == s
  {
    JoinCons(a, Split(b, sep), sep);
  }

  lemma Rejoin(s: string, k: nat)
    requires k < |s|
    ensures s == s[..k] + [s[k]] + s[k + 1..]
  {
  }

  lemma JoinCons(first: string, rest: seq<string>, sep: char)
    requires rest != []
    ensures Join([first] + rest, sep) == first + [sep] + Join(rest, sep)
  {
    assert ([first] + rest)[1..] == rest;
  }

  /** Splitting undoes joining pieces that do not contain the separator. */
  lemma {:induction false} SplitJoin(parts: seq<string>, sep: char)
    requires |parts| >= 1
    requires forall p :: p in parts ==> sep !in p
    ensures Split(Join(parts, sep), sep) == parts
  {
    if |parts| > 1 {
      var s := Join(parts, sep);
      assert s == parts[0] + [sep] + Join(parts[1..], sep);
      assert sep in s by { assert s[|parts[0]|] == sep; }
      var k := IndexOf(s, sep);
      assert sep !in parts[0] by { assert parts[0] in parts; }
      assert k >= |parts[0]| by {
        forall j | 0 <= j < |parts[0]|
          ensures s[j] != sep
        {
          assert s[j] == parts[0][j];
        }
      }
      assert s[|parts[0]|] == sep;
      assert k == |parts[0]|;
      assert s[..k] == parts[0];
      assert s[k + 1..] == Join(parts[1..], sep);
      SplitJoin(parts[1..], sep);
    } else {
      assert sep !in parts[0];
    }
  }
}
