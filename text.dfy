/** String operations of Python's `str` that the modelled code relies on,
    restricted to what the callers pass (single-character separators,
    non-empty patterns, ASCII case mapping). */
module Text {

  datatype Option<+T> = None | Some(value: T)

  // ---------------------------------------------------------------------
  // Prefixes, suffixes, occurrences

  predicate StartsWith(s: string, p: string) {
    |p| <= |s| && s[..|p|] == p
  }

  predicate EndsWith(s: string, p: string) {
    |p| <= |s| && s[|s| - |p|..] == p
  }

  /** `pat` occurs in `s` starting at index `j`. */
  predicate OccursAt(s: string, pat: string, j: int) {
    0 <= j <= |s| - |pat| && s[j..j + |pat|] == pat
  }

  /** Python's `s.find(pat)`: the first index where `pat` occurs, or -1. */
  function Find(s: string, pat: string): (k: int)
    ensures -1 <= k <= |s|
    ensures k >= 0 ==> OccursAt(s, pat, k)
    ensures k >= 0 ==> forall j :: 0 <= j < k ==> !OccursAt(s, pat, j)
    ensures k == -1 <==> forall j :: 0 <= j <= |s| - |pat| ==> !OccursAt(s, pat, j)
    decreases |s|
  {
    if |s| < |pat| then -1
    else if s[..|pat|] == pat then assert OccursAt(s, pat, 0); 0
    else
      var k := Find(s[1..], pat);
      assert forall j :: 1 <= j <= |s| - |pat| ==> (OccursAt(s, pat, j) <==> OccursAt(s[1..], pat, j - 1)) by {
        forall j | 1 <= j <= |s| - |pat| ensures OccursAt(s, pat, j) <==> OccursAt(s[1..], pat, j - 1) {
          OccursShift(s, pat, j - 1);
        }
      }
      if k == -1 then -1 else k + 1
  }

  // ---------------------------------------------------------------------
  // Repetition, replacement

  /** Python's `s * n` (empty for `n <= 0`). */
  function Repeat(s: string, n: int): (r: string)
    ensures |r| == (if n <= 0 then 0 else n * |s|)
    ensures forall c :: c in r ==> c in s
    decreases n
  {
    if n <= 0 then "" else s + Repeat(s, n - 1)
  }

  /** Python's `s.replace(pat, rep)`: occurrences of `pat` are replaced from
      left to right, without overlapping. */
  function ReplaceAll(s: string, pat: string, rep: string): (r: string)
    requires |pat| > 0
    decreases |s|
  {
    if |s| < |pat| then s
    else if s[..|pat|] == pat then rep + ReplaceAll(s[|pat|..], pat, rep)
    else [s[0]] + ReplaceAll(s[1..], pat, rep)
  }

  /** Text in which `pat` does not occur is returned unchanged. */
  lemma {:induction false} ReplaceAbsent(s: string, pat: string, rep: string)
    requires |pat| > 0
    requires Find(s, pat) == -1
    ensures ReplaceAll(s, pat, rep) == s
    decreases |s|
  {
    if |s| >= |pat| {
      assert s[..|pat|] != pat;
      ReplaceAbsent(s[1..], pat, rep);
    }
  }

  /** With `k` the first occurrence, the text before it is kept, the
      occurrence becomes `rep`, and replacement resumes right after it. Together with
      ReplaceAbsent this determines `ReplaceAll` completely. */
  lemma {:induction false} ReplaceFirst(s: string, pat: string, rep: string, k: nat)
    requires |pat| > 0
    requires k == Find(s, pat)
    ensures ReplaceAll(s, pat, rep) == s[..k] + rep + ReplaceAll(s[k + |pat|..], pat, rep)
  {
    ReplaceAt(s, pat, rep, k);
  }

  /** The same for any occurrence with none before it. */
  lemma {:induction false} ReplaceAt(s: string, pat: string, rep: string, k: nat)
    requires |pat| > 0 && OccursAt(s, pat, k)
    requires forall j :: 0 <= j < k ==> !OccursAt(s, pat, j)
    ensures ReplaceAll(s, pat, rep) == s[..k] + rep + ReplaceAll(s[k + |pat|..], pat, rep)
  {
    ReplaceSkip(s, pat, rep, k);
    var u := s[k..];
    assert u[..|pat|] == s[k..k + |pat|];
    assert u[|pat|..] == s[k + |pat|..];
    var after := ReplaceAll(s[k + |pat|..], pat, rep);
    assert ReplaceAll(u, pat, rep) == rep + after;
    assert s[..k] + (rep + after) == s[..k] + rep + after;
  }

  /** Where no occurrence starts before `k`, the first `k` characters are kept. */
  lemma {:induction false} ReplaceSkip(s: string, pat: string, rep: string, k: nat)
    requires |pat| > 0 && k <= |s| - |pat|
    requires forall j :: 0 <= j < k ==> !OccursAt(s, pat, j)
    ensures ReplaceAll(s, pat, rep) == s[..k] + ReplaceAll(s[k..], pat, rep)
    decreases k
  {
    if k > 0 {
      var t := s[1..];
      assert !OccursAt(s, pat, 0);
      assert ReplaceAll(s, pat, rep) == [s[0]] + ReplaceAll(t, pat, rep);
      forall j | 0 <= j < k - 1 ensures !OccursAt(t, pat, j) {
        OccursShift(s, pat, j);
      }
      ReplaceSkip(t, pat, rep, k - 1);
      var rest := ReplaceAll(s[k..], pat, rep);
      assert t[k - 1..] == s[k..];
      assert ReplaceAll(t, pat, rep) == t[..k - 1] + rest;
      assert [s[0]] + (t[..k - 1] + rest) == ([s[0]] + t[..k - 1]) + rest;
      assert [s[0]] + t[..k - 1] == s[..k];
    } else {
      assert s[..0] == [] && s[0..] == s;
    }
  }

  /** An occurrence in the text without its first character is one in the
      whole text, one place further on. */
  lemma OccursShift(s: string, pat: string, j: nat)
    requires |s| > 0
    ensures OccursAt(s[1..], pat, j) <==> OccursAt(s, pat, j + 1)
  {
    if j + 1 <= |s| - |pat| {
      var a, b := s[1..][j..j + |pat|], s[j + 1..j + 1 + |pat|];
      assert |a| == |b|;
      forall i | 0 <= i < |a| ensures a[i] == b[i] {
        assert a[i] == s[1..][j + i] == s[j + 1 + i];
      }
      assert a == b;
    }
  }

  // ---------------------------------------------------------------------
  // Split and join on a one-character separator

  /** Python's `s.split(c)` for an explicit one-character separator: empty
      fields are kept, so the result is never empty. */
  function Split(s: string, c: char): (r: seq<string>)
    ensures |r| >= 1
    ensures forall i :: 0 <= i < |r| ==> c !in r[i]
    decreases |s|
  {
    if |s| == 0 then [""]
    else if s[0] == c then [""] + Split(s[1..], c)
    else
      var t := Split(s[1..], c);
      [[s[0]] + t[0]] + t[1..]
  }

  /** Python's `sep.join(parts)`. */
  function Join(parts: seq<string>, sep: string): string
    decreases |parts|
  {
    if |parts| == 0 then ""
    else if |parts| == 1 then parts[0]
    else parts[0] + sep + Join(parts[1..], sep)
  }

  /** Joining the fields of a split with the same separator gives the text back. */
  lemma {:induction false} JoinSplit(s: string, c: char)
    ensures Join(Split(s, c), [c]) == s
    decreases |s|
  {
    if |s| > 0 {
      JoinSplit(s[1..], c);
      var t := Split(s[1..], c);
      if s[0] != c {
        assert Split(s, c) == [[s[0]] + t[0]] + t[1..];
        JoinExtendFirst(s[0], t, [c]);
      } else {
        assert Split(s, c) == [""] + t;
        JoinEmptyFirst(t, [c]);
      }
      assert s == [s[0]] + s[1..];
    }
  }

  /** A character put in front of the first field comes out in front. */
  lemma JoinExtendFirst(x: char, t: seq<string>, sep: string)
    requires |t| >= 1
    ensures Join([[x] + t[0]] + t[1..], sep) == [x] + Join(t, sep)
  {
    var u := [[x] + t[0]] + t[1..];
    assert |u| == |t| && u[0] == [x] + t[0] && u[1..] == t[1..];
    if |t| > 1 {
      var tail := sep + Join(t[1..], sep);
      assert Join(t, sep) == t[0] + tail;
      assert Join(u, sep) == ([x] + t[0]) + tail;
      assert ([x] + t[0]) + tail == [x] + (t[0] + tail);
    }
  }

  /** An empty first field leaves just its separator. */
  lemma JoinEmptyFirst(t: seq<string>, sep: string)
    requires |t| >= 1
    ensures Join([""] + t, sep) == sep + Join(t, sep)
  {
    var u := [""] + t;
    assert u[1..] == t;
    assert Join(u, sep) == "" + sep + Join(t, sep);
  }

  /** Joining two non-empty runs of fields puts one separator between them. */
  lemma {:induction false} JoinAppend(a: seq<string>, b: seq<string>, sep: string)
    requires |a| >= 1 && |b| >= 1
    ensures Join(a + b, sep) == Join(a, sep) + sep + Join(b, sep)
    decreases |a|
  {
    if |a| > 1 {
      assert (a + b)[1..] == a[1..] + b;
      JoinAppend(a[1..], b, sep);
    } else {
      assert (a + b)[1..] == b;
    }
  }

  /** Splitting a join of separator-free fields gives the fields back. */
  lemma {:induction false} SplitJoin(parts: seq<string>, c: char)
    requires |parts| >= 1
    requires forall i :: 0 <= i < |parts| ==> c !in parts[i]
    ensures Split(Join(parts, [c]), c) == parts
    decreases |parts|, |parts[0]|
  {
    var p := parts[0];
    if |p| == 0 {
      if |parts| > 1 {
        SplitJoin(parts[1..], c);
        var s := Join(parts, [c]);
        assert s == [c] + Join(parts[1..], [c]);
        assert s[1..] == Join(parts[1..], [c]);
        assert [""] + parts[1..] == parts;
      }
    } else {
      var s := Join(parts, [c]);
      var parts' := [p[1..]] + parts[1..];
      assert parts'[1..] == parts[1..];
      SplitJoin(parts', c);
      if |parts| > 1 {
        assert s == [p[0]] + Join(parts', [c]);
      } else {
        assert s == [p[0]] + p[1..];
      }
      assert s[0] == p[0] && s[1..] == Join(parts', [c]);
      assert Split(s, c) == [[p[0]] + p[1..]] + parts[1..];
      assert [p[0]] + p[1..] == p;
      assert [p] + parts[1..] == parts;
    }
  }

  // ---------------------------------------------------------------------
  // ASCII case mapping

  function LowerChar(c: char): char {
    if 'A' <= c <= 'Z' then (c as int + 32) as char else c
  }

  function UpperChar(c: char): char {
    if 'a' <= c <= 'z' then (c as int - 32) as char else c
  }

  /** `s.lower()`, for ASCII letters. */
  function Lower(s: string): (r: string)
    ensures |r| == |s| && forall i :: 0 <= i < |s| ==> r[i] == LowerChar(s[i])
  {
    seq(|s|, i requires 0 <= i < |s| => LowerChar(s[i]))
  }

  /** `s.upper()`, for ASCII letters. */
  function Upper(s: string): (r: string)
    ensures |r| == |s| && forall i :: 0 <= i < |s| ==> r[i] == UpperChar(s[i])
  {
    seq(|s|, i requires 0 <= i < |s| => UpperChar(s[i]))
  }

  // ---------------------------------------------------------------------
  // Decimal digits

  predicate IsDigit(c: char) { '0' <= c <= '9' }

  predicate AllDigits(s: string) { forall i :: 0 <= i < |s| ==> IsDigit(s[i]) }

  function DigitChar(d: nat): (c: char)
    requires d < 10
    ensures IsDigit(c) && c as int - '0' as int == d
  {
    ('0' as int + d) as char
  }

  function DigitValue(c: char): nat
    requires IsDigit(c)
  {
    c as int - '0' as int
  }

  /** The number a string of decimal digits denotes. */
  function DigitsValue(s: string): nat
    requires AllDigits(s)
    decreases |s|
  {
    if |s| == 0 then 0 else DigitsValue(s[..|s| - 1]) * 10 + DigitValue(s[|s| - 1])
  }

  /** Python's `str(n)` for a natural number: shortest decimal digits. */
  function NatToString(n: nat): (r: string)
    ensures 1 <= |r| && AllDigits(r)
    ensures |r| > 1 ==> r[0] != '0'
    decreases n
  {
    if n < 10 then [DigitChar(n)] else NatToString(n / 10) + [DigitChar(n % 10)]
  }

  /** The decimal form of a number denotes that number. */
  lemma {:induction false} NatToStringValue(n: nat)
    ensures DigitsValue(NatToString(n)) == n
    decreases n
  {
    if n >= 10 {
      NatToStringValue(n / 10);
      var r := NatToString(n);
      assert r[..|r| - 1] == NatToString(n / 10);
    }
  }

  /** `%02d` of a natural number: at least two digits, zero-padded. */
  function Pad2(n: nat): (r: string)
    ensures AllDigits(r) && |r| >= 2
    ensures n < 100 ==> |r| == 2
  {
    if n < 10 then "0" + NatToString(n)
    else assert n < 100 ==> |NatToString(n / 10)| == 1; NatToString(n)
  }

  /** Zero-padding does not change the number denoted. */
  lemma Pad2Value(n: nat)
    ensures DigitsValue(Pad2(n)) == n
  {
    NatToStringValue(n);
    if n < 10 {
      assert Pad2(n)[..1] == "0";
    }
  }

  /** `%02d` of any integer: a negative number keeps its sign and is not padded
      further, since its text already has two characters. */
  function Pad2Int(n: int): string {
    if n < 0 then "-" + NatToString(-n) else Pad2(n)
  }
}
