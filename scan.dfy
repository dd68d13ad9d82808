/**
 * Hand-written scanners for the regular expressions of `src/rml.js`.  Each
 * pattern there is either a case-insensitive literal tested anywhere in the
 * string, or a leftmost match of a literal prefix followed by digit groups.
 * A greedy `\d+` followed by a non-digit literal never backtracks, so every
 * captured group is a maximal run of digits and the scan is deterministic.
 */
module Scan {
  import opened Wrappers
  import opened JsText

  /** The lower-case ASCII word `w` matches at `i` under the `i` flag. */
  predicate FoldedAt(s: string, i: nat, w: string) {
    i + |w| <= |s| && forall k :: 0 <= k < |w| ==> Lower(s[i + k]) == w[k]
  }

  /** `/w/i.test(s)`: the word occurs somewhere in `s`, ignoring ASCII case. */
  predicate Occurs(s: string, w: string) {
    exists i :: 0 <= i <= |s| && FoldedAt(s, i, w)
  }

  /** A version triple read from a user-agent string; a missing patch reads as 0. */
  datatype UaVersion = UaVersion(major: nat, minor: nat, patch: nat)

  /**
   * The shape `word\s?(\d+)S(\d+)S?(\d+)?` with the `i` flag, where `space`
   * says whether one `\s` follows the word and `S` is the separator.
   */
  datatype VersionPattern = VersionPattern(word: string, space: bool, sep: char)

  /** Where the first digit group starts when the pattern's prefix matches at `i`. */
  function GroupStart(s: string, i: nat, p: VersionPattern): (a: nat)
    requires FoldedAt(s, i, p.word)
    requires p.space ==> i + |p.word| < |s| && IsSpace(s[i + |p.word|])
    ensures a <= |s|
  {
    if p.space then i + |p.word| + 1 else i + |p.word|
  }

  predicate PrefixAt(s: string, i: nat, p: VersionPattern) {
    && FoldedAt(s, i, p.word)
    && (p.space ==> i + |p.word| < |s| && IsSpace(s[i + |p.word|]))
  }

  /**
   * The match of the version pattern anchored at `i`, read as JavaScript
   * does: the three captures go through `parseInt`, an absent third capture
   * through `parseInt(undefined || 0)`, which is 0.
   */
  function VersionAt(s: string, i: nat, p: VersionPattern): (r: Option<UaVersion>)
    requires i <= |s|
    ensures r.Some? ==> FoldedAt(s, i, p.word)
  {
    if !PrefixAt(s, i, p) then None else GroupsAt(s, GroupStart(s, i, p), p.sep)
  }

  /** The digit groups `(\d+)S(\d+)S?(\d+)?` read from `a` on, `S` being `sep`. */
  function GroupsAt(s: string, a: nat, sep: char): Option<UaVersion>
    requires a <= |s|
  {
    var b := DigitRunEnd(s, a);
    if b == a || b == |s| || s[b] != sep then None
    else
      var c := DigitRunEnd(s, b + 1);
      if c == b + 1 then None
      else
        var patch := if c < |s| && s[c] == sep then DigitsValue(s[c + 1..DigitRunEnd(s, c + 1)]) else 0;
        Some(UaVersion(DigitsValue(s[a..b]), DigitsValue(s[b + 1..c]), patch))
  }

  /** `s[a..a + n]` is a non-empty run of digits. */
  predicate DigitsAt(s: string, a: nat, n: nat) {
    n >= 1 && a + n <= |s| && forall k :: a <= k < a + n ==> IsDigit(s[k])
  }

  /** Some non-empty run of digits starts at `a`. */
  ghost predicate SomeDigitsAt(s: string, a: nat) {
    exists n: nat :: DigitsAt(s, a, n)
  }

  /** The separator stands at `b` and a non-empty run of digits follows it. */
  ghost predicate SepDigitsAt(s: string, b: nat, sep: char) {
    b < |s| && s[b] == sep && SomeDigitsAt(s, b + 1)
  }

  /**
   * What the regular expression accepts at `i`, read without any notion of
   * greed: the prefix, some digits, the separator, some more digits.
   */
  ghost predicate RegexMatchesAt(s: string, i: nat, p: VersionPattern) {
    && PrefixAt(s, i, p)
    && var a := GroupStart(s, i, p);
       exists m: nat :: DigitsAt(s, a, m) && SepDigitsAt(s, a + m, p.sep)
  }

  /** The scanner finds a match at `i` exactly when the regular expression accepts there. */
  lemma VersionAtAccepts(s: string, i: nat, p: VersionPattern)
    requires i <= |s|
    requires !IsDigit(p.sep)
    ensures VersionAt(s, i, p).Some? <==> RegexMatchesAt(s, i, p)
  {
    if PrefixAt(s, i, p) {
      var a := GroupStart(s, i, p);
      GroupsAtFound(s, a, p.sep);
      GroupsAtComplete(s, a, p.sep);
    }
  }

  /** What the groups scanner reads is a run of digits, the separator and more digits. */
  lemma GroupsAtFound(s: string, a: nat, sep: char)
    requires a <= |s|
    ensures GroupsAt(s, a, sep).Some? ==> exists m: nat :: DigitsAt(s, a, m) && SepDigitsAt(s, a + m, sep)
  {
    if GroupsAt(s, a, sep).Some? {
      var b := DigitRunEnd(s, a);
      var c := DigitRunEnd(s, b + 1);
      assert DigitsAt(s, b + 1, c - (b + 1));
      assert DigitsAt(s, a, b - a) && SepDigitsAt(s, a + (b - a), sep);
    }
  }

  /** Wherever digits, the separator and more digits stand, the groups scanner reads a version. */
  lemma GroupsAtComplete(s: string, a: nat, sep: char)
    requires a <= |s| && !IsDigit(sep)
    ensures (exists m: nat :: DigitsAt(s, a, m) && SepDigitsAt(s, a + m, sep)) ==> GroupsAt(s, a, sep).Some?
  {
    if exists m: nat :: DigitsAt(s, a, m) && SepDigitsAt(s, a + m, sep) {
      var m: nat :| DigitsAt(s, a, m) && SepDigitsAt(s, a + m, sep);
      var n: nat :| DigitsAt(s, a + m + 1, n);
      DigitRunEndAt(s, a, a + m);
      assert IsDigit(s[a + m + 1]);
    }
  }

  /** The first two groups of a version match: digits, the separator, digits, ending at `b` and `c`. */
  lemma VersionGroups(s: string, a: nat, b: nat, c: nat, sep: char, d1: string, d2: string, rest: string)
    requires a <= |s| && s[a..] == d1 + [sep] + d2 + rest && !IsDigit(sep)
    requires d1 != [] && AllDigits(d1) && d2 != [] && AllDigits(d2)
    requires rest == [] || !IsDigit(rest[0])
    requires b == a + |d1| && c == b + 1 + |d2|
    ensures b < |s| && DigitRunEnd(s, a) == b && s[a..b] == d1 && s[b] == sep
    ensures DigitRunEnd(s, b + 1) == c && s[b + 1..c] == d2 && s[c..] == rest
  {
    assert s[a..] == d1 + ([sep] + (d2 + rest)) by {
      assert d1 + [sep] + d2 + rest == d1 + ([sep] + (d2 + rest));
    }
    GroupThenSeparator(s, a, b, sep, d1, d2 + rest);
    DigitRunEndSplit(s, b + 1, d2, rest);
  }

  /** A run of digits ending at `b`, the separator, and then `t`. */
  lemma GroupThenSeparator(s: string, a: nat, b: nat, sep: char, d: string, t: string)
    requires a <= |s| && s[a..] == d + ([sep] + t) && !IsDigit(sep)
    requires AllDigits(d) && b == a + |d|
    ensures b < |s| && DigitRunEnd(s, a) == b && s[a..b] == d && s[b] == sep && s[b + 1..] == t
  {
    DigitRunEndSplit(s, a, d, [sep] + t);
    SeparatorThen(s, b, sep, t);
  }

  /** A separator and then `t`. */
  lemma SeparatorThen(s: string, b: nat, sep: char, t: string)
    requires b <= |s| && s[b..] == [sep] + t
    ensures b < |s| && s[b] == sep && s[b + 1..] == t
  {
    assert s[b] == s[b..][0];
    assert s[b + 1..] == s[b..][1..];
  }

  /**
   * A version match read off its pieces: after the prefix, digits, the
   * separator, digits, and no further separator; the patch reads as 0.
   */
  lemma VersionAtTwoGroups(s: string, i: nat, p: VersionPattern, d1: string, d2: string, rest: string)
    requires i <= |s| && PrefixAt(s, i, p) && !IsDigit(p.sep)
    requires s[GroupStart(s, i, p)..] == d1 + [p.sep] + d2 + rest
    requires d1 != [] && AllDigits(d1) && d2 != [] && AllDigits(d2)
    requires rest == [] || (!IsDigit(rest[0]) && rest[0] != p.sep)
    ensures VersionAt(s, i, p) == Some(UaVersion(DigitsValue(d1), DigitsValue(d2), 0))
  {
    GroupsAtTwo(s, GroupStart(s, i, p), p.sep, d1, d2, rest);
  }

  lemma GroupsAtTwo(s: string, a: nat, sep: char, d1: string, d2: string, rest: string)
    requires a <= |s| && s[a..] == d1 + [sep] + d2 + rest && !IsDigit(sep)
    requires d1 != [] && AllDigits(d1) && d2 != [] && AllDigits(d2)
    requires rest == [] || (!IsDigit(rest[0]) && rest[0] != sep)
    ensures GroupsAt(s, a, sep) == Some(UaVersion(DigitsValue(d1), DigitsValue(d2), 0))
  {
    var b, c := a + |d1|, a + |d1| + 1 + |d2|;
    assert
      && DigitRunEnd(s, a) == b && s[b] == sep && DigitRunEnd(s, b + 1) == c
      && (c == |s| || s[c] != sep) && s[a..b] == d1 && s[b + 1..c] == d2
    by {
      VersionGroups(s, a, b, c, sep, d1, d2, rest);
      assert c < |s| ==> s[c] == s[c..][0] == rest[0];
    }
    GroupsAtNoPatch(s, a, sep, b, c);
  }

  /** Two runs around the separator and no separator after them: no patch. */
  lemma GroupsAtNoPatch(s: string, a: nat, sep: char, b: nat, c: nat)
    requires a < b < c <= |s| && b + 1 < c
    requires DigitRunEnd(s, a) == b && s[b] == sep && DigitRunEnd(s, b + 1) == c
    requires c == |s| || s[c] != sep
    ensures GroupsAt(s, a, sep) == Some(UaVersion(DigitsValue(s[a..b]), DigitsValue(s[b + 1..c]), 0))
  {
  }

  /**
   * With the separator and a third run of digits after the second group, the
   * third run is the patch; an empty third run reads as 0, as the optional
   * group is then undefined.
   */
  lemma VersionAtThreeGroups(s: string, i: nat, p: VersionPattern, d1: string, d2: string, d3: string, rest: string)
    requires i <= |s| && PrefixAt(s, i, p) && !IsDigit(p.sep)
    requires s[GroupStart(s, i, p)..] == d1 + ([p.sep] + (d2 + ([p.sep] + (d3 + rest))))
    requires d1 != [] && AllDigits(d1) && d2 != [] && AllDigits(d2) && AllDigits(d3)
    requires rest == [] || !IsDigit(rest[0])
    ensures VersionAt(s, i, p) == Some(UaVersion(DigitsValue(d1), DigitsValue(d2), DigitsValue(d3)))
  {
    GroupsAtThree(s, GroupStart(s, i, p), p.sep, d1, d2, d3, rest);
  }

  lemma GroupsAtThree(s: string, a: nat, sep: char, d1: string, d2: string, d3: string, rest: string)
    requires a <= |s| && s[a..] == d1 + ([sep] + (d2 + ([sep] + (d3 + rest)))) && !IsDigit(sep)
    requires d1 != [] && AllDigits(d1) && d2 != [] && AllDigits(d2) && AllDigits(d3)
    requires rest == [] || !IsDigit(rest[0])
    ensures GroupsAt(s, a, sep) == Some(UaVersion(DigitsValue(d1), DigitsValue(d2), DigitsValue(d3)))
  {
    var b, c := a + |d1|, a + |d1| + 1 + |d2|;
    var e := c + 1 + |d3|;
    ThreeGroups(s, a, b, c, e, sep, d1, d2, d3, rest);
    GroupsAtPatch(s, a, sep, b, c, e);
  }

  /** Where the three runs of a version with a patch begin and end. */
  lemma ThreeGroups(s: string, a: nat, b: nat, c: nat, e: nat, sep: char, d1: string, d2: string, d3: string, rest: string)
    requires a <= |s| && s[a..] == d1 + ([sep] + (d2 + ([sep] + (d3 + rest)))) && !IsDigit(sep)
    requires d1 != [] && AllDigits(d1) && d2 != [] && AllDigits(d2) && AllDigits(d3)
    requires rest == [] || !IsDigit(rest[0])
    requires b == a + |d1| && c == b + 1 + |d2| && e == c + 1 + |d3|
    ensures DigitRunEnd(s, a) == b && s[b] == sep && DigitRunEnd(s, b + 1) == c
    ensures c < |s| && s[c] == sep && e <= |s| && DigitRunEnd(s, c + 1) == e
    ensures s[a..b] == d1
    ensures s[b + 1..c] == d2
    ensures s[c + 1..e] == d3
  {
    GroupThenSeparator(s, a, b, sep, d1, d2 + ([sep] + (d3 + rest)));
    GroupThenSeparator(s, b + 1, c, sep, d2, d3 + rest);
    DigitRunEndSplit(s, c + 1, d3, rest);
  }

  /** Two runs around the separator, the separator again, and a third run: the third run is the patch. */
  lemma GroupsAtPatch(s: string, a: nat, sep: char, b: nat, c: nat, e: nat)
    requires a < b < c < |s| && b + 1 < c && c + 1 <= e <= |s|
    requires DigitRunEnd(s, a) == b && s[b] == sep && DigitRunEnd(s, b + 1) == c
    requires s[c] == sep && DigitRunEnd(s, c + 1) == e
    ensures GroupsAt(s, a, sep) ==
      Some(UaVersion(DigitsValue(s[a..b]), DigitsValue(s[b + 1..c]), DigitsValue(s[c + 1..e])))
  {
  }

  /**
   * Where the leftmost match of a version pattern starts, trying each
   * position from `i` on as a regular-expression search does.
   */
  function FirstVersionFrom(s: string, p: VersionPattern, i: nat): (r: Option<nat>)
    requires i <= |s|
    ensures r.Some? ==> i <= r.value <= |s| && VersionAt(s, r.value, p).Some?
    ensures forall j :: i <= j <= |s| && (r.None? || j < r.value) ==> VersionAt(s, j, p).None?
    decreases |s| - i
  {
    if VersionAt(s, i, p).Some? then Some(i)
    else if i == |s| then None
    else FirstVersionFrom(s, p, i + 1)
  }

  /** `s.match(re)` for a version pattern: the match at the leftmost position where one exists, or `null`. */
  function FindVersion(s: string, p: VersionPattern): (r: Option<UaVersion>)
    ensures r.None? <==> forall k :: 0 <= k <= |s| ==> VersionAt(s, k, p).None?
    ensures r.Some? ==>
      exists k :: 0 <= k <= |s| && r == VersionAt(s, k, p) && forall j :: 0 <= j < k ==> VersionAt(s, j, p).None?
  {
    var k := FirstVersionFrom(s, p, 0);
    if k.None? then None else VersionAt(s, k.value, p)
  }

  /**
   * `MSIE ([0-9]{1,}[.0-9]{0,})` anchored at `i`, case-sensitive, and the
   * integer part of `parseFloat` of the capture.  The capture starts with
   * digits and holds no exponent, so that integer part is the value of its
   * leading digit run.
   */
  function MsieAt(s: string, i: nat): (r: Option<nat>)
    requires i <= |s|
    ensures r.Some? ==> FoldedAt(s, i, "msie")
  {
    if i + 5 < |s| && s[i..i + 5] == "MSIE " && IsDigit(s[i + 5]) then
      MsieFolds(s, i);
      Some(DigitsValue(s[i + 5..DigitRunEnd(s, i + 5)]))
    else None
  }

  /** The case-sensitive "MSIE " is also an occurrence of "msie" ignoring case. */
  lemma MsieFolds(s: string, i: nat)
    requires i + 5 <= |s| && s[i..i + 5] == "MSIE "
    ensures FoldedAt(s, i, "msie")
  {
    forall k | 0 <= k < 4
      ensures Lower(s[i + k]) == "msie"[k]
    {
      assert s[i + k] == s[i..i + 5][k];
    }
  }

  /** "MSIE ", digits, then anything that is not a digit: the match reads those digits. */
  lemma MsieAtReads(s: string, i: nat, digits: string, rest: string)
    requires i <= |s| && s[i..] == "MSIE " + digits + rest
    requires digits != [] && AllDigits(digits)
    requires rest == [] || !IsDigit(rest[0])
    ensures MsieAt(s, i) == Some(DigitsValue(digits))
  {
    assert s[i..i + 5] == s[i..][..5] == "MSIE ";
    assert s[i + 5..] == s[i..][5..] == digits + rest;
    assert s[i + 5] == digits[0];
    DigitRunEndSplit(s, i + 5, digits, rest);
  }

  /** Where the leftmost MSIE match starts, trying each position from `i` on. */
  function FirstMsieFrom(s: string, i: nat): (r: Option<nat>)
    requires i <= |s|
    ensures r.Some? ==> i <= r.value <= |s| && MsieAt(s, r.value).Some?
    ensures forall j :: i <= j <= |s| && (r.None? || j < r.value) ==> MsieAt(s, j).None?
    decreases |s| - i
  {
    if MsieAt(s, i).Some? then Some(i)
    else if i == |s| then None
    else FirstMsieFrom(s, i + 1)
  }

  /** `re.exec(s)` for the MSIE pattern: the leftmost match, or `null`. */
  function FindMsie(s: string): (r: Option<nat>)
    ensures r.None? <==> forall k :: 0 <= k <= |s| ==> MsieAt(s, k).None?
    ensures r.Some? ==>
      exists k :: 0 <= k <= |s| && r == MsieAt(s, k) && forall j :: 0 <= j < k ==> MsieAt(s, j).None?
    ensures r.Some? ==> Occurs(s, "msie")
  {
    var k := FirstMsieFrom(s, 0);
    if k.None? then None else MsieAt(s, k.value)
  }

  /** No line terminator stands in `s[p..j]`, so `.*` can cover it. */
  predicate LineFree(s: string, p: nat, j: nat) {
    forall k :: p <= k < j && k < |s| ==> !IsLineTerminator(s[k])
  }

  /** The lookahead `(?=.*w)` at `p`, for a lower-case ASCII word `w`. */
  predicate LookaheadAt(s: string, p: nat, w: string) {
    exists j :: p <= j <= |s| && LineFree(s, p, j) && FoldedAt(s, j, w)
  }

  /** `mozilla\/5.0` at `j` with the `i` flag: the `.` is any non-terminator. */
  predicate MozillaAt(s: string, j: nat) {
    && FoldedAt(s, j, "mozilla/5")
    && j + 11 <= |s|
    && !IsLineTerminator(s[j + 9])
    && s[j + 10] == '0'
  }

  /** `/(?=.*mozilla\/5.0)(?=.*applewebkit)(?=.*android)/i.test(s)`. */
  predicate NativeAndroidPattern(s: string) {
    exists p :: 0 <= p <= |s|
      && (exists j :: p <= j <= |s| && LineFree(s, p, j) && MozillaAt(s, j))
      && LookaheadAt(s, p, "applewebkit")
      && LookaheadAt(s, p, "android")
  }
}
