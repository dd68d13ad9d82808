/**
 * The pieces of JavaScript's string and number semantics the detector relies
 * on: the character classes `\d` and `\s`, ASCII case folding, `parseInt`
 * with radix 10, and `String.prototype.split` on a one-character separator.
 */
module JsText {

  /** The class `\d`: ASCII decimal digits only. */
  predicate IsDigit(c: char) {
    '0' <= c <= '9'
  }

  predicate AllDigits(s: string) {
    forall k :: 0 <= k < |s| ==> IsDigit(s[k])
  }

  /** The line terminators, which `.` in a regular expression does not match. */
  predicate IsLineTerminator(c: char) {
    c == '\n' || c == '\r' || c == '\U{2028}' || c == '\U{2029}'
  }

  /**
   * The class `\s`, which is also the set of characters `parseInt` skips:
   * the white space characters (tab, vertical tab, form feed, no-break space,
   * byte order mark and the space separators) and the line terminators.
   */
  predicate IsSpace(c: char) {
    || c == '\t' || c == '\U{B}' || c == '\U{C}' || c == ' '
    || c == '\U{A0}' || c == '\U{FEFF}' || c == '\U{1680}'
    || ('\U{2000}' <= c <= '\U{200A}')
    || c == '\U{202F}' || c == '\U{205F}' || c == '\U{3000}'
    || IsLineTerminator(c)
  }

  /**
   * ASCII lower-casing.  For a pattern made only of ASCII characters this is
   * exactly how the `i` flag of a non-Unicode regular expression compares:
   * its canonicalisation refuses to map a non-ASCII character onto an ASCII
   * one, so only the ASCII letters fold.
   */
  function Lower(c: char): (r: char)
    ensures 'A' <= c <= 'Z' ==> r as int == c as int + 32
    ensures !('A' <= c <= 'Z') ==> r == c
  {
    if 'A' <= c <= 'Z' then (c as int + 32) as char else c
  }

  function DigitValue(c: char): (d: nat)
    requires IsDigit(c)
    ensures d < 10
  {
    c as int - '0' as int
  }

  /** The number a non-empty run of decimal digits denotes (0 for the empty run). */
  function DigitsValue(s: string): nat
    requires AllDigits(s)
  {
    if s == [] then 0 else 10 * DigitsValue(s[..|s| - 1]) + DigitValue(s[|s| - 1])
  }

  /** The end of the maximal run of digits that starts at `i`. */
  function DigitRunEnd(s: string, i: nat): (e: nat)
    requires i <= |s|
    ensures i <= e <= |s|
    ensures AllDigits(s[i..e])
    ensures e == |s| || !IsDigit(s[e])
    decreases |s| - i
  {
    if i < |s| && IsDigit(s[i]) then DigitRunEnd(s, i + 1) else i
  }

  /** A digit run is determined by where its first non-digit stands. */
  lemma DigitRunEndAt(s: string, i: nat, e: nat)
    requires i <= e <= |s|
    requires forall k :: i <= k < e ==> IsDigit(s[k])
    requires e == |s| || !IsDigit(s[e])
    ensures DigitRunEnd(s, i) == e
  {
  }

  /** Where `s[a..]` is a run of digits followed by a non-digit, the run ends right there. */
  lemma DigitRunEndSplit(s: string, a: nat, digits: string, rest: string)
    requires a <= |s| && s[a..] == digits + rest
    requires AllDigits(digits)
    requires rest == [] || !IsDigit(rest[0])
    ensures DigitRunEnd(s, a) == a + |digits|
    ensures s[a..a + |digits|] == digits && s[a + |digits|..] == rest
  {
    assert forall k :: a <= k < a + |digits| ==> s[k] == s[a..][k - a] == digits[k - a];
    assert a + |digits| < |s| ==> s[a + |digits|] == s[a..][|digits|] == rest[0];
    DigitRunEndAt(s, a, a + |digits|);
    assert s[a..a + |digits|] == s[a..][..|digits|];
    assert s[a + |digits|..] == s[a..][|digits|..];
  }

  /** A JavaScript number as `parseInt` can produce it. */
  datatype JsInt = NaN | Int(i: int)

  /** Drops the leading `\s` characters, as `parseInt` does first. */
  function TrimStart(s: string): (t: string)
    ensures |t| <= |s| && t == s[|s| - |t|..]
    ensures t == [] || !IsSpace(t[0])
    ensures forall k :: 0 <= k < |s| - |t| ==> IsSpace(s[k])
  {
    if s != [] && IsSpace(s[0]) then TrimStart(s[1..]) else s
  }

  /** Leading white space is all `TrimStart` removes. */
  lemma {:induction false} TrimStartSpaces(ws: string, t: string)
    requires forall k :: 0 <= k < |ws| ==> IsSpace(ws[k])
    requires t == [] || !IsSpace(t[0])
    ensures TrimStart(ws + t) == t
    decreases |ws|
  {
    if ws == [] {
      assert ws + t == t;
    } else {
      assert (ws + t)[1..] == ws[1..] + t;
      TrimStartSpaces(ws[1..], t);
    }
  }

  /** White space in front does not change what `TrimStart` leaves. */
  lemma {:induction false} TrimStartSkips(ws: string, t: string)
    requires forall k :: 0 <= k < |ws| ==> IsSpace(ws[k])
    ensures TrimStart(ws + t) == TrimStart(t)
    decreases |ws|
  {
    if ws == [] {
      assert ws + t == t;
    } else {
      assert (ws + t)[0] == ws[0];
      assert (ws + t)[1..] == ws[1..] + t;
      TrimStartSkips(ws[1..], t);
    }
  }

  /** A digit, or a sign followed by a digit, stands at the start of `t`. */
  predicate StartsWithNumber(t: string) {
    || (|t| >= 1 && IsDigit(t[0]))
    || (|t| >= 2 && (t[0] == '-' || t[0] == '+') && IsDigit(t[1]))
  }

  /**
   * `parseInt(s, 10)`: skip leading white space, then read a number.
   */
  function ParseInt(s: string): (r: JsInt)
    ensures r.Int? <==> StartsWithNumber(TrimStart(s))
  {
    ParseNumber(TrimStart(s))
  }

  /**
   * What `parseInt` reads once the white space is gone: an optional sign,
   * then the longest run of decimal digits; no digits gives NaN.
   */
  function ParseNumber(t: string): (r: JsInt)
    ensures r.Int? <==> StartsWithNumber(t)
  {
    var negative := t != [] && t[0] == '-';
    var body := if t != [] && (t[0] == '-' || t[0] == '+') then t[1..] else t;
    var e := DigitRunEnd(body, 0);
    if e == 0 then NaN
    else
      var magnitude: int := DigitsValue(body[..e]);
      Int(if negative then -magnitude else magnitude)
  }

  /** Digits, then anything that is not a digit: the digits are read. */
  lemma ParseNumberDigits(digits: string, rest: string)
    requires digits != [] && AllDigits(digits)
    requires rest == [] || !IsDigit(rest[0])
    ensures ParseNumber(digits + rest) == Int(DigitsValue(digits))
  {
    var t := digits + rest;
    assert t[0] == digits[0];
    DigitRunEndSplit(t, 0, digits, rest);
  }

  /** A sign, digits, then anything that is not a digit: the digits are read, negated after a minus. */
  lemma ParseNumberSignedDigits(sign: char, digits: string, rest: string)
    requires sign == '-' || sign == '+'
    requires digits != [] && AllDigits(digits)
    requires rest == [] || !IsDigit(rest[0])
    ensures ParseNumber([sign] + digits + rest) ==
      Int(if sign == '-' then -(DigitsValue(digits) as int) else DigitsValue(digits))
  {
    var t := [sign] + digits + rest;
    var body := t[1..];
    assert t[0] == sign && body == digits + rest;
    DigitRunEndSplit(body, 0, digits, rest);
    assert body[..|digits|] == digits;
  }

  /** An optional sign, digits, then anything that is not a digit: the digits are read, negated after a minus. */
  lemma ParseNumberSigned(sign: string, digits: string, rest: string)
    requires sign == "" || sign == "-" || sign == "+"
    requires digits != [] && AllDigits(digits)
    requires rest == [] || !IsDigit(rest[0])
    ensures ParseNumber(sign + digits + rest) ==
      Int(if sign == "-" then -(DigitsValue(digits) as int) else DigitsValue(digits))
  {
    if sign == "" {
      assert sign + digits + rest == digits + rest;
      ParseNumberDigits(digits, rest);
    } else {
      ParseNumberSignedDigits(sign[0], digits, rest);
      assert sign == [sign[0]];
    }
  }

  /**
   * White space, an optional sign, digits, then anything that is not a digit:
   * `parseInt` reads the digits, negated after a minus sign.
   */
  lemma ParseIntSigned(ws: string, sign: string, digits: string, rest: string)
    requires forall k :: 0 <= k < |ws| ==> IsSpace(ws[k])
    requires sign == "" || sign == "-" || sign == "+"
    requires digits != [] && AllDigits(digits)
    requires rest == [] || !IsDigit(rest[0])
    ensures ParseInt(ws + sign + digits + rest) ==
      Int(if sign == "-" then -(DigitsValue(digits) as int) else DigitsValue(digits))
  {
    var t := sign + digits + rest;
    assert ws + sign + digits + rest == ws + t;
    assert t[0] == if sign == "" then digits[0] else sign[0];
    TrimStartSpaces(ws, t);
    ParseNumberSigned(sign, digits, rest);
  }

  /** Leading white space does not change what `parseInt` reads. */
  lemma ParseIntSkipsSpace(ws: string, t: string)
    requires forall k :: 0 <= k < |ws| ==> IsSpace(ws[k])
    ensures ParseInt(ws + t) == ParseInt(t)
  {
    TrimStartSkips(ws, t);
  }

  /** On a digit run followed by anything that is not a digit, `parseInt` reads the run. */
  lemma ParseIntLeadingDigits(digits: string, rest: string)
    requires digits != [] && AllDigits(digits)
    requires rest == [] || !IsDigit(rest[0])
    ensures ParseInt(digits + rest) == Int(DigitsValue(digits))
  {
    var t := digits + rest;
    assert t[0] == digits[0];
    TrimStartSpaces([], t);
    assert [] + t == t;
    ParseNumberDigits(digits, rest);
  }

  /** `parseInt` of a digit string is its value. */
  lemma ParseIntDigits(digits: string)
    requires digits != [] && AllDigits(digits)
    ensures ParseInt(digits) == Int(DigitsValue(digits))
  {
    ParseIntLeadingDigits(digits, []);
    assert digits + [] == digits;
  }

  /** The first index at or after `i` holding `c`, or `|s|` when there is none. */
  function IndexOf(s: string, c: char, i: nat): (k: nat)
    requires i <= |s|
    ensures i <= k <= |s|
    ensures k < |s| ==> s[k] == c
    ensures forall j :: i <= j < k ==> s[j] != c
    decreases |s| - i
  {
    if i == |s| || s[i] == c then i else IndexOf(s, c, i + 1)
  }

  /** The first occurrence is determined by where `c` first stands. */
  lemma {:induction false} IndexOfAt(s: string, c: char, i: nat, k: nat)
    requires i <= k <= |s|
    requires forall j :: i <= j < k ==> s[j] != c
    requires k == |s| || s[k] == c
    ensures IndexOf(s, c, i) == k
    decreases k - i
  {
    if i < k {
      IndexOfAt(s, c, i + 1, k);
    }
  }

  /** `s.split(sep)` for a one-character separator: the fields between separators. */
  function Split(s: string, sep: char): (fields: seq<string>)
    ensures |fields| >= 1
    ensures forall f :: f in fields ==> sep !in f
    decreases |s|
  {
    var k := IndexOf(s, sep, 0);
    if k == |s| then
      assert s[..k] == s;
      [s]
    else
      assert sep !in s[..k];
      [s[..k]] + Split(s[k + 1..], sep)
  }

  /** Puts the fields back together, one separator between neighbours. */
  function Join(fields: seq<string>, sep: char): string
    requires |fields| >= 1
    decreases |fields|
  {
    if |fields| == 1 then fields[0] else fields[0] + [sep] + Join(fields[1..], sep)
  }

  /** Splitting loses nothing: joining the fields again gives the string back. */
  lemma {:induction false} JoinSplit(s: string, sep: char)
    ensures Join(Split(s, sep), sep) == s
    decreases |s|
  {
    var k := IndexOf(s, sep, 0);
    if k < |s| {
      JoinSplit(s[k + 1..], sep);
      assert s == s[..k] + [sep] + s[k + 1..];
    }
  }

  /** A separator-free string is one field. */
  lemma SplitSingle(a: string, sep: char)
    requires sep !in a
    ensures Split(a, sep) == [a]
  {
    IndexOfAt(a, sep, 0, |a|);
  }

  /** The text before the first separator is the first field; the rest is split on. */
  lemma SplitCons(a: string, rest: string, sep: char)
    requires sep !in a
    ensures Split(a + [sep] + rest, sep) == [a] + Split(rest, sep)
  {
    var s := a + [sep] + rest;
    assert forall j :: 0 <= j < |a| ==> s[j] == a[j] && s[j] != sep;
    IndexOfAt(s, sep, 0, |a|);
    assert s[..|a|] == a;
    assert s[|a| + 1..] == rest;
  }

  /** Splitting inverts joining, for fields that hold no separator. */
  lemma {:induction false} SplitJoin(fields: seq<string>, sep: char)
    requires |fields| >= 1
    requires forall f :: f in fields ==> sep !in f
    ensures Split(Join(fields, sep), sep) == fields
    decreases |fields|
  {
    if |fields| == 1 {
      SplitSingle(fields[0], sep);
    } else {
      assert fields[0] in fields;
      assert forall f :: f in fields[1..] ==> f in fields;
      SplitJoin(fields[1..], sep);
      SplitCons(fields[0], Join(fields[1..], sep), sep);
      assert fields == [fields[0]] + fields[1..];
    }
  }
}
