/**
 * The two Flash version readers: `_parsePluginVersion`, for a dotted version
 * property, and `_parsePluginDescription`, for free text such as
 * "Shockwave Flash 18.0 r0" or the ActiveX descriptor "WIN 18,0,0,203".
 */
module Plugins {
  import opened Wrappers
  import opened JsText

  /** `[major, minor, patch]` as `parseInt` produced them. */
  datatype FlashVersion = FlashVersion(major: JsInt, minor: JsInt, patch: JsInt)

  /**
   * `_parsePluginVersion(version)`: split on ".", and if the first two fields
   * are non-empty read them with `parseInt`; the third field, when it is
   * missing or empty, reads as `parseInt(0)`.  A field that is not a number
   * gives NaN, not `null`.
   */
  function ParsePluginVersion(version: string): (r: Option<FlashVersion>)
    ensures version == "" ==> r.None?
    ensures
      var fields := Split(version, '.');
      && (r.Some? <==> |fields| >= 2 && fields[0] != "" && fields[1] != "")
      && (r.Some? ==> r.value == FlashVersion(ParseInt(fields[0]), ParseInt(fields[1]),
            if |fields| >= 3 && fields[2] != "" then ParseInt(fields[2]) else Int(0)))
  {
    if version == "" then None else VersionOfFields(Split(version, '.'))
  }

  /** The version the dot-separated fields of a version property denote. */
  function VersionOfFields(fields: seq<string>): Option<FlashVersion> {
    if |fields| >= 2 && fields[0] != "" && fields[1] != "" then
      var patch := if |fields| >= 3 && fields[2] != "" then ParseInt(fields[2]) else Int(0);
      Some(FlashVersion(ParseInt(fields[0]), ParseInt(fields[1]), patch))
    else None
  }

  /** The first field of a split is the text before the first separator. */
  lemma SplitFirst(s: string, sep: char)
    ensures Split(s, sep)[0] == s[..IndexOf(s, sep, 0)]
  {
  }

  /**
   * `_parsePluginVersion` gives a version exactly when a "." stands after a
   * non-empty first field and is followed by something other than ".".
   */
  lemma ParsePluginVersionDefined(version: string)
    ensures ParsePluginVersion(version).Some? <==>
      exists k :: 0 < k && k + 1 < |version| && version[k] == '.' && version[k + 1] != '.'
        && '.' !in version[..k]
  {
    var k := IndexOf(version, '.', 0);
    if k < |version| {
      var rest := version[k + 1..];
      assert Split(version, '.') == [version[..k]] + Split(rest, '.');
      SplitFirst(rest, '.');
      var k' := IndexOf(rest, '.', 0);
      assert Split(version, '.')[1] == rest[..k'];
      if ParsePluginVersion(version).Some? {
        assert 0 < k && k + 1 < |version| && version[k + 1] != '.';
      }
    } else {
      assert Split(version, '.') == [version];
    }
  }

  /** Only the first three fields are read. */
  lemma VersionOfFieldsPrefix(fields: seq<string>)
    requires |fields| >= 3
    ensures VersionOfFields(fields) == VersionOfFields(fields[..3])
  {
    var short := fields[..3];
    assert short[0] == fields[0] && short[1] == fields[1] && short[2] == fields[2];
  }

  /** Joining dot-free fields with "." and reading them back sees those very fields. */
  lemma ParsePluginVersionJoin(fields: seq<string>)
    requires |fields| >= 2
    requires forall f :: f in fields ==> '.' !in f
    ensures ParsePluginVersion(Join(fields, '.')) == VersionOfFields(fields)
  {
    var s := Join(fields, '.');
    assert Split(s, '.') == fields by { SplitJoin(fields, '.'); }
    assert s != "" by { assert s == fields[0] + ['.'] + Join(fields[1..], '.'); }
  }

  /** Fields after the third do not change the result. */
  lemma ParsePluginVersionIgnoresExtraFields(fields: seq<string>)
    requires |fields| >= 3
    requires forall f :: f in fields ==> '.' !in f
    ensures ParsePluginVersion(Join(fields, '.')) == ParsePluginVersion(Join(fields[..3], '.'))
  {
    ParsePluginVersionJoin(fields);
    assert forall f :: f in fields[..3] ==> f in fields;
    ParsePluginVersionJoin(fields[..3]);
    VersionOfFieldsPrefix(fields);
  }

  /** With two fields, or an empty third one, the patch defaults to 0. */
  lemma ParsePluginVersionPatchDefault(fields: seq<string>)
    requires |fields| == 2 || (|fields| == 3 && fields[2] == "")
    requires fields[0] != "" && fields[1] != ""
    requires forall f :: f in fields ==> '.' !in f
    ensures ParsePluginVersion(Join(fields, '.')) ==
      Some(FlashVersion(ParseInt(fields[0]), ParseInt(fields[1]), Int(0)))
  {
    ParsePluginVersionJoin(fields);
  }

  /**
   * `s.match(/[\d]+/g)` as a list: every maximal run of digits, left to right
   * (the empty list standing for the `null` that `match` returns then).
   */
  function DigitRuns(s: string): (runs: seq<string>)
    ensures forall r :: r in runs ==> r != "" && AllDigits(r)
    decreases |s|
  {
    if s == [] then []
    else if !IsDigit(s[0]) then DigitRuns(s[1..])
    else
      var e := DigitRunEnd(s, 0);
      [s[..e]] + DigitRuns(s[e..])
  }

  /** A string without digits has no runs, and only such a string. */
  lemma {:induction false} DigitRunsEmpty(s: string)
    ensures DigitRuns(s) == [] <==> forall k :: 0 <= k < |s| ==> !IsDigit(s[k])
    decreases |s|
  {
    if s != [] && !IsDigit(s[0]) {
      DigitRunsEmpty(s[1..]);
      assert forall k :: 1 <= k < |s| ==> s[k] == s[1..][k - 1];
    }
  }

  /** Digits at `i` and `j` with a non-digit at `k` between them. */
  ghost predicate DigitGapDigit(s: string, i: nat, k: nat, j: nat) {
    i < k < j < |s| && IsDigit(s[i]) && !IsDigit(s[k]) && IsDigit(s[j])
  }

  /** Two digits of `s` are separated by a non-digit: `s` holds two separate numbers. */
  ghost predicate SeparateDigits(s: string) {
    exists i, k, j :: DigitGapDigit(s, i, k, j)
  }

  /** A leading non-digit neither makes nor breaks a separation. */
  lemma SeparateDigitsShift(s: string)
    requires s != [] && !IsDigit(s[0])
    ensures SeparateDigits(s) <==> SeparateDigits(s[1..])
  {
    var t := s[1..];
    if SeparateDigits(s) {
      var i: nat, k: nat, j: nat :| DigitGapDigit(s, i, k, j);
      assert DigitGapDigit(t, i - 1, k - 1, j - 1);
    }
    if SeparateDigits(t) {
      var i: nat, k: nat, j: nat :| DigitGapDigit(t, i, k, j);
      assert DigitGapDigit(s, i + 1, k + 1, j + 1);
    }
  }

  /** After a leading run of digits, a separation needs one more digit further on. */
  lemma SeparateDigitsAfterRun(s: string)
    requires s != [] && IsDigit(s[0])
    ensures SeparateDigits(s) <==> DigitRuns(s[DigitRunEnd(s, 0)..]) != []
  {
    var e := DigitRunEnd(s, 0);
    var t := s[e..];
    DigitRunsEmpty(t);
    if SeparateDigits(s) {
      var i: nat, k: nat, j: nat :| DigitGapDigit(s, i, k, j);
      assert forall m :: 0 <= m < e ==> IsDigit(s[m]) by {
        assert forall m :: 0 <= m < e ==> s[m] == s[0..e][m];
      }
      assert t[j - e] == s[j];
    }
    if DigitRuns(t) != [] {
      var j :| 0 <= j < |t| && IsDigit(t[j]);
      assert j > 0;
      assert DigitGapDigit(s, 0, e, e + j);
    }
  }

  /** At least two runs exist exactly when the text holds two separate numbers. */
  lemma {:induction false} TwoDigitRuns(s: string)
    ensures |DigitRuns(s)| >= 2 <==> SeparateDigits(s)
    decreases |s|
  {
    if s == [] {
      assert !SeparateDigits(s);
    } else if !IsDigit(s[0]) {
      TwoDigitRuns(s[1..]);
      SeparateDigitsShift(s);
    } else {
      SeparateDigitsAfterRun(s);
    }
  }

  /** Text without digits, then a run, then a non-digit: the run comes first. */
  lemma {:induction false} DigitRunsCons(pre: string, digits: string, rest: string)
    requires forall k :: 0 <= k < |pre| ==> !IsDigit(pre[k])
    requires digits != [] && AllDigits(digits)
    requires rest == [] || !IsDigit(rest[0])
    ensures DigitRuns(pre + digits + rest) == [digits] + DigitRuns(rest)
    decreases |pre|
  {
    var s := pre + digits + rest;
    if pre == [] {
      assert s == digits + rest;
      DigitRunEndAt(s, 0, |digits|);
      assert s[..|digits|] == digits && s[|digits|..] == rest;
    } else {
      assert s[1..] == pre[1..] + digits + rest;
      DigitRunsCons(pre[1..], digits, rest);
    }
  }

  /**
   * `_parsePluginDescription(description)`: the first three runs of digits,
   * kept only when there are at least two; a missing third reads as 0.
   */
  function ParsePluginDescription(description: string): (r: Option<FlashVersion>)
    ensures description == "" ==> r.None?
    ensures
      var runs := DigitRuns(description);
      && (r.Some? <==> |runs| >= 2)
      && (r.Some? ==> r.value == FlashVersion(ParseInt(runs[0]), ParseInt(runs[1]),
            if |runs| >= 3 then ParseInt(runs[2]) else Int(0)))
  {
    if description == "" then None
    else
      var matches := DigitRuns(description);
      if matches == [] then None
      else
        var kept := if |matches| >= 3 then matches[..3] else matches;
        if |kept| >= 2 then
          var patch := if |kept| >= 3 then ParseInt(kept[2]) else Int(0);
          Some(FlashVersion(ParseInt(kept[0]), ParseInt(kept[1]), patch))
        else None
  }

  /**
   * The description gives a version exactly when it holds two separate runs
   * of digits, and the version is the values of the first three runs.
   */
  lemma ParsePluginDescriptionSpec(description: string)
    ensures ParsePluginDescription(description).Some? <==> SeparateDigits(description)
    ensures
      var runs := DigitRuns(description);
      ParsePluginDescription(description).Some? ==>
        ParsePluginDescription(description).value == FlashVersion(
          Int(DigitsValue(runs[0])),
          Int(DigitsValue(runs[1])),
          Int(if |runs| >= 3 then DigitsValue(runs[2]) else 0))
  {
    TwoDigitRuns(description);
    var runs := DigitRuns(description);
    if |runs| >= 2 {
      assert runs[0] in runs && runs[1] in runs;
      ParseIntDigits(runs[0]);
      ParseIntDigits(runs[1]);
      if |runs| >= 3 {
        assert runs[2] in runs;
        ParseIntDigits(runs[2]);
      }
    }
  }

  /** Text without digits contributes no run. */
  lemma {:induction false} DigitRunsSkip(pre: string, s: string)
    requires forall k :: 0 <= k < |pre| ==> !IsDigit(pre[k])
    ensures DigitRuns(pre + s) == DigitRuns(s)
    decreases |pre|
  {
    if pre != [] {
      assert (pre + s)[1..] == pre[1..] + s;
      DigitRunsSkip(pre[1..], s);
    } else {
      assert pre + s == s;
    }
  }

  /** A comma-separated list of numbers reads back as those numbers. */
  lemma {:induction false} DigitRunsCommaList(nums: seq<string>)
    requires |nums| >= 1
    requires forall n :: n in nums ==> n != "" && AllDigits(n)
    ensures DigitRuns(Join(nums, ',')) == nums
    decreases |nums|
  {
    assert nums[0] in nums;
    if |nums| == 1 {
      DigitRunsCons([], nums[0], []);
      assert [] + nums[0] + [] == nums[0];
    } else {
      var tail := Join(nums[1..], ',');
      assert DigitRuns(tail) == nums[1..] by {
        assert forall n :: n in nums[1..] ==> n in nums;
        DigitRunsCommaList(nums[1..]);
      }
      assert DigitRuns(Join(nums, ',')) == [nums[0]] + DigitRuns(tail) by {
        DigitRunsSkip([','], tail);
        DigitRunsCons([], nums[0], [','] + tail);
        assert [] + nums[0] + ([','] + tail) == Join(nums, ',');
      }
      assert nums == [nums[0]] + nums[1..];
    }
  }

  /**
   * An ActiveX descriptor, a platform word and a comma-separated version
   * such as "WIN 18,0,0,203", reads as its first three numbers.
   */
  lemma ParsePluginDescriptionCommaList(platform: string, nums: seq<string>)
    requires forall k :: 0 <= k < |platform| ==> !IsDigit(platform[k])
    requires |nums| >= 2
    requires forall n :: n in nums ==> n != "" && AllDigits(n)
    ensures ParsePluginDescription(platform + Join(nums, ',')) == Some(FlashVersion(
      Int(DigitsValue(nums[0])), Int(DigitsValue(nums[1])), Int(if |nums| >= 3 then DigitsValue(nums[2]) else 0)))
  {
    var s := platform + Join(nums, ',');
    DigitRunsSkip(platform, Join(nums, ','));
    DigitRunsCommaList(nums);
    assert nums[0] in nums && nums[1] in nums;
    assert |s| > 0 by { assert s[|platform|..] == Join(nums, ','); }
    ParsePluginDescriptionSpec(s);
    TwoDigitRuns(s);
  }

  lemma ActiveXDescriptorText()
    ensures "WIN " + Join(["18", "0", "0", "203"], ',') == "WIN 18,0,0,203"
  {
  }

  lemma ActiveXDescriptorFields()
    ensures forall n :: n in ["18", "0", "0", "203"] ==> n != "" && AllDigits(n)
    ensures forall k :: 0 <= k < |"WIN "| ==> !IsDigit("WIN "[k])
    ensures DigitsValue("18") == 18 && DigitsValue("0") == 0
  {
    assert "18"[..1] == "1";
  }

  /** "WIN 18,0,0,203" reads as 18.0.0. */
  lemma ActiveXDescriptorExample()
    ensures ParsePluginDescription("WIN 18,0,0,203") == Some(FlashVersion(Int(18), Int(0), Int(0)))
  {
    ActiveXDescriptorFields();
    ParsePluginDescriptionCommaList("WIN ", ["18", "0", "0", "203"]);
    ActiveXDescriptorText();
  }
}
