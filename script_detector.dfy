/** `containsChinese`: a text qualifies when enough of its UTF-16 code units
    fall into the configured ranges. The pattern is compiled without the
    `u` flag, so it is matched unit by unit: a character outside the Basic
    Multilingual Plane is seen as two surrogate units. */
module ScriptDetector {
  import opened JsValue
  import opened ExtractorConfig

  /** The UTF-16 code units of one character. */
  function CharUnits(c: char): seq<int> {
    var v := c as int;
    if v < 0x1_0000 then [v]
    else [0xD800 + (v - 0x1_0000) / 0x400, 0xDC00 + (v - 0x1_0000) % 0x400]
  }

  /** The UTF-16 encoding of a string, i.e. the string as JavaScript sees it. */
  function Utf16(s: string): seq<int> {
    if s == [] then [] else CharUnits(s[0]) + Utf16(s[1..])
  }

  lemma {:induction false} Utf16Append(a: string, b: string)
    ensures Utf16(a + b) == Utf16(a) + Utf16(b)
  {
    if a != [] {
      assert (a + b)[1..] == a[1..] + b;
      Utf16Append(a[1..], b);
    } else {
      assert a + b == b;
    }
  }

  predicate InRanges(u: int, ranges: seq<CodeRange>) {
    exists i :: 0 <= i < |ranges| && ranges[i].lo <= u <= ranges[i].hi
  }

  /** The number of matches of the global character-class pattern. */
  function CountInRanges(units: seq<int>, ranges: seq<CodeRange>): nat {
    if units == [] then 0
    else (if InRanges(units[0], ranges) then 1 else 0) + CountInRanges(units[1..], ranges)
  }

  lemma {:induction false} CountAppend(a: seq<int>, b: seq<int>, ranges: seq<CodeRange>)
    ensures CountInRanges(a + b, ranges) == CountInRanges(a, ranges) + CountInRanges(b, ranges)
  {
    if a != [] {
      assert (a + b)[1..] == a[1..] + b;
      CountAppend(a[1..], b, ranges);
    } else {
      assert a + b == b;
    }
  }

  lemma {:induction false} CountZeroIff(units: seq<int>, ranges: seq<CodeRange>)
    ensures CountInRanges(units, ranges) == 0 <==> forall i :: 0 <= i < |units| ==> !InRanges(units[i], ranges)
  {
    if units != [] {
      CountZeroIff(units[1..], ranges);
      assert forall i :: 1 <= i < |units| ==> units[i] == units[1..][i - 1];
    }
  }

  function TargetCharCount(cfg: Settings, s: string): nat {
    CountInRanges(Utf16(s), Ranges(cfg))
  }

  /** `containsChinese(text)`: only a non-empty string can qualify, and only
      when at least one of its code units lies in a range. */
  predicate ContainsChinese(cfg: Settings, text: Value)
    ensures ContainsChinese(cfg, text) ==>
      && text.Str? && text.s != ""
      && exists i :: 0 <= i < |Utf16(text.s)| && InRanges(Utf16(text.s)[i], Ranges(cfg))
  {
    Truthy(text) && text.Str?
    && var n := TargetCharCount(cfg, text.s);
       CountZeroIff(Utf16(text.s), Ranges(cfg));
       n > 0 && n >= MinChineseChars(cfg)
  }

  /** The count of target code units, as a count of indices: the units at
      the first `n` positions that lie in a range. */
  lemma {:induction false} CountIsIndexSet(units: seq<int>, ranges: seq<CodeRange>, n: nat)
    requires n <= |units|
    ensures CountInRanges(units[..n], ranges) == |set i | 0 <= i < n && InRanges(units[i], ranges)|
  {
    if n == 0 {
      assert units[..0] == [];
    } else {
      CountIsIndexSet(units, ranges, n - 1);
      assert units[..n] == units[..n - 1] + [units[n - 1]];
      CountAppend(units[..n - 1], [units[n - 1]], ranges);
      assert [units[n - 1]][1..] == [];
      IndexSetSnoc(units, ranges, n);
    }
  }

  lemma IndexSetSnoc(units: seq<int>, ranges: seq<CodeRange>, n: nat)
    requires 0 < n <= |units|
    ensures |set i | 0 <= i < n && InRanges(units[i], ranges)|
         == |set i | 0 <= i < n - 1 && InRanges(units[i], ranges)| + (if InRanges(units[n - 1], ranges) then 1 else 0)
  {
    var before := set i | 0 <= i < n - 1 && InRanges(units[i], ranges);
    var upTo := set i | 0 <= i < n && InRanges(units[i], ranges);
    if InRanges(units[n - 1], ranges) {
      assert upTo == before + {n - 1};
      assert n - 1 !in before;
    } else {
      assert upTo == before;
    }
  }

  /** Text made only of characters of the Basic Multilingual Plane is one
      code unit per character. */
  lemma {:induction false} Utf16OfBmp(s: string)
    requires forall i :: 0 <= i < |s| ==> s[i] as int < 0x1_0000
    ensures |Utf16(s)| == |s|
    ensures forall i :: 0 <= i < |s| ==> Utf16(s)[i] == s[i] as int
  {
    if s != [] {
      Utf16OfBmp(s[1..]);
      assert Utf16(s) == [s[0] as int] + Utf16(s[1..]);
      forall i | 1 <= i < |s| ensures Utf16(s)[i] == s[i] as int {
        assert s[1..][i - 1] == s[i];
      }
    }
  }

  /** For text of the Basic Multilingual Plane, the number the threshold is
      compared with is the number of characters that lie in a range. */
  lemma TargetCountOfBmpText(cfg: Settings, s: string)
    requires forall i :: 0 <= i < |s| ==> s[i] as int < 0x1_0000
    ensures TargetCharCount(cfg, s) == |set i | 0 <= i < |s| && InRanges(s[i] as int, Ranges(cfg))|
  {
    var units := Utf16(s);
    Utf16OfBmp(s);
    CountIsIndexSet(units, Ranges(cfg), |units|);
    assert units[..|units|] == units;
    assert (set i | 0 <= i < |units| && InRanges(units[i], Ranges(cfg)))
        == (set i | 0 <= i < |s| && InRanges(s[i] as int, Ranges(cfg)));
  }

  /** With `min_chinese_chars: 2` and the ranges 4E00-9FFF and 3400-4DBF, one
      ideograph is rejected and two are accepted. */
  lemma ThresholdTwo(cfg: Settings)
    requires cfg.unicodeRanges == Some([CodeRange(0x4E00, 0x9FFF), CodeRange(0x3400, 0x4DBF)])
    requires cfg.minChineseChars == Some(2)
    ensures !ContainsChinese(cfg, Str("你"))
    ensures ContainsChinese(cfg, Str("你好"))
  {
    assert Utf16("你") == [0x4F60];
    assert Utf16("你好") == [0x4F60, 0x597D];
    assert Ranges(cfg)[0] == CodeRange(0x4E00, 0x9FFF);
    assert InRanges(0x4F60, Ranges(cfg)) && InRanges(0x597D, Ranges(cfg));
    var one: seq<int> := [0x4F60];
    var two: seq<int> := [0x4F60, 0x597D];
    assert one[1..] == [] && two[1..] == [0x597D] && two[1..][1..] == [];
    assert CountInRanges(one, Ranges(cfg)) == 1;
    assert CountInRanges(two, Ranges(cfg)) == 2;
  }

  /** With the threshold left at its default (absent or 0), one target code
      unit anywhere in the text is enough, and none means rejection. */
  lemma DefaultThresholdIsOneUnit(cfg: Settings, s: string)
    requires cfg.minChineseChars.None? || cfg.minChineseChars == Some(0)
    ensures ContainsChinese(cfg, Str(s)) <==>
      exists i :: 0 <= i < |Utf16(s)| && InRanges(Utf16(s)[i], Ranges(cfg))
  {
    CountZeroIff(Utf16(s), Ranges(cfg));
    assert MinChineseChars(cfg) == 1;
    if s == [] {
      assert Utf16(s) == [];
    } else if exists i :: 0 <= i < |Utf16(s)| && InRanges(Utf16(s)[i], Ranges(cfg)) {
      var i :| 0 <= i < |Utf16(s)| && InRanges(Utf16(s)[i], Ranges(cfg));
      assert TargetCharCount(cfg, s) >= 1;
      assert ContainsChinese(cfg, Str(s));
      assert exists j :: 0 <= j < |Utf16(s)| && InRanges(Utf16(s)[j], Ranges(cfg));
    } else {
      assert TargetCharCount(cfg, s) == 0;
      assert !ContainsChinese(cfg, Str(s));
    }
  }

  /** Whatever the threshold, a text with no target code unit is rejected. */
  lemma NoTargetUnitsRejected(cfg: Settings, s: string)
    requires forall i :: 0 <= i < |Utf16(s)| ==> !InRanges(Utf16(s)[i], Ranges(cfg))
    ensures !ContainsChinese(cfg, Str(s))
  {
    CountZeroIff(Utf16(s), Ranges(cfg));
  }

  /** Appending text on either side never loses qualification. */
  lemma ContainsChineseConcat(cfg: Settings, a: string, b: string)
    requires ContainsChinese(cfg, Str(a))
    ensures ContainsChinese(cfg, Str(a + b)) && ContainsChinese(cfg, Str(b + a))
  {
    Utf16Append(a, b);
    Utf16Append(b, a);
    CountAppend(Utf16(a), Utf16(b), Ranges(cfg));
    CountAppend(Utf16(b), Utf16(a), Ranges(cfg));
  }

  lemma {:induction false} DefaultRangesMissUnits(s: string)
    requires forall i :: 0 <= i < |s| ==> s[i] as int < 0x3400 || s[i] as int >= 0x1_0000
    ensures forall i :: 0 <= i < |Utf16(s)| ==> !InRanges(Utf16(s)[i], DefaultRanges)
  {
    if s != [] {
      DefaultRangesMissUnits(s[1..]);
      var head := CharUnits(s[0]);
      assert Utf16(s) == head + Utf16(s[1..]);
      forall i | 0 <= i < |Utf16(s)| ensures !InRanges(Utf16(s)[i], DefaultRanges) {
        if i >= |head| {
          assert Utf16(s)[i] == Utf16(s[1..])[i - |head|];
        }
      }
    }
  }

  /** Under the default ranges, neither ASCII-range text nor characters
      outside the Basic Multilingual Plane (CJK extension B and later, whose
      surrogate units lie outside every default range) are ever detected. */
  lemma DefaultRangesMissAstral(cfg: Settings, s: string)
    requires cfg.unicodeRanges.None?
    requires forall i :: 0 <= i < |s| ==> s[i] as int < 0x3400 || s[i] as int >= 0x1_0000
    ensures !ContainsChinese(cfg, Str(s))
  {
    DefaultRangesMissUnits(s);
    NoTargetUnitsRejected(cfg, s);
  }
}
