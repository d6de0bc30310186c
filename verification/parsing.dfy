/**
 * The two list parsers: `parse_numeric_list`, which reads a comma- or
 * whitespace-separated list of decimals all-or-nothing, and
 * `parse_values_attribute`, which reads a `;`-separated keyframe list whose
 * entries must be all numeric lists or all colours.
 */
module Parsing {
  import opened Wrappers
  import opened Text
  import opened Values

  /** One token as `parse_numeric_list` reads it: stripped, then rejected when
      empty or not a decimal, otherwise read with `float`. */
  function ReadToken(p: string): Option<real> {
    var q := Strip(p);
    if q != [] && IsFloatStr(q) then Some(ParseFloat(q)) else None
  }

  /** What `parse_numeric_list(s)` returns: one number per token of the
      stripped text, or `None` as soon as one token is not a number. */
  function NumericList(s: string): (r: Option<seq<real>>)
    ensures r.Some? ==> r.value != []
  {
    MapOption(Tokens(Strip(s)), ReadToken)
  }

  /** `parse_numeric_list`: the loop that appends one number per token and
      gives up at the first token that is empty or not a decimal. */
  method ParseNumericList(s: string) returns (r: Option<seq<real>>)
    ensures r == NumericList(s)
  {
    var parts := Tokens(Strip(s));
    var nums: seq<real> := [];
    for i := 0 to |parts|
      invariant MapOption(parts[..i], ReadToken) == Some(nums)
    {
      MapOptionStep(parts, ReadToken, i);
      var p := Strip(parts[i]);
      if p != [] && IsFloatStr(p) {
        nums := nums + [ParseFloat(p)];
      } else {
        MapOptionAbort(parts, ReadToken, i + 1);
        return None;
      }
    }
    assert parts[..|parts|] == parts;
    return Some(nums);
  }

  /** A token is read exactly when its stripped text is a decimal (the
      emptiness test adds nothing), and its value is that decimal's. */
  lemma ReadTokenDecimal(p: string)
    ensures ReadToken(p).Some? <==> IsDecimal(Strip(p))
    ensures ReadToken(p).Some? ==> ReadToken(p).value == DecimalValue(Strip(p))
  {
    StripUnchanged(Strip(p));
  }

  /** A written decimal is read back as the number its sign and digits denote. */
  lemma ReadTokenOfDecimalText(negative: bool, whole: string, fraction: string)
    requires whole != [] && AllDigits(whole) && AllDigits(fraction)
    ensures var m := DigitsValue(whole) as real + DigitsValue(fraction) as real / Pow10(|fraction|) as real;
      ReadToken(DecimalText(negative, whole, fraction)) == Some(if negative then -m else m)
  {
    var x := DecimalText(negative, whole, fraction);
    DecimalTextUnstripped(negative, whole, fraction);
    DecimalTextRoundTrip(negative, whole, fraction);
    ReadTokenDecimal(x);
    assert ReadToken(x) == Some(DecimalValue(x));
    DecimalValueOfText(negative, whole, fraction);
  }

  /** A decimal text has no whitespace to strip. */
  lemma DecimalTextUnstripped(negative: bool, whole: string, fraction: string)
    requires whole != [] && AllDigits(whole) && AllDigits(fraction)
    ensures Strip(DecimalText(negative, whole, fraction)) == DecimalText(negative, whole, fraction)
  {
    var x := DecimalText(negative, whole, fraction);
    DecimalCharacters(negative, whole, fraction);
    assert !IsDelimiter(x[0]) && !IsDelimiter(x[|x| - 1]);
    StripUnchanged(x);
  }

  /** Blank text, and text that after stripping starts or ends with a comma,
      has an empty token and is not a numeric list. */
  lemma NumericListEmptyToken(s: string, k: nat)
    requires k < |Tokens(Strip(s))| && Tokens(Strip(s))[k] == []
    ensures NumericList(s) == None
  {
    MapOptionAll(Tokens(Strip(s)), ReadToken);
  }

  /** Words separated by any runs of commas and whitespace are tokenised back
      into those words, so the list reads exactly as the words read one by one. */
  lemma NumericListOfInterleave(words: seq<string>, gaps: seq<string>)
    requires |words| == |gaps| + 1
    requires forall k :: 0 <= k < |words| ==> IsWord(words[k])
    requires forall k :: 0 <= k < |gaps| ==> IsDelimiterRun(gaps[k])
    ensures NumericList(Interleave(words, gaps)) == MapOption(words, ReadToken)
  {
    var x := Interleave(words, gaps);
    InterleaveEnds(words, gaps);
    assert !IsSpace(x[0]) && !IsSpace(x[|x| - 1]);
    StripUnchanged(x);
    TokensOfInterleave(words, gaps);
  }

  /** The decimals of a list written as `DecimalText`s separated by runs of
      commas and whitespace read back as their values, one per entry and in order. */
  lemma NumericListOfDecimals(negative: seq<bool>, whole: seq<string>, fraction: seq<string>, gaps: seq<string>)
    requires |negative| == |whole| == |fraction| == |gaps| + 1
    requires forall k :: 0 <= k < |whole| ==> whole[k] != [] && AllDigits(whole[k]) && AllDigits(fraction[k])
    requires forall k :: 0 <= k < |gaps| ==> IsDelimiterRun(gaps[k])
    ensures var texts := seq(|whole|, k requires 0 <= k < |whole| => DecimalText(negative[k], whole[k], fraction[k]));
      && NumericList(Interleave(texts, gaps)).Some?
      && |NumericList(Interleave(texts, gaps)).value| == |whole|
      && forall k :: 0 <= k < |whole| ==> Some(NumericList(Interleave(texts, gaps)).value[k]) == ReadToken(texts[k])
  {
    var texts := seq(|whole|, k requires 0 <= k < |whole| => DecimalText(negative[k], whole[k], fraction[k]));
    forall k | 0 <= k < |texts|
      ensures IsWord(texts[k]) && ReadToken(texts[k]).Some?
    {
      ReadTokenOfDecimalText(negative[k], whole[k], fraction[k]);
      DecimalCharacters(negative[k], whole[k], fraction[k]);
    }
    NumericListOfInterleave(texts, gaps);
    MapOptionAll(texts, ReadToken);
  }

  /** A doubled comma is one delimiter run, not an empty token: `a,,b`
      reads as the two words `a` and `b`. */
  lemma DoubledCommaAccepted(a: string, b: string)
    requires IsWord(a) && IsWord(b)
    ensures NumericList(a + ",," + b) == MapOption([a, b], ReadToken)
  {
    assert Interleave([a, b], [",,"]) == a + ",," + b;
    NumericListOfInterleave([a, b], [",,"]);
  }

  /** A decimal text holds no whitespace and no comma, so it is one token;
      in particular neither of its ends is whitespace. */
  lemma DecimalCharacters(negative: bool, whole: string, fraction: string)
    requires whole != [] && AllDigits(whole) && AllDigits(fraction)
    ensures var x := DecimalText(negative, whole, fraction);
      forall i :: 0 <= i < |x| ==> !IsDelimiter(x[i])
  {
    var x := DecimalText(negative, whole, fraction);
    var sign := if negative then "-" else "";
    var tail := FractionTail(fraction);
    assert x == sign + whole + tail;
    forall i | 0 <= i < |x| ensures !IsDelimiter(x[i]) {
      var c := x[i];
      if i < |sign| {
        assert c == '-';
      } else if i < |sign| + |whole| {
        assert c == whole[i - |sign|];
        NotDelimiter(c);
      } else if i == |sign| + |whole| {
        assert c == '.';
      } else {
        assert c == fraction[i - |sign| - |whole| - 1];
        NotDelimiter(c);
      }
    }
  }

  lemma NotDelimiter(c: char)
    requires IsDigit(c)
    ensures !IsDelimiter(c)
  {
  }


  /** One resolved value: a list of numbers (a Python list) or a colour (a Python 3-tuple). */
  datatype Keyframe = Numbers(xs: seq<real>) | Color(rgb: Rgb)

  /** The shape every parsed keyframe has: a non-empty list, or channels in 0..255. */
  predicate WellFormed(kf: Keyframe) {
    match kf
    case Numbers(xs) => xs != []
    case Color(c) => InRange(c)
  }

  /** How `parse_values_attribute` reads one segment once stripped: a numeric
      list first, otherwise a hex colour, otherwise nothing. */
  function Classify(segment: string): (r: Option<Keyframe>)
    ensures r.Some? ==> WellFormed(r.value)
  {
    var kf := Strip(segment);
    match NumericList(kf)
    case Some(nums) => Some(Numbers(nums))
    case None => if IsHexColor(kf) then Some(Color(HexToRgb(kf))) else None
  }

  /** A hex colour is never a numeric list: the whole colour is one token,
      and its `#` is neither a sign nor a digit. */
  lemma ColourIsNotNumbers(s: string)
    requires IsHexColor(s)
    ensures NumericList(s) == None
  {
    var x := Strip(s);
    assert forall i :: 0 <= i < |x| ==> !IsDelimiter(x[i]);
    TokensPrefix(x, "");
    assert x + "" == x;
    assert Tokens(x) == [x];
    assert !IsSpace(x[0]) && !IsSpace(x[6]);
    StripUnchanged(x);
    assert LeadingDigits(Unsigned(x)) == 0;
    assert ReadToken(x) == None;
    assert [x][..0] == [];
  }

  /** Reading numbers first loses no colour: a segment that is a hex colour
      classifies as that colour, one that reads as numbers is not a colour and
      classifies as those numbers, and a segment classifies as nothing
      exactly when it is neither. */
  lemma ClassifyReadings(segment: string)
    ensures var kf := Strip(segment);
      && (IsHexColor(kf) ==> NumericList(kf) == None && Classify(segment) == Some(Color(HexToRgb(kf))))
      && (NumericList(kf).Some? ==> !IsHexColor(kf) && Classify(segment) == Some(Numbers(NumericList(kf).value)))
      && (Classify(segment) == None <==> NumericList(kf) == None && !IsHexColor(kf))
  {
    var kf := Strip(segment);
    if IsHexColor(kf) {
      ColourIsNotNumbers(kf);
    }
  }

  /** Either every keyframe is a numeric list or every keyframe is a colour. */
  predicate Homogeneous(kfs: seq<Keyframe>) {
    (forall k :: 0 <= k < |kfs| ==> kfs[k].Numbers?) || (forall k :: 0 <= k < |kfs| ==> kfs[k].Color?)
  }

  /** A keyframe of the first keyframe's kind keeps a list homogeneous. */
  lemma HomogeneousAppend(kfs: seq<Keyframe>, kf: Keyframe)
    requires Homogeneous(kfs) && (kfs != [] ==> kf.Numbers? == kfs[0].Numbers?)
    ensures Homogeneous(kfs + [kf])
  {
    var all := kfs + [kf];
    if kf.Numbers? {
      assert forall k :: 0 <= k < |all| ==> all[k].Numbers?;
    } else {
      assert forall k :: 0 <= k < |all| ==> all[k].Color?;
    }
  }

  /** What `parse_values_attribute(s)` returns: every `;`-segment classified,
      provided all of them are of one kind. */
  function Keyframes(s: string): Option<seq<Keyframe>> {
    match MapOption(SplitAt(s, {';'}), Classify)
    case None => None
    case Some(kfs) => if Homogeneous(kfs) then Some(kfs) else None
  }

  /** The list is accepted exactly when every segment reads as a numeric list
      or every segment reads as a colour; it then holds one well-formed
      keyframe per segment, in order, and there is at least one. */
  lemma KeyframesAccepted(s: string)
    ensures var segments := SplitAt(s, {';'});
      Keyframes(s).Some? <==>
        (|| (forall k :: 0 <= k < |segments| ==> Classify(segments[k]).Some? && Classify(segments[k]).value.Numbers?)
         || (forall k :: 0 <= k < |segments| ==> Classify(segments[k]).Some? && Classify(segments[k]).value.Color?))
    ensures var segments := SplitAt(s, {';'});
      Keyframes(s).Some? ==>
        && |Keyframes(s).value| == |segments| >= 1
        && Homogeneous(Keyframes(s).value)
        && forall k :: 0 <= k < |segments| ==>
             Classify(segments[k]) == Some(Keyframes(s).value[k]) && WellFormed(Keyframes(s).value[k])
  {
    var segments := SplitAt(s, {';'});
    MapOptionAll(segments, Classify);
  }

  /** An accepted list is a non-empty list of well-formed keyframes of one kind. */
  lemma KeyframesWellFormed(s: string)
    requires Keyframes(s).Some?
    ensures var kfs := Keyframes(s).value;
      kfs != [] && Homogeneous(kfs) && forall k :: 0 <= k < |kfs| ==> WellFormed(kfs[k])
  {
    KeyframesAccepted(s);
  }

  /** A prefix whose keyframes already mix the two kinds rejects the whole list. */
  lemma KeyframesMixed(s: string, i: nat, kfs: seq<Keyframe>, j: nat, k: nat)
    requires i <= |SplitAt(s, {';'})| && MapOption(SplitAt(s, {';'})[..i], Classify) == Some(kfs)
    requires j < |kfs| && k < |kfs| && kfs[j].Numbers? && kfs[k].Color?
    ensures Keyframes(s) == None
  {
    var segments := SplitAt(s, {';'});
    if MapOption(segments, Classify).Some? {
      var all := MapOption(segments, Classify).value;
      MapOptionPrefix(segments, Classify, i);
      assert all[..i] == kfs;
      assert all[j] == kfs[j] && all[k] == kfs[k];
    }
  }

  /** One segment of `parse_values_attribute`'s loop, stripped and read as a
      numeric list first, otherwise as a hex colour. */
  method ReadSegment(segment: string) returns (r: Option<Keyframe>)
    ensures r == Classify(segment)
    ensures IsHexColor(Strip(segment)) ==> r == Some(Color(HexToRgb(Strip(segment))))
  {
    ClassifyReadings(segment);
    var kf := Strip(segment);
    var nums := ParseNumericList(kf);
    if nums.Some? {
      r := Some(Numbers(nums.value));
    } else if IsHexColor(kf) {
      r := Some(Color(HexToRgb(kf)));
    } else {
      r := None;
    }
  }

  /** One iteration of `parse_values_attribute`'s loop: a segment that reads
      as nothing, or as the other kind than the first segment, rejects the
      list; otherwise the list so far grows by its keyframe and stays of one kind. */
  lemma ValuesStep(s: string, i: nat, kfs: seq<Keyframe>)
    requires i < |SplitAt(s, {';'})| && MapOption(SplitAt(s, {';'})[..i], Classify) == Some(kfs)
    requires Homogeneous(kfs)
    ensures var kf := Classify(SplitAt(s, {';'})[i]);
      && (kf.None? ==> Keyframes(s) == None)
      && (kf.Some? && kfs != [] && kf.value.Numbers? != kfs[0].Numbers? ==> Keyframes(s) == None)
      && (kf.Some? ==> MapOption(SplitAt(s, {';'})[..i + 1], Classify) == Some(kfs + [kf.value]))
      && (kf.Some? && (kfs != [] ==> kf.value.Numbers? == kfs[0].Numbers?) ==> Homogeneous(kfs + [kf.value]))
  {
    var segments := SplitAt(s, {';'});
    var kf := Classify(segments[i]);
    MapOptionStep(segments, Classify, i);
    if kf.None? {
      MapOptionAbort(segments, Classify, i + 1);
    } else if kfs != [] && kf.value.Numbers? != kfs[0].Numbers? {
      var longer := kfs + [kf.value];
      if kf.value.Numbers? {
        KeyframesMixed(s, i + 1, longer, i, 0);
      } else {
        KeyframesMixed(s, i + 1, longer, 0, i);
      }
    } else {
      HomogeneousAppend(kfs, kf.value);
    }
  }

  /** `parse_values_attribute`: the loop that fixes the list's kind at the
      first segment and gives up at a segment of the other kind or of neither. */
  method ParseValuesAttribute(s: string) returns (r: Option<seq<Keyframe>>)
    ensures r == Keyframes(s)
  {
    var segments := SplitAt(s, {';'});
    var keyframes: seq<Keyframe> := [];
    var numericMode, colorMode := false, false;
    for i := 0 to |segments|
      invariant MapOption(segments[..i], Classify) == Some(keyframes)
      invariant !(numericMode && colorMode) && (numericMode || colorMode <==> i > 0)
      invariant i > 0 ==> (numericMode <==> keyframes[0].Numbers?)
      invariant Homogeneous(keyframes)
    {
      ValuesStep(s, i, keyframes);
      var kf := ReadSegment(segments[i]);
      match kf {
        case Some(Numbers(nums)) =>
          if colorMode {
            return None;
          }
          numericMode := true;
        case Some(Color(rgb)) =>
          if numericMode {
            return None;
          }
          colorMode := true;
        case None =>
          return None;
      }
      keyframes := keyframes + [kf.value];
    }
    assert segments[..|segments|] == segments;
    return Some(keyframes);
  }
}
