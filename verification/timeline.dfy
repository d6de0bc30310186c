/**
 * `get_keyframe_values`: the piecewise-linear timeline through a keyframe
 * list. With `n` segments of length `1/n`, time `t` falls in segment
 * `floor(t / (1/n))`; the last keyframe is returned exactly when that index
 * is `n`, and otherwise the two ends of the segment are blended at the
 * time renormalised within it.
 */
module Timeline {
  import opened Wrappers
  import opened Values
  import opened Parsing
  import opened Interpolation

  /** Interpolates two keyframes of the same kind; `None` for a list and a colour. */
  function Blend(start: Keyframe, end: Keyframe, u: real): (r: Option<Keyframe>)
    ensures r.Some? <==> start.Numbers? == end.Numbers?
    ensures r.Some? ==> r.value.Numbers? == start.Numbers?
  {
    match (start, end)
    case (Numbers(xs), Numbers(ys)) => Some(Numbers(InterpolateLists(xs, ys, u)))
    case (Color(c1), Color(c2)) => Some(Color(InterpolateColor(c1, c2, u)))
    case _ => None
  }

  /** `t // (1/n)`: the index of the segment time `t` falls in. */
  function SegmentIndex(t: real, n: nat): int
    requires n >= 1
  {
    (t / (1.0 / n as real)).Floor
  }

  /** `(t - k * (1/n)) / (1/n)`: the time renormalised within segment `k`. */
  function LocalTime(t: real, n: nat, k: int): real
    requires n >= 1
  {
    var segmentLength := 1.0 / n as real;
    (t - k as real * segmentLength) / segmentLength
  }

  /** For `t` in [0, 1] the segment index is `floor(t n)`, in 0..n and equal to
      `n` only at `t = 1`; the local time is `t n - k`, in [0, 1). */
  lemma SegmentOf(t: real, n: nat)
    requires n >= 1 && 0.0 <= t <= 1.0
    ensures var k := SegmentIndex(t, n);
      && k == (t * n as real).Floor
      && 0 <= k <= n
      && (k == n <==> t == 1.0)
      && LocalTime(t, n, k) == t * n as real - k as real
      && 0.0 <= LocalTime(t, n, k) < 1.0
  {
    var segmentLength := 1.0 / n as real;
    assert segmentLength * n as real == 1.0;
    assert t / segmentLength == t * n as real;
    assert t * n as real <= n as real;
    assert (t - (t * n as real).Floor as real * segmentLength) / segmentLength
        == t * n as real - (t * n as real).Floor as real;
  }

  /** `get_keyframe_values(keyframes, t)` for a time in [0, 1], the only times
      the frame loop asks for. */
  function GetKeyframeValues(kfs: seq<Keyframe>, t: real): Option<Keyframe>
    requires 0.0 <= t <= 1.0
  {
    var n := |kfs| - 1;
    if n <= 0 then
      if kfs != [] then Some(kfs[0]) else None
    else
      var k := SegmentIndex(t, n);
      SegmentOf(t, n);
      if k == n then Some(kfs[|kfs| - 1])
      else Blend(kfs[k], kfs[k + 1], LocalTime(t, n, k))
  }

  /** No keyframes give nothing; a single keyframe is the value at every time. */
  lemma GetKeyframeValuesDegenerate(kfs: seq<Keyframe>, t: real)
    requires 0.0 <= t <= 1.0 && |kfs| <= 1
    ensures kfs == [] ==> GetKeyframeValues(kfs, t) == None
    ensures |kfs| == 1 ==> GetKeyframeValues(kfs, t) == Some(kfs[0])
  {
  }

  /** With at least one segment, `t = 1` gives the last keyframe exactly, and
      every earlier time blends keyframes `k` and `k + 1` for `k = floor(t n)`
      at a local time in [0, 1): `None` when the two differ in kind. */
  lemma GetKeyframeValuesSegment(kfs: seq<Keyframe>, t: real)
    requires 0.0 <= t <= 1.0 && |kfs| >= 2
    ensures t == 1.0 ==> GetKeyframeValues(kfs, t) == Some(kfs[|kfs| - 1])
    ensures var n := |kfs| - 1; var k := SegmentIndex(t, n);
      t < 1.0 ==>
        && k == (t * n as real).Floor && 0 <= k < n
        && 0.0 <= LocalTime(t, n, k) < 1.0
        && GetKeyframeValues(kfs, t) == Blend(kfs[k], kfs[k + 1], LocalTime(t, n, k))
        && (GetKeyframeValues(kfs, t) == None <==> kfs[k].Numbers? != kfs[k + 1].Numbers?)
  {
    SegmentOf(t, |kfs| - 1);
  }

  /** Two keyframes that blend without loss: two colours, or two lists of one length. */
  predicate Compatible(a: Keyframe, b: Keyframe) {
    (a.Color? && b.Color?) || (a.Numbers? && b.Numbers? && |a.xs| == |b.xs|)
  }

  /** At local time 0 a blend of compatible keyframes is its start. */
  lemma BlendAtStart(a: Keyframe, b: Keyframe)
    requires Compatible(a, b)
    ensures Blend(a, b, 0.0) == Some(a)
  {
    if a.Numbers? {
      InterpolateListsEnds(a.xs, b.xs);
    }
  }

  /** At the time of keyframe `j`, `j / n`, the timeline passes through that
      keyframe exactly, when it is compatible with the one after it. */
  lemma GetKeyframeValuesAtKeyframe(kfs: seq<Keyframe>, j: nat)
    requires |kfs| >= 2 && j < |kfs|
    requires j < |kfs| - 1 ==> Compatible(kfs[j], kfs[j + 1])
    ensures GetKeyframeValues(kfs, j as real / (|kfs| - 1) as real) == Some(kfs[j])
  {
    var n := |kfs| - 1;
    var t := j as real / n as real;
    assert t * n as real == j as real;
    SegmentOf(t, n);
    if j < n {
      BlendAtStart(kfs[j], kfs[j + 1]);
    }
  }

  /** The first keyframe is the value at `t = 0`, when it is compatible with the next one. */
  lemma GetKeyframeValuesAtStart(kfs: seq<Keyframe>)
    requires kfs != []
    requires |kfs| >= 2 ==> Compatible(kfs[0], kfs[1])
    ensures GetKeyframeValues(kfs, 0.0) == Some(kfs[0])
  {
    if |kfs| >= 2 {
      GetKeyframeValuesAtKeyframe(kfs, 0);
      assert 0 as real / (|kfs| - 1) as real == 0.0;
    }
  }

  /** A list `parse_values_attribute` accepts always resolves, to a value of
      its own kind: a non-empty list, or a colour with channels in 0..255. */
  lemma GetKeyframeValuesOfParsed(kfs: seq<Keyframe>, t: real)
    requires 0.0 <= t <= 1.0 && kfs != [] && Homogeneous(kfs)
    requires forall k :: 0 <= k < |kfs| ==> WellFormed(kfs[k])
    ensures GetKeyframeValues(kfs, t).Some?
    ensures WellFormed(GetKeyframeValues(kfs, t).value)
    ensures GetKeyframeValues(kfs, t).value.Numbers? == kfs[0].Numbers?
  {
    if |kfs| >= 2 {
      var n := |kfs| - 1;
      SegmentOf(t, n);
      if t < 1.0 {
        var k := (t * n as real).Floor;
        var u := t * n as real - k as real;
        assert kfs[k].Numbers? == kfs[0].Numbers? && kfs[k + 1].Numbers? == kfs[0].Numbers?;
        assert WellFormed(kfs[k]) && WellFormed(kfs[k + 1]);
        assert 0.0 <= u <= 1.0;
      }
    }
  }

  /** Number keyframes of different lengths blend through `zip`, so the
      timeline misses a keyframe longer than the next one: `1 2` then `3`
      give `[1]` at `t = 0`. */
  lemma ZipCutsFirstKeyframe()
    ensures GetKeyframeValues([Numbers([1.0, 2.0]), Numbers([3.0])], 0.0) == Some(Numbers([1.0]))
  {
    SegmentOf(0.0, 1);
    assert InterpolateLists([1.0, 2.0], [3.0], 0.0) == [1.0];
  }

  /** Three colours sampled at `t = 0.25` blend the first two halfway, each
      channel truncated: red and green give `(127, 127, 0)`. */
  lemma RedGreenBlueAtQuarter()
    ensures GetKeyframeValues([Color(Rgb(255, 0, 0)), Color(Rgb(0, 255, 0)), Color(Rgb(0, 0, 255))], 0.25)
      == Some(Color(Rgb(127, 127, 0)))
  {
    var kfs := [Color(Rgb(255, 0, 0)), Color(Rgb(0, 255, 0)), Color(Rgb(0, 0, 255))];
    SegmentOf(0.25, 2);
    assert (0.25 * 2.0).Floor == 0;
    assert Interpolate(255.0, 0.0, 0.5) == 127.5 && Interpolate(0.0, 255.0, 0.5) == 127.5;
    assert Trunc(127.5) == 127;
  }
}
