/**
 * The per-frame application step: at frame `i` of `N` the time is
 * `t = i / (N - 1)`, and every directive overwrites at most one attribute
 * of its target element with the value it resolves to at `t`. The document
 * is a map from element handles to attribute maps; a frame is a snapshot of
 * it after all directives have been applied.
 */
module Frames {
  import opened Wrappers
  import opened Text
  import opened Values
  import opened Parsing
  import opened Interpolation
  import opened Timeline
  import opened Transforms
  import opened Directives

  type Attributes = map<string, string>

  type Scene = map<Handle, Attributes>

  /** What one directive does to its target at one frame: nothing, one
      `element.set(name, value)`, or an exception from lxml that ends the run. */
  datatype Write = NoWrite | SetAttribute(name: string, value: string) | Raises

  /** `element.set(attributeName, value)`: lxml raises for a missing or empty name. */
  function WriteTo(name: Option<string>, value: string): (w: Write)
    ensures w != NoWrite
    ensures w.SetAttribute? <==> Truthy(name)
    ensures w.SetAttribute? ==> w.name == name.value && w.value == value
  {
    if Truthy(name) then SetAttribute(name.value, value) else Raises
  }

  /** The write for a resolved list of numbers: the whole `transform` for a
      transform animation, whatever `build_transform` gives, even `""`;
      otherwise the first number alone (both branches of the source's
      length test write `vals[0]`). */
  function NumericWrite(d: Directive, xs: seq<real>, show: real -> string): Write {
    match d.kind
    case AnimateTransform(kind) => SetAttribute("transform", BuildTransform(kind, xs, show))
    case Animate => if xs == [] then Raises else WriteTo(d.attributeName, show(xs[0]))
  }

  /** The write of a `from`/`to` pair (`skills/gif.py` lines 307-325):
      two colours interpolate as a colour, two number lists element-wise,
      anything else writes nothing. */
  function PairEffect(d: Directive, f: string, g: string, t: real, show: real -> string): Write {
    if IsHexColor(f) && IsHexColor(g) then
      WriteTo(d.attributeName, RgbToHex(InterpolateColor(HexToRgb(f), HexToRgb(g), t)))
    else
      match (NumericList(f), NumericList(g))
      case (Some(xs), Some(ys)) =>
        if xs != [] && ys != [] then NumericWrite(d, InterpolateLists(xs, ys, t), show) else NoWrite
      case _ => NoWrite
  }

  /** The write of a `values` list (`skills/gif.py` lines 326-345): the
      timeline's value at `t`, nothing when the list does not parse. */
  function ValuesEffect(d: Directive, s: string, t: real, show: real -> string): Write
    requires 0.0 <= t <= 1.0
  {
    match Keyframes(s)
    case None => NoWrite
    case Some(kfs) =>
      match GetKeyframeValues(kfs, t)
      case None => NoWrite
      case Some(Color(c)) => WriteTo(d.attributeName, RgbToHex(c))
      case Some(Numbers(xs)) => NumericWrite(d, xs, show)
  }

  /** The write one directive makes at time `t` (`skills/gif.py` lines 307-345):
      `from`/`to` when both are given, and otherwise the `values` keyframes. */
  function Effect(d: Directive, t: real, show: real -> string): Write
    requires 0.0 <= t <= 1.0
  {
    if Truthy(d.fromValue) && Truthy(d.toValue) then PairEffect(d, d.fromValue.value, d.toValue.value, t, show)
    else if Truthy(d.valuesValue) then ValuesEffect(d, d.valuesValue.value, t, show)
    else NoWrite
  }

  /** The attributes of element `h`; an element outside the document has none. */
  function Element(scene: Scene, h: Handle): Attributes {
    if h in scene then scene[h] else map[]
  }

  /** The document after a write to element `h`; `None` when the write raises. */
  function Apply(scene: Scene, h: Handle, w: Write): (r: Option<Scene>)
    ensures r.Some? && h in scene ==> r.value.Keys == scene.Keys
    ensures r.None? <==> w.Raises?
  {
    match w
    case NoWrite => Some(scene)
    case SetAttribute(name, value) => Some(scene[h := Element(scene, h)[name := value]])
    case Raises => None
  }

  /** One directive applied to the document at time `t`. */
  function Step(scene: Scene, d: Directive, t: real, show: real -> string): Option<Scene>
    requires 0.0 <= t <= 1.0
  {
    Apply(scene, d.target, Effect(d, t, show))
  }

  /** All directives applied in order at time `t`; `None` once one raises. */
  function ApplyAll(scene: Scene, ds: seq<Directive>, t: real, show: real -> string): Option<Scene>
    requires 0.0 <= t <= 1.0
  {
    if ds == [] then Some(scene)
    else
      match ApplyAll(scene, ds[..|ds| - 1], t, show)
      case None => None
      case Some(s) => Step(s, ds[|ds| - 1], t, show)
  }

  /** `t = i / (num_frames - 1)`, or `0.0` for a single frame. */
  function FrameTime(i: nat, count: nat): (t: real)
    requires i < count
    ensures 0.0 <= t <= 1.0
    ensures i == 0 ==> t == 0.0
    ensures count > 1 && i == count - 1 ==> t == 1.0
  {
    if count > 1 then i as real / (count - 1) as real else 0.0
  }

  /** The number of frames the loop renders. */
  const NumFrames: nat := 10

  /** Frame times increase strictly from frame to frame. */
  lemma FrameTimeIncreasing(i: nat, j: nat, count: nat)
    requires i < j < count
    ensures FrameTime(i, count) < FrameTime(j, count)
  {
    var d := (count - 1) as real;
    assert FrameTime(j, count) - FrameTime(i, count) == (j - i) as real / d;
  }

  /** With ten frames the times are the ninths from 0 to 1: the first frame
      shows the start of every animation and the last its end. */
  lemma TenFrameTimes(i: nat)
    requires i < NumFrames
    ensures FrameTime(i, NumFrames) == i as real / 9.0
    ensures FrameTime(0, NumFrames) == 0.0 && FrameTime(NumFrames - 1, NumFrames) == 1.0
  {
  }

  /** The document as it stands after the frames rendered so far. */
  function Last(init: Scene, frames: seq<Scene>): Scene {
    if frames == [] then init else frames[|frames| - 1]
  }

  /** The snapshots of the first `k` of `count` frames, each taken after every
      directive has been applied to the previous one; `None` once a write raises. */
  function Frames(init: Scene, ds: seq<Directive>, count: nat, k: nat, show: real -> string): (r: Option<seq<Scene>>)
    requires k <= count
    ensures r.Some? ==> |r.value| == k
  {
    if k == 0 then Some([])
    else
      match Frames(init, ds, count, k - 1, show)
      case None => None
      case Some(fs) =>
        var prev := Last(init, fs);
        match ApplyAll(prev, ds, FrameTime(k - 1, count), show)
        case None => None
        case Some(s) => Some(fs + [s])
  }

  /** Every directive targets an element of the document. */
  predicate Targets(scene: Scene, ds: seq<Directive>) {
    forall k :: 0 <= k < |ds| ==> ds[k].target in scene
  }

  /** Applying the directives of a frame neither adds nor removes elements. */
  lemma {:induction false} ApplyAllKeys(scene: Scene, ds: seq<Directive>, t: real, show: real -> string)
    requires 0.0 <= t <= 1.0 && Targets(scene, ds) && ApplyAll(scene, ds, t, show).Some?
    ensures ApplyAll(scene, ds, t, show).value.Keys == scene.Keys
  {
    if ds != [] {
      ApplyAllKeys(scene, ds[..|ds| - 1], t, show);
    }
  }

  /** The documents agree except, possibly, on attribute `name` of element `h`. */
  ghost predicate AgreeExcept(s1: Scene, s2: Scene, h: Handle, name: string) {
    && s1.Keys == s2.Keys
    && (forall e :: e in s1 && e != h ==> s2[e] == s1[e])
    && (h in s1 ==> forall a :: a != name ==> (a in s2[h] <==> a in s1[h]) && (a in s1[h] ==> s2[h][a] == s1[h][a]))
  }

  /** One directive at one frame changes at most one attribute of its target
      and nothing else in the document: the attribute it names, set to the
      value it resolves to; a directive that writes nothing leaves the
      document as it was. */
  lemma StepChangesOneAttribute(scene: Scene, d: Directive, t: real, show: real -> string)
    requires 0.0 <= t <= 1.0 && d.target in scene && Step(scene, d, t, show).Some?
    ensures var w := Effect(d, t, show); var s2 := Step(scene, d, t, show).value;
      && (w.NoWrite? ==> s2 == scene)
      && (w.SetAttribute? ==> AgreeExcept(scene, s2, d.target, w.name) && s2[d.target][w.name] == w.value)
  {
  }

  /** A `from`/`to` colour pair writes the named attribute as a lower-case
      `#rrggbb` colour that reads back as the interpolated triple, whose
      channels lie between the two end colours' channels. */
  lemma ColorWrite(d: Directive, t: real, show: real -> string)
    requires 0.0 <= t <= 1.0
    requires Truthy(d.fromValue) && Truthy(d.toValue) && Truthy(d.attributeName)
    requires IsHexColor(d.fromValue.value) && IsHexColor(d.toValue.value)
    ensures var c := InterpolateColor(HexToRgb(d.fromValue.value), HexToRgb(d.toValue.value), t);
      && InRange(c)
      && Effect(d, t, show).SetAttribute?
      && Effect(d, t, show).name == d.attributeName.value
      && IsHexColor(Effect(d, t, show).value)
      && Lower(Effect(d, t, show).value) == Effect(d, t, show).value
      && HexToRgb(Effect(d, t, show).value) == c
  {
    var c := InterpolateColor(HexToRgb(d.fromValue.value), HexToRgb(d.toValue.value), t);
    RgbHexRoundTrip(c);
  }

  /** The two number lists of a `from`/`to` pair that is not a colour pair. */
  predicate NumericPair(d: Directive) {
    && Truthy(d.fromValue) && Truthy(d.toValue)
    && !(IsHexColor(d.fromValue.value) && IsHexColor(d.toValue.value))
    && NumericList(d.fromValue.value).Some? && NumericList(d.toValue.value).Some?
  }

  /** The interpolated lists of a numeric `from`/`to` pair. */
  function PairValues(d: Directive, t: real): seq<real>
    requires NumericPair(d)
  {
    InterpolateLists(NumericList(d.fromValue.value).value, NumericList(d.toValue.value).value, t)
  }

  /** A numeric `from`/`to` pair on a transform animation always writes
      `transform`, with the text `build_transform` gives, which is empty
      exactly when the arity table rejects the number of values. */
  lemma NumericTransformWrite(d: Directive, t: real, show: real -> string)
    requires 0.0 <= t <= 1.0 && NumericPair(d) && d.kind.AnimateTransform?
    ensures Effect(d, t, show) == SetAttribute("transform", BuildTransform(d.kind.transformType, PairValues(d, t), show))
    ensures Effect(d, t, show).value == "" <==> !Accepts(d.kind.transformType, |PairValues(d, t)|)
  {
  }

  /** A numeric `from`/`to` pair on a plain animation writes the named
      attribute with the first interpolated number only. */
  lemma NumericAnimateWrite(d: Directive, t: real, show: real -> string)
    requires 0.0 <= t <= 1.0 && NumericPair(d) && d.kind.Animate? && Truthy(d.attributeName)
    ensures var xs := NumericList(d.fromValue.value).value;
      var ys := NumericList(d.toValue.value).value;
      Effect(d, t, show) == SetAttribute(d.attributeName.value, show(Interpolate(xs[0], ys[0], t)))
  {
    var xs := NumericList(d.fromValue.value).value;
    var ys := NumericList(d.toValue.value).value;
    InterpolateListsAt(xs, ys, t, 0);
  }

  /** A `from`/`to` pair that is neither two colours nor two number lists
      writes nothing, and so does a `values` list that does not parse; the
      `values` list is not consulted when both `from` and `to` are given. */
  lemma NothingWritten(d: Directive, t: real, show: real -> string)
    requires 0.0 <= t <= 1.0
    requires || (&& Truthy(d.fromValue) && Truthy(d.toValue)
                 && !(IsHexColor(d.fromValue.value) && IsHexColor(d.toValue.value))
                 && (NumericList(d.fromValue.value).None? || NumericList(d.toValue.value).None?))
             || (&& !(Truthy(d.fromValue) && Truthy(d.toValue))
                 && Truthy(d.valuesValue) && Keyframes(d.valuesValue.value).None?)
             || (!(Truthy(d.fromValue) && Truthy(d.toValue)) && !Truthy(d.valuesValue))
    ensures Effect(d, t, show) == NoWrite
  {
  }

  /** A `values` list that parses always resolves, and writes: a colour list
      the lower-case colour of the timeline, a number list the same as a
      `from`/`to` pair would. Only a missing or empty attribute name raises,
      and not on a transform animation of numbers. */
  lemma ValuesWrite(d: Directive, t: real, show: real -> string)
    requires 0.0 <= t <= 1.0 && !(Truthy(d.fromValue) && Truthy(d.toValue))
    requires Truthy(d.valuesValue) && Keyframes(d.valuesValue.value).Some?
    ensures var kfs := Keyframes(d.valuesValue.value).value;
      && GetKeyframeValues(kfs, t).Some?
      && Effect(d, t, show) != NoWrite
      && (Effect(d, t, show).Raises? <==>
            !Truthy(d.attributeName) && (GetKeyframeValues(kfs, t).value.Color? || d.kind.Animate?))
      && (GetKeyframeValues(kfs, t).value.Color? ==>
            && Effect(d, t, show) == WriteTo(d.attributeName, RgbToHex(GetKeyframeValues(kfs, t).value.rgb))
            && InRange(GetKeyframeValues(kfs, t).value.rgb))
      && (GetKeyframeValues(kfs, t).value.Numbers? ==>
            Effect(d, t, show) == NumericWrite(d, GetKeyframeValues(kfs, t).value.xs, show))
  {
    var s := d.valuesValue.value;
    var kfs := Keyframes(s).value;
    KeyframesWellFormed(s);
    GetKeyframeValuesOfParsed(kfs, t);
    assert Effect(d, t, show) == ValuesEffect(d, s, t, show);
  }

  /** A write raises only for a missing or empty attribute name: colour
      writes and number writes on plain animations need one, transform
      number writes name `transform` themselves. */
  lemma RaisesOnlyWithoutName(d: Directive, t: real, show: real -> string)
    requires 0.0 <= t <= 1.0 && Effect(d, t, show).Raises?
    ensures !Truthy(d.attributeName)
  {
    if Truthy(d.fromValue) && Truthy(d.toValue) {
      PairRaises(d, d.fromValue.value, d.toValue.value, t, show);
    } else {
      ValuesWrite(d, t, show);
    }
  }

  /** A `from`/`to` write raises only for a missing or empty attribute name. */
  lemma PairRaises(d: Directive, f: string, g: string, t: real, show: real -> string)
    requires PairEffect(d, f, g, t, show).Raises?
    ensures !Truthy(d.attributeName)
  {
    if !(IsHexColor(f) && IsHexColor(g)) {
      var xs := NumericList(f).value;
      var ys := NumericList(g).value;
      assert InterpolateLists(xs, ys, t) != [];
    }
  }

  /** Once a write raises, no later frame is rendered: the run stops. */
  lemma {:induction false} FramesAbort(init: Scene, ds: seq<Directive>, count: nat, k: nat, j: nat, show: real -> string)
    requires k <= j <= count && Frames(init, ds, count, k, show).None?
    ensures Frames(init, ds, count, j, show).None?
  {
    if j > k {
      FramesAbort(init, ds, count, k, j - 1, show);
    }
  }

  /** Rendering more frames never changes the frames already rendered. */
  lemma {:induction false} FramesPrefix(init: Scene, ds: seq<Directive>, count: nat, j: nat, k: nat, show: real -> string)
    requires j <= k <= count && Frames(init, ds, count, k, show).Some?
    ensures Frames(init, ds, count, j, show) == Some(Frames(init, ds, count, k, show).value[..j])
  {
    if j < k {
      FramesPrefix(init, ds, count, j, k - 1, show);
      var fs := Frames(init, ds, count, k - 1, show).value;
      assert Frames(init, ds, count, k, show).value[..j] == fs[..j];
    } else {
      assert Frames(init, ds, count, k, show).value[..k] == Frames(init, ds, count, k, show).value;
    }
  }

  /** Frame `i` applies every directive to the document as frame `i - 1`
      left it; a raise there means the whole rendering raises. */
  lemma FramesNext(init: Scene, ds: seq<Directive>, count: nat, i: nat, show: real -> string)
    requires i < count && Frames(init, ds, count, i, show).Some?
    ensures var fs := Frames(init, ds, count, i, show).value;
      var r := ApplyAll(Last(init, fs), ds, FrameTime(i, count), show);
      && (r.None? ==> Frames(init, ds, count, count, show).None?)
      && (r.Some? ==> Frames(init, ds, count, i + 1, show) == Some(fs + [r.value]))
  {
    var fs := Frames(init, ds, count, i, show).value;
    if ApplyAll(Last(init, fs), ds, FrameTime(i, count), show).None? {
      FramesAbort(init, ds, count, i + 1, count, show);
    }
  }

  /** The document being animated: element handles to attribute maps, updated in place. */
  class Document {
    var elements: Scene

    constructor(init: Scene)
      ensures elements == init
    {
      elements := init;
    }

    /** lxml's `element.set(name, value)` on element `h`. */
    method Set(h: Handle, name: string, value: string)
      modifies this
      ensures elements == old(elements)[h := Element(old(elements), h)[name := value]]
    {
      elements := elements[h := Element(elements, h)[name := value]];
    }

    /** The write `name := value` when the name is usable; `false` when lxml would raise. */
    method SetNamed(h: Handle, name: Option<string>, value: string) returns (ok: bool)
      modifies this
      ensures ok == WriteTo(name, value).SetAttribute?
      ensures Apply(old(elements), h, WriteTo(name, value)) == if ok then Some(elements) else None
      ensures !ok ==> elements == old(elements)
    {
      if Truthy(name) {
        Set(h, name.value, value);
        ok := true;
      } else {
        ok := false;
      }
    }

    /** The write of a resolved list of numbers. */
    method SetNumbers(d: Directive, xs: seq<real>, show: real -> string) returns (ok: bool)
      modifies this
      ensures Apply(old(elements), d.target, NumericWrite(d, xs, show)) == if ok then Some(elements) else None
      ensures !ok ==> elements == old(elements)
    {
      if d.kind.AnimateTransform? {
        Set(d.target, "transform", BuildTransform(d.kind.transformType, xs, show));
        ok := true;
      } else if xs == [] {
        ok := false;
      } else {
        ok := SetNamed(d.target, d.attributeName, show(xs[0]));
      }
    }

    /** One directive at time `t` (`skills/gif.py` lines 303-345); `false`
        when a write raises, which ends the run. */
    method ApplyDirective(d: Directive, t: real, show: real -> string) returns (ok: bool)
      requires 0.0 <= t <= 1.0
      modifies this
      ensures Step(old(elements), d, t, show) == if ok then Some(elements) else None
    {
      ok := true;
      if Truthy(d.fromValue) && Truthy(d.toValue) {
        var f, g := d.fromValue.value, d.toValue.value;
        if IsHexColor(f) && IsHexColor(g) {
          var c := InterpolateColor(HexToRgb(f), HexToRgb(g), t);
          ok := SetNamed(d.target, d.attributeName, RgbToHex(c));
        } else {
          var fList := ParseNumericList(f);
          var tList := ParseNumericList(g);
          if fList.Some? && fList.value != [] && tList.Some? && tList.value != [] {
            ok := SetNumbers(d, InterpolateLists(fList.value, tList.value, t), show);
          }
        }
      } else if Truthy(d.valuesValue) {
        var keyframes := ParseValuesAttribute(d.valuesValue.value);
        if keyframes.Some? {
          var vals := GetKeyframeValues(keyframes.value, t);
          if vals.Some? {
            match vals.value
            case Color(c) =>
              ok := SetNamed(d.target, d.attributeName, RgbToHex(c));
            case Numbers(xs) =>
              ok := SetNumbers(d, xs, show);
          }
        }
      }
    }

    /** Every directive in order at time `t`; `false` as soon as one raises. */
    method ApplyFrame(ds: seq<Directive>, t: real, show: real -> string) returns (ok: bool)
      requires 0.0 <= t <= 1.0
      modifies this
      ensures ApplyAll(old(elements), ds, t, show) == if ok then Some(elements) else None
    {
      ghost var init := elements;
      for k := 0 to |ds|
        invariant ApplyAll(init, ds[..k], t, show) == Some(elements)
      {
        assert ds[..k + 1][..k] == ds[..k];
        ok := ApplyDirective(ds[k], t, show);
        if !ok {
          ApplyAllAbort(init, ds, t, show, k + 1);
          return;
        }
      }
      assert ds[..|ds|] == ds;
      ok := true;
    }

    /** The frame loop: `count` frames, each a snapshot of the document after
        every directive has been applied at that frame's time. */
    method RenderFrames(ds: seq<Directive>, count: nat, show: real -> string) returns (frames: seq<Scene>, ok: bool)
      modifies this
      ensures Frames(old(elements), ds, count, count, show) == if ok then Some(frames) else None
    {
      ghost var init := elements;
      frames := [];
      for i := 0 to count
        invariant Frames(init, ds, count, i, show) == Some(frames)
        invariant elements == Last(init, frames)
      {
        var t := FrameTime(i, count);
        FramesNext(init, ds, count, i, show);
        ok := ApplyFrame(ds, t, show);
        if !ok {
          return;
        }
        frames := frames + [elements];
      }
      ok := true;
    }
  }

  /** A raise part-way through the directives is a raise for the whole frame. */
  lemma {:induction false} ApplyAllAbort(scene: Scene, ds: seq<Directive>, t: real, show: real -> string, k: nat)
    requires 0.0 <= t <= 1.0 && k <= |ds|
    requires ApplyAll(scene, ds[..k], t, show) == None
    ensures ApplyAll(scene, ds, t, show) == None
  {
    if k < |ds| {
      assert ds[..|ds| - 1][..k] == ds[..k];
      ApplyAllAbort(scene, ds[..|ds| - 1], t, show, k);
    } else {
      assert ds[..k] == ds;
    }
  }
}
