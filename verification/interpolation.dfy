/**
 * Linear interpolation of scalars, number lists and colours
 * (`interpolate`, `interpolate_lists`, `interpolate_color`). Python floats
 * are modelled as exact reals.
 */
module Interpolation {
  import opened Values

  function Min(a: real, b: real): real {
    if a <= b then a else b
  }

  function Max(a: real, b: real): real {
    if a <= b then b else a
  }

  /** `interpolate`: the point a fraction `t` of the way from `a` to `b`. It is
      `a` at `t = 0`, `b` at `t = 1`, and `a` throughout when `a == b`. */
  function Interpolate(a: real, b: real, t: real): (r: real)
    ensures t == 0.0 ==> r == a
    ensures t == 1.0 ==> r == b
    ensures a == b ==> r == a
  {
    a + (b - a) * t
  }

  /** For `t` in [0, 1] the interpolated point lies between the two ends. */
  lemma InterpolateBetween(a: real, b: real, t: real)
    requires 0.0 <= t <= 1.0
    ensures Min(a, b) <= Interpolate(a, b, t) <= Max(a, b)
  {
    var p := (b - a) * t;
    var q := (b - a) * (1.0 - t);
    assert p + q == b - a;
    if a <= b {
      MulNonNegative(b - a, t);
      MulNonNegative(b - a, 1.0 - t);
    } else {
      MulNonNegative(a - b, t);
      MulNonNegative(a - b, 1.0 - t);
      assert (a - b) * t == -p;
      assert (a - b) * (1.0 - t) == -q;
    }
  }

  /** The product of two non-negative reals is non-negative. */
  lemma MulNonNegative(x: real, y: real)
    requires 0.0 <= x && 0.0 <= y
    ensures 0.0 <= x * y
  {
  }

  /** Python's `int(x)` on a float: truncation toward zero. */
  function Trunc(x: real): (n: int)
    ensures 0.0 <= x ==> 0 <= n && n as real <= x < n as real + 1.0
    ensures x < 0.0 ==> n <= 0 && n as real - 1.0 < x <= n as real
  {
    if x >= 0.0 then x.Floor else -((-x).Floor)
  }

  /** Truncation keeps every value on the same side of an integer it does not cross. */
  lemma TruncBetween(lo: int, x: real, hi: int)
    requires lo as real <= x <= hi as real
    ensures lo <= Trunc(x) <= hi
  {
  }

  /** `interpolate_lists`: element-wise interpolation over `zip`, which stops
      at the shorter list. */
  function InterpolateLists(xs: seq<real>, ys: seq<real>, t: real): (r: seq<real>)
    ensures |r| == if |xs| <= |ys| then |xs| else |ys|
  {
    if xs == [] || ys == [] then []
    else [Interpolate(xs[0], ys[0], t)] + InterpolateLists(xs[1..], ys[1..], t)
  }

  /** Each entry interpolates the entries of the two lists at its position. */
  lemma {:induction false} InterpolateListsAt(xs: seq<real>, ys: seq<real>, t: real, k: nat)
    requires k < |xs| && k < |ys|
    ensures InterpolateLists(xs, ys, t)[k] == Interpolate(xs[k], ys[k], t)
  {
    if k > 0 {
      InterpolateListsAt(xs[1..], ys[1..], t, k - 1);
    }
  }

  /** At `t = 0` the lists interpolate to the first one and at `t = 1` to the
      second, each cut to the common length. */
  lemma InterpolateListsEnds(xs: seq<real>, ys: seq<real>)
    requires |xs| == |ys|
    ensures InterpolateLists(xs, ys, 0.0) == xs
    ensures InterpolateLists(xs, ys, 1.0) == ys
  {
    forall k | 0 <= k < |xs|
      ensures InterpolateLists(xs, ys, 0.0)[k] == xs[k] && InterpolateLists(xs, ys, 1.0)[k] == ys[k]
    {
      InterpolateListsAt(xs, ys, 0.0, k);
      InterpolateListsAt(xs, ys, 1.0, k);
    }
  }

  /** One colour channel: the interpolated value truncated to an integer. */
  function Channel(a: int, b: int, t: real): int {
    Trunc(Interpolate(a as real, b as real, t))
  }

  /** `interpolate_color`: channel by channel. */
  function InterpolateColor(c1: Rgb, c2: Rgb, t: real): (c: Rgb)
    ensures t == 0.0 ==> c == c1
    ensures t == 1.0 ==> c == c2
    ensures c1 == c2 ==> c == c1
    ensures 0.0 <= t <= 1.0 && InRange(c1) && InRange(c2) ==> InRange(c)
  {
    var c := Rgb(Channel(c1.r, c2.r, t), Channel(c1.g, c2.g, t), Channel(c1.b, c2.b, t));
    assert 0.0 <= t <= 1.0 && InRange(c1) && InRange(c2) ==> InRange(c) by {
      if 0.0 <= t <= 1.0 {
        ChannelBetween(c1.r, c2.r, t);
        ChannelBetween(c1.g, c2.g, t);
        ChannelBetween(c1.b, c2.b, t);
      }
    }
    c
  }

  /** For `t` in [0, 1] a channel stays between its two end values. */
  lemma ChannelBetween(a: int, b: int, t: real)
    requires 0.0 <= t <= 1.0
    ensures a <= b ==> a <= Channel(a, b, t) <= b
    ensures b <= a ==> b <= Channel(a, b, t) <= a
  {
    var x := Interpolate(a as real, b as real, t);
    InterpolateBetween(a as real, b as real, t);
    if a <= b {
      TruncBetween(a, x, b);
    } else {
      TruncBetween(b, x, a);
    }
  }
}
