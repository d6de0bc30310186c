/** Optional value standing for Python's `None` results. */
module Wrappers {

  /** `None` where the source returns Python's `None`, `Some(v)` otherwise. */
  datatype Option<+T> = None | Some(value: T)

  /** Reads every element with `f` in order, or fails as a whole at the first
      element `f` rejects: the shape of the source's accumulate-or-return-None
      loops. Defined on the last element, so that a loop's prefix is a call. */
  function MapOption<A, B>(xs: seq<A>, f: A -> Option<B>): (r: Option<seq<B>>)
    ensures r.Some? ==> |r.value| == |xs|
  {
    if xs == [] then Some([])
    else
      match MapOption(xs[..|xs| - 1], f)
      case None => None
      case Some(init) =>
        match f(xs[|xs| - 1])
        case None => None
        case Some(y) => Some(init + [y])
  }

  /** One more element read: the prefix result extended, or a failure. */
  lemma MapOptionStep<A, B>(xs: seq<A>, f: A -> Option<B>, i: nat)
    requires i < |xs|
    ensures MapOption(xs[..i + 1], f) ==
      match MapOption(xs[..i], f)
      case None => None
      case Some(init) => if f(xs[i]).Some? then Some(init + [f(xs[i]).value]) else None
  {
    assert xs[..i + 1][..i] == xs[..i];
  }

  /** A failure on a prefix is a failure on the whole sequence. */
  lemma {:induction false} MapOptionAbort<A, B>(xs: seq<A>, f: A -> Option<B>, i: nat)
    requires i <= |xs| && MapOption(xs[..i], f) == None
    ensures MapOption(xs, f) == None
  {
    if i < |xs| {
      assert xs[..|xs| - 1][..i] == xs[..i];
      MapOptionAbort(xs[..|xs| - 1], f, i);
    } else {
      assert xs[..i] == xs;
    }
  }

  /** The result succeeds exactly when `f` accepts every element, and then
      holds `f`'s value for each element, in order. */
  lemma {:induction false} MapOptionAll<A, B>(xs: seq<A>, f: A -> Option<B>)
    ensures MapOption(xs, f).Some? <==> forall k :: 0 <= k < |xs| ==> f(xs[k]).Some?
    ensures MapOption(xs, f).Some? ==>
      forall k :: 0 <= k < |xs| ==> f(xs[k]) == Some(MapOption(xs, f).value[k])
  {
    if xs != [] {
      var init := xs[..|xs| - 1];
      MapOptionAll(init, f);
      assert forall k :: 0 <= k < |init| ==> init[k] == xs[k];
    }
  }

  /** A prefix maps to the prefix of the whole result. */
  lemma MapOptionPrefix<A, B>(xs: seq<A>, f: A -> Option<B>, i: nat)
    requires i <= |xs| && MapOption(xs, f).Some?
    ensures MapOption(xs[..i], f) == Some(MapOption(xs, f).value[..i])
  {
    var ys := MapOption(xs, f).value;
    MapOptionAll(xs, f);
    MapOptionAll(xs[..i], f);
    assert MapOption(xs[..i], f).Some?;
    forall k | 0 <= k < i ensures MapOption(xs[..i], f).value[k] == ys[k] {
      assert xs[..i][k] == xs[k];
    }
    assert MapOption(xs[..i], f).value == ys[..i];
  }
}
