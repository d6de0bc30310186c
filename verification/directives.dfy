/**
 * Collecting animation directives from the `<animate>` and
 * `<animateTransform>` elements of a document (section 19.2 of SVG 1.1).
 * An element is kept when it has a value source (`from`, `to` or `values`)
 * and a duration, and, for `<animateTransform>`, a `type`; what it animates
 * is its parent element, named by a handle.
 */
module Directives {
  import opened Wrappers

  /** A reference to an element of the document. */
  type Handle = nat

  /** The attributes of one animation element as lxml's `get` returns them:
      `None` when the attribute is absent. */
  datatype AnimationNode = AnimationNode(
    parent: Handle,
    attributeName: Option<string>,
    fromValue: Option<string>,
    toValue: Option<string>,
    valuesValue: Option<string>,
    dur: Option<string>,
    transformType: Option<string>)

  /** Python truthiness of an optional string: present and not empty. */
  predicate Truthy(v: Option<string>) {
    v.Some? && v.value != ""
  }

  /** The filter of the extraction loops: some value source and a duration,
      and for a transform animation also a transform type. */
  predicate IsUsable(node: AnimationNode, isTransform: bool) {
    && (Truthy(node.fromValue) || Truthy(node.toValue) || Truthy(node.valuesValue))
    && Truthy(node.dur)
    && (isTransform ==> Truthy(node.transformType))
  }

  datatype Kind = Animate | AnimateTransform(transformType: string)

  /** One collected animation: the element it drives and the attributes it was given. */
  datatype Directive = Directive(
    target: Handle,
    attributeName: Option<string>,
    fromValue: Option<string>,
    toValue: Option<string>,
    valuesValue: Option<string>,
    dur: string,
    kind: Kind)

  /** What every collected directive satisfies. */
  predicate Valid(d: Directive) {
    && (Truthy(d.fromValue) || Truthy(d.toValue) || Truthy(d.valuesValue))
    && d.dur != ""
    && (d.kind.AnimateTransform? ==> d.kind.transformType != "")
  }

  /** The record the extraction loops append for a usable node. */
  function ToDirective(node: AnimationNode, isTransform: bool): (d: Directive)
    requires IsUsable(node, isTransform)
    ensures Valid(d) && d.target == node.parent && d.kind.AnimateTransform? == isTransform
  {
    Directive(node.parent, node.attributeName, node.fromValue, node.toValue, node.valuesValue,
      node.dur.value, if isTransform then AnimateTransform(node.transformType.value) else Animate)
  }

  /** The directives one extraction loop collects from `nodes`, in document order. */
  function Extracted(nodes: seq<AnimationNode>, isTransform: bool): seq<Directive> {
    if nodes == [] then []
    else
      var init := Extracted(nodes[..|nodes| - 1], isTransform);
      var last := nodes[|nodes| - 1];
      if IsUsable(last, isTransform) then init + [ToDirective(last, isTransform)] else init
  }

  /** Exactly the usable nodes are collected, each as its own directive, and
      every collected directive is valid. */
  lemma {:induction false} ExtractedMembers(nodes: seq<AnimationNode>, isTransform: bool)
    ensures |Extracted(nodes, isTransform)| <= |nodes|
    ensures forall d :: d in Extracted(nodes, isTransform) ==>
      Valid(d) && exists k :: 0 <= k < |nodes| && IsUsable(nodes[k], isTransform) && d == ToDirective(nodes[k], isTransform)
    ensures forall k :: 0 <= k < |nodes| && IsUsable(nodes[k], isTransform) ==>
      ToDirective(nodes[k], isTransform) in Extracted(nodes, isTransform)
  {
    if nodes != [] {
      var init := nodes[..|nodes| - 1];
      ExtractedMembers(init, isTransform);
      assert forall k :: 0 <= k < |init| ==> init[k] == nodes[k];
    }
  }

  /** The two extraction loops of the source: `<animate>` elements first,
      then `<animateTransform>` elements, each kept when usable. */
  method ExtractDirectives(animates: seq<AnimationNode>, transforms: seq<AnimationNode>) returns (ds: seq<Directive>)
    ensures ds == Extracted(animates, false) + Extracted(transforms, true)
  {
    ds := [];
    for i := 0 to |animates|
      invariant ds == Extracted(animates[..i], false)
    {
      assert animates[..i + 1][..i] == animates[..i];
      if IsUsable(animates[i], false) {
        ds := ds + [ToDirective(animates[i], false)];
      }
    }
    assert animates[..|animates|] == animates;
    var first := ds;
    for i := 0 to |transforms|
      invariant ds == first + Extracted(transforms[..i], true)
    {
      assert transforms[..i + 1][..i] == transforms[..i];
      if IsUsable(transforms[i], true) {
        ds := ds + [ToDirective(transforms[i], true)];
      }
    }
    assert transforms[..|transforms|] == transforms;
  }
}
