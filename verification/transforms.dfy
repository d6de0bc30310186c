/**
 * `build_transform`: renders the SVG `transform` attribute (section 7.6 of
 * SVG 1.1) for one transform kind from a list of numbers, following a fixed
 * arity table, and `""` for any kind or arity outside it. Numbers are
 * rendered by `show`, which stands for Python's float-to-text conversion.
 */
module Transforms {
  import opened Wrappers
  import opened Text

  /** The arity table: which numbers of values each kind renders. */
  predicate Accepts(kind: string, arity: nat) {
    || (kind == "translate" && arity >= 1)
    || (kind == "rotate" && (arity == 1 || arity == 3))
    || (kind == "scale" && (arity == 1 || arity == 2))
    || ((kind == "skewX" || kind == "skewY") && arity == 1)
  }

  /** `build_transform(transform_type, values)`. The text is empty exactly
      when the kind and the number of values are outside the arity table. */
  function BuildTransform(kind: string, values: seq<real>, show: real -> string): (r: string)
    ensures r != "" <==> Accepts(kind, |values|)
  {
    if kind == "translate" then
      if |values| == 1 then "translate(" + show(values[0]) + ",0)"
      else if |values| >= 2 then "translate(" + show(values[0]) + "," + show(values[1]) + ")"
      else ""
    else if kind == "rotate" then
      if |values| == 1 then "rotate(" + show(values[0]) + ")"
      else if |values| == 3 then "rotate(" + show(values[0]) + " " + show(values[1]) + " " + show(values[2]) + ")"
      else ""
    else if kind == "scale" then
      if |values| == 1 then "scale(" + show(values[0]) + ")"
      else if |values| == 2 then "scale(" + show(values[0]) + " " + show(values[1]) + ")"
      else ""
    else if kind == "skewX" then
      if |values| == 1 then "skewX(" + show(values[0]) + ")" else ""
    else if kind == "skewY" then
      if |values| == 1 then "skewY(" + show(values[0]) + ")" else ""
    else ""
  }

  /** A transform function call as SVG writes it: `name(arg sep arg ...)`. */
  datatype TransformCall = TransformCall(name: string, args: seq<string>)

  /** The arguments each accepted transform carries: translate exactly two,
      the second defaulting to `0`; every other kind all of its values. */
  function Arguments(kind: string, values: seq<real>, show: real -> string): seq<string>
    requires Accepts(kind, |values|)
  {
    if kind == "translate" then
      [show(values[0]), if |values| == 1 then "0" else show(values[1])]
    else seq(|values|, i requires 0 <= i < |values| => show(values[i]))
  }

  /** Position of the first occurrence of `c` in `s`. */
  function IndexOf(s: string, c: char): (r: Option<nat>)
    ensures r.Some? ==> r.value < |s| && s[r.value] == c && c !in s[..r.value]
    ensures r.None? ==> c !in s
  {
    if s == [] then None
    else if s[0] == c then Some(0)
    else
      match IndexOf(s[1..], c)
      case None => None
      case Some(i) =>
        assert s[..i + 1] == [s[0]] + s[1..][..i];
        Some(i + 1)
  }

  /** The position of a character nothing before it equals is the first one. */
  lemma {:induction false} IndexOfFirst(s: string, c: char, j: nat)
    requires j < |s| && s[j] == c && forall i :: 0 <= i < j ==> s[i] != c
    ensures IndexOf(s, c) == Some(j)
  {
    if j > 0 {
      IndexOfFirst(s[1..], c, j - 1);
    }
  }

  /** Reads a transform call back: the name up to the first `(`, then the
      text up to a closing `)` at the end, split at commas and spaces. */
  function ParseTransform(s: string): Option<TransformCall> {
    match IndexOf(s, '(')
    case None => None
    case Some(i) =>
      if i + 2 <= |s| && s[|s| - 1] == ')' then
        Some(TransformCall(s[..i], SplitAt(s[i + 1..|s| - 1], {',', ' '})))
      else None
  }

  /** A call written with one separator between its arguments reads back as itself. */
  lemma ParseCall(name: string, args: seq<string>, sep: char)
    requires '(' !in name && |args| >= 1 && sep in {',', ' '}
    requires forall k :: 0 <= k < |args| ==> ',' !in args[k] && ' ' !in args[k]
    ensures ParseTransform(name + "(" + Join(args, sep) + ")") == Some(TransformCall(name, args))
  {
    var inner := Join(args, sep);
    var s := name + "(" + inner + ")";
    forall j | 0 <= j < |name| ensures s[j] != '(' {
      assert s[j] == name[j];
    }
    assert s[|name|] == '(' && s[|s| - 1] == ')';
    IndexOfFirst(s, '(', |name|);
    assert s[..|name|] == name;
    assert s[|name| + 1..|s| - 1] == inner;
    SplitJoin(args, sep, {',', ' '});
  }

  /** No rendered number holds an argument separator. */
  ghost predicate Unseparated(show: real -> string) {
    forall x :: ',' !in show(x) && ' ' !in show(x)
  }

  /** `Unseparated` at one number. */
  lemma UnseparatedAt(show: real -> string, x: real)
    requires Unseparated(show)
    ensures ',' !in show(x) && ' ' !in show(x)
  {
  }

  /** The separator between arguments: a comma for translate, a space otherwise. */
  function Separator(kind: string): char {
    if kind == "translate" then ',' else ' '
  }

  /** Every accepted transform is its kind applied to the arguments of the
      arity table, in order, with the kind's separator between them. */
  lemma BuildTransformText(kind: string, values: seq<real>, show: real -> string)
    requires Accepts(kind, |values|)
    ensures BuildTransform(kind, values, show) ==
      kind + "(" + Join(Arguments(kind, values, show), Separator(kind)) + ")"
  {
    var args := Arguments(kind, values, show);
    var sep := Separator(kind);
    if |args| == 1 {
      OneArgument(kind, values, show);
    } else if |args| == 2 {
      assert Join(args, sep) == args[0] + [sep] + args[1];
      TwoArguments(kind, values, show);
    } else {
      assert Join(args[1..], sep) == args[1] + [sep] + args[2];
      assert Join(args, sep) == args[0] + [sep] + args[1] + [sep] + args[2];
      assert BuildTransform(kind, values, show) == "rotate(" + args[0] + " " + args[1] + " " + args[2] + ")";
      assert "rotate(" == kind + "(";
    }
  }

  /** An accepted transform with one argument is `kind(arg)`. */
  lemma OneArgument(kind: string, values: seq<real>, show: real -> string)
    requires Accepts(kind, |values|) && |Arguments(kind, values, show)| == 1
    ensures BuildTransform(kind, values, show) == kind + "(" + Arguments(kind, values, show)[0] + ")"
  {
    var a := show(values[0]);
    if kind == "rotate" {
      assert BuildTransform(kind, values, show) == "rotate(" + a + ")";
      assert "rotate(" == kind + "(";
    } else if kind == "scale" {
      assert BuildTransform(kind, values, show) == "scale(" + a + ")";
      assert "scale(" == kind + "(";
    } else if kind == "skewX" {
      assert BuildTransform(kind, values, show) == "skewX(" + a + ")";
      assert "skewX(" == kind + "(";
    } else {
      assert BuildTransform(kind, values, show) == "skewY(" + a + ")";
      assert "skewY(" == kind + "(";
    }
  }

  /** An accepted transform with two arguments is `kind(arg sep arg)`. */
  lemma TwoArguments(kind: string, values: seq<real>, show: real -> string)
    requires Accepts(kind, |values|) && |Arguments(kind, values, show)| == 2
    ensures var args := Arguments(kind, values, show);
      BuildTransform(kind, values, show) == kind + "(" + args[0] + [Separator(kind)] + args[1] + ")"
  {
    var args := Arguments(kind, values, show);
    if kind == "translate" {
      if |values| == 1 {
        assert BuildTransform(kind, values, show) == "translate(" + args[0] + ",0)";
        assert ",0)" == [','] + args[1] + ")";
      } else {
        assert BuildTransform(kind, values, show) == "translate(" + args[0] + "," + args[1] + ")";
      }
      assert "translate(" == kind + "(";
    } else {
      assert BuildTransform(kind, values, show) == "scale(" + args[0] + " " + args[1] + ")";
      assert "scale(" == kind + "(";
    }
  }

  /** With no separator in any rendered number, no argument holds one. */
  lemma ArgumentsUnseparated(kind: string, values: seq<real>, show: real -> string)
    requires Accepts(kind, |values|) && Unseparated(show)
    ensures var args := Arguments(kind, values, show);
      forall k :: 0 <= k < |args| ==> ',' !in args[k] && ' ' !in args[k]
  {
    var args := Arguments(kind, values, show);
    forall k | 0 <= k < |args| ensures ',' !in args[k] && ' ' !in args[k] {
      if kind == "translate" && k == 1 && |values| == 1 {
        assert args[k] == "0";
      } else {
        assert args[k] == show(values[k]);
        UnseparatedAt(show, values[k]);
      }
    }
  }

  /** Every accepted transform text reads back as the call of its kind with
      the arguments of the arity table. */
  lemma BuildTransformRoundTrip(kind: string, values: seq<real>, show: real -> string)
    requires Accepts(kind, |values|) && Unseparated(show)
    ensures ParseTransform(BuildTransform(kind, values, show)) == Some(TransformCall(kind, Arguments(kind, values, show)))
  {
    BuildTransformText(kind, values, show);
    ArgumentsUnseparated(kind, values, show);
    ParseCall(kind, Arguments(kind, values, show), Separator(kind));
  }

  /** Kinds outside the table, and arities outside it, give the empty text:
      two numbers for a skew, say. */
  lemma BuildTransformRejects(values: seq<real>, show: real -> string)
    requires |values| == 2
    ensures BuildTransform("skewX", values, show) == ""
    ensures BuildTransform("rotate", values, show) == ""
    ensures BuildTransform("matrix", values, show) == ""
  {
  }
}
