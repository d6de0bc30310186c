# Baking SVG animations into frames — a verified model

`skills/gif.py` turns an animated SVG into a short GIF. Its core is an
animation-baking engine: it collects the `<animate>` and `<animateTransform>`
elements of the document, and then, for each of ten frames at times
`t = i / 9`, resolves every animation to a value at `t` and writes that value
into an attribute of the animated element, so that each frame is a static
snapshot of the document. This project models that engine in Dafny:

- **Text** — Python's `str.strip()`, `str.split(';')` and
  `re.split(r'[\s,]+', ...)` over strings.
- **Values** — the decimal grammar of `is_float_str` and the value `float()`
  gives it; the hex colour codec `is_hex_color` / `hex_to_rgb` / `rgb_to_hex`.
- **Parsing** — `parse_numeric_list` and `parse_values_attribute`, each as a
  specification function and as the loop method the source runs, proved
  equal to it.
- **Interpolation** — `interpolate`, `interpolate_lists` (with `zip`
  truncation) and `interpolate_color` (with `int()` truncation toward zero).
- **Timeline** — `get_keyframe_values`, the piecewise-linear timeline through
  a keyframe list.
- **Transforms** — `build_transform` and its arity table, with a reader that
  parses the text back.
- **Directives** — the two extraction loops and their filters.
- **Frames** — the per-directive write, the document as a `Document` class
  whose element map is updated in place, and the frame loop.

Numbers are exact reals. Python's float-to-text conversion `str(x)` is a
parameter `show: real -> string` of every operation that writes a number.
A document is a map from element handles to attribute maps. A write that
lxml would refuse (a missing or empty attribute name) is an exception that
nothing in the source catches, so it ends the run: the model returns `None`
for the whole rendering.

Four consequences of the code that the model states outright:

- `translate` is rendered for any number of values of at least one, and
  values after the second are ignored (`skills/gif.py:100-104`).
- An `animateTransform` whose values fall outside the arity table writes the
  empty text to `transform` (`skills/gif.py:318-320`, `338-340`).
- With three colour keyframes red, green and blue, time `0.25` lies in the
  first segment at local time `0.5`, and the channels truncate to
  `(127, 127, 0)` (`skills/gif.py:83-95`, `Timeline.RedGreenBlueAtQuarter`).
- Number keyframes of different lengths are accepted together
  (`skills/gif.py:58-65`), and `zip` cuts their blend to the shorter one
  (`skills/gif.py:42-43`, `92-93`). So the timeline passes through a keyframe
  when it and the next are two colours or two lists of one length, but a
  number keyframe longer than the next is cut short: at `t = 0` the keyframes `1 2` and `3` give `[1]`, not `[1, 2]`
  (`Timeline.ZipCutsFirstKeyframe`, `Timeline.GetKeyframeValuesAtKeyframe`,
  `Timeline.GetKeyframeValuesAtStart`).

## Model

| member | source | states |
|---|---|---|
| Text.Strip | skills/gif.py:16 | `strip()` leaves no whitespace at either end of its result |
| Text.StripUnchanged | skills/gif.py:16 | text with no whitespace at either end is its own strip, so stripping twice is stripping once |
| Text.StripShape | skills/gif.py:16 | `strip()` removes exactly the leading and the trailing run of whitespace and keeps everything between, in order |
| Text.SplitJoin | skills/gif.py:53 | splitting at `;` undoes joining with `;` when no piece holds a separator |
| Text.JoinSplit | skills/gif.py:53 | joining the pieces of `split(';')` with `;` gives the original text back |
| Text.SplitAt | skills/gif.py:53 | `str.split(';')` gives at least one piece, and no piece holds a separator |
| Text.TokensShape | skills/gif.py:29 | the pieces of `re.split(r'[\s,]+', s)` hold no delimiter, only the first and last can be empty, and the first is empty exactly when `s` is empty or starts with a delimiter |
| Text.Tokens | skills/gif.py:29 | `re.split(r'[\s,]+', s)` gives at least one token; `Text.TokensShape`, `Text.TokensLast` and `Text.TokensOfInterleave` give their shape and content |
| Text.TokensLast | skills/gif.py:29 | the last token of `re.split(r'[\s,]+', s)` is empty exactly when `s` is empty or ends with a delimiter |
| Text.TokensOfRun | skills/gif.py:29 | a run of any number of commas and whitespace before a word, or at the end, gives one empty token, as the `+` of the pattern merges it |
| Text.TokensOfInterleave | skills/gif.py:29 | `re.split(r'[\s,]+', ...)` of non-empty delimiter-free words separated by any runs of commas and whitespace (`"10, 20 30"`) gives the words back |
| Values.DecimalTextRoundTrip | skills/gif.py:15-16 | every text of the form `-?digits(.digits)?` matches `is_float_str`'s pattern, and its sign, whole digits and fraction digits are recovered |
| Values.DecimalTextComplete | skills/gif.py:15-16 | every text the pattern accepts is such a text: together with the round trip, the pattern is exactly that grammar |
| Values.DecimalValueOfText | skills/gif.py:33 | the value `float()` gives a decimal text is its sign times whole digits plus fraction digits over 10 to the fraction's length |
| Values.IsDecimal | skills/gif.py:16 | defines the pattern `^-?\d+(\.\d+)?$`: an optional minus sign, digits, and optionally a dot followed by digits |
| Values.IsFloatStr | skills/gif.py:15-16 | `is_float_str` is that pattern applied to the stripped text |
| Values.IsHexColor | skills/gif.py:18-19 | `is_hex_color`: the stripped text is `#` followed by exactly six hex digits of either case |
| Values.HexToRgb | skills/gif.py:21-23 | a colour `is_hex_color` accepts reads as three channels in 0..255 |
| Values.Hex2 | skills/gif.py:26 | `{:02x}` writes a channel in 0..255 as exactly two lower-case hex digits, high digit first |
| Values.RgbToHex | skills/gif.py:25-26 | for channels in 0..255 the text is a stripped, lower-case colour that `is_hex_color` accepts |
| Values.HexPairText | skills/gif.py:21-26 | reading two hex digits and writing them back with `{:02x}` gives the two digits lower-cased |
| Values.RgbHexRoundTrip | skills/gif.py:21-26 | `hex_to_rgb(rgb_to_hex(c)) == c` for every triple with channels in 0..255 |
| Values.HexRgbRoundTrip | skills/gif.py:21-26 | `rgb_to_hex(hex_to_rgb(h))` is `h` stripped and lower-cased, for every colour `is_hex_color` accepts |
| Wrappers.MapOptionAll | skills/gif.py:31-37 | a per-token loop that gives up at the first failure succeeds exactly when every token succeeds, and then holds each token's value at its position |
| Parsing.NumericList | skills/gif.py:28-37 | `parse_numeric_list` never returns an empty list |
| Parsing.ParseNumericList | skills/gif.py:28-37 | the loop returns one number per token, in order, or `None` at the first token that is empty or not a decimal |
| Parsing.ReadTokenDecimal | skills/gif.py:32-33 | a token is read exactly when its stripped text is a decimal, and then as that decimal's value |
| Parsing.ReadTokenOfDecimalText | skills/gif.py:32-33 | a written decimal is read back as the number its sign and digits denote |
| Parsing.NumericListEmptyToken | skills/gif.py:29-35 | a list with an empty token (blank text, or a comma left at either end after strip) is rejected |
| Parsing.NumericListOfInterleave | skills/gif.py:29-37 | words separated by any runs of commas and whitespace read exactly as the words read one by one |
| Parsing.DoubledCommaAccepted | skills/gif.py:29-37 | a doubled comma is one delimiter run: `a,,b` reads as the two words `a` and `b` |
| Parsing.NumericListOfDecimals | skills/gif.py:28-37 | decimals separated by any runs of commas and whitespace are read back as one number per decimal, each the value of its text |
| Parsing.Classify | skills/gif.py:59-73 | a segment reads as a non-empty number list or as a colour with channels in 0..255 |
| Parsing.ColourIsNotNumbers | skills/gif.py:28-37 | `parse_numeric_list` rejects every text `is_hex_color` accepts |
| Parsing.ClassifyReadings | skills/gif.py:59-74 | trying numbers first loses no colour: a colour segment reads as its colour, a number segment is not a colour and reads as its numbers, and a segment reads as nothing exactly when it is neither |
| Parsing.Keyframes | skills/gif.py:52-76 | the reference reading of `parse_values_attribute`: every `;`-segment classified, and the list kept only when all are of one kind |
| Parsing.KeyframesAccepted | skills/gif.py:52-76 | `parse_values_attribute` accepts exactly when every `;`-segment reads as numbers or every segment reads as a colour; it then returns one keyframe per segment, in order, at least one |
| Parsing.KeyframesWellFormed | skills/gif.py:52-76 | an accepted list is non-empty, of one kind, and every keyframe is well formed |
| Parsing.KeyframesMixed | skills/gif.py:61-69 | a number segment and a colour segment anywhere in the list reject it |
| Parsing.ValuesStep | skills/gif.py:58-74 | one loop iteration: a segment of neither kind or of the other kind rejects the list; otherwise the list grows by its keyframe and stays of one kind |
| Parsing.ReadSegment | skills/gif.py:59-73 | the loop body's reading of one segment, with `parse_numeric_list` run as its loop, is `Parsing.Classify`, and a segment that is a hex colour yields that colour |
| Parsing.ParseValuesAttribute | skills/gif.py:52-76 | the mode-tracking loop returns exactly the keyframes of `Parsing.Keyframes` |
| Interpolation.Interpolate | skills/gif.py:39-40 | the interpolant is `a` at `t = 0`, `b` at `t = 1`, and `a` throughout when `a == b` |
| Interpolation.InterpolateBetween | skills/gif.py:39-40 | for `t` in [0, 1] the interpolant lies between the two ends |
| Interpolation.Trunc | skills/gif.py:47-49 | `int()` of a float truncates toward zero for both signs |
| Interpolation.TruncBetween | skills/gif.py:47-49 | truncation keeps a value between two integers that bound it |
| Interpolation.InterpolateLists | skills/gif.py:42-43 | the result has the length of the shorter list, as `zip` gives |
| Interpolation.InterpolateListsAt | skills/gif.py:42-43 | entry `k` interpolates entry `k` of the two lists |
| Interpolation.InterpolateListsEnds | skills/gif.py:42-43 | lists of one length interpolate to the first at `t = 0` and to the second at `t = 1` |
| Interpolation.InterpolateColor | skills/gif.py:45-50 | the colour is `c1` at `t = 0`, `c2` at `t = 1`, constant for equal ends, and in 0..255 for in-range ends and `t` in [0, 1] |
| Interpolation.ChannelBetween | skills/gif.py:45-50 | each truncated channel lies between the two end channels |
| Timeline.Blend | skills/gif.py:89-97 | two keyframes blend exactly when they are of the same kind, into a keyframe of that kind |
| Timeline.SegmentOf | skills/gif.py:83-88 | for `t` in [0, 1] the segment index `t // (1/n)` is `floor(t n)`, in 0..n, equal to `n` only at `t = 1`, and the local time is `t n - k`, in [0, 1) |
| Timeline.GetKeyframeValues | skills/gif.py:78-97 | `get_keyframe_values` for `t` in [0, 1]: the first keyframe or nothing for fewer than two, the last at segment index `n`, otherwise the blend of the segment's two keyframes at the local time |
| Timeline.GetKeyframeValuesDegenerate | skills/gif.py:79-81 | no keyframes give nothing; one keyframe is the value at every time |
| Timeline.GetKeyframeValuesSegment | skills/gif.py:83-97 | `t = 1` gives the last keyframe; earlier times blend keyframes `k` and `k + 1` at the local time, and fail exactly when the two differ in kind |
| Timeline.BlendAtStart | skills/gif.py:89-94 | a blend of compatible keyframes at local time 0 is its start |
| Timeline.GetKeyframeValuesAtKeyframe | skills/gif.py:78-97 | at time `j / n` the timeline passes exactly through keyframe `j`, when keyframe `j` and the next are two colours or two lists of one length (the last keyframe always) |
| Timeline.GetKeyframeValuesAtStart | skills/gif.py:78-97 | at `t = 0` the value is the first keyframe, when it and the second are two colours or two lists of one length |
| Timeline.GetKeyframeValuesOfParsed | skills/gif.py:78-97 | a list `parse_values_attribute` accepted always resolves, to a well-formed value of its own kind |
| Timeline.ZipCutsFirstKeyframe | skills/gif.py:42-43 | number keyframes `1 2` then `3` give `[1]` at `t = 0`: `zip` cuts the blend to the shorter list |
| Timeline.RedGreenBlueAtQuarter | skills/gif.py:78-97 | red, green, blue at `t = 0.25` give `(127, 127, 0)` |
| Transforms.BuildTransform | skills/gif.py:99-121 | the text is empty exactly when the kind and the number of values are outside the arity table |
| Transforms.BuildTransformText | skills/gif.py:99-121 | every accepted transform is `kind(args)` with the table's arguments, comma-separated for translate and space-separated otherwise |
| Transforms.BuildTransformRoundTrip | skills/gif.py:99-121 | every accepted transform text parses back as the call of its kind with the table's arguments |
| Transforms.BuildTransformRejects | skills/gif.py:99-121 | two values give `""` for skewX, rotate and an unknown kind |
| Directives.ToDirective | skills/gif.py:248-258 | a usable element becomes a directive on its parent with a value source, a duration and, for a transform, its type |
| Directives.IsUsable | skills/gif.py:268 | the filter `(from or to or values) and dur and type` by Python truthiness; without the `type` test for `<animate>` (line 248) |
| Directives.Extracted | skills/gif.py:242-280 | the usable elements of one loop, each as its directive, in document order |
| Directives.ExtractedMembers | skills/gif.py:242-280 | exactly the usable elements are collected, each as its own valid directive |
| Directives.ExtractDirectives | skills/gif.py:242-280 | the two loops collect the usable `<animate>` elements, then the usable `<animateTransform>` elements, in document order |
| Frames.WriteTo | skills/gif.py:312 | `element.set(name, value)` writes when the name is present and non-empty and raises otherwise |
| Frames.Apply | skills/gif.py:312 | a write raises exactly when lxml refuses it, and otherwise keeps the set of elements |
| Frames.NumericWrite | skills/gif.py:316-325 | a number list writes `build_transform`'s text to `transform` on a transform animation, and otherwise `str` of its first number to the attribute name |
| Frames.PairEffect | skills/gif.py:307-325 | a `from`/`to` pair: two colours blend as a colour, two non-empty number lists blend element-wise, anything else writes nothing |
| Frames.ValuesEffect | skills/gif.py:326-345 | a `values` list: the timeline's value at `t` written as a colour or as numbers, nothing when the list does not parse or the timeline gives nothing |
| Frames.Effect | skills/gif.py:303-345 | `from`/`to` when both are truthy, otherwise `values` when truthy, otherwise nothing |
| Frames.Step | skills/gif.py:303-345 | one directive's write applied to its element at time `t` |
| Frames.ApplyAll | skills/gif.py:295-345 | every directive applied in order at time `t`, `None` once one raises |
| Frames.FrameTime | skills/gif.py:293 | frame times lie in [0, 1], start at 0 and end at 1 |
| Frames.FrameTimeIncreasing | skills/gif.py:293 | frame times increase strictly |
| Frames.TenFrameTimes | skills/gif.py:288-293 | with ten frames the times are the ninths from 0 to 1 |
| Frames.Frames | skills/gif.py:292-347 | a rendering that does not raise has one snapshot per frame |
| Frames.ApplyAllKeys | skills/gif.py:295-345 | applying every directive neither adds nor removes elements |
| Frames.StepChangesOneAttribute | skills/gif.py:307-345 | one directive changes at most the one attribute it writes, of its own element, and nothing else in the document |
| Frames.ColorWrite | skills/gif.py:307-312 | a colour `from`/`to` pair writes the attribute as a lower-case colour that reads back as the interpolated triple, in range |
| Frames.NumericTransformWrite | skills/gif.py:313-320 | a numeric pair on a transform animation writes `transform` with `build_transform`'s text, empty exactly outside the arity table |
| Frames.NumericAnimateWrite | skills/gif.py:321-325 | a numeric pair on a plain animation writes only the first interpolated number |
| Frames.NothingWritten | skills/gif.py:307-331 | a pair that is neither two colours nor two number lists writes nothing, and neither does an unparsable `values` list; `values` is ignored when both ends are given |
| Frames.ValuesWrite | skills/gif.py:326-345 | a parsed `values` list always writes: a colour as a lower-case colour of an in-range triple, numbers as a pair would; it raises exactly for a missing or empty name, unless it writes `transform` |
| Frames.RaisesOnlyWithoutName | skills/gif.py:307-345 | a write raises only when the attribute name is missing or empty |
| Frames.FramesAbort | skills/gif.py:292-345 | once a write raises, no later frame is rendered |
| Frames.FramesPrefix | skills/gif.py:292-347 | rendering more frames never changes the frames already rendered |
| Frames.FramesNext | skills/gif.py:292-347 | frame `i` applies every directive, at frame `i`'s time, to the document as frame `i - 1` left it |
| Frames.ApplyAllAbort | skills/gif.py:295-345 | a raise part-way through a frame is a raise for the whole frame |
| Frames.Document.constructor | skills/gif.py:239 | the document starts as the parsed element map |
| Frames.Document.Set | skills/gif.py:312 | `element.set` replaces one attribute of one element |
| Frames.Document.SetNamed | skills/gif.py:312 | a write with a usable name is made, and one without leaves the document unchanged and reports the raise |
| Frames.Document.SetNumbers | skills/gif.py:318-325 | a number list writes `transform` for a transform animation and the first number otherwise |
| Frames.Document.ApplyDirective | skills/gif.py:303-345 | one directive leaves the document as `Frames.Step` specifies, or reports the raise |
| Frames.Document.ApplyFrame | skills/gif.py:295-345 | the directives applied in order leave the document as `Frames.ApplyAll` specifies |
| Frames.Document.RenderFrames | skills/gif.py:292-347 | the frame loop's snapshots are exactly `Frames.Frames` |

## Left out

- The model-API calls that produce the SVG and the regular expression that cuts it out of the reply (`skills/gif.py:123-235`): network I/O.
- XML parsing and serialising (`ET.fromstring`, `ET.tostring`): the document is a map from element handles to attribute maps, and the animation elements are given as sequences in document order.
- Removing the animation elements from the tree (`skills/gif.py:282-286`): the element map never holds them, and no later step reads them.
- Rasterising with cairosvg and PIL, the temporary files and the GIF assembly, including `frame_duration`: file and image I/O.
- The duration parse `float(dur)` (`skills/gif.py:296-300`): its value is never used; a duration `float()` rejects would raise and end the run, which the model does not capture, since `float()` accepts a wider syntax (exponents, `inf`, `nan`, underscores) than is modelled here.
- IEEE floating point: numbers are exact reals, so rounding in `t // (1/n)`, in the local time and in the interpolants is not modelled.
- `str()` of a float: the parameter `show`. `Transforms.BuildTransformRoundTrip` assumes that no rendered number contains a comma or a space.
- `\d` in `is_float_str` matches any Unicode decimal digit; the model accepts ASCII digits only.
- Timeline.GetKeyframeValues: defined for `t` in [0, 1] only, the times the frame loop passes; Python's behaviour for other times (negative indexing, `IndexError`) is not modelled.
- Frames.WriteTo: lxml also rejects attribute names that are not valid XML names; only a missing or empty name is modelled as raising.
- Frames.Element: every directive's target is an element of the tree in the source; the model also accepts a handle outside the document, for which a write creates the element's attribute map.
- The number of frames is the parameter `count` of `Frames.Document.RenderFrames`; the source's value is `Frames.NumFrames`, ten.
