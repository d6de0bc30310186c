/**
 * Text primitives the animation engine relies on: Python's `str.strip()`,
 * `str.split(sep)` and `re.split(r'[\s,]+', ...)`, over strings as `seq<char>`.
 */
module Text {

  /** The characters Python's `str.strip()` and the regex class `\s` treat as
      whitespace (those for which `str.isspace()` holds). */
  const Whitespace: set<char> := {
    '\t', '\n', '\U{B}', '\U{C}', '\r', '\U{1C}', '\U{1D}', '\U{1E}', '\U{1F}', ' ',
    '\U{85}', '\U{A0}', '\U{1680}',
    '\U{2000}', '\U{2001}', '\U{2002}', '\U{2003}', '\U{2004}', '\U{2005}',
    '\U{2006}', '\U{2007}', '\U{2008}', '\U{2009}', '\U{200A}',
    '\U{2028}', '\U{2029}', '\U{202F}', '\U{205F}', '\U{3000}'
  }

  predicate IsSpace(c: char) {
    c in Whitespace
  }

  /** Drops leading whitespace. */
  function TrimStart(s: string): (r: string)
    ensures |r| <= |s|
    ensures r == [] || !IsSpace(r[0])
  {
    if s != [] && IsSpace(s[0]) then TrimStart(s[1..]) else s
  }

  /** Drops trailing whitespace. */
  function TrimEnd(s: string): (r: string)
    ensures |r| <= |s|
    ensures r == [] || (r[0] == s[0] && !IsSpace(r[|r| - 1]))
  {
    if s != [] && IsSpace(s[|s| - 1]) then TrimEnd(s[..|s| - 1]) else s
  }

  /** Python's `s.strip()`: neither end of the result is whitespace. */
  function Strip(s: string): (r: string)
    ensures r == [] || (!IsSpace(r[0]) && !IsSpace(r[|r| - 1]))
  {
    TrimEnd(TrimStart(s))
  }

  /** Text with no whitespace at either end is its own strip, so stripping is idempotent. */
  lemma StripUnchanged(s: string)
    requires s == [] || (!IsSpace(s[0]) && !IsSpace(s[|s| - 1]))
    ensures Strip(s) == s
  {
  }

  /** `TrimStart` removes exactly the whitespace before the first other character. */
  lemma {:induction false} TrimStartShape(s: string)
    ensures var r := TrimStart(s);
      && r == s[|s| - |r|..]
      && forall i :: 0 <= i < |s| - |r| ==> IsSpace(s[i])
  {
    if s != [] && IsSpace(s[0]) {
      TrimStartShape(s[1..]);
    }
  }

  /** `TrimEnd` removes exactly the whitespace after the last other character. */
  lemma {:induction false} TrimEndShape(s: string)
    ensures var r := TrimEnd(s);
      && r == s[..|r|]
      && forall i :: |r| <= i < |s| ==> IsSpace(s[i])
  {
    if s != [] && IsSpace(s[|s| - 1]) {
      TrimEndShape(s[..|s| - 1]);
    }
  }

  /** `Strip(s)` is the slice of `s` from its first to its last non-whitespace
      character: only whitespace is cut away, on either side. */
  lemma StripShape(s: string)
    ensures var i := |s| - |TrimStart(s)|;
      && i + |Strip(s)| <= |s|
      && Strip(s) == s[i..i + |Strip(s)|]
      && (forall j :: 0 <= j < i ==> IsSpace(s[j]))
      && (forall j :: i + |Strip(s)| <= j < |s| ==> IsSpace(s[j]))
  {
    var a := TrimStart(s);
    TrimStartShape(s);
    TrimEndShape(a);
    var i := |s| - |a|;
    var r := TrimEnd(a);
    assert Strip(s) == r;
    assert a == s[i..];
    assert r == a[..|r|] == s[i..i + |r|];
    forall j | i + |r| <= j < |s| ensures IsSpace(s[j]) {
      assert s[j] == a[j - i];
    }
  }

  /** ASCII lower-casing, which is all `str.lower()` does to a hex colour. */
  function LowerChar(c: char): char {
    if 'A' <= c <= 'Z' then (c as int - 'A' as int + 'a' as int) as char else c
  }

  function Lower(s: string): (r: string)
    ensures |r| == |s| && forall i :: 0 <= i < |s| ==> r[i] == LowerChar(s[i])
  {
    seq(|s|, i requires 0 <= i < |s| => LowerChar(s[i]))
  }

  /** Python's `s.split(sep)` generalised to a set of one-character separators:
      every separator ends a piece, so `k` separators give `k + 1` pieces. */
  function SplitAt(s: string, seps: set<char>): (r: seq<string>)
    ensures |r| >= 1
    ensures forall k, c :: 0 <= k < |r| && c in r[k] ==> c !in seps
  {
    if s == [] then [""]
    else
      var rest := SplitAt(s[1..], seps);
      if s[0] in seps then [""] + rest
      else [[s[0]] + rest[0]] + rest[1..]
  }

  /** Python's `sep.join(xs)`. */
  function Join(xs: seq<string>, sep: char): string {
    if xs == [] then ""
    else if |xs| == 1 then xs[0]
    else xs[0] + [sep] + Join(xs[1..], sep)
  }

  /** Piece `w` free of separators runs on into the first piece of what follows it. */
  lemma {:induction false} SplitAtPrefix(w: string, rest: string, seps: set<char>)
    requires forall c :: c in w ==> c !in seps
    ensures SplitAt(w + rest, seps) == [w + SplitAt(rest, seps)[0]] + SplitAt(rest, seps)[1..]
  {
    if w != [] {
      assert (w + rest)[1..] == w[1..] + rest;
      SplitAtPrefix(w[1..], rest, seps);
      assert [w[0]] + (w[1..] + SplitAt(rest, seps)[0]) == w + SplitAt(rest, seps)[0];
    } else {
      var r := SplitAt(rest, seps);
      assert w + rest == rest && w + r[0] == r[0];
      assert [r[0]] + r[1..] == r;
    }
  }

  /** Splitting at a separator undoes joining with it, when no piece contains a separator. */
  lemma {:induction false} SplitJoin(xs: seq<string>, sep: char, seps: set<char>)
    requires |xs| >= 1 && sep in seps
    requires forall k, c :: 0 <= k < |xs| && c in xs[k] ==> c !in seps
    ensures SplitAt(Join(xs, sep), seps) == xs
  {
    if |xs| == 1 {
      SplitAtPrefix(xs[0], "", seps);
      assert xs[0] + "" == xs[0];
    } else {
      var tail := Join(xs[1..], sep);
      SplitJoin(xs[1..], sep, seps);
      assert xs[0] + [sep] + tail == xs[0] + ([sep] + tail);
      SplitAtPrefix(xs[0], [sep] + tail, seps);
      assert ([sep] + tail)[1..] == tail;
      assert SplitAt([sep] + tail, seps) == [""] + xs[1..];
      assert xs[0] + "" == xs[0];
    }
  }

  /** Joining the pieces with the separator gives the original text back. */
  lemma {:induction false} JoinSplit(s: string, sep: char)
    ensures Join(SplitAt(s, {sep}), sep) == s
  {
    if s != [] {
      var rest := SplitAt(s[1..], {sep});
      JoinSplit(s[1..], sep);
      if s[0] == sep {
        assert SplitAt(s, {sep}) == [""] + rest;
        assert ([""] + rest)[1..] == rest;
        assert s == [sep] + s[1..];
      } else {
        var r := SplitAt(s, {sep});
        assert r == [[s[0]] + rest[0]] + rest[1..];
        if |rest| == 1 {
          assert s == [s[0]] + s[1..];
        } else {
          assert r[1..] == rest[1..];
          assert Join(rest, sep) == rest[0] + [sep] + Join(rest[1..], sep);
          assert s == [s[0]] + s[1..];
        }
      }
    }
  }

  /** The separators of `re.split(r'[\s,]+', ...)`. */
  predicate IsDelimiter(c: char) {
    IsSpace(c) || c == ','
  }

  /** `re.split(r'[\s,]+', s)`: the text between maximal runs of delimiters.
      A delimiter at either end produces an empty first or last token. */
  function Tokens(s: string): (r: seq<string>)
    ensures |r| >= 1
  {
    if s == [] then [""]
    else
      var rest := Tokens(s[1..]);
      if IsDelimiter(s[0]) then
        if s[1..] != [] && IsDelimiter(s[1]) then rest else [""] + rest
      else [[s[0]] + rest[0]] + rest[1..]
  }

  /** No token holds a delimiter and only the first and the last token can be
      empty: the first exactly when the text starts with a delimiter (or is empty). */
  lemma {:induction false} TokensShape(s: string)
    ensures var r := Tokens(s);
      && (forall k, i :: 0 <= k < |r| && 0 <= i < |r[k]| ==> !IsDelimiter(r[k][i]))
      && (forall k :: 0 < k < |r| - 1 ==> r[k] != [])
      && (r[0] == [] <==> s == [] || IsDelimiter(s[0]))
  {
    if s != [] {
      var rest := Tokens(s[1..]);
      TokensShape(s[1..]);
      var r := Tokens(s);
      if !IsDelimiter(s[0]) {
        assert r == [[s[0]] + rest[0]] + rest[1..];
        forall k, i | 0 <= k < |r| && 0 <= i < |r[k]| ensures !IsDelimiter(r[k][i]) {
          if k == 0 && i > 0 {
            assert r[k][i] == rest[0][i - 1];
          } else if k > 0 {
            assert r[k] == rest[k];
          }
        }
      }
    }
  }

  /** A token free of delimiters runs on into the first token of what follows it. */
  lemma {:induction false} TokensPrefix(w: string, rest: string)
    requires forall i :: 0 <= i < |w| ==> !IsDelimiter(w[i])
    ensures Tokens(w + rest) == [w + Tokens(rest)[0]] + Tokens(rest)[1..]
  {
    if w != [] {
      assert (w + rest)[1..] == w[1..] + rest;
      TokensPrefix(w[1..], rest);
      assert [w[0]] + (w[1..] + Tokens(rest)[0]) == w + Tokens(rest)[0];
    } else {
      var r := Tokens(rest);
      assert w + rest == rest && w + r[0] == r[0];
      assert [r[0]] + r[1..] == r;
    }
  }

  /** The last token is empty exactly when the text is empty or ends with a
      delimiter; a text ending with a delimiter has at least two tokens. */
  lemma {:induction false} TokensLast(s: string)
    ensures var r := Tokens(s);
      && (r[|r| - 1] == [] <==> s == [] || IsDelimiter(s[|s| - 1]))
      && (s != [] && IsDelimiter(s[|s| - 1]) ==> |r| >= 2)
  {
    if s != [] {
      var rest := Tokens(s[1..]);
      TokensLast(s[1..]);
      if s[1..] != [] {
        assert s[|s| - 1] == s[1..][|s[1..]| - 1];
      }
    }
  }

  /** A non-empty word free of delimiters: one token of `re.split(r'[\s,]+', ...)`. */
  predicate IsWord(w: string) {
    w != [] && forall i :: 0 <= i < |w| ==> !IsDelimiter(w[i])
  }

  /** A non-empty run of delimiters, such as `", "` or `" \t"`. */
  predicate IsDelimiterRun(g: string) {
    g != [] && forall i :: 0 <= i < |g| ==> IsDelimiter(g[i])
  }

  /** `words[0] + gaps[0] + words[1] + … + words[n]`: words separated by the given runs. */
  function Interleave(words: seq<string>, gaps: seq<string>): string
    requires |words| == |gaps| + 1
    decreases |gaps|
  {
    if gaps == [] then words[0] else words[0] + gaps[0] + Interleave(words[1..], gaps[1..])
  }

  /** Words separated by runs start with the first word's first character and
      end with the last word's last character. */
  lemma {:induction false} InterleaveEnds(words: seq<string>, gaps: seq<string>)
    requires |words| == |gaps| + 1 && forall k :: 0 <= k < |words| ==> words[k] != []
    ensures var x := Interleave(words, gaps);
      && x != [] && x[0] == words[0][0]
      && x[|x| - 1] == words[|words| - 1][|words[|words| - 1]| - 1]
    decreases |gaps|
  {
    if gaps != [] {
      InterleaveEnds(words[1..], gaps[1..]);
      var tail := Interleave(words[1..], gaps[1..]);
      var x := Interleave(words, gaps);
      assert x == words[0] + (gaps[0] + tail);
      assert x[|x| - 1] == tail[|tail| - 1];
    }
  }

  /** A run of delimiters before a word (or at the end) is one token boundary:
      it contributes a single empty token, however long the run. */
  lemma {:induction false} TokensOfRun(g: string, rest: string)
    requires IsDelimiterRun(g) && (rest == [] || !IsDelimiter(rest[0]))
    ensures Tokens(g + rest) == [""] + Tokens(rest)
  {
    var s := g + rest;
    assert s[1..] == g[1..] + rest;
    if |g| > 1 {
      TokensOfRun(g[1..], rest);
      assert s[1] == g[1];
    }
  }

  /** Tokenising undoes separating non-empty, delimiter-free words by
      delimiter runs: `"10, 20 30"` splits into `"10"`, `"20"`, `"30"`. */
  lemma {:induction false} TokensOfInterleave(words: seq<string>, gaps: seq<string>)
    requires |words| == |gaps| + 1
    requires forall k :: 0 <= k < |words| ==> IsWord(words[k])
    requires forall k :: 0 <= k < |gaps| ==> IsDelimiterRun(gaps[k])
    ensures Tokens(Interleave(words, gaps)) == words
    decreases |gaps|
  {
    if gaps == [] {
      TokensPrefix(words[0], "");
      assert words[0] + "" == words[0];
    } else {
      var tail := Interleave(words[1..], gaps[1..]);
      TokensOfInterleave(words[1..], gaps[1..]);
      InterleaveEnds(words[1..], gaps[1..]);
      TokensOfRun(gaps[0], tail);
      assert words[0] + gaps[0] + tail == words[0] + (gaps[0] + tail);
      TokensPrefix(words[0], gaps[0] + tail);
      assert words[0] + "" == words[0];
    }
  }
}
