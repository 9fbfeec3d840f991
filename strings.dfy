/**
 * The Python `str` and list primitives the skill-gap pipeline is built from:
 * `strip`, `lower`, `startswith`/`endswith`, the substring test `a in s`,
 * `splitlines`, `split(sep)`, `sep.join(parts)` and slicing.
 * Each is written to agree with CPython on the inputs the pipeline gives it;
 * the few places where it deliberately does not (`lower` beyond ASCII) are
 * noted on the definition.
 */
module Strings {

  // ---------------------------------------------------------------------------
  // Characters
  // ---------------------------------------------------------------------------

  /** The characters for which Python's `str.isspace()` holds; `strip()` and the
      regular-expression class `\s` both use exactly this set. */
  predicate IsSpace(c: char) {
    c == ' ' || c == '\t' || c == '\n' || c == '\r' || c == '\U{000B}' || c == '\U{000C}'
    || ('\U{001C}' <= c <= '\U{001F}') || c == '\U{0085}' || c == '\U{00A0}' || c == '\U{1680}'
    || ('\U{2000}' <= c <= '\U{200A}') || c == '\U{2028}' || c == '\U{2029}'
    || c == '\U{202F}' || c == '\U{205F}' || c == '\U{3000}'
  }

  /** The line boundaries of Python's `str.splitlines()` (`\r\n` counts as one). */
  predicate IsLineBreak(c: char) {
    c == '\n' || c == '\r' || c == '\U{000B}' || c == '\U{000C}'
    || c == '\U{001C}' || c == '\U{001D}' || c == '\U{001E}'
    || c == '\U{0085}' || c == '\U{2028}' || c == '\U{2029}'
  }

  predicate NoLineBreak(s: string) {
    forall i :: 0 <= i < |s| ==> !IsLineBreak(s[i])
  }

  /** `c.lower()` for ASCII letters; every other character is left as it is. */
  function LowerChar(c: char): (r: char)
    ensures 'A' <= c <= 'Z' ==> 'a' <= r <= 'z'
    ensures !('A' <= c <= 'Z') ==> r == c
  {
    if 'A' <= c <= 'Z' then (c as int + 32) as char else c
  }

  /** `s.lower()`, character by character. */
  function Lower(s: string): (r: string)
    ensures |r| == |s|
    ensures forall i :: 0 <= i < |s| ==> r[i] == LowerChar(s[i])
  {
    seq(|s|, i requires 0 <= i < |s| => LowerChar(s[i]))
  }

  // ---------------------------------------------------------------------------
  // strip
  // ---------------------------------------------------------------------------

  /** `s.lstrip()`: the longest suffix of `s` that does not start with white space. */
  function LStrip(s: string): (r: string)
    ensures |r| <= |s|
    ensures |r| < |s| ==> r == s[|s| - |r|..]
    ensures |r| == |s| ==> r == s
    ensures r == [] || !IsSpace(r[0])
    ensures forall i :: 0 <= i < |s| - |r| ==> IsSpace(s[i])
    decreases |s|
  {
    if s != [] && IsSpace(s[0]) then LStrip(s[1..]) else s
  }

  /** `s.rstrip()`: the longest prefix of `s` that does not end with white space. */
  function RStrip(s: string): (r: string)
    ensures |r| <= |s|
    ensures |r| < |s| ==> r == s[..|r|]
    ensures |r| == |s| ==> r == s
    ensures r == [] || !IsSpace(r[|r| - 1])
    ensures forall i :: |r| <= i < |s| ==> IsSpace(s[i])
    decreases |s|
  {
    if s != [] && IsSpace(s[|s| - 1]) then RStrip(s[..|s| - 1]) else s
  }

  /** `s.strip()`: `s` without its leading and trailing white space. */
  function Strip(s: string): (r: string)
    ensures r == [] || (!IsSpace(r[0]) && !IsSpace(r[|r| - 1]))
  {
    RStrip(LStrip(s))
  }

  /** A string whose ends are not white space is its own `strip()`. */
  lemma StripOfTrimmed(s: string)
    requires s == [] || (!IsSpace(s[0]) && !IsSpace(s[|s| - 1]))
    ensures Strip(s) == s
  {
  }

  lemma StripIdempotent(s: string)
    ensures Strip(Strip(s)) == Strip(s)
  {
    StripOfTrimmed(Strip(s));
  }

  /** Leading white space never survives `strip()`. */
  lemma StripSpacePrefix(w: string, s: string)
    requires forall i :: 0 <= i < |w| ==> IsSpace(w[i])
    ensures Strip(w + s) == Strip(s)
    decreases |w|
  {
    if w != [] {
      assert (w + s)[1..] == w[1..] + s;
      StripSpacePrefix(w[1..], s);
    } else {
      assert w + s == s;
    }
  }

  /** Trailing white space never survives `rstrip()`. */
  lemma {:induction false} RStripSpaceSuffix(s: string, t: string)
    requires forall i :: 0 <= i < |t| ==> IsSpace(t[i])
    ensures RStrip(s + t) == RStrip(s)
    decreases |t|
  {
    if t != [] {
      var u := t[..|t| - 1];
      assert (s + t)[..|s + t| - 1] == s + u;
      assert (s + t)[|s + t| - 1] == t[|t| - 1];
      RStripSpaceSuffix(s, u);
    } else {
      assert s + t == s;
    }
  }

  /** A trimmed string padded with white space on both sides strips back to itself. */
  lemma StripPadded(w: string, s: string, t: string)
    requires forall i :: 0 <= i < |w| ==> IsSpace(w[i])
    requires forall i :: 0 <= i < |t| ==> IsSpace(t[i])
    requires s != [] && !IsSpace(s[0]) && !IsSpace(s[|s| - 1])
    ensures Strip(w + s + t) == s
  {
    assert w + s + t == w + (s + t);
    StripSpacePrefix(w, s + t);
    assert (s + t)[0] == s[0];
    assert LStrip(s + t) == s + t;
    RStripSpaceSuffix(s, t);
  }

  // ---------------------------------------------------------------------------
  // Prefixes, suffixes, substrings
  // ---------------------------------------------------------------------------

  predicate StartsWith(s: string, p: string) {
    |p| <= |s| && s[..|p|] == p
  }

  predicate EndsWith(s: string, p: string) {
    |p| <= |s| && s[|s| - |p|..] == p
  }

  /** Python's substring test `sub in s`. */
  predicate Contains(s: string, sub: string)
    decreases |s|
  {
    StartsWith(s, sub) || (s != [] && Contains(s[1..], sub))
  }

  /** `sub` occurs in `s` when it occurs at position `i`. */
  lemma {:induction false} ContainsAt(s: string, sub: string, i: nat)
    requires i <= |s| && StartsWith(s[i..], sub)
    ensures Contains(s, sub)
    decreases i
  {
    if i > 0 {
      assert s[1..][i - 1..] == s[i..];
      ContainsAt(s[1..], sub, i - 1);
    }
  }

  /** A substring is no longer than the string. */
  lemma {:induction false} ContainsLength(s: string, sub: string)
    requires Contains(s, sub)
    ensures |sub| <= |s|
    decreases |s|
  {
    if !StartsWith(s, sub) {
      ContainsLength(s[1..], sub);
    }
  }

  /** Every character of a substring occurs in the string; used to refute containment. */
  lemma {:induction false} ContainsChar(s: string, sub: string, c: char)
    requires Contains(s, sub) && c in sub
    ensures c in s
    decreases |s|
  {
    if StartsWith(s, sub) {
      assert sub == s[..|sub|];
    } else {
      ContainsChar(s[1..], sub, c);
    }
  }

  // ---------------------------------------------------------------------------
  // splitlines
  // ---------------------------------------------------------------------------

  /** Index of the first line boundary of `s`, or `|s|` if it has none. */
  function FirstLineBreak(s: string): (i: nat)
    ensures i <= |s|
    ensures i < |s| ==> IsLineBreak(s[i])
    ensures forall j :: 0 <= j < i ==> !IsLineBreak(s[j])
    decreases |s|
  {
    if s == [] then 0
    else if IsLineBreak(s[0]) then 0
    else 1 + FirstLineBreak(s[1..])
  }

  /** `s.splitlines()`: the lines of `s` without their boundaries; a final
      boundary does not open an empty last line, and `""` has no lines. */
  function SplitLines(s: string): (lines: seq<string>)
    ensures forall k :: 0 <= k < |lines| ==> NoLineBreak(lines[k])
    decreases |s|
  {
    if s == [] then []
    else
      var i := FirstLineBreak(s);
      if i == |s| then [s]
      else
        var next := if s[i] == '\r' && i + 1 < |s| && s[i + 1] == '\n' then i + 2 else i + 1;
        [s[..i]] + SplitLines(s[next..])
  }

  lemma SplitLinesOne(l: string)
    requires l != [] && NoLineBreak(l)
    ensures SplitLines(l) == [l]
  {
    assert FirstLineBreak(l) == |l|;
  }

  lemma SplitLinesCons(l: string, rest: string)
    requires NoLineBreak(l)
    ensures SplitLines(l + "\n" + rest) == [l] + SplitLines(rest)
  {
    var s := l + "\n" + rest;
    assert s[|l|] == '\n';
    assert FirstLineBreak(s) == |l|;
    assert s[..|l|] == l;
    assert s[|l| + 1..] == rest;
  }

  /** `[ln.strip() for ln in lines if ln.strip()]`. */
  function StripNonBlank(lines: seq<string>): (r: seq<string>)
    ensures |r| <= |lines|
    ensures forall k :: 0 <= k < |r| ==> r[k] != [] && Strip(r[k]) == r[k]
  {
    if lines == [] then []
    else
      var s := Strip(lines[0]);
      StripIdempotent(lines[0]);
      (if s != [] then [s] else []) + StripNonBlank(lines[1..])
  }

  /** `[ln.strip() for ln in text.splitlines() if ln.strip()]`. */
  function NonBlankLines(text: string): (r: seq<string>)
    ensures forall k :: 0 <= k < |r| ==> r[k] != [] && Strip(r[k]) == r[k]
  {
    StripNonBlank(SplitLines(text))
  }

  // ---------------------------------------------------------------------------
  // split and join
  // ---------------------------------------------------------------------------

  /** `s.split(c)` for a one-character separator: never empty, `""` gives `[""]`. */
  function Split(s: string, c: char): (parts: seq<string>)
    ensures |parts| >= 1
    decreases |s|
  {
    if s == [] then [""]
    else
      var rest := Split(s[1..], c);
      if s[0] == c then [""] + rest
      else [[s[0]] + rest[0]] + rest[1..]
  }

  lemma {:induction false} SplitNoSeparator(s: string, c: char)
    requires c !in s
    ensures Split(s, c) == [s]
    decreases |s|
  {
    if s != [] {
      SplitNoSeparator(s[1..], c);
      assert [s[0]] + s[1..] == s;
    }
  }

  /** Splitting at a separator splits the two sides independently. */
  lemma {:induction false} SplitConcat(a: string, c: char, b: string)
    ensures Split(a + [c] + b, c) == Split(a, c) + Split(b, c)
    decreases |a|
  {
    var s := a + [c] + b;
    if a == [] {
      assert s[1..] == b;
    } else {
      assert s[1..] == a[1..] + [c] + b;
      SplitConcat(a[1..], c, b);
    }
  }

  /** `sep.join(parts)`. */
  function Join(parts: seq<string>, sep: string): string
    decreases |parts|
  {
    if |parts| == 0 then ""
    else if |parts| == 1 then parts[0]
    else parts[0] + sep + Join(parts[1..], sep)
  }

  /** Joining with `c` and splitting on `c` is the identity when no part contains `c`. */
  lemma {:induction false} SplitJoin(parts: seq<string>, c: char)
    requires |parts| >= 1
    requires forall k :: 0 <= k < |parts| ==> c !in parts[k]
    ensures Split(Join(parts, [c]), c) == parts
    decreases |parts|
  {
    if |parts| == 1 {
      SplitNoSeparator(parts[0], c);
    } else {
      SplitNoSeparator(parts[0], c);
      SplitConcat(parts[0], c, Join(parts[1..], [c]));
      SplitJoin(parts[1..], c);
    }
  }

  /** `[x.strip() for x in xs if x.strip()]`: the trimmed, non-empty pieces in order. */
  function Clean(xs: seq<string>): (r: seq<string>)
    ensures |r| <= |xs|
    ensures forall k :: 0 <= k < |r| ==> r[k] != [] && Strip(r[k]) == r[k]
  {
    StripNonBlank(xs)
  }

  lemma {:induction false} CleanAppend(xs: seq<string>, ys: seq<string>)
    ensures Clean(xs + ys) == Clean(xs) + Clean(ys)
    decreases |xs|
  {
    if xs == [] {
      assert xs + ys == ys;
    } else {
      var s := Strip(xs[0]);
      var head := if s != [] then [s] else [];
      assert (xs + ys)[0] == xs[0];
      assert (xs + ys)[1..] == xs[1..] + ys;
      assert Clean(xs + ys) == head + Clean(xs[1..] + ys);
      assert Clean(xs) == head + Clean(xs[1..]);
      CleanAppend(xs[1..], ys);
      AppendAssoc(head, Clean(xs[1..]), Clean(ys));
    }
  }

  lemma AppendAssoc<T>(a: seq<T>, b: seq<T>, c: seq<T>)
    ensures a + (b + c) == (a + b) + c
  {
  }

  /** Pieces that are already trimmed and non-empty survive cleaning unchanged. */
  lemma {:induction false} CleanOfClean(xs: seq<string>)
    requires forall k :: 0 <= k < |xs| ==> xs[k] != [] && Strip(xs[k]) == xs[k]
    ensures Clean(xs) == xs
    decreases |xs|
  {
    if xs != [] {
      CleanOfClean(xs[1..]);
    }
  }

  /** `[s.strip() for s in text.split(c) if s.strip()]`. */
  function CleanSplit(text: string, c: char): (r: seq<string>)
    ensures forall k :: 0 <= k < |r| ==> r[k] != [] && Strip(r[k]) == r[k]
  {
    Clean(Split(text, c))
  }

  /** Every member of a cleaned split is trimmed and non-empty. */
  lemma CleanSplitMembers(text: string, c: char)
    ensures forall x :: x in CleanSplit(text, c) ==> x != [] && Strip(x) == x
  {
    var r := CleanSplit(text, c);
    forall x | x in r
      ensures x != [] && Strip(x) == x
    {
      var k :| 0 <= k < |r| && r[k] == x;
    }
  }

  /** Round trip: cleaned pieces joined with `c` are recovered by a cleaned split on `c`,
      provided no piece contains `c`. */
  lemma CleanSplitJoin(parts: seq<string>, c: char)
    requires forall k :: 0 <= k < |parts| ==> parts[k] != [] && Strip(parts[k]) == parts[k]
    requires forall k :: 0 <= k < |parts| ==> c !in parts[k]
    ensures CleanSplit(Join(parts, [c]), c) == parts
  {
    if parts == [] {
      assert Split("", c) == [""];
    } else {
      SplitJoin(parts, c);
      CleanOfClean(parts);
    }
  }

  /** A character absent from `s` is absent from its `strip()`. */
  lemma StripKeepsAbsent(s: string, d: char)
    requires d !in s
    ensures d !in Strip(s)
  {
  }

  /** A character absent from `s` is absent from every piece of `s.split(c)`. */
  lemma {:induction false} SplitKeepsAbsent(s: string, c: char, d: char)
    requires d !in s
    ensures forall k :: 0 <= k < |Split(s, c)| ==> d !in Split(s, c)[k]
    decreases |s|
  {
    if s != [] {
      SplitKeepsAbsent(s[1..], c, d);
    }
  }

  /** A character absent from every piece is absent from every cleaned piece. */
  lemma {:induction false} CleanKeepsAbsent(xs: seq<string>, d: char)
    requires forall k :: 0 <= k < |xs| ==> d !in xs[k]
    ensures forall k :: 0 <= k < |Clean(xs)| ==> d !in Clean(xs)[k]
    decreases |xs|
  {
    if xs != [] {
      StripKeepsAbsent(xs[0], d);
      CleanKeepsAbsent(xs[1..], d);
      var s := Strip(xs[0]);
      assert Clean(xs) == (if s != [] then [s] else []) + Clean(xs[1..]);
    }
  }

  /** A character absent from `text` is absent from every piece of its cleaned split. */
  lemma CleanSplitKeepsAbsent(text: string, c: char, d: char)
    requires d !in text
    ensures forall k :: 0 <= k < |CleanSplit(text, c)| ==> d !in CleanSplit(text, c)[k]
  {
    SplitKeepsAbsent(text, c, d);
    CleanKeepsAbsent(Split(text, c), d);
  }

  // ---------------------------------------------------------------------------
  // Sequences
  // ---------------------------------------------------------------------------

  function Min(a: int, b: int): int {
    if a <= b then a else b
  }

  /** Adjacent slices concatenate. */
  lemma SliceConcat<T>(s: seq<T>, lo: nat, hi: nat)
    requires lo <= hi <= |s|
    ensures s[lo..hi] + s[hi..] == s[lo..]
  {
    var a := s[lo..hi] + s[hi..];
    assert |a| == |s[lo..]|;
    forall k | 0 <= k < |a|
      ensures a[k] == s[lo..][k]
    {
      if k < hi - lo {
        assert a[k] == s[lo + k];
      } else {
        assert a[k] == s[hi..][k - (hi - lo)];
      }
    }
  }

  /** `s[:n]`: the first `n` elements, or all of `s` if it is shorter. */
  function Take<T>(s: seq<T>, n: nat): (r: seq<T>)
    ensures |r| == Min(|s|, n)
    ensures r == s[..|r|]
  {
    if |s| <= n then s else s[..n]
  }

  /** `s[lo:hi]` for `0 <= lo <= hi`: out-of-range bounds are clamped to `|s|`. */
  function Slice<T>(s: seq<T>, lo: nat, hi: nat): (r: seq<T>)
    requires lo <= hi
    ensures |r| == Min(|s|, hi) - Min(|s|, lo)
    ensures Min(|s|, lo) == 0 ==> r == s[..Min(|s|, hi)]
    ensures Min(|s|, lo) > 0 ==> r == s[Min(|s|, lo)..Min(|s|, hi)]
  {
    if Min(|s|, lo) == 0 then s[..Min(|s|, hi)] else s[Min(|s|, lo)..Min(|s|, hi)]
  }

  /** Index of the first element satisfying `p`, or `|s|` when there is none. */
  function FirstWhere<T>(s: seq<T>, p: T -> bool): (k: nat)
    ensures k <= |s|
    ensures k < |s| ==> p(s[k])
    ensures forall j :: 0 <= j < k ==> !p(s[j])
    decreases |s|
  {
    if s == [] then 0
    else if p(s[0]) then 0
    else 1 + FirstWhere(s[1..], p)
  }

  /** Index of the first `c` in `s`, which must occur. */
  function IndexOf(s: string, c: char): (i: nat)
    requires c in s
    ensures i < |s| && s[i] == c && c !in s[..i]
    decreases |s|
  {
    if s[0] == c then 0 else 1 + IndexOf(s[1..], c)
  }

  /** `s.split(c, 1)[1]`: the text after the first `c`, which must occur. */
  function AfterFirst(s: string, c: char): (r: string)
    requires c in s
    ensures exists i :: 0 <= i < |s| && s[i] == c && c !in s[..i] && r == s[i + 1..]
  {
    var i := IndexOf(s, c);
    s[i + 1..]
  }
}
