/**
 * The operations of Python's `str` that the triage code relies on:
 * `lower`, `in`, `find`, `strip`, `splitlines`, `split`, `join`,
 * `replace`, and the decimal rendering of integers.
 */
module Text {

  // ---------------------------------------------------------------------
  // Lower-casing
  // ---------------------------------------------------------------------

  /** `str.lower` on one character, restricted to the ASCII letters. */
  function LowerChar(c: char): char {
    if 'A' <= c <= 'Z' then (c as int + 32) as char else c
  }

  /** `s.lower()`: no capital is left, each capital becomes its small
      letter, and every other character stays where it was. */
  function Lower(s: string): (r: string)
    ensures |r| == |s|
    ensures forall i :: 0 <= i < |r| ==> !('A' <= r[i] <= 'Z')
    ensures forall i :: 0 <= i < |s| && 'A' <= s[i] <= 'Z' ==> 'a' <= r[i] <= 'z' && r[i] as int - s[i] as int == 32
    ensures forall i :: 0 <= i < |s| && !('A' <= s[i] <= 'Z') ==> r[i] == s[i]
  {
    seq(|s|, i requires 0 <= i < |s| => LowerChar(s[i]))
  }

  /** Lower-casing twice is lower-casing once, so a lower-cased haystack
      matches exactly the lower-case keywords it matched before. */
  lemma LowerIdempotent(s: string)
    ensures Lower(Lower(s)) == Lower(s)
  {
  }

  // ---------------------------------------------------------------------
  // Substring search
  // ---------------------------------------------------------------------

  /** `needle` occurs in `hay` starting at index `i`. */
  ghost predicate OccursAt(needle: string, hay: string, i: int) {
    0 <= i <= |hay| - |needle| && hay[i..i + |needle|] == needle
  }

  /** Python's `needle in hay`, stated as the existence of a position. */
  ghost predicate Occurs(needle: string, hay: string) {
    exists i :: OccursAt(needle, hay, i)
  }

  /** Dropping a first character that does not start an occurrence
      loses no occurrence. */
  lemma OccursStep(needle: string, hay: string)
    requires |hay| > 0 && !(needle <= hay)
    ensures Occurs(needle, hay) <==> Occurs(needle, hay[1..])
  {
    if Occurs(needle, hay) {
      var i :| OccursAt(needle, hay, i);
      assert hay[1..][i - 1..i - 1 + |needle|] == hay[i..i + |needle|];
      assert OccursAt(needle, hay[1..], i - 1);
    }
    if Occurs(needle, hay[1..]) {
      var j :| OccursAt(needle, hay[1..], j);
      assert hay[1..][j..j + |needle|] == hay[j + 1..j + 1 + |needle|];
      assert OccursAt(needle, hay, j + 1);
    }
  }

  /** An occurrence inside a slice is an occurrence in the whole. */
  lemma OccursInSlice(needle: string, hay: string, i: int, j: int)
    requires 0 <= i <= j <= |hay|
    requires Occurs(needle, hay[i..j])
    ensures Occurs(needle, hay)
  {
    var k :| OccursAt(needle, hay[i..j], k);
    assert forall m :: 0 <= m < |needle| ==> hay[i + k + m] == hay[i..j][k + m] == needle[m];
    assert hay[i + k..i + k + |needle|] == needle;
    assert OccursAt(needle, hay, i + k);
  }

  /** Python's `needle in hay`, computed by scanning the positions. */
  function Contains(hay: string, needle: string): (b: bool)
    ensures b <==> Occurs(needle, hay)
    decreases |hay|
  {
    if needle <= hay then
      assert OccursAt(needle, hay, 0);
      true
    else if |hay| == 0 then
      false
    else
      OccursStep(needle, hay);
      Contains(hay[1..], needle)
  }

  /** Some word of `words` occurs in `hay`. */
  ghost predicate Mentions(words: seq<string>, hay: string) {
    exists w :: w in words && Occurs(w, hay)
  }

  /** Python's `any(w in hay for w in words)`. */
  function AnyIn(words: seq<string>, hay: string): (b: bool)
    ensures b <==> Mentions(words, hay)
    decreases |words|
  {
    if |words| == 0 then false
    else
      assert forall w :: w in words <==> w == words[0] || w in words[1..];
      Contains(hay, words[0]) || AnyIn(words[1..], hay)
  }

  /** Python's `s.find(c)` for a one-character needle. */
  function Find(s: string, c: char): (r: int)
    ensures -1 <= r < |s|
    ensures r == -1 <==> c !in s
    ensures 0 <= r ==> s[r] == c && c !in s[..r]
    decreases |s|
  {
    if |s| == 0 then -1
    else if s[0] == c then 0
    else
      var k := Find(s[1..], c);
      assert s == [s[0]] + s[1..];
      if k == -1 then -1
      else
        assert s[..k + 1] == [s[0]] + s[1..][..k];
        k + 1
  }

  // ---------------------------------------------------------------------
  // Whitespace and strip
  // ---------------------------------------------------------------------

  /** `str.isspace` of one character: the characters Python's `strip`
      removes. */
  predicate IsSpace(c: char) {
    var n := c as int;
    n == 0x20 || 0x09 <= n <= 0x0D || 0x1C <= n <= 0x1F || n == 0x85 || n == 0xA0
    || n == 0x1680 || 0x2000 <= n <= 0x200A || n == 0x2028 || n == 0x2029
    || n == 0x202F || n == 0x205F || n == 0x3000
  }

  /** The number of leading spaces. */
  function LeadingSpaces(s: string): (n: nat)
    ensures n <= |s|
    ensures forall k :: 0 <= k < n ==> IsSpace(s[k])
    ensures n < |s| ==> !IsSpace(s[n])
    decreases |s|
  {
    if |s| > 0 && IsSpace(s[0]) then 1 + LeadingSpaces(s[1..]) else 0
  }

  /** The number of trailing spaces. */
  function TrailingSpaces(s: string): (n: nat)
    ensures n <= |s|
    ensures forall k :: |s| - n <= k < |s| ==> IsSpace(s[k])
    ensures n < |s| ==> !IsSpace(s[|s| - n - 1])
    decreases |s|
  {
    if |s| > 0 && IsSpace(s[|s| - 1]) then 1 + TrailingSpaces(s[..|s| - 1]) else 0
  }

  /** `s.strip()`: `s` without its leading and trailing spaces. */
  function Strip(s: string): (r: string)
    ensures |r| <= |s|
    ensures r == "" || (!IsSpace(r[0]) && !IsSpace(r[|r| - 1]))
    ensures r == "" <==> forall k :: 0 <= k < |s| ==> IsSpace(s[k])
  {
    var a := LeadingSpaces(s);
    var b := TrailingSpaces(s[a..]);
    assert a < |s| ==> b < |s| - a by {
      if a < |s| { assert !IsSpace(s[a..][0]); }
    }
    s[a..|s| - b]
  }

  /** Only spaces are removed, and only at the ends: the result is the
      slice of `s` at some offset `a`, and everything before and after
      that slice is space. */
  lemma StripSpec(s: string) returns (a: nat)
    ensures a + |Strip(s)| <= |s| && Strip(s) == s[a..a + |Strip(s)|]
    ensures forall k :: 0 <= k < a ==> IsSpace(s[k])
    ensures forall k :: a + |Strip(s)| <= k < |s| ==> IsSpace(s[k])
    ensures Occurs(Strip(s), s)
  {
    a := LeadingSpaces(s);
    var b := TrailingSpaces(s[a..]);
    assert Strip(s) == s[a..|s| - b];
    assert OccursAt(Strip(s), s, a);
    forall k | a + |Strip(s)| <= k < |s|
      ensures IsSpace(s[k])
    {
      assert s[k] == s[a..][k - a];
    }
  }

  /** Occurrence is transitive: what occurs in a substring occurs in the
      whole. */
  lemma OccursTransitive(a: string, b: string, c: string)
    requires Occurs(a, b) && Occurs(b, c)
    ensures Occurs(a, c)
  {
    var i :| OccursAt(b, c, i);
    assert c[i..i + |b|] == b;
    OccursInSlice(a, c, i, i + |b|);
  }

  // ---------------------------------------------------------------------
  // Line splitting
  // ---------------------------------------------------------------------

  /** The line boundaries of Python's `str.splitlines`: \n, \r, \v, \f,
      \x1c, \x1d, \x1e, \x85, U+2028 and U+2029 (\r\n counts as one). */
  predicate IsLineBreak(c: char) {
    var n := c as int;
    0x0A <= n <= 0x0D || 0x1C <= n <= 0x1E || n == 0x85 || n == 0x2028 || n == 0x2029
  }

  /** Index of the first line boundary, or |s| when there is none. */
  function BreakIndex(s: string): (i: nat)
    ensures i <= |s|
    ensures i < |s| ==> IsLineBreak(s[i])
    ensures forall k :: 0 <= k < i ==> !IsLineBreak(s[k])
    decreases |s|
  {
    if |s| == 0 || IsLineBreak(s[0]) then 0 else 1 + BreakIndex(s[1..])
  }

  /** Where the text after the first line break starts: "\r\n" is one
      terminator, any other break character is one on its own. */
  function BreakEnd(s: string): (next: nat)
    requires BreakIndex(s) < |s|
    ensures BreakIndex(s) < next <= |s|
  {
    var i := BreakIndex(s);
    if s[i] == '\r' && i + 1 < |s| && s[i + 1] == '\n' then i + 2 else i + 1
  }

  /** Python's `s.splitlines()`: the lines without their terminators;
      a final terminator does not start an extra empty line. */
  function SplitLines(s: string): (lines: seq<string>)
    ensures |lines| == 0 <==> s == ""
    ensures forall k, j :: 0 <= k < |lines| && 0 <= j < |lines[k]| ==> !IsLineBreak(lines[k][j])
    decreases |s|
  {
    if s == "" then []
    else
      var i := BreakIndex(s);
      if i == |s| then [s]
      else
        [s[..i]] + SplitLines(s[BreakEnd(s)..])
  }

  /** A line terminator of `splitlines`: "\r\n", or one break character. */
  predicate IsTerminator(t: string) {
    t == "\r\n" || (|t| == 1 && IsLineBreak(t[0]))
  }

  /** The terminator after each line of `SplitLines(s)`; "" after a last
      line that has none. */
  function LineEnds(s: string): (ends: seq<string>)
    ensures |ends| == |SplitLines(s)|
    decreases |s|
  {
    if s == "" then []
    else
      var i := BreakIndex(s);
      if i == |s| then [""]
      else
        [s[i..BreakEnd(s)]] + LineEnds(s[BreakEnd(s)..])
  }

  /** Each line followed by its terminator, concatenated in order. */
  function Unlines(lines: seq<string>, ends: seq<string>): string
    requires |lines| == |ends|
    decreases |lines|
  {
    if lines == [] then "" else lines[0] + ends[0] + Unlines(lines[1..], ends[1..])
  }

  /** Lines and their terminators as `splitlines` cuts them: every
      terminator but the last is a real one, the last line is not an empty
      line with no terminator, and a lone "\r" is never followed by an
      empty line ended by "\n" (that pair is one terminator). */
  ghost predicate WellEnded(lines: seq<string>, ends: seq<string>) {
    && |lines| == |ends|
    && (forall k :: 0 <= k < |ends| - 1 ==> IsTerminator(ends[k]))
    && (|ends| > 0 ==>
         (ends[|ends| - 1] == "" || IsTerminator(ends[|ends| - 1])) && lines[|ends| - 1] + ends[|ends| - 1] != "")
    && (forall k :: 0 <= k < |ends| - 1 && ends[k] == "\r" ==> !(lines[k + 1] == "" && ends[k + 1] == "\n"))
  }

  /** `splitlines` loses only the terminators: putting each line's
      terminator back gives the text again, and the cut is well ended. */
  lemma {:induction false} SplitLinesRoundTrip(s: string)
    ensures Unlines(SplitLines(s), LineEnds(s)) == s
    ensures WellEnded(SplitLines(s), LineEnds(s))
    decreases |s|
  {
    if s != "" && BreakIndex(s) == |s| {
      SplitLinesWhole(s);
    } else if s != "" {
      var i, next := SplitLinesUnfold(s);
      var t := s[next..];
      SplitLinesRoundTrip(t);
      if s[i..next] == "\r" && |SplitLines(t)| > 0 && SplitLines(t)[0] == "" {
        EmptyFirstLine(t);
      }
      UnlinesCons(s[..i], s[i..next], SplitLines(t), LineEnds(t));
    }
  }

  /** A text without a line break is one line with no terminator. */
  lemma SplitLinesWhole(s: string)
    requires s != "" && BreakIndex(s) == |s|
    ensures SplitLines(s) == [s] && LineEnds(s) == [""]
    ensures Unlines([s], [""]) == s
    ensures WellEnded([s], [""])
  {
    assert Unlines([s], [""]) == s + "" + Unlines([], []);
  }

  /** An empty first line is ended by the text's first character, so it
      is ended by "\n" only when that character is '\n'. */
  lemma EmptyFirstLine(t: string)
    requires |SplitLines(t)| > 0 && SplitLines(t)[0] == ""
    ensures t != "" && (LineEnds(t)[0] == "\n" ==> t[0] == '\n')
  {
    var i, next := SplitLinesUnfold(t);
  }

  /** One step of `splitlines`: the first line ends at index `i`, its
      terminator runs to `next`, and the rest is split on its own. */
  lemma SplitLinesUnfold(s: string) returns (i: nat, next: nat)
    requires s != "" && BreakIndex(s) < |s|
    ensures i == BreakIndex(s) && i < next <= |s|
    ensures s == s[..i] + s[i..next] + s[next..]
    ensures SplitLines(s) == [s[..i]] + SplitLines(s[next..])
    ensures LineEnds(s) == [s[i..next]] + LineEnds(s[next..])
    ensures IsTerminator(s[i..next])
    ensures s[i..next] == "\r" ==> next == |s| || s[next] != '\n'
    ensures s[i..next] == "\n" ==> s[i] == '\n'
  {
    i := BreakIndex(s);
    next := BreakEnd(s);
    ThreeSlices(s, i, next);
    assert SplitLines(s) == [s[..i]] + SplitLines(s[next..]);
    assert LineEnds(s) == [s[i..next]] + LineEnds(s[next..]);
    if next == i + 2 {
      assert s[i..next] == [s[i], s[i + 1]] == "\r\n";
    } else {
      assert s[i..next] == [s[i]];
    }
  }

  /** A text is the concatenation of its slices at two cut points. */
  lemma ThreeSlices(s: string, i: nat, j: nat)
    requires i <= j <= |s|
    ensures s == s[..i] + s[i..j] + s[j..]
  {
    assert s[..i] + s[i..j] == s[..j];
  }

  /** The round-trip facts carry over from the rest of the lines to the
      lines with one more in front. */
  lemma UnlinesCons(line: string, end: string, lines: seq<string>, ends: seq<string>)
    requires WellEnded(lines, ends) && IsTerminator(end)
    requires end == "\r" && |lines| > 0 && lines[0] == "" ==> ends[0] != "\n"
    ensures Unlines([line] + lines, [end] + ends) == line + end + Unlines(lines, ends)
    ensures WellEnded([line] + lines, [end] + ends)
  {
    var ls, es := [line] + lines, [end] + ends;
    assert ls[1..] == lines && es[1..] == ends;
    assert forall k :: 1 <= k < |es| ==> es[k] == ends[k - 1] && ls[k] == lines[k - 1];
  }

  // ---------------------------------------------------------------------
  // split / join / replace
  // ---------------------------------------------------------------------

  /** Python's `sep.join(parts)`. */
  function Join(parts: seq<string>, sep: string): string
    decreases |parts|
  {
    if |parts| == 0 then ""
    else if |parts| == 1 then parts[0]
    else parts[0] + sep + Join(parts[1..], sep)
  }

  /** Python's `s.split(sep)` for a non-empty separator: scanning from
      the left, each occurrence of `sep` closes a piece. */
  function Split(s: string, sep: string): (parts: seq<string>)
    requires sep != ""
    ensures |parts| >= 1
    decreases |s|
  {
    if s == "" then [""]
    else if sep <= s then [""] + Split(s[|sep|..], sep)
    else
      var rest := Split(s[1..], sep);
      [[s[0]] + rest[0]] + rest[1..]
  }

  /** Joining a list with a first element. */
  lemma JoinCons(a: string, rest: seq<string>, sep: string)
    requires |rest| >= 1
    ensures Join([a] + rest, sep) == a + sep + Join(rest, sep)
  {
    assert ([a] + rest)[1..] == rest;
  }

  /** Prepending a character to the first piece prepends it to the
      joined string. */
  lemma JoinConsChar(c: char, rest: seq<string>, sep: string)
    requires |rest| >= 1
    ensures Join([[c] + rest[0]] + rest[1..], sep) == [c] + Join(rest, sep)
  {
    if |rest| > 1 {
      JoinCons([c] + rest[0], rest[1..], sep);
      JoinCons(rest[0], rest[1..], sep);
      assert rest == [rest[0]] + rest[1..];
    }
  }

  /** Joining the pieces of a split with the same separator gives back
      the original string. */
  lemma {:induction false} JoinSplit(s: string, sep: string)
    requires sep != ""
    ensures Join(Split(s, sep), sep) == s
    decreases |s|
  {
    if s == "" {
    } else if sep <= s {
      var t := s[|sep|..];
      JoinSplit(t, sep);
      assert s == sep + t by {
        assert s[..|sep|] == sep;
      }
      JoinSplitAtSep(sep, t);
    } else {
      JoinSplit(s[1..], sep);
      JoinSplitAtChar(s, sep);
    }
  }

  lemma JoinSplitAtSep(sep: string, t: string)
    requires sep != ""
    requires Join(Split(t, sep), sep) == t
    ensures Join(Split(sep + t, sep), sep) == sep + t
  {
    var s := sep + t;
    assert s[..|sep|] == sep;
    assert s[|sep|..] == t;
    var rest := Split(t, sep);
    assert Split(s, sep) == [""] + rest;
    JoinCons("", rest, sep);
    assert "" + sep == sep;
  }

  lemma JoinSplitAtChar(s: string, sep: string)
    requires sep != "" && s != "" && !(sep <= s)
    requires Join(Split(s[1..], sep), sep) == s[1..]
    ensures Join(Split(s, sep), sep) == s
  {
    var rest := Split(s[1..], sep);
    assert Split(s, sep) == [[s[0]] + rest[0]] + rest[1..];
    JoinConsChar(s[0], rest, sep);
    assert s == [s[0]] + s[1..];
  }

  /** The first piece of a split is a prefix of the input in which the
      separator does not occur. */
  lemma {:induction false} SplitFirstPiece(s: string, sep: string)
    requires sep != ""
    ensures Split(s, sep)[0] <= s
    ensures !Occurs(sep, Split(s, sep)[0])
    decreases |s|
  {
    if s == "" {
    } else if sep <= s {
    } else {
      var rest := Split(s[1..], sep);
      SplitFirstPiece(s[1..], sep);
      var first := [s[0]] + rest[0];
      assert Split(s, sep)[0] == first;
      assert first <= s by {
        assert s == [s[0]] + s[1..];
      }
      OccursStep(sep, first);
      assert first[1..] == rest[0];
    }
  }

  /** No piece of a split contains the separator. */
  lemma {:induction false} SplitPiecesFree(s: string, sep: string)
    requires sep != ""
    ensures forall k :: 0 <= k < |Split(s, sep)| ==> !Occurs(sep, Split(s, sep)[k])
    decreases |s|
  {
    var parts := Split(s, sep);
    SplitFirstPiece(s, sep);
    if s == "" {
    } else if sep <= s {
      SplitPiecesFree(s[|sep|..], sep);
      assert forall k :: 1 <= k < |parts| ==> parts[k] == Split(s[|sep|..], sep)[k - 1];
    } else {
      SplitPiecesFree(s[1..], sep);
      assert forall k :: 1 <= k < |parts| ==> parts[k] == Split(s[1..], sep)[k];
    }
  }

  /** A string whose every position is free of the separator splits into
      itself alone. */
  lemma {:induction false} SplitWhole(x: string, sep: string)
    requires sep != ""
    requires forall i :: 0 <= i < |x| ==> !(sep <= x[i..])
    ensures Split(x, sep) == [x]
    decreases |x|
  {
    if x != "" {
      assert x[0..] == x;
      assert forall i :: 0 <= i < |x| - 1 ==> x[1..][i..] == x[i + 1..];
      SplitWhole(x[1..], sep);
      assert x == [x[0]] + x[1..];
    }
  }

  /** When no occurrence of the separator starts inside `x`, the split of
      `x + sep + y` is `x` followed by the split of `y`. */
  lemma {:induction false} SplitCons(x: string, sep: string, y: string)
    requires sep != ""
    requires forall i :: 0 <= i < |x| ==> !(sep <= (x + sep + y)[i..])
    ensures Split(x + sep + y, sep) == [x] + Split(y, sep)
    decreases |x|
  {
    var s := x + sep + y;
    if x == "" {
      assert s == sep + y;
      assert s[|sep|..] == y;
    } else {
      assert Split(s, sep) == [x] + Split(y, sep) by {
        assert s[0..] == s;
        assert s[1..] == x[1..] + sep + y;
        assert forall i :: 0 <= i < |x| - 1 ==> (x[1..] + sep + y)[i..] == s[i + 1..];
        SplitCons(x[1..], sep, y);
        assert x == [x[0]] + x[1..];
      }
    }
  }

  /** Python's `s.replace(target, replacement)`: scanning from the left,
      each non-overlapping occurrence of `target` is replaced. */
  function Replace(s: string, target: string, replacement: string): string
    requires target != ""
    decreases |s|
  {
    if s == "" then ""
    else if target <= s then replacement + Replace(s[|target|..], target, replacement)
    else [s[0]] + Replace(s[1..], target, replacement)
  }

  /** Replacing is splitting on the target and joining with the
      replacement. */
  lemma {:induction false} ReplaceIsJoinOfSplit(s: string, target: string, replacement: string)
    requires target != ""
    ensures Replace(s, target, replacement) == Join(Split(s, target), replacement)
    decreases |s|
  {
    if s == "" {
    } else if target <= s {
      assert Replace(s, target, replacement) == Join(Split(s, target), replacement) by {
        var rest := Split(s[|target|..], target);
        ReplaceIsJoinOfSplit(s[|target|..], target, replacement);
        JoinCons("", rest, replacement);
      }
    } else {
      assert Replace(s, target, replacement) == Join(Split(s, target), replacement) by {
        var rest := Split(s[1..], target);
        ReplaceIsJoinOfSplit(s[1..], target, replacement);
        JoinConsChar(s[0], rest, replacement);
      }
    }
  }

  // ---------------------------------------------------------------------
  // Decimal rendering
  // ---------------------------------------------------------------------

  predicate IsDigit(c: char) {
    '0' <= c <= '9'
  }

  function DigitChar(d: nat): (c: char)
    requires d < 10
    ensures IsDigit(c) && c as int - '0' as int == d
  {
    (d + '0' as int) as char
  }

  /** `str(n)` for a natural number. */
  function NatToString(n: nat): (s: string)
    ensures |s| >= 1
    ensures forall i :: 0 <= i < |s| ==> IsDigit(s[i])
    decreases n
  {
    if n < 10 then [DigitChar(n)] else NatToString(n / 10) + [DigitChar(n % 10)]
  }

  /** The number a string of decimal digits denotes. */
  function DigitsValue(s: string): nat
    requires forall i :: 0 <= i < |s| ==> IsDigit(s[i])
    decreases |s|
  {
    if s == "" then 0
    else
      assert IsDigit(s[|s| - 1]);
      DigitsValue(s[..|s| - 1]) * 10 + (s[|s| - 1] as int - '0' as int)
  }

  /** Reading back the rendering of `n` gives `n`, so distinct numbers
      render differently. */
  lemma {:induction false} NatToStringRoundTrip(n: nat)
    ensures DigitsValue(NatToString(n)) == n
    decreases n
  {
    if n >= 10 {
      NatToStringRoundTrip(n / 10);
      var s := NatToString(n);
      assert s[..|s| - 1] == NatToString(n / 10);
    }
  }

  /** `str(i)` for an integer. */
  function IntToString(i: int): (s: string)
    ensures |s| >= 1
    ensures i >= 0 ==> s == NatToString(i)
    ensures i < 0 ==> s[0] == '-' && s[1..] == NatToString(-i)
  {
    if i < 0 then "-" + NatToString(-i) else NatToString(i)
  }
}
