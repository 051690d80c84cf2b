/**
 The pieces of Python's `str` behaviour the three scripts rely on:
 `strip()`, `lower()`, `startswith()`, `in`, `partition()`, `splitlines()`
 and `str()` of an integer. Each is defined by the way it is computed and
 paired with lemmas that say what the result is in other terms.
 */
module Text {

  /** Python's `str.isspace()`: the characters `strip()` removes and the regex class `\s` matches. */
  predicate IsSpace(c: char) {
    || c == ' '
    || '\t' <= c <= '\r'
    || '\U{1C}' <= c <= '\U{1F}'
    || c == '\U{85}'
    || c == '\U{A0}'
    || c == '\U{1680}'
    || '\U{2000}' <= c <= '\U{200A}'
    || c == '\U{2028}'
    || c == '\U{2029}'
    || c == '\U{202F}'
    || c == '\U{205F}'
    || c == '\U{3000}'
  }

  /** The regex class `\d`, restricted to ASCII digits. */
  predicate IsDigit(c: char) {
    '0' <= c <= '9'
  }

  /** The line boundaries of Python's `str.splitlines()` (`"\r\n"` is handled there). */
  predicate IsLineBreak(c: char) {
    || c == '\n'
    || c == '\r'
    || c == '\U{0B}'
    || c == '\U{0C}'
    || '\U{1C}' <= c <= '\U{1E}'
    || c == '\U{85}'
    || c == '\U{2028}'
    || c == '\U{2029}'
  }

  predicate AllSpace(s: string) {
    forall i :: 0 <= i < |s| ==> IsSpace(s[i])
  }

  predicate NoBreak(s: string) {
    forall i :: 0 <= i < |s| ==> !IsLineBreak(s[i])
  }

  /** Neither end of `s` is whitespace. */
  predicate IsStripped(s: string) {
    s == [] || (!IsSpace(s[0]) && !IsSpace(s[|s| - 1]))
  }

  /** `r` sits at index `i` of `s` with nothing but whitespace around it. */
  predicate PaddedAt(s: string, i: int, r: string) {
    && 0 <= i
    && i + |r| <= |s|
    && (forall k :: 0 <= k < |r| ==> s[i + k] == r[k])
    && (forall k :: 0 <= k < i ==> IsSpace(s[k]))
    && (forall k :: i + |r| <= k < |s| ==> IsSpace(s[k]))
  }

  /** Number of whitespace characters `s` starts with. */
  function LeadingSpace(s: string): (k: nat)
    ensures k <= |s|
    ensures forall i :: 0 <= i < k ==> IsSpace(s[i])
    ensures k < |s| ==> !IsSpace(s[k])
  {
    if s == [] || !IsSpace(s[0]) then 0 else 1 + LeadingSpace(s[1..])
  }

  /** Number of whitespace characters `s` ends with. */
  function TrailingSpace(s: string): (k: nat)
    ensures k <= |s|
    ensures forall i :: |s| - k <= i < |s| ==> IsSpace(s[i])
    ensures k < |s| ==> !IsSpace(s[|s| - k - 1])
  {
    if s == [] || !IsSpace(s[|s| - 1]) then 0 else 1 + TrailingSpace(s[..|s| - 1])
  }

  /** Python's `str.strip()` with no argument. */
  function Strip(s: string): string {
    var a := LeadingSpace(s);
    var t := TrailingSpace(s);
    var e := if |s| - t < a then a else |s| - t;
    s[a..e]
  }

  /** `Strip` leaves a string with no whitespace at either end, which sits inside `s` with only whitespace around it. */
  lemma StripIsPadded(s: string)
    ensures IsStripped(Strip(s))
    ensures exists i :: PaddedAt(s, i, Strip(s))
  {
    var a := LeadingSpace(s);
    var t := TrailingSpace(s);
    var e := if |s| - t < a then a else |s| - t;
    assert PaddedAt(s, a, s[a..e]);
  }

  /** Whatever whitespace surrounds an already stripped string, `Strip` recovers exactly that string. */
  lemma StripPadded(pre: string, x: string, post: string)
    requires AllSpace(pre) && AllSpace(post) && IsStripped(x)
    ensures Strip(pre + x + post) == x
  {
    var s := pre + x + post;
    assert forall i :: 0 <= i < |pre| ==> s[i] == pre[i];
    assert forall i :: |pre| + |x| <= i < |s| ==> s[i] == post[i - |pre| - |x|];
    if x == [] {
      assert forall i :: 0 <= i < |s| ==> IsSpace(s[i]);
      assert LeadingSpace(s) == |s|;
    } else {
      assert s[|pre|] == x[0];
      assert s[|pre| + |x| - 1] == x[|x| - 1];
      assert LeadingSpace(s) == |pre|;
      assert TrailingSpace(s) == |post|;
      assert s[|pre|..|pre| + |x|] == x;
    }
  }

  /** The padded, stripped string inside `s` is unique: it is `Strip(s)`. */
  lemma StripUnique(s: string, i: int, x: string)
    requires PaddedAt(s, i, x) && IsStripped(x)
    ensures Strip(s) == x
  {
    var pre := s[..i];
    var post := s[i + |x|..];
    assert s == pre + x + post by {
      assert forall k :: 0 <= k < |x| ==> (pre + x + post)[i + k] == x[k];
      assert forall k :: i + |x| <= k < |s| ==> (pre + x + post)[k] == post[k - i - |x|];
    }
    assert AllSpace(pre) by {
      assert forall k :: 0 <= k < |pre| ==> pre[k] == s[k];
    }
    assert AllSpace(post) by {
      assert forall k :: 0 <= k < |post| ==> post[k] == s[i + |x| + k];
    }
    StripPadded(pre, x, post);
  }

  /** Stripping twice is stripping once. */
  lemma StripIdempotent(s: string)
    ensures Strip(Strip(s)) == Strip(s)
  {
    var r := Strip(s);
    StripPadded([], r, []);
    assert [] + r + [] == r;
  }

  /** ASCII case folding of one character. */
  function LowerChar(c: char): char {
    if 'A' <= c <= 'Z' then (c as int - 'A' as int + 'a' as int) as char else c
  }

  /** Python's `str.lower()`, restricted to ASCII letters. */
  function Lower(s: string): string {
    seq(|s|, i requires 0 <= i < |s| => LowerChar(s[i]))
  }

  /**
   `lower()` keeps the length, leaves no ASCII capital, keeps every other
   character and maps each capital to the small letter at the same place in
   the alphabet.
   */
  lemma LowerMeans(s: string)
    ensures |Lower(s)| == |s|
    ensures forall i :: 0 <= i < |s| ==> !('A' <= Lower(s)[i] <= 'Z')
    ensures forall i :: 0 <= i < |s| && !('A' <= s[i] <= 'Z') ==> Lower(s)[i] == s[i]
    ensures forall i :: 0 <= i < |s| && 'A' <= s[i] <= 'Z' ==>
      'a' <= Lower(s)[i] <= 'z' && Lower(s)[i] as int - 'a' as int == s[i] as int - 'A' as int
  {
  }

  /** Lower-casing twice is lower-casing once. */
  lemma LowerIdempotent(s: string)
    ensures Lower(Lower(s)) == Lower(s)
  {
  }

  /** Python's `str.startswith(prefix)`. */
  predicate StartsWith(s: string, prefix: string) {
    |prefix| <= |s| && s[..|prefix|] == prefix
  }

  /** `s` starts with `prefix` exactly when `s` is `prefix` followed by something. */
  lemma StartsWithIff(s: string, prefix: string)
    ensures StartsWith(s, prefix) <==> exists rest :: s == prefix + rest
  {
    if StartsWith(s, prefix) {
      assert s == prefix + s[|prefix|..];
    }
    if rest :| s == prefix + rest {
      assert s[..|prefix|] == prefix;
    }
  }

  /** `needle` occurs in `hay` starting at index `k`. */
  predicate OccursAt(hay: string, needle: string, k: int) {
    0 <= k && k + |needle| <= |hay| && hay[k..k + |needle|] == needle
  }

  /** Python's `needle in hay` on strings, as a left-to-right scan. */
  predicate Contains(hay: string, needle: string)
    decreases |hay|
  {
    if |needle| > |hay| then false
    else if hay[..|needle|] == needle then true
    else Contains(hay[1..], needle)
  }

  /** The scan finds `needle` exactly when it occurs at some index of `hay`. */
  lemma {:induction false} ContainsIffOccurs(hay: string, needle: string)
    ensures Contains(hay, needle) <==> exists k :: OccursAt(hay, needle, k)
    decreases |hay|
  {
    if |needle| > |hay| {
    } else if hay[..|needle|] == needle {
      assert OccursAt(hay, needle, 0);
    } else {
      var tl := hay[1..];
      ContainsIffOccurs(tl, needle);
      if Contains(tl, needle) {
        var k :| OccursAt(tl, needle, k);
        assert hay[k + 1..k + 1 + |needle|] == tl[k..k + |needle|];
        assert OccursAt(hay, needle, k + 1);
      } else {
        forall k | OccursAt(hay, needle, k) ensures false {
          assert k != 0;
          assert tl[k - 1..k - 1 + |needle|] == hay[k..k + |needle|];
          assert OccursAt(tl, needle, k - 1);
        }
      }
    }
  }

  /** A string is found in any text that has it as an infix. */
  lemma ContainsInfix(a: string, needle: string, b: string)
    ensures Contains(a + needle + b, needle)
  {
    var hay := a + needle + b;
    assert hay[|a|..|a| + |needle|] == needle;
    assert OccursAt(hay, needle, |a|);
    ContainsIffOccurs(hay, needle);
  }

  /** Index of the first `c` in `s`, or `|s|` when there is none. */
  function IndexOf(s: string, c: char): (k: nat)
    ensures k <= |s|
    ensures forall i :: 0 <= i < k ==> s[i] != c
    ensures k < |s| ==> s[k] == c
  {
    if s == [] || s[0] == c then 0 else 1 + IndexOf(s[1..], c)
  }

  /** The result of Python's `str.partition(sep)`: the part before, the separator found, the part after. */
  datatype Parts = Parts(head: string, sep: string, tail: string)

  /** Python's `str.partition(c)` for a one-character separator: split at the first `c`. */
  function Partition(s: string, c: char): (r: Parts)
    ensures r.head + r.sep + r.tail == s
    ensures c !in r.head
    ensures r.sep == [] || r.sep == [c]
    ensures r.sep == [] ==> r.tail == [] && c !in s
  {
    var k := IndexOf(s, c);
    if k == |s| then
      assert s[..k] == s;
      Parts(s, [], [])
    else
      assert s[..k] + [c] + s[k + 1..] == s;
      Parts(s[..k], [c], s[k + 1..])
  }

  /** Index of the first line boundary in `s`, or `|s|` when there is none. */
  function FirstBreak(s: string): (k: nat)
    ensures k <= |s|
    ensures forall i :: 0 <= i < k ==> !IsLineBreak(s[i])
    ensures k < |s| ==> IsLineBreak(s[k])
  {
    if s == [] || IsLineBreak(s[0]) then 0 else 1 + FirstBreak(s[1..])
  }

  /**
   Python's `str.splitlines()`: the lines of `s` without their boundaries, where
   `"\r\n"` counts as one boundary and a boundary at the very end opens no further line.
   */
  function SplitLines(s: string): (lines: seq<string>)
    ensures forall i :: 0 <= i < |lines| ==> NoBreak(lines[i])
    decreases |s|
  {
    if s == [] then []
    else
      var k := FirstBreak(s);
      if k == |s| then
        assert s[..k] == s;
        [s]
      else
        var width := if s[k] == '\r' && k + 1 < |s| && s[k + 1] == '\n' then 2 else 1;
        [s[..k]] + SplitLines(s[k + width..])
  }

  /** Every line followed by `"\n"`. */
  function JoinLines(lines: seq<string>): string {
    if lines == [] then "" else lines[0] + "\n" + JoinLines(lines[1..])
  }

  /** Splitting newline-terminated lines gives back the lines. */
  lemma {:induction false} SplitJoinLines(lines: seq<string>)
    requires forall i :: 0 <= i < |lines| ==> NoBreak(lines[i])
    ensures SplitLines(JoinLines(lines)) == lines
  {
    if lines != [] {
      var l := lines[0];
      var rest := JoinLines(lines[1..]);
      var s := l + "\n" + rest;
      assert s == JoinLines(lines);
      assert NoBreak(l);
      assert forall i :: 0 <= i < |l| ==> s[i] == l[i];
      assert s[|l|] == '\n';
      var k := FirstBreak(s);
      assert k == |l|;
      assert s[..k] == l;
      assert s[k + 1..] == rest;
      SplitJoinLines(lines[1..]);
    }
  }

  /** One line boundary as `splitlines()` reads it: `"\r\n"` or a single boundary character. */
  predicate IsLineEnd(t: string) {
    t == "\r\n" || (|t| == 1 && IsLineBreak(t[0]))
  }

  /** A text laid out as lines, each followed by its own boundary, then an unterminated rest. */
  function Layout(lines: seq<string>, ends: seq<string>, last: string): string
    requires |ends| == |lines|
  {
    if lines == [] then last else lines[0] + ends[0] + Layout(lines[1..], ends[1..], last)
  }

  /**
   Lines with boundaries that read back one boundary each: a lone `"\r"`
   followed by an empty line ended by `"\n"` would read as a single `"\r\n"`.
   */
  predicate WellEnded(lines: seq<string>, ends: seq<string>) {
    && |ends| == |lines|
    && (forall i :: 0 <= i < |lines| ==> NoBreak(lines[i]) && IsLineEnd(ends[i]))
    && (forall i :: 0 <= i < |lines| - 1 && ends[i] == "\r" && lines[i + 1] == [] ==> ends[i + 1] != "\n")
  }

  /** The lines of a text: the terminated ones, then the unterminated rest when there is one. */
  function WithLast(lines: seq<string>, last: string): seq<string> {
    if last == [] then lines else lines + [last]
  }

  /** A text without boundaries has its first boundary at its end. */
  lemma NoBreakFirstBreak(s: string)
    requires NoBreak(s)
    ensures FirstBreak(s) == |s|
  {
  }

  /** A line and its boundary come off the front of the text as one line. */
  lemma SplitLinesStep(l: string, e: string, rest: string)
    requires NoBreak(l) && IsLineEnd(e)
    requires e == "\r" && rest != [] ==> rest[0] != '\n'
    ensures SplitLines(l + e + rest) == [l] + SplitLines(rest)
  {
    var s := l + e + rest;
    assert forall i :: 0 <= i < |l| ==> s[i] == l[i];
    assert s[|l|] == e[0];
    var k := FirstBreak(s);
    assert k == |l|;
    assert s[..k] == l;
    if e == "\r" && rest != [] {
      assert s[k + 1] == rest[0];
    }
    var width := if s[k] == '\r' && k + 1 < |s| && s[k + 1] == '\n' then 2 else 1;
    assert width == |e|;
    assert s[k + width..] == rest;
  }

  /** A laid-out text starts with `"\n"` only when its first line is empty and ended by `"\n"`. */
  lemma LayoutHead(lines: seq<string>, ends: seq<string>, last: string)
    requires WellEnded(lines, ends) && NoBreak(last)
    requires lines != [] ==> !(lines[0] == [] && ends[0] == "\n")
    ensures var t := Layout(lines, ends, last); t != [] ==> t[0] != '\n'
  {
    if lines != [] {
      var t := Layout(lines, ends, last);
      var l, e := lines[0], ends[0];
      assert t == l + e + Layout(lines[1..], ends[1..], last);
      if l == [] {
        assert t[0] == e[0];
      } else {
        assert t[0] == l[0];
      }
    }
  }

  /** Dropping the first line keeps the lines well ended. */
  lemma WellEndedTail(lines: seq<string>, ends: seq<string>)
    requires WellEnded(lines, ends) && lines != []
    ensures WellEnded(lines[1..], ends[1..])
  {
    forall i | 0 <= i < |lines[1..]| - 1 && ends[1..][i] == "\r" && lines[1..][i + 1] == []
      ensures ends[1..][i + 1] != "\n"
    {
      assert ends[1..][i] == ends[i + 1] && lines[1..][i + 1] == lines[i + 2];
    }
  }

  /** After a lone `"\r"` boundary, the rest of well-ended lines does not start with `"\n"`. */
  lemma WellEndedAfterReturn(lines: seq<string>, ends: seq<string>, last: string)
    requires WellEnded(lines, ends) && NoBreak(last) && lines != [] && ends[0] == "\r"
    ensures var rest := Layout(lines[1..], ends[1..], last); rest != [] ==> rest[0] != '\n'
  {
    WellEndedTail(lines, ends);
    if |lines| > 1 {
      assert !(lines[1] == [] && ends[1] == "\n");
    }
    LayoutHead(lines[1..], ends[1..], last);
  }

  /**
   Splitting lines laid out with any boundaries, followed by an unterminated
   rest, gives back the lines and then the rest when it is not empty.
   */
  lemma {:induction false} SplitEndedLines(lines: seq<string>, ends: seq<string>, last: string)
    requires WellEnded(lines, ends) && NoBreak(last)
    ensures SplitLines(Layout(lines, ends, last)) == WithLast(lines, last)
  {
    if lines == [] {
      if last != [] {
        NoBreakFirstBreak(last);
      }
    } else {
      if ends[0] == "\r" {
        WellEndedAfterReturn(lines, ends, last);
      }
      SplitLinesStep(lines[0], ends[0], Layout(lines[1..], ends[1..], last));
      WellEndedTail(lines, ends);
      SplitEndedLines(lines[1..], ends[1..], last);
      assert WithLast(lines, last) == [lines[0]] + WithLast(lines[1..], last);
    }
  }

  /** `JoinLines` is the layout with `"\n"` after every line. */
  lemma {:induction false} JoinLinesLayout(lines: seq<string>, last: string)
    ensures JoinLines(lines) + last == Layout(lines, seq(|lines|, i => "\n"), last)
  {
    if lines != [] {
      JoinLinesLayout(lines[1..], last);
      assert seq(|lines|, i => "\n")[1..] == seq(|lines[1..]|, i => "\n");
      assert JoinLines(lines) + last == lines[0] + "\n" + (JoinLines(lines[1..]) + last);
    }
  }

  /** An unterminated last line is a line of its own. */
  lemma SplitUnterminatedLast(lines: seq<string>, last: string)
    requires forall i :: 0 <= i < |lines| ==> NoBreak(lines[i])
    requires last != [] && NoBreak(last)
    ensures SplitLines(JoinLines(lines) + last) == lines + [last]
  {
    JoinLinesLayout(lines, last);
    SplitEndedLines(lines, seq(|lines|, i => "\n"), last);
  }

  /** Lines ended by `"\r\n"` split back to themselves: the pair is one boundary. */
  lemma SplitCrlfLines(lines: seq<string>)
    requires forall i :: 0 <= i < |lines| ==> NoBreak(lines[i])
    ensures SplitLines(Layout(lines, seq(|lines|, i => "\r\n"), [])) == lines
  {
    SplitEndedLines(lines, seq(|lines|, i => "\r\n"), []);
  }

  /** The first boundary of a text that has one, and the first line split off in front of it. */
  lemma SplitLinesFront(s: string) returns (e: string)
    requires FirstBreak(s) < |s|
    ensures var k := FirstBreak(s);
      && IsLineEnd(e)
      && k + |e| <= |s|
      && s == s[..k] + e + s[k + |e|..]
      && (e == "\r" && s[k + |e|..] != [] ==> s[k + |e|..][0] != '\n')
      && SplitLines(s) == [s[..k]] + SplitLines(s[k + |e|..])
  {
    var k := FirstBreak(s);
    var width := if s[k] == '\r' && k + 1 < |s| && s[k + 1] == '\n' then 2 else 1;
    e := s[k..k + width];
    assert s == s[..k] + e + s[k + width..];
  }

  /** A well-ended line in front of well-ended lines keeps them well ended. */
  lemma WellEndedCons(l: string, e: string, lines: seq<string>, ends: seq<string>, last: string)
    requires NoBreak(l) && IsLineEnd(e) && WellEnded(lines, ends)
    requires var t := Layout(lines, ends, last); e == "\r" && t != [] ==> t[0] != '\n'
    ensures WellEnded([l] + lines, [e] + ends)
  {
    if e == "\r" && lines != [] && lines[0] == [] {
      assert Layout(lines, ends, last) == ends[0] + Layout(lines[1..], ends[1..], last);
    }
    var ls, es := [l] + lines, [e] + ends;
    forall i | 0 <= i < |ls| - 1 && es[i] == "\r" && ls[i + 1] == []
      ensures es[i + 1] != "\n"
    {
      if i > 0 {
        assert es[i] == ends[i - 1] && ls[i + 1] == lines[i] && es[i + 1] == ends[i];
      }
    }
  }

  /** Laying out one more line in front adds that line and its boundary in front. */
  lemma LayoutCons(l: string, e: string, lines: seq<string>, ends: seq<string>, last: string)
    requires |ends| == |lines|
    ensures Layout([l] + lines, [e] + ends, last) == l + e + Layout(lines, ends, last)
  {
    assert ([l] + lines)[1..] == lines && ([e] + ends)[1..] == ends;
  }

  /** One more terminated line in front comes first in the line list. */
  lemma WithLastCons(l: string, lines: seq<string>, last: string)
    ensures WithLast([l] + lines, last) == [l] + WithLast(lines, last)
  {
  }

  /** Taking `n + 1` elements of `[x] + xs` is `x` followed by `n` elements of `xs`. */
  lemma TakeCons<T>(x: T, xs: seq<T>, n: nat)
    requires n <= |xs|
    ensures ([x] + xs)[..n + 1] == [x] + xs[..n]
  {
  }

  /**
   Every text is its lines, each followed by the boundary that ended it, and
   then the unterminated rest: nothing is lost or added.
   */
  lemma {:induction false} SplitLinesCovers(s: string) returns (ends: seq<string>, last: string)
    ensures var lines := SplitLines(s);
      && |ends| <= |lines|
      && WellEnded(lines[..|ends|], ends)
      && NoBreak(last)
      && lines == WithLast(lines[..|ends|], last)
      && s == Layout(lines[..|ends|], ends, last)
    decreases |s|
  {
    if FirstBreak(s) == |s| {
      assert s[..|s|] == s;
      ends, last := [], s;
    } else {
      var k := FirstBreak(s);
      var e := SplitLinesFront(s);
      var tl := s[k + |e|..];
      var ends', last' := SplitLinesCovers(tl);
      var lines' := SplitLines(tl);
      var front := lines'[..|ends'|];
      WellEndedCons(s[..k], e, front, ends', last');
      ends, last := [e] + ends', last';
      var lines := SplitLines(s);
      assert lines == [s[..k]] + lines';
      TakeCons(s[..k], lines', |ends'|);
      LayoutCons(s[..k], e, front, ends', last);
      var pre := lines[..|ends|];
      assert pre == [s[..k]] + front;
      assert Layout(pre, ends, last) == s[..k] + e + tl;
      assert s == Layout(pre, ends, last);
      assert WellEnded(pre, ends);
      WithLastCons(s[..k], front, last);
      assert lines == WithLast(pre, last);
    }
  }

  /** The character of decimal digit `d`. */
  function DigitChar(d: nat): (c: char)
    requires d < 10
  {
    ('0' as int + d) as char
  }

  predicate AllDigits(s: string) {
    forall i :: 0 <= i < |s| ==> IsDigit(s[i])
  }

  /** Python's `str()` of a non-negative integer. */
  function NatToDecimal(n: nat): (r: string)
    ensures |r| >= 1 && AllDigits(r)
    ensures r[0] == '0' ==> n == 0
  {
    if n < 10 then [DigitChar(n)] else NatToDecimal(n / 10) + [DigitChar(n % 10)]
  }

  /** The number a string of decimal digits denotes. */
  function DecimalValue(s: string): nat
    requires AllDigits(s)
  {
    if s == [] then 0 else DecimalValue(s[..|s| - 1]) * 10 + (s[|s| - 1] as int - '0' as int)
  }

  /** Python's `str()` of an integer. */
  function IntToDecimal(i: int): string {
    if i < 0 then "-" + NatToDecimal(-i) else NatToDecimal(i)
  }

  /** Reading back the digits `str()` prints gives the number. */
  lemma {:induction false} DecimalRoundTrip(n: nat)
    ensures DecimalValue(NatToDecimal(n)) == n
  {
    if n >= 10 {
      var r := NatToDecimal(n);
      assert r[..|r| - 1] == NatToDecimal(n / 10);
      DecimalRoundTrip(n / 10);
    }
  }

  /** `str(i)` is a sign exactly for negative `i`, followed by the digits of `|i|`. */
  lemma IntToDecimalRoundTrip(i: int)
    ensures var r := IntToDecimal(i);
      && (r[0] == '-' <==> i < 0)
      && var digits := if i < 0 then r[1..] else r;
      && AllDigits(digits)
      && DecimalValue(digits) == (if i < 0 then -i else i)
  {
    var r := IntToDecimal(i);
    if i < 0 {
      assert r[1..] == NatToDecimal(-i);
      DecimalRoundTrip(-i);
    } else {
      DecimalRoundTrip(i);
    }
  }
}
