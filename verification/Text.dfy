/** Strings as sequences of characters: searching, trimming, replacing. */
module Text {
  import opened Wrappers

  /** The Unicode White_Space characters. */
  predicate IsWhitespace(c: char) {
    var n := c as int;
    || 0x09 <= n <= 0x0D || n == 0x20 || n == 0x85 || n == 0xA0 || n == 0x1680
    || 0x2000 <= n <= 0x200A || n == 0x2028 || n == 0x2029 || n == 0x202F || n == 0x205F || n == 0x3000
  }

  predicate IsDigit(c: char) {
    '0' <= c <= '9'
  }

  predicate AllDigits(s: string) {
    forall i | 0 <= i < |s| :: IsDigit(s[i])
  }

  function TrimStart(s: string): string {
    if s != [] && IsWhitespace(s[0]) then TrimStart(s[1..]) else s
  }

  function TrimEnd(s: string): string {
    if s != [] && IsWhitespace(s[|s| - 1]) then TrimEnd(s[..|s| - 1]) else s
  }

  function Trim(s: string): string {
    TrimEnd(TrimStart(s))
  }

  /** The first place where `pattern` occurs. */
  function Find(s: string, pattern: string): (r: Option<nat>)
    ensures r.Some? ==> r.value + |pattern| <= |s| && pattern <= s[r.value..]
    ensures r.Some? ==> forall i | 0 <= i < r.value :: !(pattern <= s[i..])
    ensures r.None? ==> forall i | 0 <= i <= |s| :: !(pattern <= s[i..])
  {
    if pattern <= s then Some(0)
    else if s == [] then None
    else
      var rest := Find(s[1..], pattern);
      assert forall i | 1 <= i <= |s| :: s[i..] == s[1..][i - 1..];
      if rest.None? then None else Some(rest.value + 1)
  }

  predicate Contains(s: string, pattern: string) {
    Find(s, pattern).Some?
  }

  /** The search is determined by its contract. */
  lemma FindIs(s: string, pattern: string, at: nat)
    requires at <= |s| && pattern <= s[at..]
    requires forall i | 0 <= i < at :: !(pattern <= s[i..])
    ensures Find(s, pattern) == Some(at)
  {
    var r := Find(s, pattern);
  }

  /** Nothing before the first occurrence of the pattern's first character can match. */
  lemma FindAfter(before: string, pattern: string, after: string)
    requires pattern != [] && pattern[0] !in before
    ensures Find(before + pattern + after, pattern) == Some(|before|)
  {
    var s := before + pattern + after;
    assert s[|before|..] == pattern + after;
    forall i | 0 <= i < |before| ensures !(pattern <= s[i..]) {
      assert s[i..][0] == before[i];
    }
    FindIs(s, pattern, |before|);
  }

  lemma FindNone(s: string, pattern: string)
    requires pattern != [] && pattern[0] !in s
    ensures Find(s, pattern) == None
  {
    forall i | 0 <= i <= |s| ensures !(pattern <= s[i..]) {
      if i < |s| {
        assert s[i..][0] == s[i];
      }
    }
  }

  /** Replaces every occurrence of one character by a string. */
  function ReplaceChar(s: string, c: char, code: string): string {
    if s == [] then []
    else (if s[0] == c then code else [s[0]]) + ReplaceChar(s[1..], c, code)
  }

  lemma Regroup<T>(a: seq<T>, b: seq<T>, c: seq<T>)
    ensures a + (b + c) == a + b + c
  {
  }

  /** No proper suffix of the pattern is also its prefix. */
  ghost predicate Borderless(pattern: string) {
    forall k | 0 < k < |pattern| :: !(pattern[k..] <= pattern)
  }

  lemma NoEarlierMatch(before: string, pattern: string, after: string, i: nat)
    requires Borderless(pattern) && !Contains(before, pattern) && i < |before|
    ensures !(pattern <= (before + pattern + after)[i..])
  {
    var s := before + pattern + after;
    if i + |pattern| <= |before| {
      assert !(pattern <= before[i..]);
      assert s[i..][..|pattern|] == before[i..][..|pattern|];
    } else {
      var k := |before| - i;
      assert !(pattern[k..] <= pattern);
      assert s[i..][k..|pattern|] == pattern[..|pattern| - k];
    }
  }

  /** A borderless pattern after a text without it is found where it stands. */
  lemma FindBorderless(before: string, pattern: string, after: string)
    requires pattern != [] && Borderless(pattern) && !Contains(before, pattern)
    ensures Find(before + pattern + after, pattern) == Some(|before|)
  {
    var s := before + pattern + after;
    Regroup(before, pattern, after);
    assert s[|before|..] == pattern + after;
    forall i | 0 <= i < |before| ensures !(pattern <= s[i..]) {
      NoEarlierMatch(before, pattern, after, i);
    }
    FindIs(s, pattern, |before|);
  }

  lemma SplitAtFirst(s: string, pattern: string) returns (before: string, after: string)
    requires Contains(s, pattern)
    ensures s == before + pattern + after && |before| == Find(s, pattern).value
    ensures after == s[|before| + |pattern|..]
    ensures forall i | 0 <= i < |before| :: !(pattern <= s[i..])
  {
    var i := Find(s, pattern).value;
    before, after := s[..i], s[i + |pattern|..];
    assert s[i..] == pattern + s[i..][|pattern|..];
  }

  /** No occurrence fits into what stands before the first one. */
  lemma NoneBefore(before: string, pattern: string, after: string)
    requires forall i | 0 <= i < |before| :: !(pattern <= (before + pattern + after)[i..])
    requires pattern != []
    ensures !Contains(before, pattern)
  {
    var s := before + pattern + after;
    forall i | 0 <= i < |before| ensures !(pattern <= before[i..]) {
      assert s[i..] == before[i..] + (pattern + after);
    }
  }

  lemma OneCharacterAbsent(s: string, c: char)
    requires !Contains(s, [c])
    ensures c !in s
  {
    forall k | 0 <= k < |s| ensures s[k] != c {
      assert !([c] <= s[k..]);
      assert s[k..] == [s[k]] + s[k + 1..];
    }
  }

  lemma CutAt(s: string, pattern: string) returns (before: string, after: string)
    requires pattern != [] && Contains(s, pattern)
    ensures s == before + pattern + after && !Contains(before, pattern)
    ensures before == s[..Find(s, pattern).value] && after == s[Find(s, pattern).value + |pattern|..]
  {
    before, after := SplitAtFirst(s, pattern);
    NoneBefore(before, pattern, after);
  }

  lemma {:induction false} TrimStartShorter(s: string)
    ensures |TrimStart(s)| <= |s|
  {
    if s != [] && IsWhitespace(s[0]) {
      TrimStartShorter(s[1..]);
    }
  }

  lemma {:induction false} TrimStartSkips(gap: string, s: string)
    requires (forall i | 0 <= i < |gap| :: IsWhitespace(gap[i])) && s != [] && !IsWhitespace(s[0])
    ensures TrimStart(gap + s) == s
  {
    if gap == [] {
      assert gap + s == s;
    } else {
      assert (gap + s)[1..] == gap[1..] + s;
      TrimStartSkips(gap[1..], s);
    }
  }

  // ------------------------------------------------------------ white space

  /** The characters with the Unicode property White_Space. */
  lemma WhitespaceExactly(c: char)
    ensures IsWhitespace(c) <==>
              c as int in [0x09, 0x0A, 0x0B, 0x0C, 0x0D, 0x20, 0x85, 0xA0, 0x1680, 0x2000, 0x2001, 0x2002, 0x2003,
                           0x2004, 0x2005, 0x2006, 0x2007, 0x2008, 0x2009, 0x200A, 0x2028, 0x2029, 0x202F, 0x205F,
                           0x3000]
  {
  }

  ghost predicate AllWhite(s: string) {
    forall i | 0 <= i < |s| :: IsWhitespace(s[i])
  }

  /** `x` is `s` without the white space around it. */
  ghost predicate TrimmedTo(s: string, x: string) {
    && x != [] && !IsWhitespace(x[0]) && !IsWhitespace(x[|x| - 1])
    && exists l, r :: AllWhite(l) && AllWhite(r) && s == l + x + r
  }

  lemma {:induction false} TrimEndSplits(s: string) returns (r: string)
    ensures s == TrimEnd(s) + r && AllWhite(r)
    ensures TrimEnd(s) != [] ==> !IsWhitespace(TrimEnd(s)[|TrimEnd(s)| - 1])
  {
    r := [];
    if s != [] && IsWhitespace(s[|s| - 1]) {
      var more := TrimEndSplits(s[..|s| - 1]);
      r := more + [s[|s| - 1]];
      assert s == s[..|s| - 1] + [s[|s| - 1]];
    }
  }

  lemma {:induction false} TrimStartCuts(s: string) returns (l: string)
    ensures s == l + TrimStart(s) && AllWhite(l)
    ensures TrimStart(s) != [] ==> !IsWhitespace(TrimStart(s)[0])
  {
    l := [];
    if s != [] && IsWhitespace(s[0]) {
      var more := TrimStartCuts(s[1..]);
      l := [s[0]] + more;
    }
  }

  /** Trimming leaves nothing exactly of white space, else it leaves the text between. */
  lemma TrimExactly(s: string)
    ensures Trim(s) == [] <==> AllWhite(s)
    ensures Trim(s) != [] ==> TrimmedTo(s, Trim(s))
  {
    var l := TrimStartCuts(s);
    var t := TrimStart(s);
    var r := TrimEndSplits(t);
    var x := TrimEnd(t);
    assert s == l + x + r;
    if x != [] {
      assert x[0] == t[0] && s[|l|] == x[0];
    }
  }

  // ---------------------------------------------------------------- replacing

  /** Replaces a pattern, from left to right, as `str::replace` does. */
  function ReplaceAll(s: string, pattern: string, other: string): string
    requires pattern != []
    decreases |s|
  {
    if s == [] then []
    else if pattern <= s then other + ReplaceAll(s[|pattern|..], pattern, other)
    else [s[0]] + ReplaceAll(s[1..], pattern, other)
  }

  function JoinWith(pieces: seq<string>, separator: string): string {
    if pieces == [] then ""
    else if |pieces| == 1 then pieces[0]
    else pieces[0] + (separator + JoinWith(pieces[1..], separator))
  }

  /** The pieces into which the pattern, met from left to right, cuts their join. */
  ghost predicate CutBy(pieces: seq<string>, pattern: string) {
    && pieces != []
    && (forall i | 0 <= i < |pieces| - 1 :: Find(pieces[i] + pattern, pattern) == Some(|pieces[i]|))
    && !Contains(pieces[|pieces| - 1], pattern)
  }

  lemma ReplaceHit(pattern: string, rest: string, other: string)
    requires pattern != []
    ensures ReplaceAll(pattern + rest, pattern, other) == other + ReplaceAll(rest, pattern, other)
  {
    assert (pattern + rest)[|pattern|..] == rest;
  }

  lemma ReplaceMiss(c: char, rest: string, pattern: string, other: string)
    requires pattern != [] && !(pattern <= [c] + rest)
    ensures ReplaceAll([c] + rest, pattern, other) == [c] + ReplaceAll(rest, pattern, other)
  {
    assert ([c] + rest)[1..] == rest;
  }

  lemma {:induction false} ReplaceFirst(piece: string, pattern: string, rest: string, other: string)
    requires pattern != [] && Find(piece + pattern, pattern) == Some(|piece|)
    ensures ReplaceAll(piece + (pattern + rest), pattern, other) == piece + (other + ReplaceAll(rest, pattern, other))
  {
    if piece == [] {
      assert [] + (pattern + rest) == pattern + rest;
      ReplaceHit(pattern, rest, other);
      assert [] + (other + ReplaceAll(rest, pattern, other)) == other + ReplaceAll(rest, pattern, other);
    } else {
      var c, more := piece[0], piece[1..];
      assert piece == [c] + more;
      Regroup([c], more, pattern + rest);
      NotAtFront(piece, pattern, rest);
      FindBehind(piece, pattern);
      ReplaceFirst(more, pattern, rest, other);
      ReplaceMiss(c, more + (pattern + rest), pattern, other);
      Regroup([c], more, other + ReplaceAll(rest, pattern, other));
    }
  }

  lemma PrefixOfLonger(p: string, s: string, rest: string)
    requires |p| <= |s|
    ensures p <= s + rest <==> p <= s
  {
    assert (s + rest)[..|p|] == s[..|p|];
  }

  lemma NotAtFront(piece: string, pattern: string, rest: string)
    requires piece != [] && pattern != [] && Find(piece + pattern, pattern) == Some(|piece|)
    ensures !(pattern <= piece + (pattern + rest))
  {
    assert !(pattern <= (piece + pattern)[0..]);
    assert (piece + pattern)[0..] == piece + pattern;
    Regroup(piece, pattern, rest);
    PrefixOfLonger(pattern, piece + pattern, rest);
  }

  lemma FindBehind(piece: string, pattern: string)
    requires piece != [] && pattern != [] && Find(piece + pattern, pattern) == Some(|piece|)
    ensures Find(piece[1..] + pattern, pattern) == Some(|piece| - 1)
  {
    assert (piece + pattern)[1..] == piece[1..] + pattern;
    assert !(pattern <= (piece + pattern)[0..]) && (piece + pattern)[0..] == piece + pattern;
  }

  lemma {:induction false} ReplaceAbsentAll(s: string, pattern: string, other: string)
    requires pattern != [] && !Contains(s, pattern)
    ensures ReplaceAll(s, pattern, other) == s
  {
    if s != [] {
      ReplaceAbsentAll(s[1..], pattern, other);
    }
  }

  /** Replacing puts the other text in every place where the pattern cuts. */
  lemma {:induction false} ReplaceExactly(pieces: seq<string>, pattern: string, other: string)
    requires pattern != [] && CutBy(pieces, pattern)
    ensures ReplaceAll(JoinWith(pieces, pattern), pattern, other) == JoinWith(pieces, other)
    decreases |pieces|
  {
    if |pieces| == 1 {
      ReplaceAbsentAll(pieces[0], pattern, other);
    } else {
      CutByTail(pieces, pattern);
      ReplaceExactly(pieces[1..], pattern, other);
      ReplaceFirst(pieces[0], pattern, JoinWith(pieces[1..], pattern), other);
    }
  }

  lemma CutByTail(pieces: seq<string>, pattern: string)
    requires CutBy(pieces, pattern) && |pieces| > 1
    ensures CutBy(pieces[1..], pattern) && Find(pieces[0] + pattern, pattern) == Some(|pieces[0]|)
  {
    assert forall i | 0 <= i < |pieces[1..]| :: pieces[1..][i] == pieces[i + 1];
  }

  lemma JoinPrepend(piece: string, pieces: seq<string>, separator: string)
    requires pieces != []
    ensures JoinWith([piece] + pieces, separator) == piece + (separator + JoinWith(pieces, separator))
  {
    assert ([piece] + pieces)[1..] == pieces;
  }

  lemma CutByPrepend(piece: string, pieces: seq<string>, pattern: string)
    requires CutBy(pieces, pattern) && Find(piece + pattern, pattern) == Some(|piece|)
    ensures CutBy([piece] + pieces, pattern)
  {
    var all := [piece] + pieces;
    assert all[|all| - 1] == pieces[|pieces| - 1];
    forall i | 0 <= i < |all| - 1 ensures Find(all[i] + pattern, pattern) == Some(|all[i]|) {
      if i > 0 {
        assert all[i] == pieces[i - 1];
      }
    }
  }

  lemma FirstCut(s: string, pattern: string) returns (piece: string, rest: string)
    requires pattern != [] && Contains(s, pattern)
    ensures s == piece + (pattern + rest) && Find(piece + pattern, pattern) == Some(|piece|)
  {
    var before, after := SplitAtFirst(s, pattern);
    piece, rest := before, after;
    Regroup(before, pattern, after);
    forall i | 0 <= i < |before| ensures !(pattern <= (before + pattern)[i..]) {
      assert s[i..] == (before + pattern)[i..] + after;
    }
    assert (before + pattern)[|before|..] == pattern;
    FindIs(before + pattern, pattern, |before|);
  }

  /** Every text is cut in this way. */
  lemma {:induction false} EveryTextIsCut(s: string, pattern: string)
    requires pattern != []
    ensures exists pieces :: CutBy(pieces, pattern) && s == JoinWith(pieces, pattern)
    decreases |s|
  {
    if !Contains(s, pattern) {
      assert CutBy([s], pattern) && s == JoinWith([s], pattern);
    } else {
      var piece, rest := FirstCut(s, pattern);
      EveryTextIsCut(rest, pattern);
      var pieces :| CutBy(pieces, pattern) && rest == JoinWith(pieces, pattern);
      CutByPrepend(piece, pieces, pattern);
      JoinPrepend(piece, pieces, pattern);
    }
  }

  lemma {:induction false} ReplaceCharIs(s: string, c: char, code: string)
    ensures ReplaceChar(s, c, code) == ReplaceAll(s, [c], code)
  {
    if s != [] {
      assert [c] <= s <==> s[0] == c;
      ReplaceCharIs(s[1..], c, code);
    }
  }
}
