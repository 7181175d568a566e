/** Degrading markdown: what becomes of the links of a line, whatever the line is. */
module Links {
  import opened Wrappers
  import opened Text
  import opened NormalizerSpec
  import opened NormalizerRoundTrip

  /** A link with the text before it. The text may hold a stray bracket, one that
      opens no link: then `before` ends where it stands and `stray` follows it. */
  datatype Link = Link(before: string, stray: Option<string>, caption: string, url: string)

  /** From the first bracket to the end of the caption. */
  function Opened(l: Link): string {
    if l.stray.Some? then l.stray.value + "[" + l.caption else l.caption
  }

  /** The text before the link and its caption, as they are written. */
  function Written(l: Link): string {
    l.before + (if l.stray.Some? then "[" + l.stray.value else "") + l.caption
  }

  function RenderLinks(links: seq<Link>, tail: string): string {
    if links == [] then tail
    else links[0].before + "[" + (Opened(links[0]) + "](" + (links[0].url + ")" + RenderLinks(links[1..], tail)))
  }

  /** Each link as "caption: url", and all other text as it is written. */
  function ShowLinks(links: seq<Link>, tail: string): string {
    if links == [] then tail
    else Written(links[0]) + ": " + links[0].url + ShowLinks(links[1..], tail)
  }

  /** Read as links are: the caption opens with the last bracket before its "](". */
  ghost predicate Readable(l: Link) {
    && '[' !in l.before && '[' !in l.caption && !Contains(l.caption, "](") && ')' !in l.url
    && (l.stray.Some? ==> !Contains(l.stray.value, "]("))
  }

  // ----------------------------------------------------------------- one link

  lemma UpToBracket(before: string, candidate: string)
    requires '[' !in before
    ensures Find(before + "[" + candidate, "[") == Some(|before|)
    ensures (before + "[" + candidate)[..|before|] == before
    ensures (before + "[" + candidate)[|before| + 1..] == candidate
  {
    FindAfter(before, "[", candidate);
  }

  lemma UpToLink(caption: string, urlPart: string)
    requires !Contains(caption, "](")
    ensures Find(caption + "](" + urlPart, "](") == Some(|caption|)
    ensures (caption + "](" + urlPart)[..|caption|] == caption
    ensures (caption + "](" + urlPart)[|caption| + 2..] == urlPart
  {
    assert "]("[1..][0] == '(';
    FindBorderless(caption, "](", urlPart);
  }

  lemma UpToEnd(url: string, rest: string)
    requires ')' !in url
    ensures Find(url + ")" + rest, ")") == Some(|url|)
    ensures (url + ")" + rest)[..|url|] == url
    ensures (url + ")" + rest)[|url| + 1..] == rest
  {
    FindAfter(url, ")", rest);
  }

  lemma OneLink(before: string, caption: string, url: string, rest: string)
    requires '[' !in before && !Contains(caption, "](") && ')' !in url
    ensures ReplaceLinks(before + "[" + (caption + "](" + (url + ")" + rest))) ==
            before + caption + ": " + url + ReplaceLinks(rest)
  {
    LinkIsFound(before, caption, url, rest);
  }

  lemma FirstLinkIs(s: string, i: nat, candidate: string, j: nat, urlPart: string, k: nat)
    requires Find(s, "[") == Some(i) && candidate == s[i + 1..]
    requires Find(candidate, "](") == Some(j) && urlPart == candidate[j + 2..]
    requires Find(urlPart, ")") == Some(k)
    ensures FirstLink(s) == Some(LinkFound(s[..i], candidate[..j], urlPart[..k], urlPart[k + 1..]))
  {
  }

  lemma LinkIsFound(before: string, caption: string, url: string, rest: string)
    requires '[' !in before && !Contains(caption, "](") && ')' !in url
    ensures FirstLink(before + "[" + (caption + "](" + (url + ")" + rest))) ==
            Some(LinkFound(before, caption, url, rest))
  {
    var urlPart := url + ")" + rest;
    var candidate := caption + "](" + urlPart;
    UpToBracket(before, candidate);
    UpToLink(caption, urlPart);
    UpToEnd(url, rest);
    FirstLinkIs(before + "[" + candidate, |before|, candidate, |caption|, urlPart, |url|);
  }

  lemma AbsentInParts(a: string, b: string, pattern: string)
    requires pattern != [] && !Contains(a + b, pattern)
    ensures !Contains(a, pattern) && !Contains(b, pattern)
  {
    forall i | 0 <= i <= |a| ensures !(pattern <= a[i..]) {
      assert (a + b)[i..] == a[i..] + b;
    }
    forall i | 0 <= i <= |b| ensures !(pattern <= b[i..]) {
      assert (a + b)[|a| + i..] == b[i..];
    }
  }

  /** A bracket between two texts makes no "](". */
  lemma NoLinkAcross(x: string, y: string)
    requires !Contains(x, "](") && !Contains(y, "](")
    ensures !Contains(x + "[" + y, "](")
  {
    var s := x + "[" + y;
    assert s[|x|] == '[';
    forall i | 0 <= i <= |s| ensures !("](" <= s[i..]) {
      if i + 1 < |x| {
        assert !("](" <= x[i..]);
        assert s[i..] == x[i..] + ("[" + y);
        assert s[i..][..2] == x[i..][..2];
      } else if i > |x| {
        assert s[i..] == y[i - |x| - 1..];
      } else if i + 1 < |s| {
        assert s[i..][0] == s[i] && s[i..][1] == s[i + 1];
      }
    }
  }

  lemma ReadLink(l: Link, rest: string)
    requires Readable(l)
    ensures ReplaceLinks(l.before + "[" + (Opened(l) + "](" + (l.url + ")" + rest))) ==
            l.before + Opened(l) + ": " + l.url + ReplaceLinks(rest)
  {
    if l.stray.Some? {
      NoLinkAcross(l.stray.value, l.caption);
    }
    OneLink(l.before, Opened(l), l.url, rest);
  }

  // --------------------------------------------------- when the text is kept

  /** A stray bracket is followed by nothing but brackets. */
  predicate OnlyOpens(l: Link) {
    l.stray.Some? ==> forall i | 0 <= i < |l.stray.value| :: l.stray.value[i] == '['
  }

  lemma {:induction false} BracketMoves(s: string)
    ensures s + "[" == "[" + s <==> forall i | 0 <= i < |s| :: s[i] == '['
  {
    if s != [] {
      BracketMoves(s[1..]);
      assert (s + "[")[0] == s[0] && (s + "[")[1..] == s[1..] + "[";
      assert ("[" + s)[1..] == s && s == [s[0]] + s[1..];
      if forall i | 0 <= i < |s| :: s[i] == '[' {
        forall i | 0 <= i < |s[1..]| ensures s[1..][i] == '[' {
        }
        assert s + "[" == [s[0]] + (s[1..] + "[");
      }
    }
  }

  lemma Framed(a: string, x: string, y: string, b: string)
    ensures a + x + b == a + y + b <==> x == y
  {
    if a + x + b == a + y + b {
      assert |x| == |y|;
      assert (a + x + b)[|a|..|a| + |x|] == x && (a + y + b)[|a|..|a| + |y|] == y;
    }
  }

  /** The loop takes the first bracket away and leaves the last one. */
  lemma TextKept(l: Link)
    ensures |l.before + Opened(l)| == |Written(l)|
    ensures l.before + Opened(l) == Written(l) <==> OnlyOpens(l)
  {
    if l.stray.Some? {
      var x := l.stray.value;
      assert l.before + (x + "[" + l.caption) == l.before + (x + "[") + l.caption;
      Framed(l.before, x + "[", "[" + x, l.caption);
      BracketMoves(x);
    }
  }

  lemma SameLengths(a: string, b: string, c: string, d: string)
    requires |a| == |b|
    ensures a + c == b + d <==> a == b && c == d
  {
    if a + c == b + d {
      assert (a + c)[..|a|] == a && (b + d)[..|b|] == b;
      assert (a + c)[|a|..] == c && (b + d)[|b|..] == d;
    }
  }

  lemma LinkAndRest(a: string, b: string, url: string, c: string, d: string)
    requires |a| == |b|
    ensures a + ": " + url + c == b + ": " + url + d <==> a == b && c == d
  {
    SameLengths(a + ": " + url, b + ": " + url, c, d);
    SameLengths(a + ": ", b + ": ", url, url);
    SameLengths(a, b, ": ", ": ");
  }

  ghost predicate AllKept(links: seq<Link>) {
    forall i | 0 <= i < |links| :: OnlyOpens(links[i])
  }

  lemma AllKeptSplits(links: seq<Link>)
    requires links != []
    ensures AllKept(links) <==> OnlyOpens(links[0]) && AllKept(links[1..])
  {
    if OnlyOpens(links[0]) && AllKept(links[1..]) {
      forall i | 0 <= i < |links| ensures OnlyOpens(links[i]) {
        assert i > 0 ==> links[i] == links[1..][i - 1];
      }
    }
  }

  /** Every link of a line becomes "caption: url"; all other text stays as it is
      written exactly when each stray bracket is followed, up to the next link, by
      nothing but brackets. */
  lemma {:induction false} LinksAreShownExactly(links: seq<Link>, tail: string)
    requires FirstLink(tail).None? && forall i | 0 <= i < |links| :: Readable(links[i])
    ensures |ReplaceLinks(RenderLinks(links, tail))| == |ShowLinks(links, tail)|
    ensures ReplaceLinks(RenderLinks(links, tail)) == ShowLinks(links, tail) <==> AllKept(links)
    decreases |links|
  {
    if links != [] {
      var l, more := links[0], RenderLinks(links[1..], tail);
      ReadLink(l, more);
      LinksAreShownExactly(links[1..], tail);
      TextKept(l);
      LinkAndRest(l.before + Opened(l), Written(l), l.url, ReplaceLinks(more), ShowLinks(links[1..], tail));
      AllKeptSplits(links);
    }
  }

  // --------------------------------------------------------------- every line

  ghost predicate LineOf(s: string, links: seq<Link>, tail: string) {
    && (forall i | 0 <= i < |links| :: Readable(links[i]))
    && FirstLink(tail).None? && s == RenderLinks(links, tail)
  }

  lemma PrependLink(l: Link, rest: string, links: seq<Link>, tail: string)
    requires Readable(l) && LineOf(rest, links, tail)
    ensures LineOf(l.before + "[" + (Opened(l) + "](" + (l.url + ")" + rest)), [l] + links, tail)
  {
    assert ([l] + links)[1..] == links;
  }

  /** Splits at the last bracket. */
  lemma {:induction false} SplitAtLast(s: string) returns (x: string, y: string)
    requires '[' in s
    ensures s == x + "[" + y && '[' !in y
  {
    assert s == [s[0]] + s[1..];
    if '[' in s[1..] {
      var x', y' := SplitAtLast(s[1..]);
      x, y := [s[0]] + x', y';
    } else {
      x, y := "", s[1..];
    }
  }

  lemma FoundParts(s: string, found: LinkFound)
    requires FirstLink(s) == Some(found)
    ensures '[' !in found.before && !Contains(found.caption, "](") && ')' !in found.url
    ensures s == found.before + "[" + (found.caption + "](" + (found.url + ")" + found.next))
  {
    var before, candidate := CutAt(s, "[");
    var caption, urlPart := CutAt(candidate, "](");
    var url, next := CutAt(urlPart, ")");
    OneCharacterAbsent(before, '[');
    OneCharacterAbsent(url, ')');
  }

  /** The link the loop finds, its caption cut back to the last bracket. */
  lemma LinkOf(found: LinkFound) returns (l: Link)
    requires '[' !in found.before && !Contains(found.caption, "](") && ')' !in found.url
    ensures Readable(l) && l.before == found.before && Opened(l) == found.caption && l.url == found.url
  {
    if '[' in found.caption {
      var x, y := SplitAtLast(found.caption);
      Regroup(x, "[", y);
      AbsentInParts(x, "[" + y, "](");
      AbsentInParts(x + "[", y, "](");
      l := Link(found.before, Some(x), y, found.url);
    } else {
      l := Link(found.before, None, found.caption, found.url);
    }
  }

  /** Every line whatever is made of such links and a rest without one. */
  lemma {:induction false} EveryLineSplits(s: string)
    ensures exists links, tail :: LineOf(s, links, tail)
    decreases |s|
  {
    var found := FirstLink(s);
    if found.None? {
      assert LineOf(s, [], s);
    } else {
      FoundParts(s, found.value);
      var l := LinkOf(found.value);
      EveryLineSplits(found.value.next);
      var links, tail :| LineOf(found.value.next, links, tail);
      PrependLink(l, found.value.next, links, tail);
    }
  }

  // ---------------------------------------------------------------- backticks

  lemma {:induction false} ReplaceDrops(s: string, c: char)
    ensures c !in ReplaceChar(s, c, "")
  {
    if s != [] {
      ReplaceDrops(s[1..], c);
    }
  }

  lemma {:induction false} LinksAddNoBacktick(rest: string)
    requires '`' !in rest
    ensures '`' !in ReplaceLinks(rest)
    decreases |rest|
  {
    var found := FirstLink(rest);
    if found.Some? {
      LinkIsPartOf(rest, found.value);
      LinksAddNoBacktick(found.value.next);
    }
  }

  lemma LinkIsPartOf(rest: string, l: LinkFound)
    requires FirstLink(rest) == Some(l) && '`' !in rest
    ensures '`' !in l.before && '`' !in l.caption && '`' !in l.url && '`' !in l.next
  {
  }

  lemma {:induction false} LinesHaveNoBacktick(lines: seq<string>)
    ensures '`' !in JoinLines(DegradeLines(lines))
  {
    if lines != [] {
      var line := lines[0];
      var text := if "## " <= line then line[3..] else if "# " <= line then line[2..] else line;
      ReplaceDrops(DropDoubleStars(text), '`');
      LinksAddNoBacktick(ReplaceChar(DropDoubleStars(text), '`', ""));
      LinesHaveNoBacktick(lines[1..]);
      assert DegradeLines(lines)[1..] == DegradeLines(lines[1..]);
    }
  }

  /** Degraded text has no code formatting left, whatever the agent wrote. */
  lemma DegradedHasNoBacktick(s: string)
    ensures '`' !in DegradeMarkdown(s)
  {
    LinesHaveNoBacktick(Lines(s));
  }
}
