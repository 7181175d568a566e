/** Degrading markdown, line by line: what becomes of line ends, headings, emphasis
    and code marks. Links are treated in Links.dfy. */
module Markdown {
  import opened Wrappers
  import opened Text
  import opened NormalizerSpec

  // ----------------------------------------------------------------- line ends

  /** Without a newline at the very end. */
  function Chomp(s: string): string {
    if s != [] && s[|s| - 1] == '\n' then s[..|s| - 1] else s
  }

  /** Line ends written as two characters become one, wherever they stand. */
  lemma LineEndsExactly(pieces: seq<string>)
    requires CutBy(pieces, "\r\n")
    ensures DropCarriageReturns(JoinWith(pieces, "\r\n")) == JoinWith(pieces, "\n")
  {
    ReplaceExactly(pieces, "\r\n", "\n");
  }

  lemma {:induction false} JoinLinesIs(lines: seq<string>)
    ensures JoinLines(lines) == JoinWith(lines, "\n")
  {
    if |lines| > 1 {
      JoinLinesIs(lines[1..]);
    }
  }

  lemma {:induction false} DegradeLinesIs(lines: seq<string>)
    ensures |DegradeLines(lines)| == |lines|
    ensures forall i | 0 <= i < |lines| :: DegradeLines(lines)[i] == DegradeLine(lines[i])
  {
    if lines != [] {
      DegradeLinesIs(lines[1..]);
    }
  }

  lemma CutAtNewline(piece: string)
    requires '\n' !in piece
    ensures Find(piece + "\n", "\n") == Some(|piece|) && !Contains(piece, "\n")
  {
    FindAfter(piece, "\n", "");
    assert piece + "\n" + "" == piece + "\n";
    FindNone(piece, "\n");
  }

  /** The first line of a text that has one, and the rest behind its newline. */
  lemma FirstLine(s: string) returns (line: string, rest: string)
    requires Contains(s, "\n")
    ensures s == line + ("\n" + rest) && '\n' !in line && Find(s, "\n") == Some(|line|) && rest == s[|line| + 1..]
  {
    var before, after := CutAt(s, "\n");
    OneCharacterAbsent(before, '\n');
    line, rest := before, after;
    Regroup(before, "\n", after);
  }

  /** A line as it is yielded: without the carriage return that ends it. */
  function Stripped(line: string): string {
    if line != [] && line[|line| - 1] == '\r' then line[..|line| - 1] else line
  }

  lemma LinesFirst(line: string, rest: string)
    requires '\n' !in line
    ensures Lines(line + ("\n" + rest)) == [Stripped(line)] + Lines(rest)
  {
    var s := line + ("\n" + rest);
    FindAfter(line, "\n", rest);
    Regroup(line, "\n", rest);
    assert s[..|line|] == line && s[|line| + 1..] == rest;
    assert |line| > 0 ==> s[|line| - 1] == line[|line| - 1] && s[..|line| - 1] == line[..|line| - 1];
  }

  lemma {:induction false} FoldFirst(line: string, rest: string)
    requires '\n' !in line
    ensures DropCarriageReturns(line + ("\n" + rest)) == Stripped(line) + ("\n" + DropCarriageReturns(rest))
  {
    var s := line + ("\n" + rest);
    assert |"\r\n"| == 2 && "\r\n"[0] == '\r' && "\r\n"[1] == '\n';
    if line == "" {
      assert s == "\n" + rest;
      ReplaceMiss('\n', rest, "\r\n", "\n");
    } else if line == "\r" {
      assert s == "\r\n" + rest;
      ReplaceHit("\r\n", rest, "\n");
      assert "" + ("\n" + DropCarriageReturns(rest)) == "\n" + DropCarriageReturns(rest);
    } else {
      var c, more := line[0], line[1..];
      var t := more + ("\n" + rest);
      assert line == [c] + more;
      Regroup([c], more, "\n" + rest);
      FoldFirst(more, rest);
      if more == "" {
        assert c != '\r';
      } else {
        assert ([c] + t)[1] == more[0] != '\n';
      }
      ReplaceMiss(c, t, "\r\n", "\n");
      StrippedBehind(c, more);
      Regroup([c], Stripped(more), "\n" + DropCarriageReturns(rest));
    }
  }

  lemma StrippedBehind(c: char, more: string)
    requires more == "" ==> c != '\r'
    ensures Stripped([c] + more) == [c] + Stripped(more)
  {
    if more != [] {
      assert ([c] + more)[..|more|] == [c] + more[..|more| - 1];
    }
  }

  lemma FoldNoNewline(s: string)
    requires '\n' !in s
    ensures DropCarriageReturns(s) == s
  {
    forall i | 0 <= i <= |s| ensures !("\r\n" <= s[i..]) {
      if i + 1 < |s| {
        assert s[i..][1] == s[i + 1] && "\r\n"[1] == '\n';
      }
    }
    ReplaceAbsentAll(s, "\r\n", "\n");
  }

  lemma ChompJoined(line: string, rest: string)
    requires rest != []
    ensures Chomp(line + ("\n" + rest)) == line + ("\n" + Chomp(rest))
  {
    var s := line + ("\n" + rest);
    assert s[|s| - 1] == rest[|rest| - 1];
    assert s[..|s| - 1] == line + ("\n" + rest[..|rest| - 1]);
  }

  lemma ChompLast(line: string)
    ensures Chomp(line + ("\n" + "")) == line
  {
  }

  lemma FoldKeepsSome(s: string)
    requires s != []
    ensures DropCarriageReturns(s) != []
  {
  }

  /** The lines of a text are what its newlines cut it into, once carriage returns
      before newlines and one newline at the very end are gone. */
  lemma {:induction false} LinesExactly(s: string)
    requires s != []
    ensures CutBy(Lines(s), "\n") && JoinWith(Lines(s), "\n") == Chomp(DropCarriageReturns(s))
    decreases |s|
  {
    if !Contains(s, "\n") {
      OneCharacterAbsent(s, '\n');
      FoldNoNewline(s);
    } else {
      var line, rest := FirstLine(s);
      LinesFirst(line, rest);
      FoldFirst(line, rest);
      StrippedHasNoNewline(line);
      if rest == [] {
        ChompLast(Stripped(line));
        CutAtNewline(Stripped(line));
        assert Lines(s) == [Stripped(line)];
      } else {
        LinesExactly(rest);
        FoldKeepsSome(rest);
        ChompJoined(Stripped(line), DropCarriageReturns(rest));
        CutAtNewline(Stripped(line));
        CutByPrepend(Stripped(line), Lines(rest), "\n");
        JoinPrepend(Stripped(line), Lines(rest), "\n");
      }
    }
  }

  lemma StrippedHasNoNewline(line: string)
    requires '\n' !in line
    ensures '\n' !in Stripped(line)
  {
  }

  lemma SameHead(a: string, x: string, b: string, y: string, pattern: string)
    requires |a| == |b| && a + (pattern + x) == b + (pattern + y)
    ensures a == b && x == y
  {
    var s := a + (pattern + x);
    assert a == s[..|a|] && b == s[..|b|];
    assert x == s[|a| + |pattern|..] && y == s[|b| + |pattern|..];
  }

  lemma SameParts(xs: seq<string>, ys: seq<string>)
    requires xs != [] && ys != [] && xs[0] == ys[0] && xs[1..] == ys[1..]
    ensures xs == ys
  {
    assert xs == [xs[0]] + xs[1..] && ys == [ys[0]] + ys[1..];
  }

  /** A text is cut in one way only. */
  lemma {:induction false} CutOnce(xs: seq<string>, ys: seq<string>, pattern: string)
    requires pattern != [] && CutBy(xs, pattern) && CutBy(ys, pattern) && JoinWith(xs, pattern) == JoinWith(ys, pattern)
    ensures xs == ys
    decreases |xs|
  {
    HeadOfCut(xs, pattern);
    HeadOfCut(ys, pattern);
    if |xs| > 1 {
      SameHead(xs[0], JoinWith(xs[1..], pattern), ys[0], JoinWith(ys[1..], pattern), pattern);
      CutByTail(xs, pattern);
      CutByTail(ys, pattern);
      CutOnce(xs[1..], ys[1..], pattern);
      SameParts(xs, ys);
    }
  }

  lemma HeadOfCut(xs: seq<string>, pattern: string)
    requires pattern != [] && CutBy(xs, pattern)
    ensures |xs| == 1 ==> Find(JoinWith(xs, pattern), pattern) == None && JoinWith(xs, pattern) == xs[0]
    ensures |xs| > 1 ==> Find(JoinWith(xs, pattern), pattern) == Some(|xs[0]|)
    ensures |xs| > 1 ==> JoinWith(xs, pattern) == xs[0] + (pattern + JoinWith(xs[1..], pattern))
  {
    if |xs| > 1 {
      CutByTail(xs, pattern);
      FoundInFront(xs[0], pattern, JoinWith(xs[1..], pattern));
    }
  }

  lemma FoundInFront(piece: string, pattern: string, rest: string)
    requires pattern != [] && Find(piece + pattern, pattern) == Some(|piece|)
    ensures Find(piece + (pattern + rest), pattern) == Some(|piece|)
  {
    var s := piece + (pattern + rest);
    Regroup(piece, pattern, rest);
    forall i | 0 <= i < |piece| ensures !(pattern <= s[i..]) {
      assert s[i..] == (piece + pattern)[i..] + rest;
      PrefixOfLonger(pattern, (piece + pattern)[i..], rest);
    }
    assert s[|piece|..] == pattern + rest;
    FindIs(s, pattern, |piece|);
  }

  /** Degrading a text degrades each of its lines and keeps their newlines. */
  lemma DegradeMarkdownExactly(s: string, lines: seq<string>)
    requires CutBy(lines, "\n") && JoinWith(lines, "\n") == Chomp(DropCarriageReturns(s))
    ensures DegradeMarkdown(s) == JoinWith(seq(|lines|, i requires 0 <= i < |lines| => DegradeLine(lines[i])), "\n")
  {
    var degraded := seq(|lines|, i requires 0 <= i < |lines| => DegradeLine(lines[i]));
    if s == [] {
      EmptyIsCut(lines, "\n");
      assert lines == [""];
      DegradeEmpty();
      assert degraded == [""];
    } else {
      LinesExactly(s);
      CutOnce(lines, Lines(s), "\n");
      DegradeLinesIs(lines);
      JoinLinesIs(DegradeLines(lines));
      assert degraded == DegradeLines(lines);
    }
  }

  lemma EmptyIsCut(lines: seq<string>, pattern: string)
    requires pattern != [] && CutBy(lines, pattern) && JoinWith(lines, pattern) == ""
    ensures lines == [""]
  {
    HeadOfCut(lines, pattern);
  }

  lemma DegradeEmpty()
    ensures DegradeLine("") == ""
  {
    assert ReplaceAll("", "**", "") == "" && ReplaceChar("", '`', "") == "";
  }

  // ------------------------------------------------------------------ one line

  /** What a line is made of: its heading mark, the pieces between emphasis marks,
      and the pieces between code marks once those are gone. */
  ghost predicate MarkedUp(line: string, heading: string, stars: seq<string>, ticks: seq<string>) {
    && heading in ["## ", "# ", ""]
    && line == heading + JoinWith(stars, "**")
    && (heading == "" ==> !("# " <= line) && !("## " <= line))
    && CutBy(stars, "**") && CutBy(ticks, "`")
    && JoinWith(stars, "") == JoinWith(ticks, "`")
  }

  lemma HeadingGoes(line: string, heading: string, text: string)
    requires heading in ["## ", "# ", ""] && line == heading + text
    requires heading == "" ==> !("# " <= line) && !("## " <= line)
    ensures DegradeLine(line) == ReplaceLinks(ReplaceChar(DropDoubleStars(text), '`', ""))
  {
    assert |"## "| == 3 && |"# "| == 2 && "## "[1] == '#' && "# "[1] == ' ';
    assert line[|heading|..] == text;
    if heading == "# " {
      assert line[1] == ' ';
    }
  }

  /** A line loses its heading mark, its emphasis marks and then its code marks,
      nothing else; what is left has its links replaced. */
  lemma DegradeLineExactly(line: string, heading: string, stars: seq<string>, ticks: seq<string>)
    requires MarkedUp(line, heading, stars, ticks)
    ensures DegradeLine(line) == ReplaceLinks(JoinWith(ticks, ""))
  {
    HeadingGoes(line, heading, JoinWith(stars, "**"));
    ReplaceExactly(stars, "**", "");
    ReplaceCharIs(JoinWith(ticks, "`"), '`', "");
    ReplaceExactly(ticks, "`", "");
  }

  lemma HeadingOf(line: string) returns (heading: string, text: string)
    ensures heading in ["## ", "# ", ""] && line == heading + text
    ensures heading == "" ==> !("# " <= line) && !("## " <= line)
  {
    if "## " <= line {
      heading, text := "## ", line[3..];
    } else if "# " <= line {
      heading, text := "# ", line[2..];
    } else {
      heading, text := "", line;
      assert line == "" + line;
    }
  }

  /** Every line is made in this way. */
  lemma EveryLineIsMarkedUp(line: string)
    ensures exists heading, stars, ticks :: MarkedUp(line, heading, stars, ticks)
  {
    var heading, text := HeadingOf(line);
    EveryTextIsCut(text, "**");
    var stars :| CutBy(stars, "**") && text == JoinWith(stars, "**");
    EveryTextIsCut(JoinWith(stars, ""), "`");
    var ticks :| CutBy(ticks, "`") && JoinWith(stars, "") == JoinWith(ticks, "`");
    assert MarkedUp(line, heading, stars, ticks);
  }
}
