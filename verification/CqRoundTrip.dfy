/** Printing then parsing CQ codes: no text is lost, mentions come back in order,
    and when the reply token comes back clean. */
module CqRoundTrip {
  import opened Wrappers
  import opened Text
  import opened Protocol
  import opened CqSpec

  // --------------------------------------------------------------- escaping

  function EscapeChar(c: char): string {
    if c == '&' then "&amp;" else if c == '[' then "&#91;" else if c == ']' then "&#93;" else [c]
  }

  /** Escaping in one pass. */
  function EscapeEach(s: string): string {
    if s == [] then [] else EscapeChar(s[0]) + EscapeEach(s[1..])
  }

  lemma {:induction false} ReplaceJoins(a: string, b: string, c: char, code: string)
    ensures ReplaceChar(a + b, c, code) == ReplaceChar(a, c, code) + ReplaceChar(b, c, code)
  {
    if a == [] {
      assert a + b == b;
    } else {
      assert (a + b)[1..] == a[1..] + b;
      ReplaceJoins(a[1..], b, c, code);
    }
  }

  lemma {:induction false} ReplaceAbsent(s: string, c: char, code: string)
    requires c !in s
    ensures ReplaceChar(s, c, code) == s
  {
    if s != [] {
      ReplaceAbsent(s[1..], c, code);
    }
  }

  lemma EscapeCqJoins(a: string, b: string)
    ensures EscapeCq(a + b) == EscapeCq(a) + EscapeCq(b)
  {
    var a1, b1 := ReplaceChar(a, '&', "&amp;"), ReplaceChar(b, '&', "&amp;");
    ReplaceJoins(a, b, '&', "&amp;");
    ReplaceJoins(a1, b1, '[', "&#91;");
    ReplaceJoins(ReplaceChar(a1, '[', "&#91;"), ReplaceChar(b1, '[', "&#91;"), ']', "&#93;");
  }

  lemma ReplaceOne(x: char, c: char, code: string)
    ensures ReplaceChar([x], c, code) == if x == c then code else [x]
  {
    assert ReplaceChar([x][1..], c, code) == [];
  }

  lemma EscapeCqOne(c: char)
    ensures EscapeCq([c]) == EscapeChar(c)
  {
    ReplaceOne(c, '&', "&amp;");
    if c == '&' {
      ReplaceAbsent("&amp;", '[', "&#91;");
      ReplaceAbsent("&amp;", ']', "&#93;");
    } else {
      ReplaceOne(c, '[', "&#91;");
      if c == '[' {
        ReplaceAbsent("&#91;", ']', "&#93;");
      } else {
        ReplaceOne(c, ']', "&#93;");
      }
    }
  }

  /** The three successive replacements do not disturb each other. */
  lemma {:induction false} EscapeIsOnePass(s: string)
    ensures EscapeCq(s) == EscapeEach(s)
  {
    if s != [] {
      assert s == [s[0]] + s[1..];
      EscapeCqJoins([s[0]], s[1..]);
      EscapeCqOne(s[0]);
      EscapeIsOnePass(s[1..]);
    }
  }

  /** Escaped text contains no bracket, so no code can be read in it. */
  lemma {:induction false} EscapedHasNoBracket(s: string)
    ensures '[' !in EscapeCq(s) && ']' !in EscapeCq(s)
  {
    EscapeIsOnePass(s);
    if s != [] {
      EscapeIsOnePass(s[1..]);
      EscapedHasNoBracket(s[1..]);
    }
  }

  /** Decoding as OneBot 11 defines it. */
  function Unescape(s: string): string {
    if s == [] then []
    else if "&amp;" <= s then "&" + Unescape(s[5..])
    else if "&#91;" <= s then "[" + Unescape(s[5..])
    else if "&#93;" <= s then "]" + Unescape(s[5..])
    else [s[0]] + Unescape(s[1..])
  }

  /** Escaping loses nothing: the standard's decoder undoes it on every text. */
  lemma {:induction false} UnescapeUndoesEscape(t: string)
    ensures Unescape(EscapeCq(t)) == t
  {
    EscapeIsOnePass(t);
    if t != [] {
      EscapeIsOnePass(t[1..]);
      UnescapeUndoesEscape(t[1..]);
      var code, rest := EscapeChar(t[0]), EscapeEach(t[1..]);
      assert (code + rest)[|code|..] == rest;
      if |code| == 1 {
        assert (code + rest)[0] != '&';
      } else {
        assert (code + rest)[2] == code[2] && (code + rest)[3] == code[3];
      }
    }
  }

  lemma {:induction false} EscapeHarmless(s: string)
    requires forall i | 0 <= i < |s| :: s[i] != '&' && s[i] != '[' && s[i] != ']'
    ensures EscapeCq(s) == s
  {
    ReplaceAbsent(s, '&', "&amp;");
    ReplaceAbsent(s, '[', "&#91;");
    ReplaceAbsent(s, ']', "&#93;");
  }

  // ------------------------------------------------------------- rich texts

  /** Bracket-free text with mention codes in it. */
  datatype Rich = End(text: string) | At(text: string, digits: string, rest: Rich)

  function Render(r: Rich): string {
    match r
    case End(text) => text
    case At(text, digits, rest) => text + AtCode(digits) + Render(rest)
  }

  /** The text a reader sees. */
  function Flat(r: Rich): string {
    match r
    case End(text) => text
    case At(text, digits, rest) => text + "@" + digits + Flat(rest)
  }

  function MentionsIn(r: Rich): seq<string> {
    match r
    case End(_) => []
    case At(_, digits, rest) => [digits] + MentionsIn(rest)
  }

  ghost predicate Bracketless(s: string) {
    '[' !in s && ']' !in s
  }

  ghost predicate WellFormed(r: Rich) {
    && Bracketless(r.text)
    && (r.At? ==> r.digits != [] && AllDigits(r.digits) && WellFormed(r.rest))
  }

  function PartsOf(r: Rich, account: string): seq<MessagePart> {
    match r
    case End(text) => TextPart(text)
    case At(text, digits, rest) => TextPart(text) + ([MentionOf(digits, account)] + PartsOf(rest, account))
  }

  lemma DigitsAreBracketless(digits: string)
    requires AllDigits(digits)
    ensures ']' !in digits && '[' !in digits && '@' !in digits && '&' !in digits
  {
  }

  lemma SliceJoined<T>(a: seq<T>, b: seq<T>)
    ensures (a + b)[..|a|] == a && (a + b)[|a|..] == b
  {
  }

  lemma FindOpen(text: string, code: string, after: string)
    requires code != [] && code[0] == '[' && '[' !in text
    ensures var raw := text + code + after;
            Find(raw, code) == Some(|text|) && raw[..|text|] == text && raw[|text| + |code|..] == after
  {
    FindAfter(text, code, after);
    Regroup(text, code, after);
    SliceJoined(text, code + after);
    SliceJoined(text + code, after);
  }

  lemma FindClose(inner: string, rest: string)
    requires ']' !in inner
    ensures var after := inner + "]" + rest;
            Find(after, "]") == Some(|inner|) && after[..|inner|] == inner && after[|inner| + 1..] == rest
  {
    FindAfter(inner, "]", rest);
    Regroup(inner, "]", rest);
    SliceJoined(inner, "]" + rest);
    SliceJoined(inner + "]", rest);
  }

  /** A code in a text, split at its opening. */
  lemma CodeInText(text: string, code: string, inner: string, rest: string)
    ensures text + (code + inner + "]") + rest == text + code + (inner + "]" + rest)
  {
    Regroup(text, code + inner, "]");
    Regroup(text, code, inner);
    Regroup(text + code, inner, "]");
    Regroup(text + code, inner + "]", rest);
  }

  lemma StripsNothing(text: string)
    requires '[' !in text
    ensures StripReplyTokens(text) == text
  {
    FindNone(text, REPLY);
  }

  /** Parsing what was rendered gives back the texts and the mentions, in order. */
  lemma {:induction false} ParseRendered(r: Rich, account: string)
    requires WellFormed(r)
    ensures ParseRaw(Render(r), account) == PartsOf(r, account)
    decreases r
  {
    match r
    case End(text) =>
      FindNone(text, AT);
      StripsNothing(text);
    case At(text, digits, rest) =>
      DigitsAreBracketless(digits);
      CodeInText(text, AT, digits, Render(rest));
      FindOpen(text, AT, digits + "]" + Render(rest));
      FindClose(digits, Render(rest));
      ParseRendered(rest, account);
  }

  lemma PlainTextOfText(text: string)
    ensures PlainText(TextPart(text)) == text
  {
    if text != [] {
      PlainTextOne(Text(text));
    }
  }

  lemma {:induction false} PartsPlainText(r: Rich, account: string)
    ensures PlainText(PartsOf(r, account)) == Flat(r)
    decreases r
  {
    PlainTextOfText(r.text);
    if r.At? {
      PartsPlainText(r.rest, account);
      var m := MentionOf(r.digits, account);
      PlainTextOne(m);
      PlainTextJoins([m], PartsOf(r.rest, account));
      PlainTextJoins(TextPart(r.text), [m] + PartsOf(r.rest, account));
      Regroup(r.text, "@" + r.digits, Flat(r.rest));
      Regroup(r.text, "@", r.digits);
    }
  }

  function TargetOf(part: MessagePart): seq<Result<string, string>> {
    if part.Mention? then [NormalizeTargetId(part.actorId)] else []
  }

  /** The target ids of the mention parts, normalised again. */
  function TargetsOf(parts: seq<MessagePart>): seq<Result<string, string>> {
    if parts == [] then [] else TargetOf(parts[0]) + TargetsOf(parts[1..])
  }

  lemma {:induction false} TargetsJoin(xs: seq<MessagePart>, ys: seq<MessagePart>)
    ensures TargetsOf(xs + ys) == TargetsOf(xs) + TargetsOf(ys)
  {
    if xs == [] {
      assert xs + ys == ys;
    } else {
      assert (xs + ys)[1..] == xs[1..] + ys;
      TargetsJoin(xs[1..], ys);
      Regroup(TargetOf(xs[0]), TargetsOf(xs[1..]), TargetsOf(ys));
    }
  }

  lemma TargetsOne(part: MessagePart)
    ensures TargetsOf([part]) == TargetOf(part)
  {
    assert [part][1..] == [];
    assert TargetOf(part) + [] == TargetOf(part);
  }

  /** Digits survive as an actor id, whatever the account: also the bot's own. */
  lemma ActorGivesDigitsBack(digits: string, account: string)
    requires digits != [] && AllDigits(digits)
    ensures NormalizeTargetId(ActorOf(digits, account)) == Ok(digits)
  {
    var actor := ActorOf(digits, account);
    if digits == BotUin(account) {
      assert account[0] == 'q' && account[3] == 'b';
      assert !("qq:user:" <= account) by {
        assert "qq:user:"[3] == 'u';
      }
    } else {
      assert !("qq:user:" <= digits) by {
        assert "qq:user:"[0] == 'q' && IsDigit(digits[0]);
      }
      assert actor == "qq:user:" + digits;
      assert actor[|"qq:user:"|..] == digits;
    }
  }

  function AllOk(ids: seq<string>): seq<Result<string, string>> {
    seq(|ids|, i requires 0 <= i < |ids| => Ok(ids[i]))
  }

  lemma AllOkJoins(xs: seq<string>, ys: seq<string>)
    ensures AllOk(xs + ys) == AllOk(xs) + AllOk(ys)
  {
  }

  lemma TargetsOfText(text: string)
    ensures TargetsOf(TextPart(text)) == []
  {
    if text != [] {
      TargetsOne(Text(text));
    }
  }

  lemma {:induction false} PartsTargets(r: Rich, account: string)
    requires WellFormed(r)
    ensures TargetsOf(PartsOf(r, account)) == AllOk(MentionsIn(r))
    decreases r
  {
    TargetsOfText(r.text);
    if r.At? {
      PartsTargets(r.rest, account);
      ActorGivesDigitsBack(r.digits, account);
      var m := MentionOf(r.digits, account);
      TargetsOne(m);
      TargetsJoin([m], PartsOf(r.rest, account));
      TargetsJoin(TextPart(r.text), [m] + PartsOf(r.rest, account));
      AllOkJoins([r.digits], MentionsIn(r.rest));
    }
  }

  // ------------------------------------------------- encoded text as a rich text

  function RichFrom(plain: string, rest: string): Rich
    decreases |rest|
  {
    if rest == [] then End(EscapeCq(plain))
    else if rest[0] != '@' then RichFrom(plain + [rest[0]], rest[1..])
    else
      var n := DigitRun(rest[1..]);
      var digits, after := rest[1..][..n], rest[1..][n..];
      if n >= 5 then At(EscapeCq(plain), digits, RichFrom("", after)) else RichFrom(plain + "@" + digits, after)
  }

  lemma {:induction false} EncodeIsRender(plain: string, rest: string)
    ensures EncodeFrom(plain, rest) == Render(RichFrom(plain, rest)) && WellFormed(RichFrom(plain, rest))
    decreases |rest|
  {
    EscapedHasNoBracket(plain);
    if rest == [] {
    } else if rest[0] != '@' {
      EncodeIsRender(plain + [rest[0]], rest[1..]);
    } else {
      var n := DigitRun(rest[1..]);
      if n >= 5 {
        EncodeIsRender("", rest[1..][n..]);
      } else {
        EncodeIsRender(plain + "@" + rest[1..][..n], rest[1..][n..]);
      }
    }
  }

  lemma FlatMention(plain: string, digits: string, after: string)
    requires AllDigits(digits)
    ensures EscapeCq(plain + ("@" + digits + after)) == EscapeCq(plain) + "@" + digits + EscapeCq(after)
  {
    DigitsAreBracketless(digits);
    EscapeHarmless("@" + digits);
    EscapeCqJoins("@" + digits, after);
    EscapeCqJoins(plain, "@" + digits + after);
    Regroup(EscapeCq(plain), "@" + digits, EscapeCq(after));
    Regroup(EscapeCq(plain), "@", digits);
  }

  lemma {:induction false} EncodeIsFlat(plain: string, rest: string)
    ensures Flat(RichFrom(plain, rest)) == EscapeCq(plain + rest)
    decreases |rest|
  {
    if rest == [] {
      assert plain + rest == plain;
    } else if rest[0] != '@' {
      assert plain + [rest[0]] + rest[1..] == plain + rest;
      EncodeIsFlat(plain + [rest[0]], rest[1..]);
    } else {
      var n := DigitRun(rest[1..]);
      var digits, after := rest[1..][..n], rest[1..][n..];
      assert rest == "@" + digits + after;
      if n >= 5 {
        EncodeIsFlat("", after);
        assert "" + after == after;
        FlatMention(plain, digits, after);
      } else {
        assert plain + "@" + digits + after == plain + rest;
        EncodeIsFlat(plain + "@" + digits, after);
      }
    }
  }

  /** Independent of the encoder's cursor: at every place of the text, an '@'
      followed by at least five digits mentions the whole run of digits. */
  function MentionsOf(t: string): seq<string> {
    if t == [] then []
    else
      (if t[0] == '@' && DigitRun(t[1..]) >= 5 then [t[1..][..DigitRun(t[1..])]] else []) + MentionsOf(t[1..])
  }

  lemma {:induction false} NoMentionInDigits(digits: string, after: string)
    requires AllDigits(digits)
    ensures MentionsOf(digits + after) == MentionsOf(after)
  {
    if digits == [] {
      assert digits + after == after;
    } else {
      assert (digits + after)[1..] == digits[1..] + after;
      NoMentionInDigits(digits[1..], after);
    }
  }

  lemma {:induction false} EncodeMentions(plain: string, rest: string)
    ensures MentionsIn(RichFrom(plain, rest)) == MentionsOf(rest)
    decreases |rest|
  {
    if rest == [] {
    } else if rest[0] != '@' {
      EncodeMentions(plain + [rest[0]], rest[1..]);
    } else {
      var n := DigitRun(rest[1..]);
      var digits, after := rest[1..][..n], rest[1..][n..];
      assert rest[1..] == digits + after;
      NoMentionInDigits(digits, after);
      if n >= 5 {
        EncodeMentions("", after);
      } else {
        EncodeMentions(plain + "@" + digits, after);
      }
    }
  }

  /** For every text: encoding it and parsing the result shows the escaped text
      (which decodes to the text), and mentions, in order, exactly the digit
      runs of length five or more that follow an '@'. */
  lemma EncodeThenParse(t: string, account: string)
    ensures var parts := ParseRaw(EncodeQqText(t), account);
            && PlainText(parts) == EscapeCq(t)
            && Unescape(PlainText(parts)) == t
            && TargetsOf(parts) == AllOk(MentionsOf(t))
  {
    var r := RichFrom("", t);
    EncodeIsRender("", t);
    ParseRendered(r, account);
    PartsPlainText(r, account);
    PartsTargets(r, account);
    EncodeIsFlat("", t);
    EncodeMentions("", t);
    UnescapeUndoesEscape(t);
    assert "" + t == t;
  }
}
