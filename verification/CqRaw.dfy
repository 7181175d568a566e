/** Every raw message whatever, as texts and closed codes of one kind: what the
    parser shows of it, and what stripping the reply tokens leaves. */
module CqRaw {
  import opened Wrappers
  import opened Text
  import opened Protocol
  import opened CqSpec
  import opened CqRoundTrip

  /** Text, then a code of the kind in question with its payload. */
  datatype Code = Code(text: string, payload: string)

  function RenderCodes(open: string, codes: seq<Code>, tail: string): string {
    if codes == [] then tail
    else codes[0].text + open + (codes[0].payload + "]" + RenderCodes(open, codes[1..], tail))
  }

  ghost predicate Readable(open: string, c: Code) {
    !Contains(c.text, open) && ']' !in c.payload
  }

  /** What may follow the last closed code: text, or a code that is never closed. */
  predicate NoClosedCode(open: string, tail: string) {
    match Find(tail, open)
    case None => true
    case Some(i) => !Contains(tail[i + |open|..], "]")
  }

  ghost predicate SplitsInto(open: string, raw: string, codes: seq<Code>, tail: string) {
    && (forall i | 0 <= i < |codes| :: Readable(open, codes[i]))
    && NoClosedCode(open, tail) && raw == RenderCodes(open, codes, tail)
  }

  // ----------------------------------------------------------------- one code

  lemma OpeningsAreBorderless()
    ensures Borderless(AT) && Borderless(REPLY)
  {
    forall k | 0 < k < |AT| ensures !(AT[k..] <= AT) {
      assert AT[k..][0] != '[';
    }
    forall k | 0 < k < |REPLY| ensures !(REPLY[k..] <= REPLY) {
      assert REPLY[k..][0] != '[';
    }
  }

  /** A code is found where it stands. */
  lemma ReadCode(open: string, c: Code, rest: string)
    requires open != [] && Borderless(open) && Readable(open, c)
    ensures var after := c.payload + "]" + rest;
            var raw := c.text + open + after;
            && Find(raw, open) == Some(|c.text|) && raw[..|c.text|] == c.text && raw[|c.text| + |open|..] == after
            && Find(after, "]") == Some(|c.payload|) && after[..|c.payload|] == c.payload
            && after[|c.payload| + 1..] == rest
  {
    var after := c.payload + "]" + rest;
    FindBorderless(c.text, open, after);
    Regroup(c.text, open, after);
    SliceJoined(c.text, open + after);
    SliceJoined(c.text + open, after);
    FindClose(c.payload, rest);
  }

  // ----------------------------------------------------------- every raw text

  lemma FirstCode(open: string, raw: string) returns (c: Code, rest: string)
    requires open != [] && !NoClosedCode(open, raw)
    ensures Readable(open, c) && |rest| < |raw| && raw == c.text + open + (c.payload + "]" + rest)
  {
    var text, after := CutAt(raw, open);
    var payload, more := CutAt(after, "]");
    OneCharacterAbsent(payload, ']');
    c, rest := Code(text, payload), more;
  }

  lemma PrependCode(open: string, c: Code, rest: string, codes: seq<Code>, tail: string)
    requires Readable(open, c) && SplitsInto(open, rest, codes, tail)
    ensures SplitsInto(open, c.text + open + (c.payload + "]" + rest), [c] + codes, tail)
  {
    assert ([c] + codes)[1..] == codes;
  }

  /** Every raw message is such an alternation, up to what follows its last closed code. */
  lemma {:induction false} EveryRawSplits(open: string, raw: string)
    requires open != []
    ensures exists codes, tail :: SplitsInto(open, raw, codes, tail)
    decreases |raw|
  {
    if NoClosedCode(open, raw) {
      assert SplitsInto(open, raw, [], raw);
    } else {
      var c, rest := FirstCode(open, raw);
      EveryRawSplits(open, rest);
      var codes, tail :| SplitsInto(open, rest, codes, tail);
      PrependCode(open, c, rest, codes, tail);
    }
  }

  // ------------------------------------------------------------ reply tokens

  function Texts(codes: seq<Code>): string {
    if codes == [] then "" else codes[0].text + Texts(codes[1..])
  }

  lemma {:induction false} StripCodes(codes: seq<Code>, tail: string)
    requires forall i | 0 <= i < |codes| :: Readable(REPLY, codes[i])
    ensures StripReplyTokens(RenderCodes(REPLY, codes, tail)) == Texts(codes) + StripReplyTokens(tail)
    decreases |codes|
  {
    if codes != [] {
      OpeningsAreBorderless();
      ReadCode(REPLY, codes[0], RenderCodes(REPLY, codes[1..], tail));
      StripCodes(codes[1..], tail);
      Regroup(codes[0].text, Texts(codes[1..]), StripReplyTokens(tail));
    }
  }

  lemma InsertedShows(a: string, b: string, c: string)
    ensures a + b + c == a + c <==> b == ""
  {
    assert |a + b + c| == |a + c| + |b|;
    if b == "" {
      assert a + b == a;
    }
  }

  /** The text in front of a code that is never closed. */
  function BeforeOpen(open: string, tail: string): string {
    match Find(tail, open)
    case None => ""
    case Some(i) => tail[..i]
  }

  lemma NothingBeforeExactly(open: string, tail: string)
    ensures BeforeOpen(open, tail) == "" <==> (Contains(tail, open) ==> open <= tail)
  {
    assert tail[0..] == tail;
  }

  lemma StripTail(tail: string)
    requires NoClosedCode(REPLY, tail)
    ensures StripReplyTokens(tail) == BeforeOpen(REPLY, tail) + tail
  {
    if Find(tail, REPLY).None? {
      assert "" + tail == tail;
    }
  }

  /** Stripping takes out the closed tokens and nothing else exactly when no text
      stands between the last of them and an unclosed one; such text comes twice. */
  lemma StripKeepsExactly(codes: seq<Code>, tail: string)
    requires SplitsInto(REPLY, RenderCodes(REPLY, codes, tail), codes, tail)
    ensures var left := StripReplyTokens(RenderCodes(REPLY, codes, tail));
            && left == Texts(codes) + BeforeOpen(REPLY, tail) + tail
            && (left == Texts(codes) + tail <==> (Contains(tail, REPLY) ==> REPLY <= tail))
  {
    StripCodes(codes, tail);
    StripTail(tail);
    Regroup(Texts(codes), BeforeOpen(REPLY, tail), tail);
    InsertedShows(Texts(codes), BeforeOpen(REPLY, tail), tail);
    NothingBeforeExactly(REPLY, tail);
  }

  /** The reply target read from any raw message: the payload of its first closed
      token, if it has one. */
  lemma ExtractExactly(codes: seq<Code>, tail: string)
    requires SplitsInto(REPLY, RenderCodes(REPLY, codes, tail), codes, tail)
    ensures ExtractReply(RenderCodes(REPLY, codes, tail)) == if codes == [] then None else Some(codes[0].payload)
  {
    if codes != [] {
      OpeningsAreBorderless();
      ReadCode(REPLY, codes[0], RenderCodes(REPLY, codes[1..], tail));
    }
  }

  // ---------------------------------------------------------------- at-codes

  function CodeParts(codes: seq<Code>, account: string): seq<MessagePart> {
    if codes == [] then []
    else TextPart(codes[0].text) + ([MentionOf(codes[0].payload, account)] + CodeParts(codes[1..], account))
  }

  /** What a reader should see of the texts and codes. */
  function ShownCodes(codes: seq<Code>): string {
    if codes == [] then "" else codes[0].text + ("@" + codes[0].payload + ShownCodes(codes[1..]))
  }

  lemma {:induction false} ParseCodes(codes: seq<Code>, tail: string, account: string)
    requires forall i | 0 <= i < |codes| :: Readable(AT, codes[i])
    ensures ParseRaw(RenderCodes(AT, codes, tail), account) == CodeParts(codes, account) + ParseRaw(tail, account)
    decreases |codes|
  {
    if codes == [] {
      assert [] + ParseRaw(tail, account) == ParseRaw(tail, account);
    } else {
      var c, more := codes[0], CodeParts(codes[1..], account);
      OpeningsAreBorderless();
      ReadCode(AT, c, RenderCodes(AT, codes[1..], tail));
      ParseCodes(codes[1..], tail, account);
      Regroup(TextPart(c.text), [MentionOf(c.payload, account)] + more, ParseRaw(tail, account));
      Regroup([MentionOf(c.payload, account)], more, ParseRaw(tail, account));
    }
  }

  lemma {:induction false} CodesPlainText(codes: seq<Code>, account: string)
    ensures PlainText(CodeParts(codes, account)) == ShownCodes(codes)
    decreases |codes|
  {
    if codes != [] {
      var m, more := MentionOf(codes[0].payload, account), CodeParts(codes[1..], account);
      CodesPlainText(codes[1..], account);
      PlainTextOfText(codes[0].text);
      PlainTextOne(m);
      PlainTextJoins([m], more);
      PlainTextJoins(TextPart(codes[0].text), [m] + more);
    }
  }

  lemma ParseUnclosed(tail: string, i: nat, account: string)
    requires Find(tail, AT) == Some(i) && Find(tail[i + |AT|..], "]") == None
    ensures ParseRaw(tail, account) == TextPart(tail[..i]) + TextPart(StripReplyTokens(tail))
  {
  }

  lemma ParseTail(tail: string, account: string)
    requires NoClosedCode(AT, tail)
    ensures ParseRaw(tail, account) == TextPart(BeforeOpen(AT, tail)) + TextPart(StripReplyTokens(tail))
  {
    var found := Find(tail, AT);
    if found.Some? {
      ParseUnclosed(tail, found.value, account);
    } else {
      assert ParseRaw(tail, account) == TextPart(StripReplyTokens(tail));
      assert TextPart("") == [];
      assert [] + TextPart(StripReplyTokens(tail)) == TextPart(StripReplyTokens(tail));
    }
  }

  /** Every raw message, taken as texts and closed at-codes: the parts are those
      texts and mentions in order and the tail without its reply tokens, and the
      text shown is just that exactly when no text stands between the last closed
      at-code and an unclosed one; such text comes twice. */
  lemma RawShownExactly(codes: seq<Code>, tail: string, account: string)
    requires SplitsInto(AT, RenderCodes(AT, codes, tail), codes, tail)
    ensures var parts := ParseRaw(RenderCodes(AT, codes, tail), account);
            && parts == CodeParts(codes, account)
                        + (TextPart(BeforeOpen(AT, tail)) + TextPart(StripReplyTokens(tail)))
            && PlainText(parts) == ShownCodes(codes) + BeforeOpen(AT, tail) + StripReplyTokens(tail)
            && (PlainText(parts) == ShownCodes(codes) + StripReplyTokens(tail) <==>
                  (Contains(tail, AT) ==> AT <= tail))
  {
    var before, left := BeforeOpen(AT, tail), StripReplyTokens(tail);
    ParseCodes(codes, tail, account);
    ParseTail(tail, account);
    CodesPlainText(codes, account);
    PlainTextOfText(before);
    PlainTextOfText(left);
    PlainTextJoins(TextPart(before), TextPart(left));
    PlainTextJoins(CodeParts(codes, account), TextPart(before) + TextPart(left));
    Regroup(ShownCodes(codes), before, left);
    InsertedShows(ShownCodes(codes), before, left);
    NothingBeforeExactly(AT, tail);
  }

  // --------------------------------------------------------- who is mentioned

  function MentionsOnly(parts: seq<MessagePart>): seq<MessagePart> {
    if parts == [] then []
    else (if parts[0].Mention? then [parts[0]] else []) + MentionsOnly(parts[1..])
  }

  /** The mention of a number: the account itself when the number is the bot's own,
      else the user of that number. An empty number stands for an account that is
      no bot; a payload that already names a user is kept. */
  ghost predicate Recognises(part: MessagePart, payload: string, account: string) {
    && part.Mention? && part.display == "@" + payload
    && if account == "qq:bot_uin:" + payload || (payload == "" && !("qq:bot_uin:" <= account))
       then part.actorId == account
       else if "qq:user:" <= payload then part.actorId == payload
       else part.actorId == "qq:user:" + payload
  }

  lemma MentionRecognises(payload: string, account: string)
    ensures Recognises(MentionOf(payload, account), payload, account)
  {
    if "qq:bot_uin:" <= account {
      assert account == "qq:bot_uin:" + account[|"qq:bot_uin:"|..];
      assert ("qq:bot_uin:" + payload)[|"qq:bot_uin:"|..] == payload;
    }
  }

  lemma {:induction false} MentionsOnlyJoin(xs: seq<MessagePart>, ys: seq<MessagePart>)
    ensures MentionsOnly(xs + ys) == MentionsOnly(xs) + MentionsOnly(ys)
  {
    if xs == [] {
      assert xs + ys == ys;
    } else {
      assert (xs + ys)[1..] == xs[1..] + ys;
      MentionsOnlyJoin(xs[1..], ys);
    }
  }

  lemma TextMentionsNobody(text: string)
    ensures MentionsOnly(TextPart(text)) == []
  {
  }

  lemma OneMentions(text: string, m: MessagePart, more: seq<MessagePart>)
    requires m.Mention?
    ensures MentionsOnly(TextPart(text) + ([m] + more)) == [m] + MentionsOnly(more)
  {
    TextMentionsNobody(text);
    MentionsOnlyJoin(TextPart(text), [m] + more);
    assert ([m] + more)[1..] == more;
    assert [] + ([m] + MentionsOnly(more)) == [m] + MentionsOnly(more);
  }

  ghost predicate AllRecognise(ms: seq<MessagePart>, codes: seq<Code>, account: string) {
    |ms| == |codes| && forall i | 0 <= i < |codes| :: Recognises(ms[i], codes[i].payload, account)
  }

  lemma RecognisePrepend(m: MessagePart, ms: seq<MessagePart>, codes: seq<Code>, account: string)
    requires codes != [] && AllRecognise(ms, codes[1..], account) && Recognises(m, codes[0].payload, account)
    ensures AllRecognise([m] + ms, codes, account)
  {
    forall i | 0 < i < |codes| ensures Recognises(([m] + ms)[i], codes[i].payload, account) {
      assert codes[i] == codes[1..][i - 1];
    }
  }

  lemma {:induction false} CodesMention(codes: seq<Code>, account: string)
    ensures AllRecognise(MentionsOnly(CodeParts(codes, account)), codes, account)
    decreases |codes|
  {
    if codes != [] {
      var m, more := MentionOf(codes[0].payload, account), CodeParts(codes[1..], account);
      CodesMention(codes[1..], account);
      MentionRecognises(codes[0].payload, account);
      OneMentions(codes[0].text, m, more);
      RecognisePrepend(m, MentionsOnly(more), codes, account);
    }
  }

  /** Every raw message mentions, in order, exactly whom its closed at-codes name. */
  lemma RawMentionsExactly(codes: seq<Code>, tail: string, account: string)
    requires SplitsInto(AT, RenderCodes(AT, codes, tail), codes, tail)
    ensures AllRecognise(MentionsOnly(ParseRaw(RenderCodes(AT, codes, tail), account)), codes, account)
  {
    var before, left := TextPart(BeforeOpen(AT, tail)), TextPart(StripReplyTokens(tail));
    RawShownExactly(codes, tail, account);
    CodesMention(codes, account);
    TextMentionsNobody(BeforeOpen(AT, tail));
    TextMentionsNobody(StripReplyTokens(tail));
    MentionsOnlyJoin(before, left);
    MentionsOnlyJoin(CodeParts(codes, account), before + left);
    assert MentionsOnly(CodeParts(codes, account)) + [] == MentionsOnly(CodeParts(codes, account));
  }
}
