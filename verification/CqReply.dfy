/** The reply token of a compiled reply, seen by the parser: for every message that
    compiles, media and quotes included, when it is taken out of the text. */
module CqReply {
  import opened Wrappers
  import opened Text
  import opened Protocol
  import opened CqSpec
  import opened CqRoundTrip
  import opened CqMessages
  import opened CqRaw

  // ------------------------------------------------ a token before any text

  lemma TokenHasOneBracket(id: string, i: nat)
    requires AllDigits(id) && 0 < i < |ReplyCode(id)|
    ensures ReplyCode(id)[i] != '['
  {
    DigitsAreBracketless(id);
    if |REPLY| <= i < |REPLY| + |id| {
      assert ReplyCode(id)[i] == id[i - |REPLY|];
    }
  }

  lemma NoAtInToken(id: string, body: string, i: nat)
    requires AllDigits(id) && i < |ReplyCode(id)|
    ensures !(AT <= (ReplyCode(id) + body)[i..])
  {
    var raw := ReplyCode(id) + body;
    assert raw[i..][0] == ReplyCode(id)[i];
    if i > 0 {
      TokenHasOneBracket(id, i);
    } else {
      assert raw[0..][4] == REPLY[4] && AT[4] == 'a' && REPLY[4] == 'r';
    }
  }

  /** Nothing begins in the token, whatever follows it. */
  ghost predicate Inert(token: string, body: string) {
    forall i | 0 <= i < |token| :: !(AT <= (token + body)[i..])
  }

  lemma ShiftedSuffix(token: string, body: string, i: nat, k: nat)
    requires k <= |body| && i == |token| + k
    ensures (token + body)[i..] == body[k..]
  {
  }

  lemma ShiftedMiss(token: string, body: string, i: nat)
    requires Inert(token, body) && i <= |token + body|
    requires i >= |token| ==> !(AT <= body[i - |token|..])
    ensures !(AT <= (token + body)[i..])
  {
    if i >= |token| {
      ShiftedSuffix(token, body, i, i - |token|);
    }
  }

  /** Where nothing begins in the token, the first match is that of the body. */
  lemma FindShifted(token: string, body: string, at: nat, k: nat)
    requires Inert(token, body) && Find(body, AT) == Some(k) && at == |token| + k
    ensures Find(token + body, AT) == Some(at)
  {
    var raw := token + body;
    ShiftedSuffix(token, body, at, k);
    forall i | 0 <= i < at ensures !(AT <= raw[i..]) {
      ShiftedMiss(token, body, i);
    }
    FindIs(raw, AT, at);
  }

  lemma AbsentShifted(token: string, body: string)
    requires Inert(token, body) && !Contains(body, AT)
    ensures !Contains(token + body, AT)
  {
    forall i | 0 <= i <= |token + body| ensures !(AT <= (token + body)[i..]) {
      ShiftedMiss(token, body, i);
    }
  }

  lemma TokenIsInert(id: string, body: string)
    requires AllDigits(id)
    ensures Inert(ReplyCode(id), body)
  {
    forall i | 0 <= i < |ReplyCode(id)| ensures !(AT <= (ReplyCode(id) + body)[i..]) {
      NoAtInToken(id, body, i);
    }
  }

  lemma StripAhead(id: string, body: string)
    requires AllDigits(id)
    ensures StripReplyTokens(ReplyCode(id) + body) == StripReplyTokens(body)
  {
    DigitsAreBracketless(id);
    OpeningsAreBorderless();
    CodeInText("", REPLY, id, body);
    assert "" + ReplyCode(id) + body == ReplyCode(id) + body;
    ReadCode(REPLY, Code("", id), body);
    assert "" + StripReplyTokens(body) == StripReplyTokens(body);
  }

  /** What the parser makes of the rest, once it has seen an at-code at `at`. */
  function Rest(raw: string, after: string, account: string): seq<MessagePart> {
    match Find(after, "]")
    case None => TextPart(StripReplyTokens(raw))
    case Some(end) => [MentionOf(after[..end], account)] + ParseRaw(after[end + 1..], account)
  }

  lemma ParseFrom(raw: string, before: string, after: string, account: string)
    requires raw == before + AT + after && Find(raw, AT) == Some(|before|)
    ensures PlainText(ParseRaw(raw, account)) == before + PlainText(Rest(raw, after, account))
  {
    assert raw[..|before|] == before && raw[|before| + |AT|..] == after;
    assert ParseRaw(raw, account) == TextPart(before) + Rest(raw, after, account);
    PlainTextOfText(before);
    PlainTextJoins(TextPart(before), Rest(raw, after, account));
  }

  lemma TokenStays(token: string, before: string, after: string, account: string)
    requires var body := before + AT + after;
             && Find(body, AT) == Some(|before|) && Find(token + body, AT) == Some(|token + before|)
             && StripReplyTokens(token + body) == StripReplyTokens(body)
    ensures var body := before + AT + after;
            PlainText(ParseRaw(token + body, account)) == token + PlainText(ParseRaw(body, account))
  {
    var body := before + AT + after;
    Regroup(token, before + AT, after);
    Regroup(token, before, AT);
    ParseFrom(body, before, after, account);
    ParseFrom(token + body, token + before, after, account);
    assert Rest(token + body, after, account) == Rest(body, after, account);
    Regroup(token, before, PlainText(Rest(body, after, account)));
  }

  lemma ParsesWithoutCodes(raw: string, account: string)
    requires !Contains(raw, AT)
    ensures PlainText(ParseRaw(raw, account)) == StripReplyTokens(raw)
  {
    PlainTextOfText(StripReplyTokens(raw));
  }

  /** The token stays in front of the text exactly when an at-code follows, closed or not. */
  lemma TokenAhead(id: string, body: string, account: string)
    requires AllDigits(id)
    ensures PlainText(ParseRaw(ReplyCode(id) + body, account)) ==
            (if Contains(body, AT) then ReplyCode(id) else "") + PlainText(ParseRaw(body, account))
  {
    var token := ReplyCode(id);
    TokenIsInert(id, body);
    StripAhead(id, body);
    if Contains(body, AT) {
      var before, after := CutAt(body, AT);
      FindShifted(token, body, |token + before|, |before|);
      TokenStays(token, before, after, account);
    } else {
      AbsentShifted(token, body);
      ParsesWithoutCodes(body, account);
      ParsesWithoutCodes(token + body, account);
      assert "" + StripReplyTokens(body) == StripReplyTokens(body);
    }
  }

  // ---------------------------------------------- at-codes in compiled parts

  /** No opening of an at-code is cut off at the end of the text. */
  ghost predicate Whole(s: string) {
    forall i | 0 <= i < |s| :: !(s[i..] <= AT)
  }

  lemma ContainsAt(s: string, i: nat)
    requires i <= |s| && AT <= s[i..]
    ensures Contains(s, AT)
  {
  }

  lemma HoldsIn(a: string, b: string)
    requires Contains(a, AT) || Contains(b, AT)
    ensures Contains(a + b, AT)
  {
    if Contains(a, AT) {
      var i := Find(a, AT).value;
      assert (a + b)[i..] == a[i..] + b;
      ContainsAt(a + b, i);
    } else {
      var i := Find(b, AT).value;
      assert (a + b)[|a| + i..] == b[i..];
      ContainsAt(a + b, |a| + i);
    }
  }

  lemma HoldsInOne(a: string, b: string)
    requires Whole(a) && Contains(a + b, AT)
    ensures Contains(a, AT) || Contains(b, AT)
  {
    var i := Find(a + b, AT).value;
    if i >= |a| {
      assert (a + b)[i..] == b[i - |a|..];
      ContainsAt(b, i - |a|);
    } else {
      assert (a + b)[i..] == a[i..] + b;
      assert !(a[i..] <= AT);
      PrefixEither(a[i..], b);
      ContainsAt(a, i);
    }
  }

  lemma PrefixEither(x: string, b: string)
    requires AT <= x + b
    ensures AT <= x || x <= AT
  {
    assert forall k | 0 <= k < |x| && k < |AT| :: x[k] == (x + b)[k] == AT[k];
  }

  lemma NotIntoBracket(x: string)
    requires AT <= x + "]"
    ensures AT <= x
  {
    assert (x + "]")[|x|] == ']' && ']' !in AT;
    assert forall k | 0 <= k < |AT| :: AT[k] == (x + "]")[k];
    assert |x| >= |AT|;
    assert forall k | 0 <= k < |AT| :: AT[k] == x[k];
  }

  lemma JoinedHoldsExactly(a: string, b: string)
    requires Whole(a)
    ensures Contains(a + b, AT) <==> Contains(a, AT) || Contains(b, AT)
  {
    if Contains(a + b, AT) {
      HoldsInOne(a, b);
    } else if Contains(a, AT) || Contains(b, AT) {
      HoldsIn(a, b);
    }
  }

  lemma ForeignEndIsWhole(s: string)
    requires s != [] ==> s[|s| - 1] !in AT
    ensures Whole(s)
  {
    forall i | 0 <= i < |s| ensures !(s[i..] <= AT) {
      assert s[i..][|s| - 1 - i] == s[|s| - 1];
    }
  }

  lemma ClosedIsWhole(head: string, tail: string)
    requires head != [] && head[|head| - 1] == ']' && Whole(tail)
    ensures Whole(head + tail)
  {
    assert ']' !in AT;
    forall i | 0 <= i < |head + tail| ensures !((head + tail)[i..] <= AT) {
      if i < |head| {
        assert (head + tail)[i..][|head| - 1 - i] == ']';
      } else {
        assert (head + tail)[i..] == tail[i - |head|..];
      }
    }
  }

  lemma BracketlessIsWhole(text: string)
    requires Bracketless(text)
    ensures Whole(text) && !Contains(text, AT)
  {
    FindNone(text, AT);
    forall i | 0 <= i < |text| ensures !(text[i..] <= AT) {
      assert text[i..][0] == text[i];
    }
  }

  lemma AtCodeHeld(text: string, digits: string, rest: string)
    ensures Contains(text + AtCode(digits) + rest, AT)
  {
    CodeInText(text, AT, digits, rest);
    var raw := text + AT + (digits + "]" + rest);
    assert raw[|text|..] == AT + (digits + "]" + rest);
    ContainsAt(raw, |text|);
  }

  lemma {:induction false} RenderedIsWhole(r: Rich)
    requires WellFormed(r)
    ensures Whole(Render(r)) && (Contains(Render(r), AT) <==> r.At?)
    decreases r
  {
    match r
    case End(text) => BracketlessIsWhole(text);
    case At(text, digits, rest) =>
      RenderedIsWhole(rest);
      AtCodeHeld(text, digits, Render(rest));
      ClosedIsWhole(text + AtCode(digits), Render(rest));
  }

  /** The opening of a code of another kind. */
  ghost predicate Foreign(open: string) {
    |open| > 4 && open[4] != 'a' && forall i | 0 < i < |open| :: open[i] != '['
  }

  lemma OpeningsAreForeign()
    ensures Foreign("[CQ:image,file=") && Foreign("[CQ:file,file=") && Foreign("[CQ:record,file=")
    ensures Foreign("[CQ:video,file=") && Foreign(REPLY)
  {
  }

  /** An at-code inside a code of another kind can only stand in its payload. */
  lemma ForeignCodeHolds(open: string, v: string)
    requires Foreign(open)
    ensures Contains(open + v + "]", AT) <==> Contains(v, AT)
  {
    var code := open + v + "]";
    if Contains(code, AT) {
      var i := Find(code, AT).value;
      assert code[i..][0] == code[i] == '[' && code[i..][4] == code[i + 4] == 'a';
      assert i >= |open|;
      assert code[i..] == v[i - |open|..] + "]";
      NotIntoBracket(v[i - |open|..]);
      ContainsAt(v, i - |open|);
    } else if Contains(v, AT) {
      HoldsIn(open, v);
      HoldsIn(open + v, "]");
    }
  }

  /** Whether the part's code holds an at-code. */
  predicate Summons(part: MessagePart) {
    match part
    case Text(text) => MentionsOf(text) != []
    case Mention(_, _) => true
    case Quote(_, _) => false
    case _ => Contains(part.asset.source.value, AT)
  }

  lemma TextSummons(text: string)
    ensures Whole(EncodeQqText(text)) && (Contains(EncodeQqText(text), AT) <==> MentionsOf(text) != [])
  {
    var r := RichFrom("", text);
    EncodeIsRender("", text);
    EncodeMentions("", text);
    RenderedIsWhole(r);
    assert MentionsIn(r) == [] <==> r.End?;
  }

  lemma MentionSummons(id: string)
    ensures Whole(AtCode(id)) && Contains(AtCode(id), AT)
  {
    ForeignEndIsWhole(AtCode(id));
    assert AtCode(id)[0..] == AtCode(id);
    ContainsAt(AtCode(id), 0);
  }

  lemma ForeignSummons(open: string, v: string)
    requires Foreign(open)
    ensures Whole(open + v + "]") && (Contains(open + v + "]", AT) <==> Contains(v, AT))
  {
    ForeignEndIsWhole(open + v + "]");
    ForeignCodeHolds(open, v);
  }

  lemma QuoteSummonsNobody(id: string)
    requires AllDigits(id)
    ensures Whole(ReplyCode(id)) && !Contains(ReplyCode(id), AT)
  {
    DigitsAreBracketless(id);
    FindNone(id, AT);
    OpeningsAreForeign();
    ForeignSummons(REPLY, id);
  }

  lemma MediaSummons(part: MessagePart)
    requires !part.Text? && !part.Mention? && !part.Quote?
    ensures Whole(PartCode(part).value) && (Contains(PartCode(part).value, AT) <==> Summons(part))
  {
    OpeningsAreForeign();
    match part
    case Image(asset) => ForeignSummons("[CQ:image,file=", asset.source.value);
    case File(asset) => ForeignSummons("[CQ:file,file=", asset.source.value);
    case Voice(asset) => ForeignSummons("[CQ:record,file=", asset.source.value);
    case Video(asset) => ForeignSummons("[CQ:video,file=", asset.source.value);
    case Sticker(asset) => ForeignSummons("[CQ:image,file=", asset.source.value);
  }

  lemma PartSummons(part: MessagePart)
    requires PartCode(part).Ok?
    ensures Whole(PartCode(part).value) && (Contains(PartCode(part).value, AT) <==> Summons(part))
  {
    match part
    case Text(text) => TextSummons(text);
    case Mention(actorId, _) => MentionSummons(NormalizeTargetId(actorId).value);
    case Quote(target, _) => QuoteSummonsNobody(NormalizeTargetId(target).value);
    case _ => MediaSummons(part);
  }

  lemma {:induction false} PartsSummon(parts: seq<MessagePart>)
    requires PartCodes(parts).Ok?
    ensures Contains(PartCodes(parts).value, AT) <==> exists i :: 0 <= i < |parts| && Summons(parts[i])
    decreases |parts|
  {
    if parts != [] {
      PartSummons(parts[0]);
      PartsSummon(parts[1..]);
      JoinedHoldsExactly(PartCode(parts[0]).value, PartCodes(parts[1..]).value);
      assert forall i | 0 < i < |parts| :: parts[i] == parts[1..][i - 1];
      assert forall i | 0 <= i < |parts[1..]| :: parts[1..][i] == parts[i + 1];
    }
  }

  /** The message mentions someone: up front, or in one of its parts. */
  predicate MentionsSomebody(message: OutboundMessage, mentionUser: Option<string>) {
    mentionUser.Some? || exists i :: 0 <= i < |message.parts| && Summons(message.parts[i])
  }

  lemma BodySummons(message: OutboundMessage, mentionUser: Option<string>)
    requires Compile(message, None, mentionUser).Ok?
    ensures Contains(Compile(message, None, mentionUser).value, AT) <==> MentionsSomebody(message, mentionUser)
  {
    var mention, body := OptionalCode(mentionUser, AT, "] ").value, PartCodes(message.parts).value;
    PartsSummon(message.parts);
    assert "" + mention == mention;
    if mentionUser.Some? {
      assert mention[0..] == AT + (NormalizeTargetId(mentionUser.value).value + "] ");
      ContainsAt(mention, 0);
      HoldsIn(mention, body);
    } else {
      assert "" + body == body;
    }
  }

  /** For every message that compiles as a reply: its text parses as that of the
      message without the reply exactly when the message mentions nobody; otherwise
      the raw reply token is left in front of it. */
  lemma ReplyTextCleanExactly(message: OutboundMessage, replyTo: string, mentionUser: Option<string>, account: string)
    requires Compile(message, Some(replyTo), mentionUser).Ok?
    ensures Compile(message, None, mentionUser).Ok?
    ensures var shown := PlainText(ParseRaw(Compile(message, Some(replyTo), mentionUser).value, account));
            var clean := PlainText(ParseRaw(Compile(message, None, mentionUser).value, account));
            && (shown == clean <==> !MentionsSomebody(message, mentionUser))
            && (shown == clean || shown == ReplyCode(NormalizeTargetId(replyTo).value) + clean)
  {
    var id := NormalizeTargetId(replyTo).value;
    var mention, parts := OptionalCode(mentionUser, AT, "] ").value, PartCodes(message.parts).value;
    var body := mention + parts;
    assert "" + mention == mention;
    Regroup(ReplyCode(id), mention, parts);
    BodySummons(message, mentionUser);
    TokenAhead(id, body, account);
    var clean := PlainText(ParseRaw(body, account));
    assert |ReplyCode(id) + clean| > |clean|;
    assert "" + clean == clean;
  }
}
