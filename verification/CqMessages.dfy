/** Whole messages of text and mentions, compiled and parsed back; the reply
    target, recovered always; and when compiling succeeds. */
module CqMessages {
  import opened Wrappers
  import opened Text
  import opened Protocol
  import opened CqSpec
  import opened CqRoundTrip

  // ------------------------------------------------------ joining rich texts

  function PrependText(text: string, r: Rich): Rich {
    match r
    case End(t) => End(text + t)
    case At(t, digits, rest) => At(text + t, digits, rest)
  }

  function Join(a: Rich, b: Rich): Rich {
    match a
    case End(text) => PrependText(text, b)
    case At(text, digits, rest) => At(text, digits, Join(rest, b))
  }

  lemma PrependFacts(text: string, r: Rich)
    requires WellFormed(r) && Bracketless(text)
    ensures WellFormed(PrependText(text, r)) && MentionsIn(PrependText(text, r)) == MentionsIn(r)
    ensures Render(PrependText(text, r)) == text + Render(r)
    ensures Flat(PrependText(text, r)) == text + Flat(r)
  {
    if r.At? {
      Regroup(text, r.text + AtCode(r.digits), Render(r.rest));
      Regroup(text, r.text, AtCode(r.digits));
      Regroup(text, r.text + "@" + r.digits, Flat(r.rest));
      Regroup(text, r.text + "@", r.digits);
      Regroup(text, r.text, "@");
    }
  }

  lemma {:induction false} JoinFacts(a: Rich, b: Rich)
    requires WellFormed(a) && WellFormed(b)
    ensures WellFormed(Join(a, b)) && MentionsIn(Join(a, b)) == MentionsIn(a) + MentionsIn(b)
    ensures Render(Join(a, b)) == Render(a) + Render(b)
    ensures Flat(Join(a, b)) == Flat(a) + Flat(b)
    decreases a
  {
    match a
    case End(text) =>
      PrependFacts(text, b);
      assert [] + MentionsIn(b) == MentionsIn(b);
    case At(text, digits, rest) =>
      JoinFacts(rest, b);
      Regroup(text + AtCode(digits), Render(rest), Render(b));
      Regroup(text + "@" + digits, Flat(rest), Flat(b));
      Regroup([digits], MentionsIn(rest), MentionsIn(b));
  }

  // --------------------------------------------------- messages as rich texts

  /** Text parts and mentions of valid targets. */
  ghost predicate Plain(parts: seq<MessagePart>) {
    forall i | 0 <= i < |parts| ::
      parts[i].Text? || (parts[i].Mention? && NormalizeTargetId(parts[i].actorId).Ok?)
  }

  function RichPart(part: MessagePart): Rich
    requires part.Text? || (part.Mention? && NormalizeTargetId(part.actorId).Ok?)
  {
    match part
    case Text(text) => RichFrom("", text)
    case Mention(actorId, _) => At("", NormalizeTargetId(actorId).value, End(""))
  }

  function RichParts(parts: seq<MessagePart>): Rich
    requires Plain(parts)
  {
    if parts == [] then End("") else Join(RichPart(parts[0]), RichParts(parts[1..]))
  }

  /** What a reader of the message should see, text escaped. */
  function Shown(parts: seq<MessagePart>): string
    requires Plain(parts)
  {
    if parts == [] then ""
    else
      (match parts[0]
       case Text(text) => EscapeCq(text)
       case Mention(actorId, _) => "@" + NormalizeTargetId(actorId).value)
      + Shown(parts[1..])
  }

  /** Whom the message mentions: explicit mentions, and the numbers its texts '@'. */
  function Mentioned(parts: seq<MessagePart>): seq<string>
    requires Plain(parts)
  {
    if parts == [] then []
    else
      (match parts[0]
       case Text(text) => MentionsOf(text)
       case Mention(actorId, _) => [NormalizeTargetId(actorId).value])
      + Mentioned(parts[1..])
  }

  lemma RichPartFacts(part: MessagePart)
    requires part.Text? || (part.Mention? && NormalizeTargetId(part.actorId).Ok?)
    ensures WellFormed(RichPart(part)) && PartCode(part) == Ok(Render(RichPart(part)))
    ensures part.Text? ==>
              Flat(RichPart(part)) == EscapeCq(part.text) && MentionsIn(RichPart(part)) == MentionsOf(part.text)
    ensures part.Mention? ==> Flat(RichPart(part)) == "@" + NormalizeTargetId(part.actorId).value
    ensures part.Mention? ==> MentionsIn(RichPart(part)) == [NormalizeTargetId(part.actorId).value]
  {
    match part
    case Text(text) =>
      EncodeIsRender("", text);
      EncodeIsFlat("", text);
      EncodeMentions("", text);
      assert "" + text == text;
    case Mention(actorId, _) =>
      var id := NormalizeTargetId(actorId).value;
      assert "" + AtCode(id) + "" == AtCode(id);
      assert "" + "@" + id + "" == "@" + id;
  }

  lemma {:induction false} RichPartsFacts(parts: seq<MessagePart>)
    requires Plain(parts)
    ensures WellFormed(RichParts(parts)) && PartCodes(parts) == Ok(Render(RichParts(parts)))
    ensures Flat(RichParts(parts)) == Shown(parts) && MentionsIn(RichParts(parts)) == Mentioned(parts)
  {
    if parts != [] {
      RichPartFacts(parts[0]);
      RichPartsFacts(parts[1..]);
      JoinFacts(RichPart(parts[0]), RichParts(parts[1..]));
    }
  }

  /** The leading mention that a delivery may add. */
  function RichMention(mentionUser: Option<string>): Rich
    requires mentionUser.Some? ==> NormalizeTargetId(mentionUser.value).Ok?
  {
    match mentionUser
    case None => End("")
    case Some(value) => At("", NormalizeTargetId(value).value, End(" "))
  }

  function ShownMention(mentionUser: Option<string>): string
    requires mentionUser.Some? ==> NormalizeTargetId(mentionUser.value).Ok?
  {
    if mentionUser.None? then "" else "@" + NormalizeTargetId(mentionUser.value).value + " "
  }

  function MentionedUser(mentionUser: Option<string>): seq<string>
    requires mentionUser.Some? ==> NormalizeTargetId(mentionUser.value).Ok?
  {
    if mentionUser.None? then [] else [NormalizeTargetId(mentionUser.value).value]
  }

  lemma RichMentionFacts(mentionUser: Option<string>)
    requires mentionUser.Some? ==> NormalizeTargetId(mentionUser.value).Ok?
    ensures WellFormed(RichMention(mentionUser))
    ensures OptionalCode(mentionUser, AT, "] ") == Ok(Render(RichMention(mentionUser)))
    ensures Flat(RichMention(mentionUser)) == ShownMention(mentionUser)
    ensures MentionsIn(RichMention(mentionUser)) == MentionedUser(mentionUser)
  {
    if mentionUser.Some? {
      var id := NormalizeTargetId(mentionUser.value).value;
      assert AtCode(id) + " " == AT + id + "] ";
      assert "" + AtCode(id) == AtCode(id);
      assert "" + "@" == "@";
    }
  }

  function RichMessage(message: OutboundMessage, mentionUser: Option<string>): Rich
    requires Plain(message.parts) && (mentionUser.Some? ==> NormalizeTargetId(mentionUser.value).Ok?)
  {
    Join(RichMention(mentionUser), RichParts(message.parts))
  }

  lemma CompileIsRender(message: OutboundMessage, replyTo: Option<string>, mentionUser: Option<string>)
    requires Plain(message.parts) && (mentionUser.Some? ==> NormalizeTargetId(mentionUser.value).Ok?)
    ensures var r := RichMessage(message, mentionUser);
            && WellFormed(r)
            && (OptionalCode(replyTo, REPLY, "]").Ok? ==>
                  Compile(message, replyTo, mentionUser) == Ok(OptionalCode(replyTo, REPLY, "]").value + Render(r)))
  {
    RichMentionFacts(mentionUser);
    RichPartsFacts(message.parts);
    JoinFacts(RichMention(mentionUser), RichParts(message.parts));
    if OptionalCode(replyTo, REPLY, "]").Ok? {
      Regroup(OptionalCode(replyTo, REPLY, "]").value, Render(RichMention(mentionUser)),
              Render(RichParts(message.parts)));
    }
  }

  lemma RichMessageFacts(message: OutboundMessage, mentionUser: Option<string>)
    requires Plain(message.parts) && (mentionUser.Some? ==> NormalizeTargetId(mentionUser.value).Ok?)
    ensures var r := RichMessage(message, mentionUser);
            && WellFormed(r)
            && Flat(r) == ShownMention(mentionUser) + Shown(message.parts)
            && MentionsIn(r) == MentionedUser(mentionUser) + Mentioned(message.parts)
  {
    RichMentionFacts(mentionUser);
    RichPartsFacts(message.parts);
    JoinFacts(RichMention(mentionUser), RichParts(message.parts));
  }

  /** For every message of text and valid mentions, with or without a leading
      mention and without a reply: compiling succeeds, and parsing shows the same
      text and, in order, the same mention targets, the bot's own included. */
  lemma CompileThenParse(message: OutboundMessage, mentionUser: Option<string>, account: string)
    requires Plain(message.parts) && (mentionUser.Some? ==> NormalizeTargetId(mentionUser.value).Ok?)
    ensures Compile(message, None, mentionUser).Ok?
    ensures var parts := ParseRaw(Compile(message, None, mentionUser).value, account);
            && PlainText(parts) == ShownMention(mentionUser) + Shown(message.parts)
            && TargetsOf(parts) == AllOk(MentionedUser(mentionUser) + Mentioned(message.parts))
  {
    var r := RichMessage(message, mentionUser);
    CompileIsRender(message, None, mentionUser);
    assert "" + Render(r) == Render(r);
    RichMessageFacts(message, mentionUser);
    ParseRendered(r, account);
    PartsPlainText(r, account);
    PartsTargets(r, account);
  }

  // ------------------------------------------------------------------ reply

  lemma ReplyInFront(id: string, rest: string)
    requires AllDigits(id)
    ensures ExtractReply(ReplyCode(id) + rest) == Some(id)
  {
    CodeInText("", REPLY, id, rest);
    assert "" + ReplyCode(id) + rest == ReplyCode(id) + rest;
    DigitsAreBracketless(id);
    FindOpen("", REPLY, id + "]" + rest);
    FindClose(id, rest);
  }

  /** Whatever the message holds, media and quotes included, a reply target comes
      back as the normalised id. */
  lemma ReplyIsRecovered(message: OutboundMessage, replyTo: string, mentionUser: Option<string>)
    requires Compile(message, Some(replyTo), mentionUser).Ok?
    ensures NormalizeTargetId(replyTo).Ok?
    ensures ExtractReply(Compile(message, Some(replyTo), mentionUser).value) == Some(NormalizeTargetId(replyTo).value)
  {
    var id := NormalizeTargetId(replyTo).value;
    var mention, body := OptionalCode(mentionUser, AT, "] ").value, PartCodes(message.parts).value;
    Regroup(ReplyCode(id), mention, body);
    ReplyInFront(id, mention + body);
  }

  // ----------------------------------------------------------------- errors

  /** A target is its number, bare or behind one of the two prefixes; anything else
      is named in the error. */
  lemma TargetExactly(value: string)
    ensures forall id :: NormalizeTargetId(value) == Ok(id) <==>
              id != [] && AllDigits(id) && (value == id || value == "qq:user:" + id || value == "qq:bot_uin:" + id)
    ensures NormalizeTargetId(value).Err? ==> NormalizeTargetId(value).error == "invalid QQ target id: " + value
  {
    forall id | AllDigits(id) && id != []
      ensures NormalizeTargetId(id) == Ok(id)
      ensures NormalizeTargetId("qq:user:" + id) == Ok(id) && NormalizeTargetId("qq:bot_uin:" + id) == Ok(id)
    {
      assert !IsDigit("qq:user:"[0]) && !IsDigit("qq:bot_uin:"[0]);
      assert ("qq:user:" + id)[|"qq:user:"|..] == id && ("qq:bot_uin:" + id)[|"qq:bot_uin:"|..] == id;
      assert ("qq:bot_uin:" + id)[3] == 'b';
    }
    if "qq:user:" <= value {
      assert value == "qq:user:" + value[|"qq:user:"|..];
    } else if "qq:bot_uin:" <= value {
      assert value == "qq:bot_uin:" + value[|"qq:bot_uin:"|..];
    }
  }

  /** The targets a message names, in the order in which compiling looks at them. */
  function Targets(parts: seq<MessagePart>): seq<string> {
    if parts == [] then []
    else
      (match parts[0]
       case Mention(actorId, _) => [actorId]
       case Quote(target, _) => [target]
       case _ => [])
      + Targets(parts[1..])
  }

  function OptionalTarget(target: Option<string>): seq<string> {
    if target.Some? then [target.value] else []
  }

  ghost predicate ValidTarget(value: string) {
    exists id :: id != [] && AllDigits(id) && (value == id || value == "qq:user:" + id || value == "qq:bot_uin:" + id)
  }

  /** The error, if any, for the first of the targets that is not valid. */
  ghost function FirstError(targets: seq<string>): Option<string> {
    if targets == [] then None
    else if !ValidTarget(targets[0]) then Some("invalid QQ target id: " + targets[0])
    else FirstError(targets[1..])
  }

  lemma ValidExactly(value: string)
    ensures NormalizeTargetId(value).Ok? <==> ValidTarget(value)
  {
    TargetExactly(value);
    if NormalizeTargetId(value).Ok? {
      var id := NormalizeTargetId(value).value;
      assert NormalizeTargetId(value) == Ok(id);
    }
    if ValidTarget(value) {
      var id :| id != [] && AllDigits(id) && (value == id || value == "qq:user:" + id || value == "qq:bot_uin:" + id);
      assert NormalizeTargetId(value) == Ok(id);
    }
  }

  lemma {:induction false} FirstErrorJoins(xs: seq<string>, ys: seq<string>)
    ensures FirstError(xs + ys) == if FirstError(xs).Some? then FirstError(xs) else FirstError(ys)
  {
    if xs == [] {
      assert xs + ys == ys;
    } else {
      assert (xs + ys)[1..] == xs[1..] + ys;
      FirstErrorJoins(xs[1..], ys);
    }
  }

  lemma FirstErrorOne(value: string)
    ensures FirstError([value]) == if NormalizeTargetId(value).Err? then Some(NormalizeTargetId(value).error) else None
  {
    TargetExactly(value);
    ValidExactly(value);
    assert [value][1..] == [];
  }

  lemma {:induction false} PartsErrorExactly(parts: seq<MessagePart>)
    ensures PartCodes(parts).Err? <==> FirstError(Targets(parts)).Some?
    ensures PartCodes(parts).Err? ==> FirstError(Targets(parts)) == Some(PartCodes(parts).error)
    decreases |parts|
  {
    if parts != [] {
      PartsErrorExactly(parts[1..]);
      match parts[0]
      case Mention(actorId, _) =>
        FirstErrorOne(actorId);
        FirstErrorJoins([actorId], Targets(parts[1..]));
      case Quote(target, _) =>
        FirstErrorOne(target);
        FirstErrorJoins([target], Targets(parts[1..]));
      case _ => assert [] + Targets(parts[1..]) == Targets(parts[1..]);
    }
  }

  lemma OptionalErrorExactly(target: Option<string>, before: string, after: string)
    ensures OptionalCode(target, before, after).Err? <==> FirstError(OptionalTarget(target)).Some?
    ensures OptionalCode(target, before, after).Err? ==>
              FirstError(OptionalTarget(target)) == Some(OptionalCode(target, before, after).error)
  {
    if target.Some? {
      FirstErrorOne(target.value);
    }
  }

  /** Compiling fails exactly when some target, of the reply, of the leading mention
      or in a part, is not a number with or without a prefix; the error names the
      first such target in that order. */
  lemma CompileErrorExactly(message: OutboundMessage, replyTo: Option<string>, mentionUser: Option<string>)
    ensures var result := Compile(message, replyTo, mentionUser);
            var targets := OptionalTarget(replyTo) + (OptionalTarget(mentionUser) + Targets(message.parts));
            && (result.Err? <==> FirstError(targets).Some?)
            && (result.Err? ==> FirstError(targets) == Some(result.error))
            && (result.Ok? <==> forall i | 0 <= i < |targets| :: ValidTarget(targets[i]))
  {
    var rest := OptionalTarget(mentionUser) + Targets(message.parts);
    OptionalErrorExactly(replyTo, REPLY, "]");
    OptionalErrorExactly(mentionUser, AT, "] ");
    PartsErrorExactly(message.parts);
    FirstErrorJoins(OptionalTarget(mentionUser), Targets(message.parts));
    FirstErrorJoins(OptionalTarget(replyTo), rest);
    NoErrorExactly(OptionalTarget(replyTo) + rest);
  }

  lemma {:induction false} NoErrorExactly(targets: seq<string>)
    ensures FirstError(targets) == None <==> forall i | 0 <= i < |targets| :: ValidTarget(targets[i])
  {
    if targets != [] {
      NoErrorExactly(targets[1..]);
      assert forall i | 0 < i < |targets| :: targets[i] == targets[1..][i - 1];
    }
  }
}
