/** Compiled messages read back as OneBot 11 segments, by a reader of its own: what
    every part was printed as. */
module CqSegments {
  import opened Wrappers
  import opened Text
  import opened Protocol
  import opened CqSpec
  import opened CqRoundTrip

  /** A code "[CQ:kind,field=value]". */
  datatype Segment = Segment(kind: string, field: string, value: string)

  // ----------------------------------------------------------------- the reader

  function SegmentOf(inner: string): Segment {
    match Find(inner, ",")
    case None => Segment(inner, "", "")
    case Some(i) =>
      var rest := inner[i + 1..];
      match Find(rest, "=")
      case None => Segment(inner[..i], rest, "")
      case Some(j) => Segment(inner[..i], rest[..j], rest[j + 1..])
  }

  /** The codes of a message, in order. */
  function ReadCodes(raw: string): seq<Segment>
    decreases |raw|
  {
    if raw == [] then []
    else if "[CQ:" <= raw then
      var inner := raw[4..];
      match Find(inner, "]")
      case None => []
      case Some(end) => [SegmentOf(inner[..end])] + ReadCodes(inner[end + 1..])
    else ReadCodes(raw[1..])
  }

  /** What a reader sees: the text, a mention as '@' and its number, other codes not at all. */
  function Seen(raw: string): string
    decreases |raw|
  {
    if raw == [] then ""
    else if "[CQ:" <= raw then
      var inner := raw[4..];
      match Find(inner, "]")
      case None => raw
      case Some(end) =>
        var code := SegmentOf(inner[..end]);
        (if code.kind == "at" then "@" + code.value else "") + Seen(inner[end + 1..])
    else [raw[0]] + Seen(raw[1..])
  }

  lemma CharReads(c: char, rest: string)
    requires c != '['
    ensures ReadCodes([c] + rest) == ReadCodes(rest) && Seen([c] + rest) == [c] + Seen(rest)
  {
    assert ([c] + rest)[1..] == rest && "[CQ:"[0] == '[';
  }

  lemma {:induction false} TextReads(text: string, rest: string)
    requires '[' !in text
    ensures ReadCodes(text + rest) == ReadCodes(rest) && Seen(text + rest) == text + Seen(rest)
  {
    if text == [] {
      assert text + rest == rest;
    } else {
      assert text == [text[0]] + text[1..];
      Regroup([text[0]], text[1..], rest);
      TextReads(text[1..], rest);
      CharReads(text[0], text[1..] + rest);
      Regroup([text[0]], text[1..], Seen(rest));
    }
  }

  ghost predicate Name(s: string) {
    ',' !in s && '=' !in s && ']' !in s
  }

  lemma SegmentReads(kind: string, field: string, value: string)
    requires Name(kind) && Name(field)
    ensures SegmentOf(kind + "," + (field + "=" + value)) == Segment(kind, field, value)
  {
    var rest := field + "=" + value;
    FindAfter(kind, ",", rest);
    FindAfter(field, "=", value);
    assert (kind + "," + rest)[..|kind|] == kind && (kind + "," + rest)[|kind| + 1..] == rest;
    assert rest[..|field|] == field && rest[|field| + 1..] == value;
  }

  /** How a code is written. */
  function Written(kind: string, field: string, value: string): string {
    "[CQ:" + (kind + "," + (field + "=" + value) + "]")
  }

  lemma ClosedReads(inner: string, rest: string)
    requires ']' !in inner
    ensures ReadCodes("[CQ:" + (inner + "]") + rest) == [SegmentOf(inner)] + ReadCodes(rest)
    ensures Seen("[CQ:" + (inner + "]") + rest) ==
            (if SegmentOf(inner).kind == "at" then "@" + SegmentOf(inner).value else "") + Seen(rest)
  {
    var raw := "[CQ:" + (inner + "]") + rest;
    assert raw[4..] == inner + "]" + rest;
    FindClose(inner, rest);
  }

  lemma CodeReads(kind: string, field: string, value: string, rest: string)
    requires Name(kind) && Name(field) && ']' !in value
    ensures ReadCodes(Written(kind, field, value) + rest) == [Segment(kind, field, value)] + ReadCodes(rest)
    ensures Seen(Written(kind, field, value) + rest) == (if kind == "at" then "@" + value else "") + Seen(rest)
  {
    SegmentReads(kind, field, value);
    ClosedReads(kind + "," + (field + "=" + value), rest);
  }

  lemma CutWritten(kind: string, field: string, before: string, after: string, rest: string)
    ensures Written(kind, field, before + "]" + after) + rest ==
            "[CQ:" + ((kind + "," + (field + "=" + before)) + "]") + (after + "]" + rest)
  {
    var head := kind + "," + (field + "=");
    assert kind + "," + (field + "=" + before) == head + before;
    assert kind + "," + (field + "=" + (before + "]" + after)) == head + before + "]" + after;
    assert "[CQ:" + (head + before + "]" + after + "]") + rest == "[CQ:" + (head + before + "]") + (after + "]" + rest);
  }

  lemma HoldsBracket(value: string) returns (before: string, after: string)
    requires ']' in value
    ensures value == before + "]" + after && ']' !in before
  {
    if !Contains(value, "]") {
      OneCharacterAbsent(value, ']');
    }
    before, after := CutAt(value, "]");
    OneCharacterAbsent(before, ']');
  }

  /** A value that holds a closing bracket is cut there. */
  lemma CutReads(kind: string, field: string, value: string, rest: string)
    requires Name(kind) && Name(field) && ']' in value
    ensures var codes := ReadCodes(Written(kind, field, value) + rest);
            codes != [] && codes[0] != Segment(kind, field, value)
  {
    var before, after := HoldsBracket(value);
    CutWritten(kind, field, before, after, rest);
    SegmentReads(kind, field, before);
    ClosedReads(kind + "," + (field + "=" + before), after + "]" + rest);
    assert |before| < |value|;
  }

  // ------------------------------------------------------- what was to be printed

  function AtSegments(digits: seq<string>): seq<Segment> {
    if digits == [] then [] else [Segment("at", "qq", digits[0])] + AtSegments(digits[1..])
  }

  function IdOf(target: string): string {
    match NormalizeTargetId(target) case Ok(id) => id case Err(_) => ""
  }

  /** The segments a part stands for. */
  function PartSegments(part: MessagePart): seq<Segment> {
    match part
    case Text(text) => AtSegments(MentionsOf(text))
    case Mention(actorId, _) => [Segment("at", "qq", IdOf(actorId))]
    case Image(asset) => [Segment("image", "file", asset.source.value)]
    case File(asset) => [Segment("file", "file", asset.source.value)]
    case Voice(asset) => [Segment("record", "file", asset.source.value)]
    case Video(asset) => [Segment("video", "file", asset.source.value)]
    case Sticker(asset) => [Segment("image", "file", asset.source.value)]
    case Quote(target, _) => [Segment("reply", "id", IdOf(target))]
  }

  function PartsSegments(parts: seq<MessagePart>): seq<Segment> {
    if parts == [] then [] else PartSegments(parts[0]) + PartsSegments(parts[1..])
  }

  /** The text a part shows. */
  function PartSeen(part: MessagePart): string {
    match part
    case Text(text) => EscapeCq(text)
    case Mention(actorId, _) => "@" + IdOf(actorId)
    case _ => ""
  }

  function PartsSeen(parts: seq<MessagePart>): string {
    if parts == [] then "" else PartSeen(parts[0]) + PartsSeen(parts[1..])
  }

  predicate Media(part: MessagePart) {
    !part.Text? && !part.Mention? && !part.Quote?
  }

  /** A media reference without a closing bracket. */
  predicate Clean(part: MessagePart) {
    Media(part) ==> ']' !in part.asset.source.value
  }

  // ------------------------------------------------------------------ one part

  lemma AtCodeReads(digits: string, rest: string)
    requires AllDigits(digits)
    ensures ReadCodes(AtCode(digits) + rest) == [Segment("at", "qq", digits)] + ReadCodes(rest)
    ensures Seen(AtCode(digits) + rest) == "@" + digits + Seen(rest)
  {
    DigitsAreBracketless(digits);
    assert AtCode(digits) == Written("at", "qq", digits);
    CodeReads("at", "qq", digits, rest);
  }

  lemma ReplyCodeReads(id: string, rest: string)
    requires AllDigits(id)
    ensures ReadCodes(ReplyCode(id) + rest) == [Segment("reply", "id", id)] + ReadCodes(rest)
    ensures Seen(ReplyCode(id) + rest) == Seen(rest)
  {
    DigitsAreBracketless(id);
    assert ReplyCode(id) == Written("reply", "id", id);
    CodeReads("reply", "id", id, rest);
    assert "reply"[0] != "at"[0];
  }

  lemma {:induction false} RichReads(r: Rich, rest: string)
    requires WellFormed(r)
    ensures ReadCodes(Render(r) + rest) == AtSegments(MentionsIn(r)) + ReadCodes(rest)
    ensures Seen(Render(r) + rest) == Flat(r) + Seen(rest)
    decreases r
  {
    match r
    case End(text) => TextReads(text, rest);
    case At(text, digits, more) =>
      var tail := Render(more) + rest;
      RichReads(more, rest);
      Regroup(text + AtCode(digits), Render(more), rest);
      Regroup(text, AtCode(digits), tail);
      TextReads(text, AtCode(digits) + tail);
      AtCodeReads(digits, tail);
      assert MentionsIn(r)[1..] == MentionsIn(more);
      Regroup([Segment("at", "qq", digits)], AtSegments(MentionsIn(more)), ReadCodes(rest));
      Regroup(text, "@" + digits, Flat(more) + Seen(rest));
      Regroup(text, "@", digits);
      Regroup(text + "@" + digits, Flat(more), Seen(rest));
  }

  /** The kind a media part is printed with. */
  function KindOf(part: MessagePart): string
    requires Media(part)
  {
    match part
    case Image(_) => "image"
    case File(_) => "file"
    case Voice(_) => "record"
    case Video(_) => "video"
    case Sticker(_) => "image"
  }

  lemma FileWritten(kind: string, v: string)
    ensures Written(kind, "file", v) == "[CQ:" + kind + ",file=" + v + "]"
  {
    assert kind + "," + ("file=" + v) == kind + ",file=" + v;
  }

  lemma MediaWritten(part: MessagePart)
    requires Media(part)
    ensures Name(KindOf(part)) && KindOf(part) != "at"
    ensures PartCode(part) == Ok(Written(KindOf(part), "file", part.asset.source.value))
    ensures PartSegments(part) == [Segment(KindOf(part), "file", part.asset.source.value)]
  {
    var v := part.asset.source.value;
    FileWritten(KindOf(part), v);
    assert "[CQ:" + "image" + ",file=" == "[CQ:image,file=" && "[CQ:" + "file" + ",file=" == "[CQ:file,file=";
    assert "[CQ:" + "record" + ",file=" == "[CQ:record,file=" && "[CQ:" + "video" + ",file=" == "[CQ:video,file=";
    assert |KindOf(part)| > 2;
  }

  lemma MediaReads(part: MessagePart, rest: string)
    requires Media(part) && Clean(part)
    ensures ReadCodes(PartCode(part).value + rest) == PartSegments(part) + ReadCodes(rest)
    ensures Seen(PartCode(part).value + rest) == Seen(rest)
  {
    MediaWritten(part);
    CodeReads(KindOf(part), "file", part.asset.source.value, rest);
  }

  lemma TextPartReads(text: string, rest: string)
    ensures ReadCodes(EncodeQqText(text) + rest) == AtSegments(MentionsOf(text)) + ReadCodes(rest)
    ensures Seen(EncodeQqText(text) + rest) == EscapeCq(text) + Seen(rest)
  {
    EncodeIsRender("", text);
    EncodeMentions("", text);
    EncodeIsFlat("", text);
    assert "" + text == text;
    RichReads(RichFrom("", text), rest);
  }

  lemma PartReads(part: MessagePart, rest: string)
    requires PartCode(part).Ok? && Clean(part)
    ensures ReadCodes(PartCode(part).value + rest) == PartSegments(part) + ReadCodes(rest)
    ensures Seen(PartCode(part).value + rest) == PartSeen(part) + Seen(rest)
  {
    match part
    case Text(text) => TextPartReads(text, rest);
    case Mention(actorId, _) => AtCodeReads(IdOf(actorId), rest);
    case Quote(target, _) => ReplyCodeReads(IdOf(target), rest);
    case _ => MediaReads(part, rest);
  }

  lemma UncleanReads(part: MessagePart, rest: string, others: seq<Segment>)
    requires PartCode(part).Ok? && !Clean(part)
    ensures ReadCodes(PartCode(part).value + rest) != PartSegments(part) + others
  {
    MediaWritten(part);
    CutReads(KindOf(part), "file", part.asset.source.value, rest);
    assert (PartSegments(part) + others)[0] == PartSegments(part)[0];
  }

  // ------------------------------------------------------------- whole messages

  ghost predicate AllClean(parts: seq<MessagePart>) {
    forall i | 0 <= i < |parts| :: Clean(parts[i])
  }

  lemma AllCleanSplits(parts: seq<MessagePart>)
    requires parts != []
    ensures AllClean(parts) <==> Clean(parts[0]) && AllClean(parts[1..])
  {
    assert forall i | 0 < i < |parts| :: parts[i] == parts[1..][i - 1];
  }

  lemma Cancel<T>(a: seq<T>, b: seq<T>, c: seq<T>)
    ensures a + b == a + c <==> b == c
  {
    if a + b == a + c {
      assert (a + b)[|a|..] == b && (a + c)[|a|..] == c;
    }
  }

  lemma {:induction false} PartsRead(parts: seq<MessagePart>)
    requires PartCodes(parts).Ok?
    ensures ReadCodes(PartCodes(parts).value) == PartsSegments(parts) <==> AllClean(parts)
    ensures AllClean(parts) ==> Seen(PartCodes(parts).value) == PartsSeen(parts)
    decreases |parts|
  {
    if parts != [] {
      var rest := PartCodes(parts[1..]).value;
      PartsRead(parts[1..]);
      AllCleanSplits(parts);
      if Clean(parts[0]) {
        PartReads(parts[0], rest);
        Cancel(PartSegments(parts[0]), ReadCodes(rest), PartsSegments(parts[1..]));
      } else {
        UncleanReads(parts[0], rest, PartsSegments(parts[1..]));
      }
    }
  }

  function ReplySegments(replyTo: Option<string>): seq<Segment> {
    if replyTo.None? then [] else [Segment("reply", "id", IdOf(replyTo.value))]
  }

  function MentionSegments(mentionUser: Option<string>): seq<Segment> {
    if mentionUser.None? then [] else [Segment("at", "qq", IdOf(mentionUser.value))]
  }

  function MentionSeen(mentionUser: Option<string>): string {
    if mentionUser.None? then "" else "@" + IdOf(mentionUser.value) + " "
  }

  lemma ReplyReads(replyTo: Option<string>, rest: string)
    requires OptionalCode(replyTo, REPLY, "]").Ok?
    ensures ReadCodes(OptionalCode(replyTo, REPLY, "]").value + rest) == ReplySegments(replyTo) + ReadCodes(rest)
    ensures Seen(OptionalCode(replyTo, REPLY, "]").value + rest) == Seen(rest)
  {
    if replyTo.Some? {
      ReplyCodeReads(IdOf(replyTo.value), rest);
    } else {
      assert "" + rest == rest && [] + ReadCodes(rest) == ReadCodes(rest);
    }
  }

  lemma MentionReads(mentionUser: Option<string>, rest: string)
    requires OptionalCode(mentionUser, AT, "] ").Ok?
    ensures ReadCodes(OptionalCode(mentionUser, AT, "] ").value + rest) ==
            MentionSegments(mentionUser) + ReadCodes(rest)
    ensures Seen(OptionalCode(mentionUser, AT, "] ").value + rest) == MentionSeen(mentionUser) + Seen(rest)
  {
    if mentionUser.Some? {
      var id := IdOf(mentionUser.value);
      assert AT + id + "] " + rest == AtCode(id) + (" " + rest);
      AtCodeReads(id, " " + rest);
      TextReads(" ", rest);
      Regroup("@" + id, " ", Seen(rest));
    } else {
      assert "" + rest == rest && [] + ReadCodes(rest) == ReadCodes(rest) && "" + Seen(rest) == Seen(rest);
    }
  }

  /** Every compiled message reads back as the segments of its reply, its leading
      mention and its parts, in order, exactly when no media reference holds a
      closing bracket; and then shows their texts, escaped, and their mentions. */
  lemma CompiledReadsExactly(message: OutboundMessage, replyTo: Option<string>, mentionUser: Option<string>)
    requires Compile(message, replyTo, mentionUser).Ok?
    ensures var raw := Compile(message, replyTo, mentionUser).value;
            && (ReadCodes(raw) == ReplySegments(replyTo) + (MentionSegments(mentionUser) + PartsSegments(message.parts))
                <==> AllClean(message.parts))
            && (AllClean(message.parts) ==> Seen(raw) == MentionSeen(mentionUser) + PartsSeen(message.parts))
  {
    var reply, mention := OptionalCode(replyTo, REPLY, "]").value, OptionalCode(mentionUser, AT, "] ").value;
    var body := PartCodes(message.parts).value;
    Regroup(reply, mention, body);
    ReplyReads(replyTo, mention + body);
    MentionReads(mentionUser, body);
    PartsRead(message.parts);
    Cancel(MentionSegments(mentionUser), ReadCodes(body), PartsSegments(message.parts));
    Cancel(ReplySegments(replyTo), MentionSegments(mentionUser) + ReadCodes(body),
           MentionSegments(mentionUser) + PartsSegments(message.parts));
  }
}
