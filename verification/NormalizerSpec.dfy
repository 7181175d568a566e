/** Splitting an agent's output into body text and fenced action blocks, as
    functions. The JSON decoder is a parameter. */
module NormalizerSpec {
  import opened Wrappers
  import opened Text
  import opened Protocol

  const OPENER: string := "```dogbot-action"
  const CLOSER: string := "\n```"

  datatype ReplyTo = Missing | Null | Value(value: string)

  datatype ActionItem = ActionItem(
    actionType: string,
    targetMessageId: Option<string>,
    emoji: Option<string>,
    replyTo: ReplyTo,
    sourceType: Option<string>,
    sourceValue: Option<string>,
    captionText: Option<string>)

  datatype MentionSpec = MentionSpec(actorId: string, display: string)

  datatype ActionBlock =
    | Envelope(replyTo: ReplyTo, mentions: seq<MentionSpec>, actions: seq<ActionItem>)
    | Single(item: ActionItem)

  /** `None` when the text is not a block the decoder accepts. */
  type Decoder = string -> Option<ActionBlock>

  // ------------------------------------------------------------ one action

  /** The directive a value stands for: a target and whether the default reply is off. */
  function Directive(value: ReplyTo): Option<(Option<string>, bool)> {
    match value
    case Missing => None
    case Null => Some((None, true))
    case Value(text) => if Trim(text) == [] then None else Some((Some(Trim(text)), false))
  }

  function ReactionOf(item: ActionItem): Option<OutboundAction> {
    if item.actionType != "reaction_add" && item.actionType != "reaction_remove" then None
    else if item.targetMessageId.None? || item.targetMessageId.value == [] then None
    else if item.emoji.None? || item.emoji.value == [] then None
    else if item.actionType == "reaction_add" then Some(ReactionAdd(item.targetMessageId.value, item.emoji.value))
    else Some(ReactionRemove(item.targetMessageId.value, item.emoji.value))
  }

  function MediaKind(actionType: string): Option<string> {
    if actionType == "send_image" then Some("image")
    else if actionType == "send_file" then Some("file")
    else if actionType == "send_voice" then Some("voice")
    else if actionType == "send_video" then Some("video")
    else if actionType == "send_sticker" then Some("sticker")
    else None
  }

  function DefaultMime(kind: string): string {
    if kind == "image" then "image/*"
    else if kind == "file" then "application/octet-stream"
    else if kind == "voice" then "audio/*"
    else if kind == "video" then "video/*"
    else if kind == "sticker" then "application/x-sticker"
    else "application/octet-stream"
  }

  function SourceOf(sourceType: string, value: string): Option<AssetSource> {
    if sourceType == "workspace_path" then Some(WorkspacePath(value))
    else if sourceType == "stored_asset" then Some(ManagedStore(value))
    else if sourceType == "remote_url" then Some(ExternalUrl(value))
    else if sourceType == "platform_native_handle" then Some(PlatformNativeHandle(value))
    else if sourceType == "bridge_handle" then Some(BridgeHandle(value))
    else None
  }

  function MediaPart(kind: string, asset: AssetRef): MessagePart {
    if kind == "image" then Image(asset)
    else if kind == "file" then File(asset)
    else if kind == "voice" then Voice(asset)
    else if kind == "video" then Video(asset)
    else Sticker(asset)
  }

  function CaptionOf(item: ActionItem): seq<MessagePart> {
    if item.captionText.None? || Trim(item.captionText.value) == [] then [] else [Text(Trim(item.captionText.value))]
  }

  function MediaOf(item: ActionItem): Option<OutboundMessage> {
    var kind := MediaKind(item.actionType);
    if kind.None? || item.sourceType.None? || item.sourceValue.None? then None
    else
      var source := SourceOf(item.sourceType.value, item.sourceValue.value);
      if source.None? then None
      else
        var asset := AssetRef(kind.value + ":" + item.sourceValue.value, kind.value, DefaultMime(kind.value), 0,
                              source.value);
        var directive := Directive(item.replyTo);
        Some(OutboundMessage(
               [MediaPart(kind.value, asset)] + CaptionOf(item),
               if directive.Some? then directive.value.0 else None,
               directive.Some? && directive.value.1))
  }

  // ----------------------------------------------------------- all the blocks

  datatype Collected = Collected(
    body: string,
    replyTo: Option<string>,
    suppress: bool,
    mentions: seq<MentionSpec>,
    messages: seq<OutboundMessage>,
    actions: seq<OutboundAction>)

  function AppendItem(c: Collected, item: ActionItem): Collected {
    if item.actionType == "reaction_add" || item.actionType == "reaction_remove" then
      c.(actions := c.actions + if ReactionOf(item).Some? then [ReactionOf(item).value] else [])
    else
      c.(messages := c.messages + if MediaOf(item).Some? then [MediaOf(item).value] else [])
  }

  function AppendItems(c: Collected, items: seq<ActionItem>): Collected
    decreases |items|
  {
    if items == [] then c else AppendItems(AppendItem(c, items[0]), items[1..])
  }

  function Absorb(c: Collected, block: Option<ActionBlock>): Collected {
    match block
    case None => c
    case Some(Single(item)) => AppendItems(c, [item])
    case Some(Envelope(replyTo, mentions, actions)) =>
      var directive := Directive(replyTo);
      var c1 := if directive.Some? then c.(replyTo := directive.value.0, suppress := directive.value.1) else c;
      AppendItems(c1.(mentions := c1.mentions + mentions), actions)
  }

  function Scan(c: Collected, remaining: string, decode: Decoder): Collected
    decreases |remaining|
  {
    match Find(remaining, OPENER)
    case None => c.(body := c.body + remaining)
    case Some(index) =>
      var c1 := c.(body := c.body + remaining[..index]);
      var after := remaining[index + |OPENER|..];
      var block := TrimStart(after);
      TrimStartShorter(after);
      match Find(block, CLOSER)
      case None => c1.(body := c1.body + remaining)
      case Some(end) => Scan(Absorb(c1, decode(Trim(block[..end]))), block[end + |CLOSER|..], decode)
  }

  lemma ScanRest(c: Collected, remaining: string, decode: Decoder)
    requires Find(remaining, OPENER).None?
    ensures Scan(c, remaining, decode) == c.(body := c.body + remaining)
  {
  }

  const NOTHING: Collected := Collected("", None, false, [], [], [])

  function DropCarriageReturns(s: string): string {
    ReplaceAll(s, "\r\n", "\n")
  }

  // ------------------------------------------------------ degrading markdown

  /** Lines as `str::lines` yields them: the last one may lack its newline, a
      carriage return before a newline goes with it. */
  function Lines(s: string): seq<string> {
    if s == [] then []
    else
      match Find(s, "\n")
      case None => [s]
      case Some(i) =>
        [if i > 0 && s[i - 1] == '\r' then s[..i - 1] else s[..i]] + Lines(s[i + 1..])
  }

  function JoinLines(lines: seq<string>): string {
    if lines == [] then ""
    else if |lines| == 1 then lines[0]
    else lines[0] + "\n" + JoinLines(lines[1..])
  }

  function DropDoubleStars(s: string): string {
    ReplaceAll(s, "**", "")
  }

  datatype LinkFound = LinkFound(before: string, caption: string, url: string, next: string)

  /** The first "[caption](url)" read from the first '[' on; none when a part is missing. */
  function FirstLink(rest: string): (r: Option<LinkFound>)
    ensures r.Some? ==> |r.value.next| < |rest|
  {
    match Find(rest, "[")
    case None => None
    case Some(start) =>
      var candidate := rest[start + 1..];
      match Find(candidate, "](")
      case None => None
      case Some(captionEnd) =>
        var urlCandidate := candidate[captionEnd + 2..];
        match Find(urlCandidate, ")")
        case None => None
        case Some(urlEnd) =>
          Some(LinkFound(rest[..start], candidate[..captionEnd], urlCandidate[..urlEnd], urlCandidate[urlEnd + 1..]))
  }

  function ReplaceLinks(rest: string): string
    decreases |rest|
  {
    match FirstLink(rest)
    case None => rest
    case Some(l) => l.before + l.caption + ": " + l.url + ReplaceLinks(l.next)
  }

  function DegradeLine(line: string): string {
    var text := if "## " <= line then line[3..] else if "# " <= line then line[2..] else line;
    ReplaceLinks(ReplaceChar(DropDoubleStars(text), '`', ""))
  }

  function DegradeLines(lines: seq<string>): seq<string> {
    if lines == [] then [] else [DegradeLine(lines[0])] + DegradeLines(lines[1..])
  }

  function DegradeMarkdown(s: string): string {
    JoinLines(DegradeLines(Lines(s)))
  }

  function MentionParts(mentions: seq<MentionSpec>): seq<MessagePart> {
    if mentions == [] then []
    else [Mention(mentions[0].actorId, mentions[0].display)] + MentionParts(mentions[1..])
  }

  function PlanOf(c: Collected): OutboundPlan {
    var body := DegradeMarkdown(Trim(c.body));
    if body == [] && c.mentions == [] then OutboundPlan(c.messages, c.actions)
    else
      var parts := MentionParts(c.mentions) + if body == [] then [] else [Text(body)];
      OutboundPlan([OutboundMessage(parts, c.replyTo, c.suppress)] + c.messages, c.actions)
  }

  function Normalize(output: string, decode: Decoder): OutboundPlan {
    PlanOf(Scan(NOTHING, DropCarriageReturns(output), decode))
  }
}
