/** What an agent's items ask for, and that the plan holds exactly that: reactions,
    media messages, reply directives and mentions, each stated from the item's own
    fields. */
module ItemRules {
  import opened Wrappers
  import opened Text
  import opened Protocol
  import opened NormalizerSpec
  import opened NormalizerRoundTrip

  // ---------------------------------------------------------------- reactions

  /** A reaction that names a message and an emoji. */
  predicate ReactionAsked(item: ActionItem) {
    && (item.actionType == "reaction_add" || item.actionType == "reaction_remove")
    && item.targetMessageId.Some? && item.targetMessageId.value != ""
    && item.emoji.Some? && item.emoji.value != ""
  }

  /** The action does what the item asks. */
  predicate Does(action: OutboundAction, item: ActionItem) {
    match action
    case ReactionAdd(m, e) =>
      item.actionType == "reaction_add" && item.targetMessageId == Some(m) && item.emoji == Some(e)
    case ReactionRemove(m, e) =>
      item.actionType == "reaction_remove" && item.targetMessageId == Some(m) && item.emoji == Some(e)
  }

  lemma TypesDiffer()
    ensures "reaction_add" != "reaction_remove"
  {
    assert |"reaction_add"| == 12 && |"reaction_remove"| == 15;
  }

  /** One item yields an addition of an emoji to a message exactly when it is one of
      that emoji to that message, both non-empty; likewise a removal; else nothing. */
  lemma ReactionsExactly(item: ActionItem, m: string, e: string)
    ensures ReactionAdd(m, e) in Reactions([item]) <==>
              item.actionType == "reaction_add" && item.targetMessageId == Some(m) && item.emoji == Some(e)
              && m != "" && e != ""
    ensures ReactionRemove(m, e) in Reactions([item]) <==>
              item.actionType == "reaction_remove" && item.targetMessageId == Some(m) && item.emoji == Some(e)
              && m != "" && e != ""
    ensures |Reactions([item])| == if ReactionAsked(item) then 1 else 0
  {
    TypesDiffer();
    assert Reactions([item]) == if ReactionOf(item).Some? then [ReactionOf(item).value] else [];
  }

  /** The actions are those the items ask for, in order. */
  ghost predicate ActionsFollow(items: seq<ActionItem>, actions: seq<OutboundAction>)
    decreases |items|
  {
    if items == [] then actions == []
    else if ReactionAsked(items[0]) then
      actions != [] && Does(actions[0], items[0]) && ActionsFollow(items[1..], actions[1..])
    else ActionsFollow(items[1..], actions)
  }

  lemma {:induction false} ReactionsFollow(items: seq<ActionItem>)
    ensures ActionsFollow(items, Reactions(items))
    decreases |items|
  {
    if items != [] {
      ReactionsFollow(items[1..]);
      TypesDiffer();
      if ReactionAsked(items[0]) {
        assert Reactions(items)[1..] == Reactions(items[1..]);
      } else {
        assert Reactions(items) == Reactions(items[1..]);
      }
    }
  }

  // --------------------------------------------------------------- directives

  /** What a `reply_to` says: nothing; no reply; or a reply to the trimmed target. */
  ghost predicate Directs(value: ReplyTo, target: Option<string>, suppress: bool) {
    match value
    case Missing => target == None && !suppress
    case Null => target == None && suppress
    case Value(text) =>
      !suppress && if AllWhite(text) then target == None else target.Some? && TrimmedTo(text, target.value)
  }

  ghost predicate Says(value: ReplyTo) {
    value.Null? || (value.Value? && !AllWhite(value.value))
  }

  lemma DirectiveExactly(value: ReplyTo)
    ensures Directive(value).Some? <==> Says(value)
    ensures var d := Directive(value);
            Directs(value, if d.Some? then d.value.0 else None, d.Some? && d.value.1)
  {
    if value.Value? {
      TrimExactly(value.value);
    }
  }

  /** The last `reply_to` of an envelope that says something. */
  ghost function LastSaid(blocks: seq<ActionBlock>): ReplyTo {
    if blocks == [] then Missing
    else
      var later := LastSaid(blocks[1..]);
      if later != Missing then later
      else if blocks[0].Envelope? && Says(blocks[0].replyTo) then blocks[0].replyTo
      else Missing
  }

  lemma {:induction false} LastSaidDirects(blocks: seq<ActionBlock>)
    ensures LastSaid(blocks) == Missing <==> LastDirective(blocks) == None
    ensures LastDirective(blocks) == Directive(LastSaid(blocks))
  {
    if blocks != [] {
      LastSaidDirects(blocks[1..]);
      DirectiveExactly(LastSaid(blocks[1..]));
      if blocks[0].Envelope? {
        DirectiveExactly(blocks[0].replyTo);
      }
    }
  }

  // -------------------------------------------------------------------- media

  /** The five media, by the action that asks for them. */
  predicate IsMediaType(actionType: string) {
    actionType in ["send_image", "send_file", "send_voice", "send_video", "send_sticker"]
  }

  predicate IsSourceType(sourceType: string) {
    sourceType in ["workspace_path", "stored_asset", "remote_url", "platform_native_handle", "bridge_handle"]
  }

  /** A media action that names a source of a known type. */
  predicate MediaAsked(item: ActionItem) {
    && IsMediaType(item.actionType) && item.sourceValue.Some?
    && item.sourceType.Some? && IsSourceType(item.sourceType.value)
  }

  predicate SourceTells(source: AssetSource, sourceType: string, value: string) {
    match source
    case WorkspacePath(v) => sourceType == "workspace_path" && v == value
    case ManagedStore(v) => sourceType == "stored_asset" && v == value
    case ExternalUrl(v) => sourceType == "remote_url" && v == value
    case PlatformNativeHandle(v) => sourceType == "platform_native_handle" && v == value
    case BridgeHandle(v) => sourceType == "bridge_handle" && v == value
  }

  predicate AssetTells(asset: AssetRef, kind: string, mime: string, sourceType: string, value: string) {
    && asset.assetId == kind + (":" + value) && asset.kind == kind && asset.mime == mime && asset.sizeBytes == 0
    && SourceTells(asset.source, sourceType, value)
  }

  /** The part is of the medium the action asks for and refers to what it names. */
  predicate PartTells(part: MessagePart, actionType: string, sourceType: string, value: string) {
    match part
    case Image(a) => actionType == "send_image" && AssetTells(a, "image", "image/*", sourceType, value)
    case File(a) => actionType == "send_file" && AssetTells(a, "file", "application/octet-stream", sourceType, value)
    case Voice(a) => actionType == "send_voice" && AssetTells(a, "voice", "audio/*", sourceType, value)
    case Video(a) => actionType == "send_video" && AssetTells(a, "video", "video/*", sourceType, value)
    case Sticker(a) =>
      actionType == "send_sticker" && AssetTells(a, "sticker", "application/x-sticker", sourceType, value)
    case _ => false
  }

  /** The caption, if it has one that is not blank, trimmed. */
  ghost predicate CaptionTells(parts: seq<MessagePart>, caption: Option<string>) {
    if caption.None? || AllWhite(caption.value) then parts == []
    else |parts| == 1 && parts[0].Text? && TrimmedTo(caption.value, parts[0].text)
  }

  /** The message does what the item asks. */
  ghost predicate Sends(message: OutboundMessage, item: ActionItem)
    requires MediaAsked(item)
  {
    && message.parts != []
    && PartTells(message.parts[0], item.actionType, item.sourceType.value, item.sourceValue.value)
    && CaptionTells(message.parts[1..], item.captionText)
    && Directs(item.replyTo, message.replyTo, message.suppressDefaultReply)
  }

  lemma MediaTypesDiffer()
    ensures var types := ["send_image", "send_file", "send_voice", "send_video", "send_sticker"];
            forall i, j | 0 <= i < j < |types| :: types[i] != types[j]
    ensures var kinds := ["image", "file", "voice", "video", "sticker"];
            forall i, j | 0 <= i < j < |kinds| :: kinds[i] != kinds[j]
  {
    assert "send_image"[5] == 'i' && "send_file"[5] == 'f' && "send_voice"[5] == 'v' && "send_video"[5] == 'v';
    assert "send_sticker"[5] == 's' && "send_voice"[6] == 'o' && "send_video"[6] == 'i';
    assert "image"[0] == 'i' && "file"[0] == 'f' && "voice"[0] == 'v' && "video"[0] == 'v' && "sticker"[0] == 's';
    assert "voice"[1] == 'o' && "video"[1] == 'i';
  }

  lemma SourceExactly(sourceType: string, value: string)
    ensures SourceOf(sourceType, value).Some? <==> IsSourceType(sourceType)
    ensures SourceOf(sourceType, value).Some? ==> SourceTells(SourceOf(sourceType, value).value, sourceType, value)
  {
  }

  lemma KindExactly(actionType: string)
    ensures MediaKind(actionType).Some? <==> IsMediaType(actionType)
  {
  }

  lemma AssetExactly(item: ActionItem)
    requires MediaAsked(item) && MediaOf(item).Some?
    ensures PartTells(MediaOf(item).value.parts[0], item.actionType, item.sourceType.value, item.sourceValue.value)
  {
    MediaTypesDiffer();
    MediaHead(item);
    SourceExactly(item.sourceType.value, item.sourceValue.value);
    Regroup(MediaKind(item.actionType).value, ":", item.sourceValue.value);
  }

  lemma CaptionExactly(item: ActionItem)
    ensures CaptionTells(CaptionOf(item), item.captionText)
  {
    if item.captionText.Some? {
      TrimExactly(item.captionText.value);
    }
  }

  lemma MediaShape(item: ActionItem)
    requires MediaOf(item).Some?
    ensures var m, d := MediaOf(item).value, Directive(item.replyTo);
            && m.parts != [] && m.parts[1..] == CaptionOf(item)
            && m.replyTo == (if d.Some? then d.value.0 else None) && m.suppressDefaultReply == (d.Some? && d.value.1)
  {
  }

  /** An item yields a media message exactly when it asks for one, and then that one. */
  lemma MediaExactly(item: ActionItem)
    ensures MediaOf(item).Some? <==> MediaAsked(item)
    ensures MediaOf(item).Some? ==> Sends(MediaOf(item).value, item)
  {
    KindExactly(item.actionType);
    if item.sourceType.Some? && item.sourceValue.Some? {
      SourceExactly(item.sourceType.value, item.sourceValue.value);
    }
    if MediaOf(item).Some? {
      AssetExactly(item);
      MediaShape(item);
      CaptionExactly(item);
      DirectiveExactly(item.replyTo);
    }
  }

  /** The messages are those the items ask for, in order. */
  ghost predicate MessagesFollow(items: seq<ActionItem>, messages: seq<OutboundMessage>)
    decreases |items|
  {
    if items == [] then messages == []
    else if MediaAsked(items[0]) then
      messages != [] && Sends(messages[0], items[0]) && MessagesFollow(items[1..], messages[1..])
    else MessagesFollow(items[1..], messages)
  }

  lemma {:induction false} MediaFollow(items: seq<ActionItem>)
    ensures MessagesFollow(items, Media(items))
    decreases |items|
  {
    if items != [] {
      MediaFollow(items[1..]);
      MediaExactly(items[0]);
      if MediaAsked(items[0]) {
        assert Media(items)[1..] == Media(items[1..]);
      } else {
        assert Media(items) == Media(items[1..]);
      }
    }
  }

  // ----------------------------------------------------------- the whole plan

  /** The body message: the mentions in order, then the text if there is any. */
  ghost predicate BodyTells(parts: seq<MessagePart>, mentions: seq<MentionSpec>, body: string) {
    && |parts| == |mentions| + (if body == "" then 0 else 1)
    && (forall i | 0 <= i < |mentions| :: parts[i] == Mention(mentions[i].actorId, mentions[i].display))
    && (body != "" ==> parts[|mentions|] == Text(body))
  }

  lemma {:induction false} MentionPartsTell(mentions: seq<MentionSpec>)
    ensures |MentionParts(mentions)| == |mentions|
    ensures forall i | 0 <= i < |mentions| ::
              MentionParts(mentions)[i] == Mention(mentions[i].actorId, mentions[i].display)
  {
    if mentions != [] {
      MentionPartsTell(mentions[1..]);
    }
  }

  lemma BodyParts(c: Collected)
    requires !(DegradeMarkdown(Trim(c.body)) == [] && c.mentions == [])
    ensures PlanOf(c).messages != []
    ensures BodyTells(PlanOf(c).messages[0].parts, c.mentions, DegradeMarkdown(Trim(c.body)))
  {
    MentionPartsTell(c.mentions);
  }

  /** For every output, taken as bodies and closed blocks: the actions and the media
      messages are those the blocks' items ask for, in order; before them comes one
      body message with all mentions and the degraded text, unless there is neither;
      it replies as the last envelope that says anything directs. */
  lemma PlanExactly(output: string, segments: seq<Segment>, tail: string, decode: Decoder)
    requires SplitsInto(DropCarriageReturns(output), segments, tail)
    ensures var plan, blocks := Normalize(output, decode), Blocks(segments, decode);
            var body, mentions := DegradeMarkdown(Trim(Bodies(segments) + Delivered(tail))), AllMentions(blocks);
            && ActionsFollow(Items(blocks), plan.actions)
            && if body == "" && mentions == [] then MessagesFollow(Items(blocks), plan.messages)
               else
                 && plan.messages != [] && MessagesFollow(Items(blocks), plan.messages[1..])
                 && BodyTells(plan.messages[0].parts, mentions, body)
                 && Directs(LastSaid(blocks), plan.messages[0].replyTo, plan.messages[0].suppressDefaultReply)
  {
    var blocks, text := Blocks(segments, decode), Bodies(segments) + Delivered(tail);
    var c := Gathered(NOTHING, blocks).(body := text);
    NormalizedPlan(output, segments, tail, decode);
    NormalizeTakesApart(output, segments, tail, decode);
    GatheredFromNothing(blocks, text);
    ReactionsFollow(Items(blocks));
    MediaFollow(Items(blocks));
    LastSaidDirects(blocks);
    DirectiveExactly(LastSaid(blocks));
    if !(DegradeMarkdown(Trim(text)) == "" && AllMentions(blocks) == []) {
      BodyParts(c);
    }
  }
}
