/** The platform-neutral messages that the adapters compile and parse. */
module Protocol {
  import opened Wrappers

  datatype AssetSource =
    | WorkspacePath(value: string)
    | ManagedStore(value: string)
    | ExternalUrl(value: string)
    | PlatformNativeHandle(value: string)
    | BridgeHandle(value: string)

  datatype AssetRef = AssetRef(assetId: string, kind: string, mime: string, sizeBytes: nat, source: AssetSource)

  datatype MessagePart =
    | Text(text: string)
    | Mention(actorId: string, display: string)
    | Image(asset: AssetRef)
    | File(asset: AssetRef)
    | Voice(asset: AssetRef)
    | Video(asset: AssetRef)
    | Sticker(asset: AssetRef)
    | Quote(targetMessageId: string, excerpt: string)

  datatype OutboundMessage = OutboundMessage(
    parts: seq<MessagePart>,
    replyTo: Option<string>,
    suppressDefaultReply: bool)

  datatype OutboundAction =
    | ReactionAdd(targetMessageId: string, emoji: string)
    | ReactionRemove(targetMessageId: string, emoji: string)

  datatype OutboundPlan = OutboundPlan(messages: seq<OutboundMessage>, actions: seq<OutboundAction>)

  function PartText(part: MessagePart): string {
    match part
    case Text(text) => text
    case Mention(_, display) => display
    case _ => ""
  }

  /** Text parts and mention displays, joined. */
  function PlainText(parts: seq<MessagePart>): string {
    if parts == [] then "" else PartText(parts[0]) + PlainText(parts[1..])
  }

  lemma {:induction false} PlainTextJoins(xs: seq<MessagePart>, ys: seq<MessagePart>)
    ensures PlainText(xs + ys) == PlainText(xs) + PlainText(ys)
  {
    if xs == [] {
      assert xs + ys == ys;
    } else {
      assert (xs + ys)[1..] == xs[1..] + ys;
      PlainTextJoins(xs[1..], ys);
    }
  }

  lemma PlainTextOne(part: MessagePart)
    ensures PlainText([part]) == PartText(part)
  {
    assert [part][1..] == [];
    assert PartText(part) + "" == PartText(part);
  }

  /** Media and quotes show nothing, wherever they stand. */
  lemma PlainTextSkips(xs: seq<MessagePart>, part: MessagePart, ys: seq<MessagePart>)
    requires !part.Text? && !part.Mention?
    ensures PlainText(xs + [part] + ys) == PlainText(xs + ys)
  {
    PlainTextOne(part);
    PlainTextJoins(xs, [part]);
    PlainTextJoins(xs + [part], ys);
    PlainTextJoins(xs, ys);
    assert PlainText(xs) + "" == PlainText(xs);
  }

  /** A text shows itself and a mention its display. */
  lemma PlainTextShows(xs: seq<MessagePart>, text: string, actorId: string, display: string)
    ensures PlainText(xs + [Text(text)]) == PlainText(xs) + text
    ensures PlainText(xs + [Mention(actorId, display)]) == PlainText(xs) + display
  {
    PlainTextOne(Text(text));
    PlainTextOne(Mention(actorId, display));
    PlainTextJoins(xs, [Text(text)]);
    PlainTextJoins(xs, [Mention(actorId, display)]);
  }
}
