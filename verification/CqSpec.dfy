/** CQ codes (OneBot 11, message string format): what the printer prints and the
    parser parses, as functions on strings. */
module CqSpec {
  import opened Wrappers
  import opened Text
  import opened Protocol

  const AT: string := "[CQ:at,qq="
  const REPLY: string := "[CQ:reply,id="

  function AtCode(digits: string): string {
    AT + digits + "]"
  }

  function ReplyCode(id: string): string {
    REPLY + id + "]"
  }

  // --------------------------------------------------------------- printing

  function EscapeCq(s: string): string {
    ReplaceChar(ReplaceChar(ReplaceChar(s, '&', "&amp;"), '[', "&#91;"), ']', "&#93;")
  }

  /** The number of leading digits. */
  function DigitRun(s: string): (n: nat)
    ensures n <= |s| && AllDigits(s[..n]) && (n < |s| ==> !IsDigit(s[n]))
  {
    if s == [] || !IsDigit(s[0]) then 0
    else
      assert forall k: nat | k <= |s[1..]| :: s[..k + 1] == [s[0]] + s[1..][..k];
      1 + DigitRun(s[1..])
  }

  /** Encodes `rest`, `plain` being the text collected since the last code. */
  function EncodeFrom(plain: string, rest: string): string
    decreases |rest|
  {
    if rest == [] then EscapeCq(plain)
    else if rest[0] != '@' then EncodeFrom(plain + [rest[0]], rest[1..])
    else
      var n := DigitRun(rest[1..]);
      var digits, after := rest[1..][..n], rest[1..][n..];
      if n >= 5 then EscapeCq(plain) + AtCode(digits) + EncodeFrom("", after)
      else EncodeFrom(plain + "@" + digits, after)
  }

  function EncodeQqText(value: string): string {
    EncodeFrom("", value)
  }

  function NormalizeTargetId(value: string): Result<string, string> {
    var id :=
      if "qq:user:" <= value then value[|"qq:user:"|..]
      else if "qq:bot_uin:" <= value then value[|"qq:bot_uin:"|..]
      else value;
    if id == [] || !AllDigits(id) then Err("invalid QQ target id: " + value) else Ok(id)
  }

  function PartCode(part: MessagePart): Result<string, string> {
    match part
    case Text(text) => Ok(EncodeQqText(text))
    case Mention(actorId, _) =>
      (match NormalizeTargetId(actorId) case Ok(id) => Ok(AtCode(id)) case Err(e) => Err(e))
    case Image(asset) => Ok("[CQ:image,file=" + asset.source.value + "]")
    case File(asset) => Ok("[CQ:file,file=" + asset.source.value + "]")
    case Voice(asset) => Ok("[CQ:record,file=" + asset.source.value + "]")
    case Video(asset) => Ok("[CQ:video,file=" + asset.source.value + "]")
    case Sticker(asset) => Ok("[CQ:image,file=" + asset.source.value + "]")
    case Quote(target, _) =>
      (match NormalizeTargetId(target) case Ok(id) => Ok(ReplyCode(id)) case Err(e) => Err(e))
  }

  function PartCodes(parts: seq<MessagePart>): Result<string, string> {
    if parts == [] then Ok("")
    else
      match PartCode(parts[0])
      case Err(e) => Err(e)
      case Ok(code) => (match PartCodes(parts[1..]) case Err(e) => Err(e) case Ok(more) => Ok(code + more))
  }

  function OptionalCode(target: Option<string>, before: string, after: string): Result<string, string> {
    match target
    case None => Ok("")
    case Some(value) =>
      (match NormalizeTargetId(value) case Ok(id) => Ok(before + id + after) case Err(e) => Err(e))
  }

  function Compile(message: OutboundMessage, replyTo: Option<string>, mentionUser: Option<string>):
    Result<string, string>
  {
    match OptionalCode(replyTo, REPLY, "]")
    case Err(e) => Err(e)
    case Ok(reply) =>
      match OptionalCode(mentionUser, AT, "] ")
      case Err(e) => Err(e)
      case Ok(mention) =>
        match PartCodes(message.parts)
        case Err(e) => Err(e)
        case Ok(body) => Ok(reply + mention + body)
  }

  // ---------------------------------------------------------------- parsing

  /** A reply token without its end makes the loop stop with the copied prefix
      still in what remains. */
  function StripReplyTokens(value: string): string
    decreases |value|
  {
    match Find(value, REPLY)
    case None => value
    case Some(index) =>
      var after := value[index + |REPLY|..];
      match Find(after, "]")
      case None => value[..index] + value
      case Some(end) => value[..index] + StripReplyTokens(after[end + 1..])
  }

  function NormalizeActorId(value: string, prefix: string): string {
    if prefix <= value then value else prefix + value
  }

  /** The account's own number; empty when the account is not a bot account. */
  function BotUin(account: string): string {
    if "qq:bot_uin:" <= account then account[|"qq:bot_uin:"|..] else ""
  }

  function ActorOf(qq: string, account: string): string {
    if qq == BotUin(account) then account else NormalizeActorId(qq, "qq:user:")
  }

  function MentionOf(qq: string, account: string): MessagePart {
    Mention(ActorOf(qq, account), "@" + qq)
  }

  function TextPart(text: string): seq<MessagePart> {
    if text == [] then [] else [Text(text)]
  }

  function ParseRaw(raw: string, account: string): seq<MessagePart>
    decreases |raw|
  {
    match Find(raw, AT)
    case None => TextPart(StripReplyTokens(raw))
    case Some(index) =>
      var after := raw[index + |AT|..];
      TextPart(raw[..index]) +
      match Find(after, "]")
      case None => TextPart(StripReplyTokens(raw))
      case Some(end) => [MentionOf(after[..end], account)] + ParseRaw(after[end + 1..], account)
  }

  function ExtractReply(raw: string): Option<string> {
    match Find(raw, REPLY)
    case None => None
    case Some(index) =>
      var after := raw[index + |REPLY|..];
      match Find(after, "]")
      case None => None
      case Some(end) => Some(after[..end])
  }
}
