/** Any output made of body segments and closed action blocks is taken apart
    again into its bodies and its blocks, in order. */
module NormalizerRoundTrip {
  import opened Wrappers
  import opened Text
  import opened Protocol
  import opened NormalizerSpec

  /** Body text, then an action block: its payload stands behind some white space. */
  datatype Segment = Segment(body: string, gap: string, payload: string)

  function RenderDoc(segments: seq<Segment>, tail: string): string {
    if segments == [] then tail
    else
      segments[0].body + "```dogbot-action"
      + (segments[0].gap + (segments[0].payload + "\n```" + RenderDoc(segments[1..], tail)))
  }

  ghost predicate WellFormed(s: Segment) {
    && !Contains(s.body, OPENER)
    && (forall i | 0 <= i < |s.gap| :: IsWhitespace(s.gap[i]))
    && s.payload != [] && !IsWhitespace(s.payload[0]) && !Contains(s.payload, CLOSER)
  }

  lemma FencesAreBorderless()
    ensures Borderless(OPENER) && Borderless(CLOSER)
  {
    forall k | 0 < k < |OPENER| ensures !(OPENER[k..] <= OPENER) {
      if k < 3 {
        assert OPENER[k..][3 - k] == 'd' && OPENER[3 - k] == '`';
      } else {
        assert OPENER[k..][0] != '`';
      }
    }
    forall k | 0 < k < |CLOSER| ensures !(CLOSER[k..] <= CLOSER) {
      assert CLOSER[k..][0] == '`' && CLOSER[0] == '\n';
    }
  }

  // ------------------------------------------------------ what is expected

  function Bodies(segments: seq<Segment>): string {
    if segments == [] then "" else segments[0].body + Bodies(segments[1..])
  }

  /** The blocks the decoder accepts, in order. */
  function Blocks(segments: seq<Segment>, decode: Decoder): seq<ActionBlock> {
    if segments == [] then []
    else
      var block := decode(Trim(segments[0].payload));
      (if block.Some? then [block.value] else []) + Blocks(segments[1..], decode)
  }

  function ItemsOf(block: ActionBlock): seq<ActionItem> {
    if block.Single? then [block.item] else block.actions
  }

  function Items(blocks: seq<ActionBlock>): seq<ActionItem> {
    if blocks == [] then [] else ItemsOf(blocks[0]) + Items(blocks[1..])
  }

  function Media(items: seq<ActionItem>): seq<OutboundMessage> {
    if items == [] then []
    else (if MediaOf(items[0]).Some? then [MediaOf(items[0]).value] else []) + Media(items[1..])
  }

  function Reactions(items: seq<ActionItem>): seq<OutboundAction> {
    if items == [] then []
    else (if ReactionOf(items[0]).Some? then [ReactionOf(items[0]).value] else []) + Reactions(items[1..])
  }

  function AllMentions(blocks: seq<ActionBlock>): seq<MentionSpec> {
    if blocks == [] then []
    else (if blocks[0].Envelope? then blocks[0].mentions else []) + AllMentions(blocks[1..])
  }

  /** The last `reply_to` of an envelope that says anything. */
  function LastDirective(blocks: seq<ActionBlock>): Option<(Option<string>, bool)> {
    if blocks == [] then None
    else
      var later := LastDirective(blocks[1..]);
      if later.Some? then later
      else if blocks[0].Envelope? then Directive(blocks[0].replyTo)
      else None
  }

  function WithDirective(c: Collected, d: Option<(Option<string>, bool)>): Collected {
    if d.Some? then c.(replyTo := d.value.0, suppress := d.value.1) else c
  }

  /** `c` with all of `blocks` added. */
  function Gathered(c: Collected, blocks: seq<ActionBlock>): Collected {
    WithDirective(c, LastDirective(blocks)).(
      mentions := c.mentions + AllMentions(blocks),
      messages := c.messages + Media(Items(blocks)),
      actions := c.actions + Reactions(Items(blocks)))
  }

  // ----------------------------------------------------------------- proofs

  lemma {:induction false} AppendItemsIs(c: Collected, items: seq<ActionItem>)
    ensures AppendItems(c, items) == c.(messages := c.messages + Media(items), actions := c.actions + Reactions(items))
    decreases |items|
  {
    if items == [] {
      assert c.messages + [] == c.messages && c.actions + [] == c.actions;
    } else {
      var media := if MediaOf(items[0]).Some? then [MediaOf(items[0]).value] else [];
      var reactions := if ReactionOf(items[0]).Some? then [ReactionOf(items[0]).value] else [];
      AppendItemIs(c, items[0], media, reactions);
      AppendItemsIs(AppendItem(c, items[0]), items[1..]);
      Regroup(c.messages, media, Media(items[1..]));
      Regroup(c.actions, reactions, Reactions(items[1..]));
    }
  }

  lemma AppendItemIs(c: Collected, item: ActionItem, media: seq<OutboundMessage>, reactions: seq<OutboundAction>)
    requires media == if MediaOf(item).Some? then [MediaOf(item).value] else []
    requires reactions == if ReactionOf(item).Some? then [ReactionOf(item).value] else []
    ensures AppendItem(c, item) == c.(messages := c.messages + media, actions := c.actions + reactions)
  {
    assert c.messages + [] == c.messages && c.actions + [] == c.actions;
  }

  lemma {:induction false} MediaJoins(xs: seq<ActionItem>, ys: seq<ActionItem>)
    ensures Media(xs + ys) == Media(xs) + Media(ys)
  {
    if xs == [] {
      assert xs + ys == ys;
    } else {
      assert (xs + ys)[1..] == xs[1..] + ys;
      MediaJoins(xs[1..], ys);
      Regroup(if MediaOf(xs[0]).Some? then [MediaOf(xs[0]).value] else [], Media(xs[1..]), Media(ys));
    }
  }

  lemma {:induction false} ReactionsJoin(xs: seq<ActionItem>, ys: seq<ActionItem>)
    ensures Reactions(xs + ys) == Reactions(xs) + Reactions(ys)
  {
    if xs == [] {
      assert xs + ys == ys;
    } else {
      assert (xs + ys)[1..] == xs[1..] + ys;
      ReactionsJoin(xs[1..], ys);
      Regroup(if ReactionOf(xs[0]).Some? then [ReactionOf(xs[0]).value] else [], Reactions(xs[1..]), Reactions(ys));
    }
  }

  lemma OneBlock(block: ActionBlock)
    ensures Items([block]) == ItemsOf(block)
    ensures AllMentions([block]) == if block.Envelope? then block.mentions else []
    ensures LastDirective([block]) == if block.Envelope? then Directive(block.replyTo) else None
  {
    assert [block][1..] == [];
    assert ItemsOf(block) + [] == ItemsOf(block);
  }

  lemma AbsorbGathers(c: Collected, block: Option<ActionBlock>)
    ensures Absorb(c, block) == Gathered(c, if block.Some? then [block.value] else [])
  {
    if block.None? {
      assert c.messages + [] == c.messages && c.actions + [] == c.actions && c.mentions + [] == c.mentions;
    } else {
      OneBlock(block.value);
      match block.value
      case Single(item) =>
        AppendItemsIs(c, [item]);
        assert c.mentions + [] == c.mentions;
      case Envelope(replyTo, mentions, actions) =>
        AppendItemsIs(WithDirective(c, Directive(replyTo)).(mentions := c.mentions + mentions), actions);
    }
  }

  lemma LastDirectiveJoins(first: seq<ActionBlock>, rest: seq<ActionBlock>)
    requires |first| <= 1
    ensures LastDirective(first + rest) ==
            if LastDirective(rest).Some? then LastDirective(rest) else LastDirective(first)
    ensures AllMentions(first + rest) == AllMentions(first) + AllMentions(rest)
    ensures Items(first + rest) == Items(first) + Items(rest)
  {
    if first == [] {
      assert first + rest == rest;
    } else {
      assert (first + rest)[1..] == rest && first == [first[0]];
      OneBlock(first[0]);
    }
  }

  lemma GatherTwice(c: Collected, first: seq<ActionBlock>, rest: seq<ActionBlock>)
    requires |first| <= 1
    ensures Gathered(Gathered(c, first), rest) == Gathered(c, first + rest)
  {
    LastDirectiveJoins(first, rest);
    MediaJoins(Items(first), Items(rest));
    ReactionsJoin(Items(first), Items(rest));
    Regroup(c.mentions, AllMentions(first), AllMentions(rest));
    Regroup(c.messages, Media(Items(first)), Media(Items(rest)));
    Regroup(c.actions, Reactions(Items(first)), Reactions(Items(rest)));
  }

  lemma GatherKeepsBody(c: Collected, blocks: seq<ActionBlock>, body: string)
    ensures Gathered(c.(body := body), blocks) == Gathered(c, blocks).(body := body)
    ensures Gathered(c, blocks).body == c.body
  {
  }

  /** One segment: the loop copies its body and absorbs its block. */
  lemma ScanSegment(c: Collected, s: Segment, rest: string, decode: Decoder)
    requires WellFormed(s)
    ensures Scan(c, s.body + OPENER + (s.gap + (s.payload + CLOSER + rest)), decode) ==
            Scan(Absorb(c.(body := c.body + s.body), decode(Trim(s.payload))), rest, decode)
  {
    FencesAreBorderless();
    var block := s.payload + CLOSER + rest;
    var doc := s.body + OPENER + (s.gap + block);
    FindBorderless(s.body, OPENER, s.gap + block);
    Sliced(s.body, OPENER, s.gap + block);
    assert block[0] == s.payload[0];
    TrimStartSkips(s.gap, block);
    FindBorderless(s.payload, CLOSER, rest);
    Sliced(s.payload, CLOSER, rest);
  }

  lemma Sliced(a: string, b: string, c: string)
    ensures (a + b + c)[..|a|] == a && (a + b + c)[|a| + |b|..] == c
  {
  }

  /** All segments: whatever follows them is scanned with their text and blocks collected. */
  lemma {:induction false} ScanDoc(c: Collected, segments: seq<Segment>, tail: string, decode: Decoder)
    requires forall i | 0 <= i < |segments| :: WellFormed(segments[i])
    ensures Scan(c, RenderDoc(segments, tail), decode) ==
            Scan(Gathered(c, Blocks(segments, decode)).(body := c.body + Bodies(segments)), tail, decode)
    decreases |segments|
  {
    if segments == [] {
      AbsorbGathers(c, None);
      assert c.body + "" == c.body;
    } else {
      var s, rest := segments[0], segments[1..];
      var block := decode(Trim(s.payload));
      var first := if block.Some? then [block.value] else [];
      var c1 := c.(body := c.body + s.body);
      ScanSegment(c, s, RenderDoc(rest, tail), decode);
      AbsorbGathers(c1, block);
      ScanDoc(Gathered(c1, first), rest, tail, decode);
      GatherTwice(c1, first, Blocks(rest, decode));
      GatherKeepsBody(c, first + Blocks(rest, decode), c.body + s.body);
      GatherKeepsBody(c1, first, c.body);
      Regroup(c.body, s.body, Bodies(rest));
    }
  }

  /** For every output, taken up to its line ends as bodies and closed blocks: the
      collected text is the bodies and what is delivered of the tail, in order; media
      messages and actions come in block order; mentions are gathered; the reply
      target is that of the last block that names one. Blocks the decoder refuses
      leave no trace. */
  lemma NormalizeTakesApart(output: string, segments: seq<Segment>, tail: string, decode: Decoder)
    requires SplitsInto(DropCarriageReturns(output), segments, tail)
    ensures var blocks := Blocks(segments, decode);
            Normalize(output, decode) ==
            PlanOf(Gathered(NOTHING, blocks).(body := Bodies(segments) + Delivered(tail)))
  {
    ScanFromNothing(segments, tail, decode);
    ScanTail(Gathered(NOTHING, Blocks(segments, decode)).(body := Bodies(segments)), tail, decode);
  }

  /** What is delivered of the text behind the last closed block: what stands before
      a block that is never closed comes twice. */
  function Delivered(tail: string): string {
    match Find(tail, OPENER)
    case None => tail
    case Some(index) => tail[..index] + tail
  }

  lemma ScanTail(c: Collected, tail: string, decode: Decoder)
    requires NoClosedBlock(tail)
    ensures Scan(c, tail, decode) == c.(body := c.body + Delivered(tail))
  {
    if Find(tail, OPENER).None? {
      ScanRest(c, tail, decode);
    } else {
      Regroup(c.body, tail[..Find(tail, OPENER).value], tail);
    }
  }

  lemma ScanFromNothing(segments: seq<Segment>, tail: string, decode: Decoder)
    requires forall i | 0 <= i < |segments| :: WellFormed(segments[i])
    ensures Scan(NOTHING, RenderDoc(segments, tail), decode) ==
            Scan(Gathered(NOTHING, Blocks(segments, decode)).(body := Bodies(segments)), tail, decode)
  {
    ScanDoc(NOTHING, segments, tail, decode);
    assert "" + Bodies(segments) == Bodies(segments);
  }

  /** The body message of a plan comes first, mentions before text. */
  lemma PlanShape(c: Collected)
    ensures var plan, body := PlanOf(c), DegradeMarkdown(Trim(c.body));
            && plan.actions == c.actions
            && if body == [] && c.mentions == [] then plan.messages == c.messages
               else
                 && plan.messages != [] && plan.messages[1..] == c.messages
                 && plan.messages[0].replyTo == c.replyTo
                 && plan.messages[0].suppressDefaultReply == c.suppress
                 && PlainText(plan.messages[0].parts) == PlainText(MentionParts(c.mentions)) + body
  {
    var body := DegradeMarkdown(Trim(c.body));
    var text := if body == [] then [] else [Text(body)];
    if body != [] {
      PlainTextOne(Text(body));
    }
    PlainTextJoins(MentionParts(c.mentions), text);
  }

  /** The plan: the body message, if there is one, comes first and carries the
      last reply directive; then the media messages and the actions in block order. */
  lemma NormalizedPlan(output: string, segments: seq<Segment>, tail: string, decode: Decoder)
    requires SplitsInto(DropCarriageReturns(output), segments, tail)
    ensures var plan, blocks := Normalize(output, decode), Blocks(segments, decode);
            var body, d := DegradeMarkdown(Trim(Bodies(segments) + Delivered(tail))), LastDirective(blocks);
            && plan.actions == Reactions(Items(blocks))
            && if body == [] && AllMentions(blocks) == [] then plan.messages == Media(Items(blocks))
               else
                 && plan.messages != [] && plan.messages[1..] == Media(Items(blocks))
                 && plan.messages[0].replyTo == (if d.Some? then d.value.0 else None)
                 && plan.messages[0].suppressDefaultReply == (d.Some? && d.value.1)
                 && PlainText(plan.messages[0].parts) == PlainText(MentionParts(AllMentions(blocks))) + body
  {
    NormalizeTakesApart(output, segments, tail, decode);
    var blocks := Blocks(segments, decode);
    var text := Bodies(segments) + Delivered(tail);
    var c := Gathered(NOTHING, blocks).(body := text);
    GatheredFromNothing(blocks, text);
    PlanShape(c);
  }

  lemma GatheredFromNothing(blocks: seq<ActionBlock>, text: string)
    ensures var c, d := Gathered(NOTHING, blocks).(body := text), LastDirective(blocks);
            && c.mentions == AllMentions(blocks) && c.messages == Media(Items(blocks))
            && c.actions == Reactions(Items(blocks))
            && c.replyTo == (if d.Some? then d.value.0 else None) && c.suppress == (d.Some? && d.value.1)
  {
    assert [] + AllMentions(blocks) == AllMentions(blocks);
    assert [] + Media(Items(blocks)) == Media(Items(blocks));
    assert [] + Reactions(Items(blocks)) == Reactions(Items(blocks));
  }

  // ------------------------------------------------------------- every output

  /** What may follow the last closed block: text, or a block that is never closed. */
  predicate NoClosedBlock(tail: string) {
    match Find(tail, OPENER)
    case None => true
    case Some(index) => Find(TrimStart(tail[index + |OPENER|..]), CLOSER).None?
  }

  lemma FirstBlock(s: string) returns (first: Segment, rest: string)
    requires !NoClosedBlock(s)
    ensures WellFormed(first) && |rest| < |s|
    ensures s == first.body + OPENER + (first.gap + (first.payload + CLOSER + rest))
  {
    var body, after := SplitAtFirst(s, OPENER);
    NoneBefore(body, OPENER, after);
    var gap := TrimStartCuts(after);
    var block := TrimStart(after);
    var payload, more := SplitAtFirst(block, CLOSER);
    NoneBefore(payload, CLOSER, more);
    assert IsWhitespace(CLOSER[0]);
    first, rest := Segment(body, gap, payload), more;
  }

  ghost predicate SplitsInto(s: string, segments: seq<Segment>, tail: string) {
    && (forall i | 0 <= i < |segments| :: WellFormed(segments[i]))
    && NoClosedBlock(tail) && s == RenderDoc(segments, tail)
  }

  lemma SplitsPrepend(first: Segment, rest: string, segments: seq<Segment>, tail: string)
    requires WellFormed(first) && SplitsInto(rest, segments, tail)
    ensures SplitsInto(first.body + OPENER + (first.gap + (first.payload + CLOSER + rest)), [first] + segments, tail)
  {
    assert ([first] + segments)[1..] == segments;
  }

  /** Every output whatever is such an alternation, up to what follows its last closed block. */
  lemma {:induction false} EveryOutputSplits(s: string)
    ensures exists segments, tail :: SplitsInto(s, segments, tail)
    decreases |s|
  {
    if NoClosedBlock(s) {
      assert SplitsInto(s, [], s);
    } else {
      var first, rest := FirstBlock(s);
      EveryOutputSplits(rest);
      var segments, tail :| SplitsInto(rest, segments, tail);
      SplitsPrepend(first, rest, segments, tail);
    }
  }

  /** The collected text is the bodies and the tail exactly when no text stands
      between the last closed block and an unclosed one; such text comes twice. */
  lemma TextKeptExactly(segments: seq<Segment>, tail: string, decode: Decoder)
    requires SplitsInto(RenderDoc(segments, tail), segments, tail)
    ensures var text := Scan(NOTHING, RenderDoc(segments, tail), decode).body;
            && text == Bodies(segments) + Delivered(tail)
            && (text == Bodies(segments) + tail <==> (Contains(tail, OPENER) ==> OPENER <= tail))
  {
    ScanFromNothing(segments, tail, decode);
    ScanTail(Gathered(NOTHING, Blocks(segments, decode)).(body := Bodies(segments)), tail, decode);
    if Find(tail, OPENER).Some? {
      var before := tail[..Find(tail, OPENER).value];
      assert |Bodies(segments) + (before + tail)| == |Bodies(segments) + tail| + |before|;
      if before == "" {
        assert before + tail == tail;
      } else {
        assert tail[0..] == tail;
      }
    }
  }

  /** Only line ends written as two characters are rewritten. */
  lemma {:induction false} FoldKeepsExactly(s: string)
    ensures DropCarriageReturns(s) == s <==> !Contains(s, "\r\n")
    ensures |DropCarriageReturns(s)| <= |s|
  {
    if s != [] {
      var k := if "\r\n" <= s then 2 else 1;
      FoldKeepsExactly(s[k..]);
    }
  }

  // ---------------------------------------------------------------- one item

  lemma KindTellsType(a: string, b: string)
    requires MediaKind(a).Some? && MediaKind(a) == MediaKind(b)
    ensures a == b
  {
    assert |"image"| == 5 && |"file"| == 4 && |"voice"| == 5 && |"video"| == 5 && |"sticker"| == 7;
    assert "image"[0] == 'i' && "voice"[0] == 'v' && "video"[0] == 'v';
    assert "voice"[1] == 'o' && "video"[1] == 'i';
  }

  lemma SourceTellsType(a: string, v: string, b: string, w: string)
    requires SourceOf(a, v).Some? && SourceOf(a, v) == SourceOf(b, w)
    ensures a == b && v == w
  {
  }

  lemma PartTellsAsset(k: string, a: AssetRef, l: string, b: AssetRef)
    requires MediaPart(k, a) == MediaPart(l, b)
    ensures a == b
  {
  }

  /** What a media item names. */
  function AssetOf(item: ActionItem): AssetRef
    requires MediaOf(item).Some?
  {
    var kind := MediaKind(item.actionType).value;
    AssetRef(kind + ":" + item.sourceValue.value, kind, DefaultMime(kind), 0,
             SourceOf(item.sourceType.value, item.sourceValue.value).value)
  }

  lemma MediaHead(item: ActionItem)
    requires MediaOf(item).Some?
    ensures MediaOf(item).value.parts[0] == MediaPart(MediaKind(item.actionType).value, AssetOf(item))
  {
  }

  lemma AssetTellsItem(a: ActionItem, b: ActionItem)
    requires MediaOf(a).Some? && MediaOf(b).Some? && AssetOf(a) == AssetOf(b)
    ensures a.actionType == b.actionType && a.sourceType == b.sourceType && a.sourceValue == b.sourceValue
  {
    KindTellsType(a.actionType, b.actionType);
    SourceTellsType(a.sourceType.value, a.sourceValue.value, b.sourceType.value, b.sourceValue.value);
  }

  /** The media part says what the item asked for: two items yield the same part
      exactly when action type, source type and source value agree. */
  lemma MediaTellsItem(a: ActionItem, b: ActionItem)
    requires MediaOf(a).Some? && MediaOf(b).Some?
    ensures MediaOf(a).value.parts[0] == MediaOf(b).value.parts[0] <==>
              a.actionType == b.actionType && a.sourceType == b.sourceType && a.sourceValue == b.sourceValue
  {
    MediaHead(a);
    MediaHead(b);
    if MediaOf(a).value.parts[0] == MediaOf(b).value.parts[0] {
      PartTellsAsset(MediaKind(a.actionType).value, AssetOf(a), MediaKind(b.actionType).value, AssetOf(b));
      AssetTellsItem(a, b);
    }
  }
}
