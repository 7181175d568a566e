/** The normalizer's loops over a shrinking remainder and growing buffers, each
    proved to compute the function of NormalizerSpec.dfy of its name. */
module Normalizer {
  import opened Wrappers
  import opened Text
  import opened Protocol
  import opened NormalizerSpec

  method AppendActionItems(c: Collected, items: seq<ActionItem>)
    returns (messages: seq<OutboundMessage>, actions: seq<OutboundAction>)
    ensures AppendItems(c, items) == c.(messages := messages, actions := actions)
  {
    messages, actions := c.messages, c.actions;
    var i := 0;
    while i < |items|
      invariant 0 <= i <= |items|
      invariant AppendItems(c, items) == AppendItems(c.(messages := messages, actions := actions), items[i..])
    {
      var item := items[i];
      assert items[i..][1..] == items[i + 1..];
      assert messages + [] == messages && actions + [] == actions;
      i := i + 1;
      if item.actionType == "reaction_add" || item.actionType == "reaction_remove" {
        var action := ReactionOf(item);
        if action.Some? {
          actions := actions + [action.value];
        }
        continue;
      }
      var message := MediaOf(item);
      if message.Some? {
        messages := messages + [message.value];
      }
    }
    assert items[i..] == [];
  }

  lemma LinkStep(output: string, rest: string, l: LinkFound)
    requires FirstLink(rest) == Some(l)
    ensures output + l.before + l.caption + ": " + l.url + ReplaceLinks(l.next) == output + ReplaceLinks(rest)
  {
    Regroup(output, l.before + l.caption + ": " + l.url, ReplaceLinks(l.next));
    Regroup(output, l.before + l.caption + ": ", l.url);
    Regroup(output, l.before + l.caption, ": ");
    Regroup(output, l.before, l.caption);
  }

  method ReplaceMarkdownLinks(input: string) returns (output: string)
    ensures output == ReplaceLinks(input)
  {
    output := "";
    var rest := input;
    var found := FirstLink(rest);
    while found.Some?
      invariant found == FirstLink(rest)
      invariant output + ReplaceLinks(rest) == ReplaceLinks(input)
      decreases |rest|
    {
      var l := found.value;
      LinkStep(output, rest, l);
      output, rest := output + l.before + l.caption + ": " + l.url, l.next;
      found := FirstLink(rest);
    }
    output := output + rest;
  }

  method AbsorbBlock(c: Collected, block: Option<ActionBlock>) returns (c': Collected)
    ensures c' == Absorb(c, block)
  {
    c' := c;
    if block.None? {
      return;
    }
    var items := if block.value.Single? then [block.value.item] else block.value.actions;
    if block.value.Envelope? {
      var directive := Directive(block.value.replyTo);
      if directive.Some? {
        c' := c'.(replyTo := directive.value.0, suppress := directive.value.1);
      }
      c' := c'.(mentions := c'.mentions + block.value.mentions);
    }
    var messages, actions := AppendActionItems(c', items);
    c' := c'.(messages := messages, actions := actions);
  }

  lemma ScanUnclosed(c: Collected, remaining: string, index: nat, decode: Decoder)
    requires Find(remaining, OPENER) == Some(index)
    requires Find(TrimStart(remaining[index + |OPENER|..]), CLOSER).None?
    ensures Scan(c, remaining, decode) == c.(body := c.body + remaining[..index] + remaining)
  {
  }

  lemma ScanClosed(c: Collected, remaining: string, index: nat, block: string, end: nat, decode: Decoder)
    requires Find(remaining, OPENER) == Some(index)
    requires block == TrimStart(remaining[index + |OPENER|..]) && Find(block, CLOSER) == Some(end)
    ensures |block[end + |CLOSER|..]| < |remaining|
    ensures Scan(c, remaining, decode) ==
            Scan(Absorb(c.(body := c.body + remaining[..index]), decode(Trim(block[..end]))),
                 block[end + |CLOSER|..], decode)
  {
    TrimStartShorter(remaining[index + |OPENER|..]);
  }

  method NormalizeAgentOutput(output: string, decode: Decoder) returns (plan: OutboundPlan)
    ensures plan == Normalize(output, decode)
  {
    var remaining := DropCarriageReturns(output);
    var c := NOTHING;
    var index := Find(remaining, OPENER);
    while index.Some?
      invariant index == Find(remaining, OPENER)
      invariant Scan(c, remaining, decode) == Scan(NOTHING, DropCarriageReturns(output), decode)
      decreases |remaining|
    {
      var block := TrimStart(remaining[index.value + |OPENER|..]);
      var end := Find(block, CLOSER);
      if end.None? {
        ScanUnclosed(c, remaining, index.value, decode);
        c := c.(body := c.body + remaining[..index.value]);
        break;
      }
      ScanClosed(c, remaining, index.value, block, end.value, decode);
      c := c.(body := c.body + remaining[..index.value]);
      c := AbsorbBlock(c, decode(Trim(block[..end.value])));
      remaining := block[end.value + |CLOSER|..];
      index := Find(remaining, OPENER);
    }
    if index.None? {
      ScanRest(c, remaining, decode);
    }
    c := c.(body := c.body + remaining);
    plan := PlanOf(c);
  }
}
