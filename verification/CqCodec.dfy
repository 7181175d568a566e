/** The printer and the parser as loops over a cursor and a growing buffer, each
    proved to compute the function of CqSpec.dfy of its name. */
module CqCodec {
  import opened Wrappers
  import opened Text
  import opened Protocol
  import opened CqSpec

  // --------------------------------------------------------------- printing

  lemma DigitRunIs(s: string, n: nat)
    requires n <= |s| && AllDigits(s[..n]) && (n < |s| ==> !IsDigit(s[n]))
    ensures DigitRun(s) == n
  {
    var m := DigitRun(s);
    assert forall k | 0 <= k < n :: s[k] == s[..n][k] && IsDigit(s[k]);
    assert forall k | 0 <= k < m :: s[k] == s[..m][k] && IsDigit(s[k]);
  }

  /** Reads the digits from `start` on. */
  method TakeDigits(value: string, start: nat) returns (digits: string)
    requires start <= |value|
    ensures |digits| == DigitRun(value[start..]) && digits == value[start..][..|digits|]
  {
    digits := "";
    var i := start;
    while i < |value| && IsDigit(value[i])
      invariant start <= i <= |value|
      invariant digits == value[start..i] && AllDigits(digits)
    {
      digits := digits + [value[i]];
      i := i + 1;
    }
    assert value[start..][..i - start] == digits;
    DigitRunIs(value[start..], i - start);
  }

  lemma EncodeAtSign(plain: string, rest: string, digits: string)
    requires rest != [] && rest[0] == '@'
    requires |digits| == DigitRun(rest[1..]) && digits == rest[1..][..|digits|]
    ensures EncodeFrom(plain, rest) ==
            if |digits| >= 5 then EscapeCq(plain) + AtCode(digits) + EncodeFrom("", rest[1 + |digits|..])
            else EncodeFrom(plain + "@" + digits, rest[1 + |digits|..])
  {
    assert rest[1..][|digits|..] == rest[1 + |digits|..];
  }

  method EncodeText(value: string) returns (output: string)
    ensures output == EncodeQqText(value)
  {
    output := "";
    var plain := "";
    var i := 0;
    while i < |value|
      invariant 0 <= i <= |value|
      invariant output + EncodeFrom(plain, value[i..]) == EncodeQqText(value)
    {
      var ch := value[i];
      if ch != '@' {
        assert value[i..][1..] == value[i + 1..];
        plain := plain + [ch];
        i := i + 1;
        continue;
      }
      assert value[i..][1..] == value[i + 1..];
      var digits := TakeDigits(value, i + 1);
      EncodeAtSign(plain, value[i..], digits);
      assert value[i..][1 + |digits|..] == value[i + 1 + |digits|..];
      i := i + 1 + |digits|;
      if |digits| >= 5 {
        Regroup(output, EscapeCq(plain) + AtCode(digits), EncodeFrom("", value[i..]));
        Regroup(output, EscapeCq(plain), AtCode(digits));
        output := output + EscapeCq(plain) + AtCode(digits);
        plain := "";
      } else {
        plain := plain + "@" + digits;
      }
    }
    assert value[i..] == [];
    output := output + EscapeCq(plain);
  }

  function Prepend(s: string, r: Result<string, string>): Result<string, string> {
    match r case Ok(t) => Ok(s + t) case Err(e) => Err(e)
  }

  lemma PrependTwice(a: string, b: string, r: Result<string, string>)
    ensures Prepend(a, Prepend(b, r)) == Prepend(a + b, r)
    ensures Prepend("", r) == r
  {
    if r.Ok? {
      assert a + (b + r.value) == a + b + r.value;
      assert "" + r.value == r.value;
    }
  }

  /** The codes of the parts in order; the first invalid id ends the loop. */
  method CompileParts(parts: seq<MessagePart>) returns (result: Result<string, string>)
    ensures result == PartCodes(parts)
  {
    var output := "";
    var i := 0;
    PrependTwice("", "", PartCodes(parts));
    while i < |parts|
      invariant 0 <= i <= |parts|
      invariant PartCodes(parts) == Prepend(output, PartCodes(parts[i..]))
    {
      var code := PartCode(parts[i]);
      assert parts[i..][1..] == parts[i + 1..];
      if code.Err? {
        return Err(code.error);
      }
      PrependTwice(output, code.value, PartCodes(parts[i + 1..]));
      output := output + code.value;
      i := i + 1;
    }
    assert parts[i..] == [] && output + "" == output;
    result := Ok(output);
  }

  method CompileMessage(message: OutboundMessage, replyTo: Option<string>, mentionUser: Option<string>)
    returns (result: Result<string, string>)
    ensures result == Compile(message, replyTo, mentionUser)
  {
    var output := "";
    if replyTo.Some? {
      var id := NormalizeTargetId(replyTo.value);
      if id.Err? {
        return Err(id.error);
      }
      output := REPLY + id.value + "]";
    }
    assert OptionalCode(replyTo, REPLY, "]") == Ok(output);
    if mentionUser.Some? {
      var id := NormalizeTargetId(mentionUser.value);
      if id.Err? {
        return Err(id.error);
      }
      output := output + (AT + id.value + "] ");
    } else {
      assert output + "" == output;
    }
    var body := CompileParts(message.parts);
    if body.Err? {
      return Err(body.error);
    }
    result := Ok(output + body.value);
  }

  // ---------------------------------------------------------------- parsing

  lemma StripStep(output: string, remaining: string, index: nat, end: nat)
    requires Find(remaining, REPLY) == Some(index) && Find(remaining[index + |REPLY|..], "]") == Some(end)
    ensures var rest := remaining[index + |REPLY|..][end + 1..];
            output + remaining[..index] + StripReplyTokens(rest) == output + StripReplyTokens(remaining)
  {
    Regroup(output, remaining[..index], StripReplyTokens(remaining[index + |REPLY|..][end + 1..]));
  }

  lemma StripUnclosed(output: string, remaining: string, index: nat)
    requires Find(remaining, REPLY) == Some(index) && Find(remaining[index + |REPLY|..], "]").None?
    ensures output + remaining[..index] + remaining == output + StripReplyTokens(remaining)
  {
    Regroup(output, remaining[..index], remaining);
  }

  method StripReplies(value: string) returns (output: string)
    ensures output == StripReplyTokens(value)
  {
    var remaining := value;
    output := "";
    var index := Find(remaining, REPLY);
    while index.Some?
      invariant index == Find(remaining, REPLY)
      invariant output + StripReplyTokens(remaining) == StripReplyTokens(value)
      decreases |remaining|
    {
      var before, after := remaining[..index.value], remaining[index.value + |REPLY|..];
      var end := Find(after, "]");
      if end.None? {
        StripUnclosed(output, remaining, index.value);
        return output + before + remaining;
      }
      var rest := after[end.value + 1..];
      StripStep(output, remaining, index.value, end.value);
      output, remaining := output + before, rest;
      index := Find(remaining, REPLY);
    }
    output := output + remaining;
  }

  lemma ParseStep(raw: string, account: string)
    requires Find(raw, AT).Some?
    ensures var index := Find(raw, AT).value;
            var after := raw[index + |AT|..];
            var end := Find(after, "]");
            ParseRaw(raw, account) == TextPart(raw[..index]) +
            (if end.None? then TextPart(StripReplyTokens(raw))
             else [MentionOf(after[..end.value], account)] + ParseRaw(after[end.value + 1..], account))
  {
  }

  method ParseRawMessage(raw: string, account: string) returns (parts: seq<MessagePart>)
    ensures parts == ParseRaw(raw, account)
  {
    parts := [];
    var remaining := raw;
    var index := Find(remaining, AT);
    while index.Some?
      invariant index == Find(remaining, AT)
      invariant parts + ParseRaw(remaining, account) == ParseRaw(raw, account)
      decreases |remaining|
    {
      ParseStep(remaining, account);
      var before, after := remaining[..index.value], remaining[index.value + |AT|..];
      ghost var sofar := parts;
      if before != [] {
        parts := parts + [Text(before)];
      }
      assert parts == sofar + TextPart(before);
      var end := Find(after, "]");
      if end.None? {
        var text := StripReplies(remaining);
        Regroup(sofar, TextPart(before), TextPart(text));
        return parts + TextPart(text);
      }
      var mention := MentionOf(after[..end.value], account);
      remaining := after[end.value + 1..];
      Regroup(sofar, TextPart(before), [mention] + ParseRaw(remaining, account));
      Regroup(sofar + TextPart(before), [mention], ParseRaw(remaining, account));
      parts := parts + [mention];
      index := Find(remaining, AT);
    }
    var text := StripReplies(remaining);
    parts := parts + TextPart(text);
  }
}
