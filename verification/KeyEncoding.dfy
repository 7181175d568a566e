/** Keys made by joining components with "::": exactly when two different tuples
    get the same key, and what happens to a conversation whose key is taken. */
module KeyEncoding {
  import opened Text
  import opened SessionSpec

  /** The scheduler's conversation key. */
  function ConversationKey(account: string, conversation: string): string {
    account + "::" + conversation
  }

  /** No separator inside, and nothing that could merge with the one that follows. */
  predicate Plain(s: string) {
    !Contains(s, "::") && (s == [] || s[|s| - 1] != ':')
  }

  /** The three ways in which a longer first component can hide the separator. */
  ghost predicate Overlaps(a: string, b: string, c: string, d: string) {
    || (a == c && b == d)
    || (c == a + ":" && b == ":" + d)
    || (exists x :: c == a + "::" + x && b == x + "::" + d)
  }

  lemma OverlapCollides(a: string, b: string, c: string, d: string)
    requires Overlaps(a, b, c, d)
    ensures ConversationKey(a, b) == ConversationKey(c, d)
  {
    if c == a + ":" && b == ":" + d {
      assert a + "::" + (":" + d) == (a + ":") + "::" + d;
    } else if !(a == c && b == d) {
      var x :| c == a + "::" + x && b == x + "::" + d;
      assert a + "::" + (x + "::" + d) == (a + "::" + x) + "::" + d;
    }
  }

  lemma CollisionOverlaps(a: string, b: string, c: string, d: string)
    requires |a| <= |c| && ConversationKey(a, b) == ConversationKey(c, d)
    ensures Overlaps(a, b, c, d)
  {
    var k := ConversationKey(a, b);
    assert k == a + ("::" + b) && k == c + ("::" + d);
    assert a == k[..|a|] && c == k[..|c|];
    assert k[|a|] == ':' && k[|a| + 1] == ':' && b == k[|a| + 2..];
    assert d == k[|c| + 2..];
    if |c| == |a| + 1 {
      assert c == a + [k[|a|]];
      assert k[|c|] == ':' && k[|c| + 1] == ':';
      assert b == [k[|a| + 2]] + k[|a| + 3..];
    } else if |c| > |a| {
      var x := k[|a| + 2..|c|];
      assert c == a + "::" + x;
      assert k[|c|..|c| + 2] == "::";
      assert b == x + "::" + d;
    }
  }

  /** Two pairs share a key exactly when one separator can be read in two places. */
  lemma KeysCollideExactly(a: string, b: string, c: string, d: string)
    requires |a| <= |c|
    ensures ConversationKey(a, b) == ConversationKey(c, d) <==> Overlaps(a, b, c, d)
  {
    if ConversationKey(a, b) == ConversationKey(c, d) {
      CollisionOverlaps(a, b, c, d);
    }
    if Overlaps(a, b, c, d) {
      OverlapCollides(a, b, c, d);
    }
  }

  lemma HasSeparator(a: string, x: string)
    ensures Contains(a + "::" + x, "::")
  {
    var s := a + "::" + x;
    assert "::" <= s[|a|..] by {
      assert s[|a|..] == "::" + x;
    }
  }

  lemma PlainIsInjective(a: string, b: string, c: string, d: string)
    requires Plain(a) && Plain(c) && ConversationKey(a, b) == ConversationKey(c, d)
    ensures a == c && b == d
  {
    if |a| <= |c| {
      PlainOverlap(a, b, c, d);
    } else {
      PlainOverlap(c, d, a, b);
    }
  }

  lemma PlainOverlap(a: string, b: string, c: string, d: string)
    requires Plain(c) && |a| <= |c| && ConversationKey(a, b) == ConversationKey(c, d)
    ensures a == c && b == d
  {
    CollisionOverlaps(a, b, c, d);
    assert (a + ":")[|a + ":"| - 1] == ':';
    forall x ensures c != a + "::" + x {
      HasSeparator(a, x);
    }
  }

  /** Nothing that could merge with a separator in front of it, and none inside. */
  predicate PlainEnd(s: string) {
    !Contains(s, "::") && (s == [] || s[0] != ':')
  }

  /** No other pair gets this pair's key. */
  ghost predicate UniqueKey(c: string, d: string) {
    forall a, b :: ConversationKey(a, b) == ConversationKey(c, d) ==> a == c && b == d
  }

  lemma SharedKey(a: string, b: string, c: string, d: string)
    requires (a != c || b != d) && ConversationKey(a, b) == ConversationKey(c, d)
    ensures !UniqueKey(c, d)
  {
  }

  lemma AtSeparator(s: string) returns (before: string, after: string)
    requires Contains(s, "::")
    ensures s == before + "::" + after
  {
    var i := Find(s, "::").value;
    before, after := s[..i], s[i + 2..];
    assert s[i..] == "::" + after;
  }

  lemma RoughFirstShares(c: string, d: string) returns (a: string, b: string)
    requires !Plain(c)
    ensures |a| < |c| && ConversationKey(a, b) == ConversationKey(c, d)
    ensures (exists x :: c == a + "::" + x && b == x + "::" + d) || (c == a + ":" && b == ":" + d)
  {
    if Contains(c, "::") {
      var before, x := AtSeparator(c);
      a, b := before, x + "::" + d;
    } else {
      a, b := c[..|c| - 1], ":" + d;
      assert c == a + ":";
    }
    OverlapCollides(a, b, c, d);
  }

  lemma RoughSecondShares(c: string, d: string) returns (a: string, b: string)
    requires !PlainEnd(d)
    ensures |a| > |c| && ConversationKey(a, b) == ConversationKey(c, d)
  {
    if Contains(d, "::") {
      var x, after := AtSeparator(d);
      a, b := c + "::" + x, after;
    } else {
      a, b := c + ":", d[1..];
      assert d == ":" + b;
    }
    OverlapCollides(c, d, a, b);
  }

  lemma PlainEndOverlap(a: string, b: string, c: string, d: string)
    requires PlainEnd(b) && |a| <= |c| && ConversationKey(a, b) == ConversationKey(c, d)
    ensures a == c && b == d
  {
    CollisionOverlaps(a, b, c, d);
    assert (":" + d)[0] == ':';
    forall x ensures b != x + "::" + d {
      HasSeparator(x, d);
    }
  }

  /** A pair shares its key with no other pair exactly when the account holds no
      separator and does not end in a colon, and the conversation id holds none
      and does not begin with one. */
  lemma UniqueKeyExactly(c: string, d: string)
    ensures UniqueKey(c, d) <==> Plain(c) && PlainEnd(d)
  {
    if Plain(c) && PlainEnd(d) {
      forall a, b | ConversationKey(a, b) == ConversationKey(c, d) ensures a == c && b == d {
        if |a| <= |c| {
          PlainOverlap(a, b, c, d);
        } else {
          PlainEndOverlap(c, d, a, b);
        }
      }
    } else if !Plain(c) {
      var a, b := RoughFirstShares(c, d);
      SharedKey(a, b, c, d);
    } else {
      var a, b := RoughSecondShares(c, d);
      SharedKey(a, b, c, d);
    }
  }

  /** No pair with a shorter account gets the key. */
  ghost predicate NoShorterShares(c: string, d: string) {
    forall a, b :: |a| < |c| ==> ConversationKey(a, b) != ConversationKey(c, d)
  }

  /** The account alone decides whether a shorter one can share the key. */
  lemma PlainExactly(c: string, d: string)
    ensures Plain(c) <==> NoShorterShares(c, d)
  {
    if Plain(c) {
      forall a, b | |a| < |c| ensures ConversationKey(a, b) != ConversationKey(c, d) {
        if ConversationKey(a, b) == ConversationKey(c, d) {
          PlainOverlap(a, b, c, d);
        }
      }
    } else {
      var a, b := RoughFirstShares(c, d);
    }
  }

  // ----------------------------------------------------------- session keys

  lemma SessionKeyIsPaired(id: Identity)
    ensures SessionKey(id) ==
            "conversation::" + ConversationKey(id.platform, ConversationKey(id.account, id.conversation))
  {
    assert id.platform + ("::" + (id.account + ("::" + id.conversation)))
        == id.platform + "::" + (id.account + "::" + id.conversation);
    var prefix := "conversation::";
    assert prefix + id.platform + "::" + id.account + "::" + id.conversation
        == prefix + (id.platform + "::" + (id.account + "::" + id.conversation));
  }

  function AccountPart(id: Identity): string {
    ConversationKey(id.account, id.conversation)
  }

  lemma SessionKeysPair(x: Identity, y: Identity)
    ensures SessionKey(x) == SessionKey(y) <==>
              ConversationKey(x.platform, AccountPart(x)) == ConversationKey(y.platform, AccountPart(y))
  {
    SessionKeyIsPaired(x);
    SessionKeyIsPaired(y);
    var p, q := ConversationKey(x.platform, AccountPart(x)), ConversationKey(y.platform, AccountPart(y));
    assert p == ("conversation::" + p)[|"conversation::"|..];
    assert q == ("conversation::" + q)[|"conversation::"|..];
  }

  /** Two identities share a session key exactly when a separator of the one can
      be read in another place, of the platform or, the platforms being equal, of
      the account. */
  lemma SessionKeysCollideExactly(x: Identity, y: Identity)
    requires |x.platform| <= |y.platform|
    ensures SessionKey(x) == SessionKey(y) <==> Overlaps(x.platform, AccountPart(x), y.platform, AccountPart(y))
    ensures x.platform == y.platform && |x.account| <= |y.account| ==>
              (SessionKey(x) == SessionKey(y) <==> Overlaps(x.account, x.conversation, y.account, y.conversation))
  {
    SessionKeysPair(x, y);
    KeysCollideExactly(x.platform, AccountPart(x), y.platform, AccountPart(y));
    if x.platform == y.platform {
      assert ConversationKey(x.platform, AccountPart(x))[|x.platform| + 2..] == AccountPart(x);
      assert ConversationKey(y.platform, AccountPart(y))[|y.platform| + 2..] == AccountPart(y);
      if |x.account| <= |y.account| {
        KeysCollideExactly(x.account, x.conversation, y.account, y.conversation);
      }
    }
  }

  /** Session keys name one conversation when platforms and accounts are plain. */
  lemma SessionKeysInjective(x: Identity, y: Identity)
    requires Plain(x.platform) && Plain(x.account) && Plain(y.platform) && Plain(y.account)
    requires SessionKey(x) == SessionKey(y)
    ensures x == y
  {
    SessionKeysPair(x, y);
    PlainIsInjective(x.platform, AccountPart(x), y.platform, AccountPart(y));
    PlainIsInjective(x.account, x.conversation, y.account, y.conversation);
  }

  /** No other identity gets this one's session key. */
  ghost predicate UniqueSessionKey(y: Identity) {
    forall x :: SessionKey(x) == SessionKey(y) ==> x == y
  }

  /** Joined from components that leave no other place for either separator. */
  predicate PlainIdentity(y: Identity) {
    Plain(y.platform) && Plain(y.account) && PlainEnd(y.account) && PlainEnd(y.conversation)
  }

  /** A longer platform would have to take a separator from what follows. */
  lemma LongerPlatformDiffers(x: Identity, y: Identity)
    requires PlainIdentity(y) && |x.platform| > |y.platform|
    ensures SessionKey(x) != SessionKey(y)
  {
    SessionKeysPair(x, y);
    if SessionKey(x) == SessionKey(y) {
      CollisionOverlaps(y.platform, AccountPart(y), x.platform, AccountPart(x));
      HasSeparator(x.account, x.conversation);
      if x.platform == y.platform + ":" && AccountPart(y) == ":" + AccountPart(x) {
        ColonInFront(y.account, y.conversation, x.account, x.conversation);
      } else {
        var z :| AccountPart(y) == z + "::" + AccountPart(x);
        KeyIsOwn(z, AccountPart(x), y.account, y.conversation);
      }
    }
  }

  lemma KeyIsOwn(a: string, b: string, c: string, d: string)
    requires Plain(c) && PlainEnd(d) && ConversationKey(a, b) == ConversationKey(c, d)
    ensures a == c && b == d
  {
    UniqueKeyExactly(c, d);
  }

  /** A colon before a joined pair reads as a pair whose account begins with it. */
  lemma ColonInFront(c: string, d: string, a: string, b: string)
    requires Plain(c) && PlainEnd(c) && PlainEnd(d)
    ensures ConversationKey(c, d) != ":" + ConversationKey(a, b)
  {
    if ConversationKey(c, d) == ":" + ConversationKey(a, b) {
      assert ":" + (a + "::" + b) == (":" + a) + "::" + b;
      KeyIsOwn(":" + a, b, c, d);
    }
  }

  lemma SharedSessionKey(x: Identity, y: Identity)
    requires x != y && SessionKey(x) == SessionKey(y)
    ensures !UniqueSessionKey(y)
  {
  }

  lemma RoughPlatformShares(y: Identity)
    requires !Plain(y.platform)
    ensures !UniqueSessionKey(y)
  {
    var a, b := RoughFirstShares(y.platform, AccountPart(y));
    var x: Identity;
    if y.platform == a + ":" && b == ":" + AccountPart(y) {
      x := Identity(a, ":" + y.account, y.conversation);
      assert AccountPart(x) == b;
    } else {
      var z :| y.platform == a + "::" + z && b == z + "::" + AccountPart(y);
      x := Identity(a, z, AccountPart(y));
    }
    SessionKeysPair(x, y);
    SharedSessionKey(x, y);
  }

  lemma RoughAccountShares(y: Identity)
    requires !(Plain(y.account) && PlainEnd(y.conversation))
    ensures !UniqueSessionKey(y)
  {
    UniqueKeyExactly(y.account, y.conversation);
    var a, b :|
      ConversationKey(a, b) == ConversationKey(y.account, y.conversation) && !(a == y.account && b == y.conversation);
    var x := Identity(y.platform, a, b);
    SessionKeysPair(x, y);
    SharedSessionKey(x, y);
  }

  lemma ColonAccountShares(y: Identity)
    requires y.account != [] && y.account[0] == ':'
    ensures !UniqueSessionKey(y)
  {
    var x := Identity(y.platform + ":", y.account[1..], y.conversation);
    assert y.account == ":" + y.account[1..];
    assert AccountPart(y) == ":" + AccountPart(x);
    OverlapCollides(y.platform, AccountPart(y), x.platform, AccountPart(x));
    SessionKeysPair(x, y);
    assert |x.platform| != |y.platform|;
    SharedSessionKey(x, y);
  }

  /** An identity shares its session key with no other one exactly when no
      component holds a separator, the platform does not end in a colon, the
      account neither begins nor ends in one, and the conversation id does not
      begin with one. */
  lemma UniqueSessionKeyExactly(y: Identity)
    ensures UniqueSessionKey(y) <==> PlainIdentity(y)
  {
    if PlainIdentity(y) {
      forall x | SessionKey(x) == SessionKey(y) ensures x == y {
        SessionKeysPair(x, y);
        if |x.platform| <= |y.platform| {
          PlainOverlap(x.platform, AccountPart(x), y.platform, AccountPart(y));
          UniqueKeyExactly(y.account, y.conversation);
        } else {
          LongerPlatformDiffers(x, y);
        }
      }
    } else if !Plain(y.platform) {
      RoughPlatformShares(y);
    } else if !(Plain(y.account) && PlainEnd(y.conversation)) {
      RoughAccountShares(y);
    } else {
      ColonAccountShares(y);
    }
  }

  /** A conversation whose key already belongs to another one is refused by both
      runtime procedures, and the tables stay as they are: it never gets into
      the other's session. */
  lemma TakenKeyIsRefused(st: Store, req: Request, now: int, uuid: string)
    requires StoreOk(st)
    requires SessionKey(req.identity) in st.sessions && st.sessions[SessionKey(req.identity)].identity != req.identity
    ensures LoadRuntime(st, req, now, uuid).0 == st && LoadRuntime(st, req, now, uuid).1.Err?
    ensures ResetRuntime(st, req, now, uuid).0 == st && ResetRuntime(st, req, now, uuid).1.Err?
  {
    LoadBehaves(st, req, now, uuid);
    ResetBehaves(st, req, now, uuid);
  }
}
