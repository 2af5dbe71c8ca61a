/** Which of the load test's lines come back as deliveries, and what this program's relay does with them. */
module LoadLines {
  import opened CollectionFacts
  import opened Wrappers
  import opened RoomKeys
  import opened Text
  import opened MessageCrypto
  import FromLine
  import opened RttTracker

  function Repeat(c: char, n: nat): string {
    seq(n, _ => c)
  }

  /** buildPayload, for one-byte characters. */
  function Payload(id: string, size: int): string {
    if |id| + 1 >= size then
      if size <= 0 then "" else if size > |id| then id else id[..size]
    else id + "|" + Repeat('A', size - |id| - 1)
  }

  /** The line a peer sends, and a relay that passes it on verbatim emits. */
  function Sent(alias: string, payload: string): string {
    "FROM:" + alias + "|" + payload + "\n"
  }

  /** The line a relay emits that puts its own FROM header in front. */
  function Wrapped(sender: string, alias: string, payload: string): string {
    "FROM:" + sender + "|" + alias + "|" + payload + "\n"
  }

  /** A text that fits between two bars of one line; white space inside it is fine. */
  predicate IsField(s: string) {
    '|' !in s && '\n' !in s
  }

  // ---------------------------------------------------------------- IDs and payloads

  /** A decimal numeral is a field and ends in a digit. */
  lemma {:induction false} DecimalIsField(n: nat)
    ensures var s := Decimal(n); IsField(s) && !IsSpace(s[|s| - 1])
  {
    if n < 10 {
    } else {
      DecimalIsField(n / 10);
    }
  }

  lemma IdIsField(prefix: string, p: nat, i: nat)
    requires IsField(prefix)
    ensures IsField(Alias(prefix, p))
    ensures var id := MessageId(prefix, p, i); IsField(id) && id != "" && !IsSpace(id[|id| - 1])
  {
    DecimalIsField(p);
    DecimalIsField(i);
  }

  /** A payload has the size asked for, except that with room for the bar alone the bar is left out. */
  lemma PayloadSizeExactlyWhen(id: string, size: nat)
    ensures |Payload(id, size)| == size <==> size != |id| + 1
    ensures size == |id| + 1 ==> Payload(id, size) == id
    ensures size > |id| + 1 ==> Payload(id, size)[..|id| + 1] == id + "|"
  {
  }

  /** A payload with room for the ID arrives as it is and begins with it. */
  lemma WholeIdArrives(id: string, size: int)
    requires IsField(id) && id != "" && !IsSpace(id[|id| - 1]) && size >= |id|
    ensures TrimRight(Payload(id, size)) == Payload(id, size) && FirstField(Payload(id, size)) == id
    ensures |SplitN(Payload(id, size), '|', 3)| <= 2
  {
    if size <= |id| + 1 {
      assert Payload(id, size) == id;
      SplitNLast(id, '|', 2);
      SplitNLast(id, '|', 3);
    } else {
      var padding := Repeat('A', size - |id| - 1);
      SplitNField(id, padding, '|', 2);
      SplitNField(id, padding, '|', 3);
      SplitNLast(padding, '|', 2);
    }
  }

  /** A smaller one arrives as something shorter than the ID, with no bar in it. */
  lemma CutIdArrives(id: string, size: int)
    requires IsField(id) && id != "" && size < |id|
    ensures var t := TrimRight(Payload(id, size));
      |t| < |id| && SplitN(t, '|', 2) == [t] && SplitN(t, '|', 3) == [t] && FirstField(t) == t
  {
    var payload := Payload(id, size);
    assert payload == if size <= 0 then "" else id[..size];
    assert '|' !in payload;
    TrimRightEnds(payload);
    var t := TrimRight(payload);
    assert '|' !in t by { assert forall c :: c in t ==> c in payload; }
    SplitNLast(t, '|', 2);
    SplitNLast(t, '|', 3);
  }

  // ---------------------------------------------------------------- what a reader makes of them

  /** Only what ends a line is trimmed off it. */
  lemma BodyOfLine(body: string)
    ensures TrimSpace("FROM:" + body + "\n") == "FROM:" + TrimRight(body)
    ensures var line := "FROM:" + TrimRight(body);
            HasPrefix(line, "FROM:") && TrimPrefix(line, "FROM:") == TrimRight(body)
  {
    var line := "FROM:" + body;
    assert TrimLeft(line + "\n") == line + "\n";
    assert (line + "\n")[..|line|] == line;
    TrimRightStops("FROM:", body);
  }

  lemma MatchOfBody(sendTimes: map<string, int>, body: string)
    ensures MatchOf(sendTimes, "FROM:" + body + "\n") == MatchOfParts(sendTimes, SplitN(TrimRight(body), '|', 3))
  {
    BodyOfLine(body);
  }

  lemma PartsOfSent(sendTimes: map<string, int>, alias: string, payload: string)
    requires '|' !in alias
    ensures MatchOf(sendTimes, Sent(alias, payload))
         == MatchOfParts(sendTimes, [alias] + SplitN(TrimRight(payload), '|', 2))
  {
    Assoc("FROM:", alias + "|", payload);
    Assoc("FROM:", alias, "|");
    MatchOfBody(sendTimes, alias + "|" + payload);
    TrimRightStops(alias + "|", payload);
    SplitNField(alias, TrimRight(payload), '|', 3);
  }

  lemma WrappedSplits(sender: string, alias: string, payload: string)
    requires '|' !in sender && '|' !in alias
    ensures SplitN(sender + "|" + (alias + "|" + payload), '|', 3) == [sender, alias, payload]
  {
    SplitNField(sender, alias + "|" + payload, '|', 3);
    SplitNField(alias, payload, '|', 2);
  }

  lemma WrappedTrims(sender: string, alias: string, payload: string)
    ensures Wrapped(sender, alias, payload) == "FROM:" + (sender + "|" + (alias + "|" + payload)) + "\n"
    ensures TrimRight(sender + "|" + (alias + "|" + payload)) == sender + "|" + (alias + "|" + TrimRight(payload))
  {
    var inner := alias + "|" + payload;
    Assoc("FROM:" + sender + "|", alias + "|", payload);
    Assoc("FROM:" + sender + "|", alias, "|");
    Assoc("FROM:", sender + "|", inner);
    Assoc("FROM:", sender, "|");
    TrimRightStops(sender + "|", inner);
    TrimRightStops(alias + "|", payload);
  }

  lemma PartsOfWrapped(sendTimes: map<string, int>, sender: string, alias: string, payload: string)
    requires '|' !in sender && '|' !in alias
    ensures MatchOf(sendTimes, Wrapped(sender, alias, payload))
         == MatchOfParts(sendTimes, [sender, alias, TrimRight(payload)])
  {
    WrappedTrims(sender, alias, payload);
    MatchOfBody(sendTimes, sender + "|" + (alias + "|" + payload));
    WrappedSplits(sender, alias, TrimRight(payload));
  }

  /** A message echoed verbatim is matched to its own ID exactly when the payload has room for the ID. */
  lemma EchoMatchedExactlyWhen(sendTimes: map<string, int>, prefix: string, p: nat, i: nat, size: int)
    requires IsField(prefix) && MessageId(prefix, p, i) in sendTimes
    ensures var id := MessageId(prefix, p, i);
      MatchOf(sendTimes, Sent(Alias(prefix, p), Payload(id, size))) == Some(id) <==> size >= |id|
  {
    var id := MessageId(prefix, p, i);
    IdIsField(prefix, p, i);
    PartsOfSent(sendTimes, Alias(prefix, p), Payload(id, size));
    if size >= |id| {
      WholeIdArrives(id, size);
    } else {
      CutIdArrives(id, size);
    }
  }

  /** The tracker never holds an alias. */
  lemma AliasesAreNotTracked(prefix: string, t: Tracker, p: nat)
    requires Accounted(prefix, t)
    ensures Alias(prefix, p) !in t.sendTimes
  {
    if Alias(prefix, p) in t.sendTimes.Keys {
      var q: nat, j: nat :| IsIdBelow(prefix, t.next, q, j, Alias(prefix, p));
      AliasIsNoId(prefix, p, q, j);
    }
  }

  /** The same holds for a relay that wraps the line once more. */
  lemma WrappedMatchedExactlyWhen(t: Tracker, sender: string, prefix: string, p: nat, i: nat, size: int)
    requires IsField(prefix) && IsField(sender) && Accounted(prefix, t) && MessageId(prefix, p, i) in t.sendTimes
    ensures var id := MessageId(prefix, p, i);
      MatchOf(t.sendTimes, Wrapped(sender, Alias(prefix, p), Payload(id, size))) == Some(id) <==> size >= |id|
  {
    var id := MessageId(prefix, p, i);
    IdIsField(prefix, p, i);
    AliasesAreNotTracked(prefix, t, p);
    PartsOfWrapped(t.sendTimes, sender, Alias(prefix, p), Payload(id, size));
    if size >= |id| {
      WholeIdArrives(id, size);
    } else {
      CutIdArrives(id, size);
    }
  }

  lemma TwoIds()
    ensures MessageId("peer", 0, 1) == "peer-0-1" && Payload(MessageId("peer", 0, 12), 8) == "peer-0-1"
    ensures '|' !in Alias("peer", 0)
  {
  }

  /** A payload too small for its ID can be counted as the delivery of another message. */
  lemma ShortPayloadIsMisattributed(sendTimes: map<string, int>)
    requires MessageId("peer", 0, 1) in sendTimes
    ensures MatchOf(sendTimes, Sent(Alias("peer", 0), Payload(MessageId("peer", 0, 12), 8)))
         == Some(MessageId("peer", 0, 1))
  {
    TwoIds();
    PartsOfSent(sendTimes, Alias("peer", 0), "peer-0-1");
    SplitNLast("peer-0-1", '|', 2);
  }

  // ---------------------------------------------------------------- this program's relay

  lemma RelayWantsThreeFields(c: Primitives, keys: Keys, senderAddr: string, isMember: bool,
                              alias: string, payload: string)
    requires '|' !in alias && |SplitN(TrimRight(payload), '|', 3)| != 3
    ensures FromLine.Relay(c, keys, senderAddr, isMember, Sent(alias, payload)) == None
  {
    Assoc("FROM:", alias + "|", payload);
    Assoc("FROM:", alias, "|");
    BodyOfLine(alias + "|" + payload);
    TrimRightStops(alias + "|", payload);
    SplitNField(alias, TrimRight(payload), '|', 2);
  }

  /**
   The relay of this program passes on signed messages only: it drops every line the load test
   sends, so against it no delivery is ever counted.
   */
  lemma RelayDropsLoadLines(c: Primitives, keys: Keys, senderAddr: string, isMember: bool,
                            prefix: string, p: nat, i: nat, size: int)
    requires IsField(prefix)
    ensures var line := Sent(Alias(prefix, p), Payload(MessageId(prefix, p, i), size));
            FromLine.Relay(c, keys, senderAddr, isMember, line) == None
  {
    var id := MessageId(prefix, p, i);
    IdIsField(prefix, p, i);
    if size >= |id| {
      WholeIdArrives(id, size);
    } else {
      CutIdArrives(id, size);
    }
    RelayWantsThreeFields(c, keys, senderAddr, isMember, Alias(prefix, p), Payload(id, size));
  }
}
