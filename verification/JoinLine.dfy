/** The JOIN line, as the client's handshake writes it and the relay reads it. */
module JoinLine {
  import opened CollectionFacts
  import opened Text
  import opened Relay

  // ---------------------------------------------------------------- the client

  /** The handshake getOrCreate writes: empty password and device ID are left out. */
  function Handshake(f: JoinFields): string {
    if f.password != "" then
      if f.deviceID != "" then "JOIN:" + f.room + "|" + f.alias + "|" + f.password + "|" + f.deviceID + "\n"
      else "JOIN:" + f.room + "|" + f.alias + "|" + f.password + "\n"
    else
      if f.deviceID != "" then "JOIN:" + f.room + "|" + f.alias + "|" + f.deviceID + "\n"
      else "JOIN:" + f.room + "|" + f.alias + "\n"
  }

  // ---------------------------------------------------------------- the relay

  /** ReadString('\n') on a stream that has a newline: up to and including the first one. */
  function ReadLine(stream: string): string {
    if stream == "" then "" else if stream[0] == '\n' then "\n" else [stream[0]] + ReadLine(stream[1..])
  }

  /** The fields that the parts of a JOIN line stand for; an empty field means none was given. */
  function FieldsOf(parts: seq<string>): JoinFields {
    if |parts| >= 4 then JoinFields(parts[0], parts[1], parts[2], parts[3])
    else if |parts| >= 3 then
      if ByteLen(parts[2]) == 64 then JoinFields(parts[0], parts[1], "", parts[2])
      else JoinFields(parts[0], parts[1], parts[2], "")
    else if |parts| >= 2 then JoinFields(parts[0], parts[1], "", "")
    else if |parts| >= 1 then JoinFields(parts[0], "", "", "")
    else JoinFields("", "", "", "")
  }

  /** handleMessage's reading of a JOIN line. */
  function ParseJoin(line: string): JoinFields {
    var payload := TrimPrefix(line, "JOIN:");
    FieldsOf(if |payload| > 0 then Split(payload, '|') else [])
  }

  /** What the relay makes of what the client sent. */
  function Received(stream: string): JoinFields {
    ParseJoin(TrimSpace(ReadLine(stream)))
  }

  // ---------------------------------------------------------------- the round trip

  predicate Plain(s: string) {
    '|' !in s && '\n' !in s
  }

  /** The field that ends the line. */
  function LastField(f: JoinFields): string {
    if f.deviceID != "" then f.deviceID else if f.password != "" then f.password else f.alias
  }

  predicate AllPlain(f: JoinFields) {
    Plain(f.room) && Plain(f.alias) && Plain(f.password) && Plain(f.deviceID)
  }

  /** No field has a bar or a newline, and the last one does not end in white space. */
  predicate Clean(f: JoinFields) {
    var last := LastField(f);
    AllPlain(f) && (last == "" || !IsSpace(last[|last| - 1]))
  }

  /** The payload of the handshake, as a list of fields. */
  function Parts(f: JoinFields): seq<string> {
    [f.room, f.alias] + (if f.password != "" then [f.password] else [])
      + (if f.deviceID != "" then [f.deviceID] else [])
  }

  lemma {:induction false} ReadLineOfText(text: string, rest: string)
    requires '\n' !in text
    ensures ReadLine(text + "\n" + rest) == text + "\n"
  {
    var stream := text + "\n" + rest;
    if text == "" {
    } else {
      ReadLineOfText(text[1..], rest);
      assert stream[1..] == text[1..] + "\n" + rest;
    }
  }

  lemma {:induction false} SplitJoined(parts: seq<string>)
    requires |parts| >= 1 && forall i :: 0 <= i < |parts| ==> '|' !in parts[i]
    ensures Split(JoinWith(parts, '|'), '|') == parts
  {
    if |parts| == 1 {
      SplitLast(parts[0], '|');
    } else {
      SplitJoined(parts[1..]);
      SplitField(parts[0], JoinWith(parts[1..], '|'), '|');
    }
  }

  lemma HandshakeIs(f: JoinFields)
    ensures Handshake(f) == "JOIN:" + JoinWith(Parts(f), '|') + "\n"
  {
    var parts := Parts(f);
    assert parts[1..][0] == f.alias;
    if |parts| == 2 {
      assert JoinWith(parts, '|') == f.room + "|" + f.alias;
    } else if |parts| == 3 {
      assert JoinWith(parts[1..], '|') == f.alias + "|" + parts[2];
      assert JoinWith(parts, '|') == f.room + "|" + (f.alias + "|" + parts[2]);
    } else {
      assert JoinWith(parts[2..], '|') == f.password + "|" + f.deviceID;
      assert parts[1..][1..] == parts[2..];
      assert JoinWith(parts[1..], '|') == f.alias + "|" + (f.password + "|" + f.deviceID);
      assert JoinWith(parts, '|') == f.room + "|" + (f.alias + "|" + (f.password + "|" + f.deviceID));
    }
  }

  /** A joined list contains only the characters of its parts and separators, and ends like the last. */
  lemma {:induction false} JoinShape(parts: seq<string>)
    requires |parts| >= 1 && forall i :: 0 <= i < |parts| ==> '\n' !in parts[i]
    ensures '\n' !in JoinWith(parts, '|')
    ensures var j, last := JoinWith(parts, '|'), parts[|parts| - 1];
            if last != "" then j != "" && j[|j| - 1] == last[|last| - 1]
            else |parts| > 1 ==> j != "" && j[|j| - 1] == '|'
  {
    if |parts| == 1 {
    } else {
      JoinShape(parts[1..]);
    }
  }

  /** The relay reads back exactly the list of fields that was written. */
  lemma PayloadSurvives(f: JoinFields)
    requires Clean(f)
    ensures TrimSpace(ReadLine(Handshake(f))) == "JOIN:" + JoinWith(Parts(f), '|')
    ensures Split(JoinWith(Parts(f), '|'), '|') == Parts(f) && JoinWith(Parts(f), '|') != ""
  {
    var parts := Parts(f);
    var payload := JoinWith(parts, '|');
    var line := "JOIN:" + payload;
    assert parts[|parts| - 1] == LastField(f);
    HandshakeIs(f);
    JoinShape(parts);
    SplitJoined(parts);
    assert '\n' !in line;
    ReadLineOfText(line, "");
    assert line + "\n" + "" == Handshake(f);
    TrimSpaceLine(line);
  }

  /** Exactly one of password and device ID is given: its length must tell which. */
  predicate Ambiguous(f: JoinFields) {
    || (f.deviceID == "" && f.password != "" && ByteLen(f.password) == 64)
    || (f.deviceID != "" && f.password == "" && ByteLen(f.deviceID) != 64)
  }

  /** Parsing a line made of parts, other than one empty part, gives what the parts stand for. */
  lemma ParseJoined(parts: seq<string>)
    requires |parts| >= 2 && forall i :: 0 <= i < |parts| ==> '|' !in parts[i]
    ensures ParseJoin("JOIN:" + JoinWith(parts, '|')) == FieldsOf(parts)
  {
    var payload := JoinWith(parts, '|');
    SplitJoined(parts);
    assert ("JOIN:" + payload)[..5] == "JOIN:" && ("JOIN:" + payload)[5..] == payload;
  }

  lemma CleanRoundTrip(f: JoinFields)
    requires Clean(f)
    ensures Received(Handshake(f)) == f <==> !Ambiguous(f)
  {
    PayloadSurvives(f);
    ParseJoined(Parts(f));
  }

  // ---------------------------------------------------------------- fields that cannot survive

  lemma {:induction false} ReadLineShape(stream: string)
    ensures forall i :: 0 <= i < |ReadLine(stream)| - 1 ==> ReadLine(stream)[i] != '\n'
  {
    if stream == "" {
    } else if stream[0] != '\n' {
      ReadLineShape(stream[1..]);
    }
  }

  lemma TrimmedLineIsOneLine(stream: string)
    ensures '\n' !in TrimSpace(ReadLine(stream))
  {
    var line := ReadLine(stream);
    var t := TrimSpace(line);
    ReadLineShape(stream);
    var i := TrimmedIsPart(line);
    if t != "" { TrimmedEnds(line); }
  }

  /** Whatever arrives, the relay reads no bar and no newline into a field. */
  lemma ReceivedIsPlain(stream: string)
    ensures AllPlain(Received(stream))
  {
    var line := TrimSpace(ReadLine(stream));
    var payload := TrimPrefix(line, "JOIN:");
    TrimmedLineIsOneLine(stream);
    assert '\n' !in payload;
    SplitParts(payload, '|');
    var parts := Split(payload, '|');
    assert forall i :: 0 <= i < |parts| ==> parts[i] in parts;
  }

  lemma {:induction false} JoinLast(init: seq<string>, last: string)
    requires |init| >= 1
    ensures JoinWith(init + [last], '|') == JoinWith(init, '|') + "|" + last
  {
    var all := init + [last];
    if |init| == 1 {
      assert all[1..] == [last];
    } else {
      JoinLast(init[1..], last);
      assert all[1..] == init[1..] + [last];
      Assoc(init[0] + "|", JoinWith(init[1..], '|') + "|", last);
      Assoc(init[0] + "|", JoinWith(init[1..], '|'), "|");
    }
  }

  lemma TrimmedTail(head: string, tail: string)
    requires head != "" && !IsSpace(head[0]) && !IsSpace(head[|head| - 1]) && '\n' !in head && '\n' !in tail
    ensures TrimSpace(ReadLine(head + tail + "\n")) == head + TrimRight(tail)
  {
    var line := head + tail;
    ReadLineOfText(line, "");
    assert line + "\n" + "" == line + "\n";
    assert TrimLeft(line + "\n") == line + "\n";
    assert (line + "\n")[..|line|] == line;
    TrimRightStops(head, tail);
  }

  /** The white space that ends the last field does not arrive. */
  lemma LastFieldIsTrimmed(f: JoinFields)
    requires AllPlain(f)
    ensures var parts := Parts(f);
      TrimSpace(ReadLine(Handshake(f))) == "JOIN:" + JoinWith(parts[..|parts| - 1] + [TrimRight(LastField(f))], '|')
  {
    var init, last := Parts(f)[..|Parts(f)| - 1], LastField(f);
    assert Parts(f) == init + [last];
    var head := "JOIN:" + (JoinWith(init, '|') + "|");
    HandshakeIs(f);
    JoinLast(init, last);
    JoinLast(init, TrimRight(last));
    JoinShape(init);
    Assoc("JOIN:", JoinWith(init, '|') + "|", last);
    Assoc("JOIN:", JoinWith(init, '|') + "|", TrimRight(last));
    TrimmedTail(head, last);
  }

  /** Fields whose last one is read shorter are not the same fields. */
  lemma ShorterIsOther(f: JoinFields, t: string)
    requires |t| < |LastField(f)|
    ensures FieldsOf(Parts(f)[..|Parts(f)| - 1] + [t]) != f
  {
    var read := Parts(f)[..|Parts(f)| - 1] + [t];
    assert |read| == |Parts(f)| && read[|read| - 1] == t;
  }

  /** What the relay reads of plain fields: the same parts, the last one trimmed on the right. */
  lemma PlainIsRead(f: JoinFields, t: string)
    requires AllPlain(f) && t == TrimRight(LastField(f)) && t <= LastField(f)
    ensures Received(Handshake(f)) == FieldsOf(Parts(f)[..|Parts(f)| - 1] + [t])
  {
    var read := Parts(f)[..|Parts(f)| - 1] + [t];
    assert '|' !in t by { assert forall c :: c in t ==> c in LastField(f); }
    assert forall i :: 0 <= i < |read| ==> '|' !in read[i];
    LastFieldIsTrimmed(f);
    ParseJoined(read);
  }

  lemma UncleanIsLost(f: JoinFields)
    requires AllPlain(f) && !Clean(f)
    ensures Received(Handshake(f)) != f
  {
    var last := LastField(f);
    var t := TrimRight(last);
    TrimRightEnds(last);
    PlainIsRead(f, t);
    assert t != last;
    ShorterIsOther(f, t);
  }

  /**
   The JOIN round trip, for all fields whatever: the relay reads the client's room, alias, password
   and device ID if and only if no field has a bar or a newline, the last one does not end in white
   space, and the length of a lone third field does not give it the wrong meaning. Device IDs are
   64 hex digits or absent, so with clean fields this fails exactly for a password of 64 bytes sent
   without device ID.
   */
  lemma JoinRoundTrip(f: JoinFields)
    ensures Received(Handshake(f)) == f <==> Clean(f) && !Ambiguous(f)
    ensures Clean(f) && (f.deviceID == "" || ByteLen(f.deviceID) == 64) ==>
              (Received(Handshake(f)) == f <==> !(f.deviceID == "" && ByteLen(f.password) == 64))
  {
    if Clean(f) {
      CleanRoundTrip(f);
    } else if AllPlain(f) {
      UncleanIsLost(f);
    } else {
      ReceivedIsPlain(Handshake(f));
    }
  }

  /** In the failing case the password is taken for a device ID, and the room joined without one. */
  lemma LongPasswordIsLost(f: JoinFields)
    requires Clean(f) && f.deviceID == "" && ByteLen(f.password) == 64
    ensures Received(Handshake(f)) == JoinFields(f.room, f.alias, "", f.password)
  {
    PayloadSurvives(f);
    ParseJoined(Parts(f));
  }
}
