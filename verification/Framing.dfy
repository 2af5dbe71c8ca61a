/**
 Length-prefixed framing: a 4-byte big-endian length and the message, on a stream that a reader
 sees in pieces of any size. An echo server answers each message with a tag and the message.
 */
module Framing {
  import opened Wrappers
  import opened Hex

  const HEADER := 4
  const WORD := 0x1_0000_0000

  /** binary.BigEndian.PutUint32 of a length converted to uint32, which drops the high bits. */
  function Prefix(len: nat): Bytes {
    var n := len % WORD;
    var n1 := n / 0x100;
    var n2 := n1 / 0x100;
    [(n2 / 0x100) as Byte, (n2 % 0x100) as Byte, (n1 % 0x100) as Byte, (n % 0x100) as Byte]
  }

  /** binary.BigEndian.Uint32. */
  function Length(b: Bytes): (n: nat)
    requires |b| == HEADER
    ensures n < WORD
  {
    b[0] as int * 0x100_0000 + b[1] as int * 0x1_0000 + b[2] as int * 0x100 + b[3] as int
  }

  lemma LengthOfPrefix(len: nat)
    ensures Length(Prefix(len)) == len % WORD
    ensures var b := Prefix(len);
      |b| == 4
      && 0x100_0000 * b[0] as int + 0x1_0000 * b[1] as int + 0x100 * b[2] as int + b[3] as int == len % 0x1_0000_0000
  {
  }

  /** What writeMsg puts on the stream. */
  function Frame(msg: Bytes): Bytes {
    Prefix(|msg|) + msg
  }

  function EncodeAll(msgs: seq<Bytes>): Bytes {
    if msgs == [] then [] else Frame(msgs[0]) + EncodeAll(msgs[1..])
  }

  /** io.ReadFull's errors: nothing left, or not enough left. */
  datatype ReadError = EOF | UnexpectedEOF

  datatype ReadResult = Message(msg: Bytes, rest: Bytes) | Failed(error: ReadError)

  function Shortage(data: Bytes): ReadError {
    if data == [] then EOF else UnexpectedEOF
  }

  /** readMsg on everything the stream will ever deliver. */
  function ReadOne(data: Bytes): (r: ReadResult)
    ensures r.Message? ==> |r.rest| + HEADER <= |data|
  {
    if |data| < HEADER then Failed(Shortage(data))
    else
      var body := data[HEADER..];
      var n := Length(data[..HEADER]);
      if |body| < n then Failed(Shortage(body)) else Message(body[..n], body[n..])
  }

  function DecodeAll(data: Bytes): (seq<Bytes>, ReadError)
    decreases |data|
  {
    match ReadOne(data)
    case Failed(e) => ([], e)
    case Message(m, rest) =>
      var (msgs, e) := DecodeAll(rest);
      ([m] + msgs, e)
  }

  ghost predicate Fits(msgs: seq<Bytes>, limit: nat) {
    forall i :: 0 <= i < |msgs| ==> |msgs[i]| < limit
  }

  // ---------------------------------------------------------------- framing undoes itself

  lemma ReadFrame(msg: Bytes, rest: Bytes)
    requires |msg| < WORD
    ensures ReadOne(Frame(msg) + rest) == Message(msg, rest)
  {
    LengthOfPrefix(|msg|);
    var data := Frame(msg) + rest;
    assert data[..HEADER] == Prefix(|msg|);
    assert data[HEADER..] == msg + rest;
  }

  /** One message comes back exactly when its length fits the prefix; else only its first bytes do. */
  lemma FrameReadBackExactlyWhen(msg: Bytes, rest: Bytes)
    ensures ReadOne(Frame(msg) + rest) == Message(msg, rest) <==> |msg| < WORD
    ensures |msg| >= WORD ==>
              var n := |msg| % WORD; ReadOne(Frame(msg) + rest) == Message(msg[..n], msg[n..] + rest)
  {
  }

  lemma {:induction false} FittingComeBack(msgs: seq<Bytes>)
    requires Fits(msgs, WORD)
    ensures DecodeAll(EncodeAll(msgs)) == (msgs, EOF)
  {
    if msgs == [] {
    } else {
      ReadFrame(msgs[0], EncodeAll(msgs[1..]));
      FittingComeBack(msgs[1..]);
      assert [msgs[0]] + msgs[1..] == msgs;
    }
  }

  lemma {:induction false} OversizeIsLost(msgs: seq<Bytes>, i: nat)
    requires i < |msgs| && |msgs[i]| >= WORD
    ensures DecodeAll(EncodeAll(msgs)).0 != msgs
  {
    FrameReadBackExactlyWhen(msgs[0], EncodeAll(msgs[1..]));
    if |msgs[0]| < WORD {
      OversizeIsLost(msgs[1..], i - 1);
      assert ([msgs[0]] + DecodeAll(EncodeAll(msgs[1..])).0)[1..] == DecodeAll(EncodeAll(msgs[1..])).0;
    } else {
      assert |DecodeAll(EncodeAll(msgs)).0[0]| < WORD;
    }
  }

  /**
   Reading the concatenation of what was written returns the messages written, then EOF, exactly
   when every length fits the prefix.
   */
  lemma FramingRoundTrip(msgs: seq<Bytes>)
    ensures DecodeAll(EncodeAll(msgs)) == (msgs, EOF) <==> Fits(msgs, WORD)
  {
    if i :| 0 <= i < |msgs| && |msgs[i]| >= WORD {
      OversizeIsLost(msgs, i);
    } else {
      FittingComeBack(msgs);
    }
  }

  lemma CutFrame(msg: Bytes, k: nat)
    requires |msg| < WORD && k < |Frame(msg)|
    ensures ReadOne(Frame(msg)[..k]) == Failed(if k == 0 || k == HEADER then EOF else UnexpectedEOF)
  {
  }

  /** A stream cut off anywhere still yields some of the first messages and never a wrong one. */
  lemma {:induction false} CutStreamYieldsPrefix(msgs: seq<Bytes>, k: nat)
    requires Fits(msgs, WORD) && k <= |EncodeAll(msgs)|
    ensures DecodeAll(EncodeAll(msgs)[..k]).0 <= msgs
  {
    if msgs == [] {
    } else {
      var first, rest := Frame(msgs[0]), EncodeAll(msgs[1..]);
      var data := EncodeAll(msgs)[..k];
      if k < |first| {
        CutFrame(msgs[0], k);
        assert data == first[..k];
      } else {
        assert data == first + rest[..k - |first|];
        ReadFrame(msgs[0], rest[..k - |first|]);
        CutStreamYieldsPrefix(msgs[1..], k - |first|);
      }
    }
  }

  /** `k` bytes are a number of whole frames. */
  predicate AtBoundary(msgs: seq<Bytes>, k: int) {
    k == 0 || (msgs != [] && k >= |Frame(msgs[0])| && AtBoundary(msgs[1..], k - |Frame(msgs[0])|))
  }

  /**
   A stream cut off after `k` bytes reads like one that ended properly exactly when the cut is
   between two frames, or right behind a header: a message of which only the header arrived is
   not reported as cut off.
   */
  lemma {:induction false} EndReadsAsCleanExactlyWhen(msgs: seq<Bytes>, k: nat)
    requires Fits(msgs, WORD) && k <= |EncodeAll(msgs)|
    ensures DecodeAll(EncodeAll(msgs)[..k]).1 == EOF <==> AtBoundary(msgs, k) || AtBoundary(msgs, k - HEADER)
  {
    if msgs == [] {
    } else {
      var first, rest := Frame(msgs[0]), EncodeAll(msgs[1..]);
      var data := EncodeAll(msgs)[..k];
      if k < |first| {
        CutFrame(msgs[0], k);
        assert data == first[..k];
      } else {
        assert data == first + rest[..k - |first|];
        ReadFrame(msgs[0], rest[..k - |first|]);
        EndReadsAsCleanExactlyWhen(msgs[1..], k - |first|);
      }
    }
  }

  /** The failing case: the header of a message with content, and nothing after it. */
  lemma LoneHeaderReadsAsClean(msg: Bytes)
    requires 0 < |msg| < WORD
    ensures DecodeAll(EncodeAll([msg])[..HEADER]) == ([], EOF)
    ensures !AtBoundary([msg], HEADER)
  {
    CutFrame(msg, HEADER);
    assert EncodeAll([msg]) == Frame(msg) + [];
    assert EncodeAll([msg])[..HEADER] == Frame(msg)[..HEADER];
  }

  // ---------------------------------------------------------------- the echo loop

  /** What an echo loop leaves behind: the bytes written, and whether a write was out of bounds. */
  datatype Echoed = Echoed(out: Bytes, panicked: bool)

  /** A write buffer of a fixed size, or a buffer made for each message. */
  function Panics(bound: Option<nat>, msg: Bytes): bool {
    bound.Some? && HEADER + |msg| > bound.value
  }

  function Echo(tag: Bytes, bound: Option<nat>, data: Bytes): Echoed
    decreases |data|
  {
    match ReadOne(data)
    case Failed(_) => Echoed([], false)
    case Message(m, rest) =>
      if Panics(bound, tag + m) then Echoed([], true)
      else
        var more := Echo(tag, bound, rest);
        Echoed(Frame(tag + m) + more.out, more.panicked)
  }

  function Tagged(tag: Bytes, msgs: seq<Bytes>): (r: seq<Bytes>)
    ensures |r| == |msgs| && forall i :: 0 <= i < |msgs| ==> r[i] == tag + msgs[i]
  {
    seq(|msgs|, i requires 0 <= i < |msgs| => tag + msgs[i])
  }

  const BUFFER := 5004
  const ACK: Bytes := [65, 67, 75, 58]
  const ACK_TLS: Bytes := [65, 67, 75, 95, 84, 76, 83, 58]

  lemma {:induction false} EchoAnswersAll(tag: Bytes, bound: Option<nat>, msgs: seq<Bytes>)
    requires Fits(msgs, WORD)
    requires forall i :: 0 <= i < |msgs| ==> !Panics(bound, tag + msgs[i])
    ensures Echo(tag, bound, EncodeAll(msgs)) == Echoed(EncodeAll(Tagged(tag, msgs)), false)
  {
    if msgs == [] {
    } else {
      ReadFrame(msgs[0], EncodeAll(msgs[1..]));
      EchoAnswersAll(tag, bound, msgs[1..]);
      assert Tagged(tag, msgs)[1..] == Tagged(tag, msgs[1..]);
    }
  }

  lemma {:induction false} EchoPanics(tag: Bytes, bound: Option<nat>, msgs: seq<Bytes>, i: nat)
    requires Fits(msgs, WORD) && i < |msgs| && Panics(bound, tag + msgs[i])
    ensures Echo(tag, bound, EncodeAll(msgs)).panicked
  {
    ReadFrame(msgs[0], EncodeAll(msgs[1..]));
    if i == 0 {
    } else if !Panics(bound, tag + msgs[0]) {
      EchoPanics(tag, bound, msgs[1..], i - 1);
    }
  }

  /**
   The benchmark server with its pooled 5004-byte buffer stays in bounds exactly when every payload
   has at most 4996 bytes, and then a client reads back its payloads, each after "ACK:", in order.
   */
  lemma PooledEcho(msgs: seq<Bytes>)
    requires Fits(msgs, WORD)
    ensures var e := Echo(ACK, Some(BUFFER), EncodeAll(msgs));
      && (!e.panicked <==> forall i :: 0 <= i < |msgs| ==> |msgs[i]| <= 4996)
      && (!e.panicked ==> DecodeAll(e.out) == (Tagged(ACK, msgs), EOF))
  {
    if i :| 0 <= i < |msgs| && |msgs[i]| > 4996 {
      EchoPanics(ACK, Some(BUFFER), msgs, i);
    } else {
      EchoAnswersAll(ACK, Some(BUFFER), msgs);
      FramingRoundTrip(Tagged(ACK, msgs));
    }
  }

  /**
   The raw TCP server makes a buffer for each answer and never panics; its answers are read back
   exactly when their lengths, eight more than the payloads', fit the prefix.
   */
  lemma FreshEcho(msgs: seq<Bytes>)
    requires Fits(msgs, WORD)
    ensures var e := Echo(ACK_TLS, None, EncodeAll(msgs));
      !e.panicked && (DecodeAll(e.out) == (Tagged(ACK_TLS, msgs), EOF) <==> Fits(msgs, WORD - 8))
  {
    EchoAnswersAll(ACK_TLS, None, msgs);
    var tagged := Tagged(ACK_TLS, msgs);
    FramingRoundTrip(tagged);
    assert Fits(tagged, WORD) ==> forall i :: 0 <= i < |msgs| ==> |tagged[i]| < WORD && tagged[i] == ACK_TLS + msgs[i];
  }
}
