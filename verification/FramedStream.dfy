/** Framing as it runs: on byte arrays that are pooled and reused, over a stream read in pieces. */
module FramedStream {
  import opened CollectionFacts
  import opened Wrappers
  import opened Hex
  import opened Framing

  /** Go's copy of a source into a destination that has room for it. */
  method CopyInto(p: array<Byte>, from: nat, src: Bytes)
    requires from + |src| <= p.Length
    modifies p
    ensures p[..] == old(p[..from]) + src + old(p[from + |src|..])
  {
    for i := 0 to |src|
      invariant p[..] == old(p[..from]) + src[..i] + old(p[from + i..])
    {
      p[from + i] := src[i];
    }
  }

  lemma PrefixGrows(before: Bytes, after: Bytes, data: Bytes, got: nat, n: nat)
    requires got + n <= |data| && got + n <= |before|
    requires before[..got] == data[..got]
    requires after == before[..got] + data[got..][..n] + before[got + n..]
    ensures after[..got + n] == data[..got + n] && data[got..][n..] == data[got + n..]
  {
  }

  /** The receiving end of a connection: `data` is all it will still deliver before it closes. */
  class Reader {
    var data: Bytes

    constructor (data: Bytes)
      ensures this.data == data
    {
      this.data := data;
    }

    /** io.Reader.Read into p[from..to]: some of what is left, however much the connection chooses. */
    method Read(p: array<Byte>, from: nat, to: nat) returns (n: nat)
      requires from < to <= p.Length
      modifies this, p
      ensures n <= to - from && n <= |old(data)| && (n == 0 <==> old(data) == [])
      ensures data == old(data)[n..]
      ensures p[..] == old(p[..from]) + old(data)[..n] + old(p[from + n..])
    {
      if data == [] {
        return 0;
      }
      var most := if |data| < to - from then |data| else to - from;
      n :| 1 <= n <= most;
      CopyInto(p, from, data[..n]);
      data := data[n..];
    }

    /** io.ReadFull into p[..len]: None, or the error when the stream ends too early. */
    method ReadFull(p: array<Byte>, len: nat) returns (error: Option<ReadError>)
      requires len <= p.Length
      modifies this, p
      ensures error.None? <==> |old(data)| >= len
      ensures error.None? ==> p[..len] == old(data)[..len] && data == old(data)[len..]
      ensures error.Some? ==> error.value == Shortage(old(data)) && data == []
    {
      var got := 0;
      while got < len
        invariant got <= len && got <= |old(data)| && data == old(data)[got..]
        invariant p[..got] == old(data)[..got]
      {
        label Before:
        var n := Read(p, got, len);
        if n == 0 {
          return Some(if got == 0 then EOF else UnexpectedEOF);
        }
        PrefixGrows(old@Before(p[..]), p[..], old(data), got, n);
        got := got + n;
      }
      return None;
    }
  }

  /**
   readMsg with a pooled header and a reused buffer: whatever they held before, and whether or not
   the buffer was large enough to be reused, the message is the one a fresh buffer would receive.
   */
  method ReadMsg(r: Reader, hdr: array<Byte>, dst: array<Byte>)
    returns (buf: array<Byte>, size: nat, error: Option<ReadError>)
    requires hdr.Length == HEADER && hdr != dst
    modifies r, hdr, dst
    ensures buf == dst || fresh(buf)
    ensures error.None? ==> size <= buf.Length && (size <= dst.Length ==> buf == dst)
    ensures ReadOne(old(r.data)) == (if error.None? then Message(buf[..size], r.data) else Failed(error.value))
  {
    buf, size := dst, 0;
    error := r.ReadFull(hdr, HEADER);
    if error.Some? { return; }
    assert hdr[..] == hdr[..HEADER];
    size := Length(hdr[..]);
    if dst.Length < size {
      buf := new Byte[size];
    }
    error := r.ReadFull(buf, size);
  }

  /** tcp_raw's readMsg, with fresh buffers only. */
  method ReadMsgFresh(r: Reader) returns (buf: array<Byte>, error: Option<ReadError>)
    modifies r
    ensures fresh(buf)
    ensures ReadOne(old(r.data)) == (if error.None? then Message(buf[..], r.data) else Failed(error.value))
  {
    var hdr := new Byte[HEADER];
    buf := hdr;
    error := r.ReadFull(hdr, HEADER);
    if error.Some? { return; }
    assert hdr[..] == hdr[..HEADER];
    var size := Length(hdr[..]);
    buf := new Byte[size];
    error := r.ReadFull(buf, size);
    assert buf[..] == buf[..size];
  }

  /** The sending end: everything written to it so far. */
  class Writer {
    var out: Bytes

    constructor ()
      ensures out == []
    {
      out := [];
    }

    method Write(b: Bytes)
      modifies this
      ensures out == old(out) + b
    {
      out := out + b;
    }
  }

  /** Prefix and message into the front of a buffer with room for them. */
  method FillFrame(buf: array<Byte>, msg: Bytes)
    requires HEADER + |msg| <= buf.Length
    modifies buf
    ensures buf[..HEADER + |msg|] == Frame(msg)
  {
    CopyInto(buf, 0, Prefix(|msg|));
    CopyInto(buf, HEADER, msg);
    assert buf[..HEADER] == Prefix(|msg|);
    assert buf[HEADER..HEADER + |msg|] == msg;
  }

  /** writeMsg with a pooled buffer, whatever it held before; false is the slice-bounds panic. */
  method WriteMsg(w: Writer, pooled: array<Byte>, msg: Bytes) returns (inBounds: bool)
    modifies w, pooled
    ensures inBounds <==> !Panics(Some(pooled.Length), msg)
    ensures w.out == old(w.out) + if inBounds then Frame(msg) else []
  {
    if HEADER + |msg| > pooled.Length {
      return false;
    }
    FillFrame(pooled, msg);
    w.Write(pooled[..HEADER + |msg|]);
    return true;
  }

  /** tcp_raw's writeMsg. */
  method WriteMsgFresh(w: Writer, msg: Bytes)
    modifies w
    ensures w.out == old(w.out) + Frame(msg)
  {
    var buf := new Byte[HEADER + |msg|];
    FillFrame(buf, msg);
    assert buf[..] == buf[..HEADER + |msg|];
    w.Write(buf[..]);
  }

  /** An echo loop that has written `done` and has `data` still to come will have written `total`. */
  predicate OnCourse(total: Echoed, done: Bytes, tag: Bytes, bound: Option<nat>, data: Bytes) {
    var e := Echo(tag, bound, data);
    total == Echoed(done + e.out, e.panicked)
  }

  lemma EchoTurn(total: Echoed, done: Bytes, tag: Bytes, bound: Option<nat>, data: Bytes)
    requires OnCourse(total, done, tag, bound, data)
    ensures match ReadOne(data)
      case Failed(_) => total == Echoed(done, false)
      case Message(m, rest) =>
        if Panics(bound, tag + m) then total == Echoed(done, true)
        else OnCourse(total, done + Frame(tag + m), tag, bound, rest)
  {
  }

  /** handleQUICStream: one buffer for all messages, growing when a message needs it. */
  method HandleStream(r: Reader, w: Writer, hdr: array<Byte>, pooled: array<Byte>) returns (panicked: bool)
    requires hdr.Length == HEADER && pooled.Length == BUFFER && hdr != pooled
    modifies r, w, hdr, pooled
    ensures var e := Echo(ACK, Some(BUFFER), old(r.data));
      w.out == old(w.out) + e.out && panicked == e.panicked
  {
    ghost var total, done: Bytes := Echo(ACK, Some(BUFFER), r.data), [];
    var buf := new Byte[5000];
    while true
      invariant fresh(buf) && buf != hdr && buf != pooled
      invariant w.out == old(w.out) + done && OnCourse(total, done, ACK, Some(BUFFER), r.data)
      decreases |r.data|
    {
      EchoTurn(total, done, ACK, Some(BUFFER), r.data);
      var size, error;
      buf, size, error := ReadMsg(r, hdr, buf);
      if error.Some? { return false; }
      var resp := ACK + buf[..size];
      var inBounds := WriteMsg(w, pooled, resp);
      if !inBounds { return true; }
      Assoc(old(w.out), done, Frame(resp));
      done := done + Frame(resp);
    }
  }

  /** handleConnection of tcp_raw: fresh buffers throughout. */
  method HandleConnection(r: Reader, w: Writer)
    modifies r, w
    ensures w.out == old(w.out) + Echo(ACK_TLS, None, old(r.data)).out
  {
    ghost var total, done: Bytes := Echo(ACK_TLS, None, r.data), [];
    while true
      invariant w.out == old(w.out) + done && OnCourse(total, done, ACK_TLS, None, r.data)
      decreases |r.data|
    {
      EchoTurn(total, done, ACK_TLS, None, r.data);
      var buf, error := ReadMsgFresh(r);
      if error.Some? { return; }
      var resp := ACK_TLS + buf[..];
      WriteMsgFresh(w, resp);
      Assoc(old(w.out), done, Frame(resp));
      done := done + Frame(resp);
    }
  }
}
