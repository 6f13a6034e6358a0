/**
  The single-threaded socket handler (handler.rs): a byte buffer filled from
  the socket, scanned for one length-prefixed frame at a time, whose payload
  is decoded and classified as an event or a response; and the writer that
  frames an outgoing request.

  UTF-8 validation and JSON text parsing are the parameter `decode`, JSON
  serialisation the parameter `encode`; the socket is a sequence of chunks.
 */
module SyncHandler {
  import opened Wrappers
  import opened JsonValues
  import opened Framing
  import Ev = Events
  import Resp = Responses
  import Req = Requests

  /**
    Why reading a message failed: the socket, the bytes or JSON text, or the
    JSON structure. `Panicked` stands for the panic of event-name parsing,
    which the source does not catch.
   */
  datatype Error = Io | Utf8 | JsonSyntax | InvalidJson | Panicked

  datatype Message = EventMessage(event: Ev.Event) | ResponseMessage(response: Resp.Response)

  /** What one read from the socket produced. */
  datatype Chunk = Bytes(data: seq<Byte>) | ReadFailed

  /** Objects carrying an `event` key are events; everything else is a response. */
  function Classify(decoded: Result<Json, Error>): Result<Message, Error> {
    match decoded
    case Failure(e) => Failure(e)
    case Success(json) =>
      if Ev.IsEvent(json) then
        match Ev.FromJson(json)
        case Success(evt) => Success(EventMessage(evt))
        case Failure(e) => Failure(if e.NamePanicked? then Panicked else InvalidJson)
      else
        match Resp.FromJson(json)
        case Success(resp) => Success(ResponseMessage(resp))
        case Failure(_) => Failure(InvalidJson)
  }

  /** Classification: a decode error passes through; events are parsed, everything else is a response. */
  lemma ClassifyCases(decoded: Result<Json, Error>)
    ensures decoded.Failure? ==> Classify(decoded) == Failure(decoded.error)
    ensures decoded.Success? && Ev.IsEvent(decoded.value) ==>
              (Classify(decoded).Success? <==> Ev.FromJson(decoded.value).Success?)
              && (Classify(decoded).Success? ==> Classify(decoded) == Success(EventMessage(Ev.FromJson(decoded.value).value)))
              && (Classify(decoded).Failure? ==>
                    Classify(decoded).error == if Ev.FromJson(decoded.value).error.NamePanicked? then Panicked else InvalidJson)
    ensures decoded.Success? && !Ev.IsEvent(decoded.value) ==>
              Classify(decoded) == Success(ResponseMessage(Resp.Response(decoded.value)))
  {
    if decoded.Success? && !Ev.IsEvent(decoded.value) {
      assert Resp.FromJson(decoded.value) == Success(Resp.Response(decoded.value));
    }
  }

  /** The outcome of `read`: the message (None: the input ran out), chunks consumed, buffer left. */
  datatype ReadOutcome = ReadOutcome(result: Option<Result<Message, Error>>, used: nat, buffer: seq<Byte>)

  /**
    The reference behaviour of `read` on buffer `buf` with `chunks` still to
    come from the socket: take the first complete frame, otherwise read more;
    a failed read ends with an I/O error.
   */
  function ReadSpec(buf: seq<Byte>, chunks: seq<Chunk>, decode: seq<Byte> -> Result<Json, Error>): (o: ReadOutcome)
    ensures o.used <= |chunks|
    decreases |chunks|
  {
    match FindFrame(buf, DecimalLimit)
    case Some(span) =>
      ReadOutcome(Some(Classify(decode(buf[span.offset..span.offset + span.len]))), 0, buf[span.offset + span.len..])
    case None =>
      if chunks == [] then ReadOutcome(None, 0, buf)
      else match chunks[0]
        case ReadFailed => ReadOutcome(Some(Failure(Io)), 1, buf)
        case Bytes(data) =>
          var o := ReadSpec(buf + data, chunks[1..], decode);
          ReadOutcome(o.result, o.used + 1, o.buffer)
  }

  /** All bytes the chunks carry, in order. */
  function Received(chunks: seq<Chunk>): seq<Byte> {
    if chunks == [] then []
    else (if chunks[0].Bytes? then chunks[0].data else []) + Received(chunks[1..])
  }

  predicate AllBytes(chunks: seq<Chunk>) {
    forall i :: 0 <= i < |chunks| ==> chunks[i].Bytes?
  }

  /**
    However a frame is split into reads (one byte at a time or all at once,
    with more bytes after it), `read` delivers its payload, classified, and
    keeps every byte after the frame: what it leaves buffered, followed by
    the chunks it did not consume, is exactly what followed the frame.
   */
  lemma {:induction false} ReadDeliversFrame(buf: seq<Byte>, chunks: seq<Chunk>, payload: seq<Byte>, rest: seq<Byte>,
                                             decode: seq<Byte> -> Result<Json, Error>)
    requires Unambiguous(payload, DecimalLimit)
    requires AllBytes(chunks)
    requires buf + Received(chunks) == FrameBytes(payload) + rest
    ensures var o := ReadSpec(buf, chunks, decode);
            o.result == Some(Classify(decode(payload)))
            && o.buffer + Received(chunks[o.used..]) == rest
    decreases |chunks|
  {
    var f := FrameBytes(payload);
    var d := DecimalDigits(|payload|);
    if |buf| < |f| {
      assert buf == (buf + Received(chunks))[..|buf|] == f[..|buf|];
      PartialFrameNeverYields(payload, |buf|, DecimalLimit);
      assert |Received(chunks)| > 0;
      assert Received(chunks) == chunks[0].data + Received(chunks[1..]);
      assert (buf + chunks[0].data) + Received(chunks[1..]) == f + rest;
      ReadDeliversFrame(buf + chunks[0].data, chunks[1..], payload, rest, decode);
      var o := ReadSpec(buf + chunks[0].data, chunks[1..], decode);
      assert chunks[1..][o.used..] == chunks[o.used + 1..];
    } else {
      var extra := buf[|f|..];
      assert buf[..|f|] == (buf + Received(chunks))[..|f|] == (f + rest)[..|f|] == f;
      assert buf == f + extra;
      assert extra + Received(chunks) == rest by {
        assert extra + Received(chunks) == (buf + Received(chunks))[|f|..];
        assert (f + rest)[|f|..] == rest;
      }
      FrameRoundTrip(payload, extra, DecimalLimit);
      assert chunks[0..] == chunks;
    }
  }

  class Handler {
    /** Bytes read from the socket and not yet taken as a message. */
    var buffer: seq<Byte>
    /** Everything written to the socket so far. */
    var written: seq<Byte>

    constructor ()
      ensures buffer == [] && written == []
    {
      buffer := [];
      written := [];
    }

    /** Append what one read from the socket returned. */
    method RetrieveFromSocket(data: seq<Byte>)
      modifies this`buffer
      ensures buffer == old(buffer) + data
    {
      var i := 0;
      while i < |data|
        invariant 0 <= i <= |data|
        invariant buffer == old(buffer) + data[..i]
      {
        buffer := buffer + [data[i]];
        i := i + 1;
        assert data[..i] == data[..i - 1] + [data[i - 1]];
      }
      assert data[..|data|] == data;
    }

    /** Scan the buffer for the length prefix; a frame only when it is complete. */
    method FindMessage() returns (r: Option<Span>)
      ensures r == FindFrame(buffer, DecimalLimit)
    {
      var offset := 0;
      var messageLen: nat := 0;
      while offset < |buffer|
        invariant offset <= |buffer|
        invariant forall i :: 0 <= i < offset ==> IsPrefixByte(buffer[i], DecimalLimit)
        invariant messageLen == PrefixValue(buffer[..offset], DecimalLimit)
      {
        var b := buffer[offset];
        if b < 0x3A && b >= 0x30 {
          assert buffer[..offset + 1][..offset] == buffer[..offset];
          messageLen := messageLen * 10 + (b as int - 0x30);
          offset := offset + 1;
        } else if b == 0x0A || b == 0x0D {
          assert buffer[..offset + 1][..offset] == buffer[..offset];
          offset := offset + 1;
        } else {
          break;
        }
      }
      PrefixEndUnique(buffer, offset, DecimalLimit);
      if messageLen > 0 && |buffer| >= offset + messageLen {
        r := Some(Span(offset, messageLen));
      } else {
        r := None;
      }
    }

    /** Take the frame out of the buffer, then decode and classify its payload. */
    method MakeMessage(offset: nat, length: nat, decode: seq<Byte> -> Result<Json, Error>) returns (r: Result<Message, Error>)
      requires offset + length <= |buffer|
      modifies this`buffer
      ensures buffer == old(buffer)[offset + length..]
      ensures r == Classify(decode(old(buffer)[offset..offset + length]))
    {
      var decoded := decode(buffer[offset..offset + length]);
      buffer := buffer[offset + length..];
      r := Classify(decoded);
    }

    /**
      Read one message: return the first complete frame in the buffer,
      reading chunks from the socket until there is one. `used` is how many
      chunks were consumed; None means the chunks ran out first.
     */
    method Read(chunks: seq<Chunk>, decode: seq<Byte> -> Result<Json, Error>) returns (r: Option<Result<Message, Error>>, used: nat)
      modifies this`buffer
      ensures ReadOutcome(r, used, buffer) == ReadSpec(old(buffer), chunks, decode)
    {
      used := 0;
      while true
        invariant used <= |chunks|
        invariant var o := ReadSpec(buffer, chunks[used..], decode);
                  ReadSpec(old(buffer), chunks, decode) == ReadOutcome(o.result, o.used + used, o.buffer)
        decreases |chunks| - used
      {
        var found := FindMessage();
        if found.Some? {
          var m := MakeMessage(found.value.offset, found.value.len, decode);
          r := Some(m);
          return;
        }
        if used == |chunks| {
          r := None;
          return;
        }
        match chunks[used]
        case ReadFailed =>
          r := Some(Failure(Io));
          used := used + 1;
          return;
        case Bytes(data) =>
          assert chunks[used..][1..] == chunks[used + 1..];
          RetrieveFromSocket(data);
          used := used + 1;
      }
    }

    /** Send a request: its encoded length in decimal, then the encoded bytes. */
    method Write(request: Req.Request, encode: Json -> seq<Byte>)
      requires !Req.IsCommandUnsubscribe(request)
      modifies this`written
      ensures written == old(written) + FrameBytes(encode(Req.ToJson(request)))
    {
      var bytes := encode(Req.ToJson(request));
      written := written + DecimalDigits(|bytes|);
      written := written + bytes;
    }
  }
}
