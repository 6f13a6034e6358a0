/**
  The threaded handlers (handlers.rs): a Reader that turns socket bytes into
  the payloads of complete frames, a Writer that frames outgoing JSON, and a
  Handler that routes incoming messages (events to the event consumer,
  responses to whoever is first in the queue of waiting requesters) and
  outgoing requests (to the writer, queuing the requester).

  Channels are modelled by the sequences of what was sent on them; the
  requester's reply channel by a `Slot` that names it.
 */
module Handlers {
  import opened Wrappers
  import opened JsonValues
  import opened Framing
  import Ev = Events
  import Resp = Responses
  import Req = Requests

  /** The bytes of successive reads, one after the other. */
  function Concat(chunks: seq<seq<Byte>>): (r: seq<Byte>)
    ensures chunks == [] ==> r == []
  {
    if chunks == [] then [] else Concat(chunks[..|chunks| - 1]) + chunks[|chunks| - 1]
  }

  lemma ConcatPrefix(start: seq<Byte>, chunks: seq<seq<Byte>>, i: nat)
    requires i < |chunks|
    ensures start + Concat(chunks[..i + 1]) == (start + Concat(chunks[..i])) + chunks[i]
  {
    assert chunks[..i + 1][..i] == chunks[..i];
  }

  /** Receiving `data` after the bytes `before` were drained is draining `before + data`. */
  lemma ReceiveAfter(acts: seq<seq<Byte>>, before: seq<Byte>, data: seq<Byte>,
                     acts0: seq<seq<Byte>>, buffer0: seq<Byte>, acts1: seq<seq<Byte>>, buffer1: seq<Byte>)
    requires acts0 == acts + Drain(before, ReaderLimit).payloads && buffer0 == Drain(before, ReaderLimit).rest
    requires acts1 == acts0 + Drain(buffer0 + data, ReaderLimit).payloads
    requires buffer1 == Drain(buffer0 + data, ReaderLimit).rest
    ensures acts1 == acts + Drain(before + data, ReaderLimit).payloads
    ensures buffer1 == Drain(before + data, ReaderLimit).rest
  {
    DrainConcat(before, data, ReaderLimit);
    AppendAssoc(acts, Drain(before, ReaderLimit).payloads, Drain(buffer0 + data, ReaderLimit).payloads);
  }

  lemma AppendAssoc<T>(x: seq<T>, y: seq<T>, z: seq<T>)
    ensures (x + y) + z == x + (y + z)
  {
  }

  class Reader {
    /** Bytes read from the socket and not yet consumed. */
    var buffer: seq<Byte>
    /** The length accumulated by the scan so far. */
    var messageLen: nat
    /** Where the scan of the length prefix has got to. */
    var offset: nat
    /** The payloads sent on, in order, for decoding. */
    var actions: seq<seq<Byte>>

    /**
      The scan state describes the buffer: the first `offset` bytes are
      length digits and CR/LF, worth `messageLen`.
     */
    ghost predicate Valid()
      reads this
    {
      offset <= PrefixEnd(buffer, ReaderLimit)
      && messageLen == PrefixValue(buffer[..offset], ReaderLimit)
    }

    constructor ()
      ensures Valid()
      ensures buffer == [] && messageLen == 0 && offset == 0 && actions == []
    {
      buffer := [];
      messageLen := 0;
      offset := 0;
      actions := [];
    }

    /** Append what one read from the socket returned; the scan state stays valid. */
    method RetrieveFromSocket(data: seq<Byte>)
      requires Valid()
      modifies this`buffer
      ensures Valid()
      ensures buffer == old(buffer) + data
    {
      PrefixEndStops(buffer, ReaderLimit);
      PrefixEndAtLeast(buffer + data, offset, ReaderLimit);
      assert (buffer + data)[..offset] == buffer[..offset];
      buffer := buffer + data;
    }

    /** Continue the scan of the length prefix from where it stopped. */
    method FindMessageLen()
      requires Valid()
      modifies this`offset, this`messageLen
      ensures Valid()
      ensures offset == PrefixEnd(buffer, ReaderLimit)
    {
      PrefixEndStops(buffer, ReaderLimit);
      while offset < |buffer|
        invariant Valid()
        decreases |buffer| - offset
      {
        var b := buffer[offset];
        if b < 0x40 && b >= 0x30 {
          assert buffer[..offset + 1][..offset] == buffer[..offset];
          messageLen := messageLen * 10 + (b as int - 0x30);
          offset := offset + 1;
        } else if b == 0x0A || b == 0x0D {
          assert buffer[..offset + 1][..offset] == buffer[..offset];
          offset := offset + 1;
        } else {
          break;
        }
      }
    }

    /** Send the payload of the frame found on. */
    method HandleMessage()
      requires offset + messageLen <= |buffer|
      modifies this`actions
      ensures actions == old(actions) + [buffer[offset..offset + messageLen]]
    {
      actions := actions + [buffer[offset..offset + messageLen]];
    }

    /**
      Process the frame the scan delimits, if it is complete: send its
      payload on, drop it from the buffer and restart the scan.
     */
    method TryProcessMessage() returns (processed: bool)
      requires Valid()
      modifies this`buffer, this`messageLen, this`offset, this`actions
      ensures Valid()
      ensures processed <==> old(messageLen) > 0 && |old(buffer)| >= old(messageLen) + old(offset)
      ensures processed ==>
                actions == old(actions) + [old(buffer)[old(offset)..old(offset) + old(messageLen)]]
                && buffer == old(buffer)[old(offset) + old(messageLen)..]
                && messageLen == 0 && offset == 0
      ensures !processed ==>
                actions == old(actions) && buffer == old(buffer)
                && messageLen == old(messageLen) && offset == old(offset)
    {
      if messageLen > 0 && |buffer| >= messageLen + offset {
        HandleMessage();
        buffer := buffer[messageLen + offset..];
        messageLen := 0;
        offset := 0;
        processed := true;
      } else {
        processed := false;
      }
    }

    /**
      One pass of the inner loop of the reader: finish scanning the length
      prefix, then process the frame if it is complete. Either the first
      frame is sent on, or there is no complete frame and nothing changes
      but the scan state.
     */
    method ProcessNext() returns (processed: bool)
      requires Valid()
      modifies this`buffer, this`messageLen, this`offset, this`actions
      ensures Valid()
      ensures processed <==> FindFrame(old(buffer), ReaderLimit).Some?
      ensures processed ==>
                var span := FindFrame(old(buffer), ReaderLimit).value;
                actions == old(actions) + [old(buffer)[span.offset..span.offset + span.len]]
                && buffer == old(buffer)[span.offset + span.len..]
      ensures !processed ==> actions == old(actions) && buffer == old(buffer)
    {
      FindMessageLen();
      ScanFindsFrame(buffer, offset, messageLen, ReaderLimit);
      processed := TryProcessMessage();
    }

    /**
      The inner loop of the reader: send on every complete frame in the
      buffer, in order, as the reference scan drains them; stop at the
      first incomplete one.
     */
    method ProcessBuffered()
      requires Valid()
      modifies this`buffer, this`messageLen, this`offset, this`actions
      ensures Valid()
      ensures actions == old(actions) + Drain(old(buffer), ReaderLimit).payloads
      ensures buffer == Drain(old(buffer), ReaderLimit).rest
    {
      ghost var goal := Drain(buffer, ReaderLimit);
      ghost var total := actions + goal.payloads;
      while true
        invariant Valid()
        invariant actions + Drain(buffer, ReaderLimit).payloads == total
        invariant Drain(buffer, ReaderLimit).rest == goal.rest
        decreases |buffer|
      {
        ghost var before, acts := buffer, actions;
        var processed := ProcessNext();
        if !processed {
          DrainNone(before, ReaderLimit);
          assert actions + [] == actions;
          return;
        }
        ghost var span := FindFrame(before, ReaderLimit).value;
        DrainInvariantStep(total, goal.rest, acts, before, span.offset, span.len, actions, buffer, ReaderLimit);
      }
    }

    /** One round of the reader: read a chunk, then send on every complete frame now buffered. */
    method Receive(data: seq<Byte>)
      requires Valid()
      modifies this`buffer, this`messageLen, this`offset, this`actions
      ensures Valid()
      ensures actions == old(actions) + Drain(old(buffer) + data, ReaderLimit).payloads
      ensures buffer == Drain(old(buffer) + data, ReaderLimit).rest
    {
      RetrieveFromSocket(data);
      ProcessBuffered();
    }

    /**
      The outer loop of `run` over a finite run of reads. Started, as a new
      Reader is, without a complete frame buffered, it hands on what draining
      all the bytes read at once would: how they were split into reads does
      not matter.
     */
    method Run(chunks: seq<seq<Byte>>)
      requires Valid()
      requires FindFrame(buffer, ReaderLimit).None?
      modifies this`buffer, this`messageLen, this`offset, this`actions
      ensures Valid()
      ensures actions == old(actions) + Drain(old(buffer) + Concat(chunks), ReaderLimit).payloads
      ensures buffer == Drain(old(buffer) + Concat(chunks), ReaderLimit).rest
    {
      ghost var start := buffer;
      ghost var acts := actions;
      DrainNone(buffer, ReaderLimit);
      assert start + Concat(chunks[..0]) == start;
      for i := 0 to |chunks|
        invariant Valid()
        invariant actions == acts + Drain(start + Concat(chunks[..i]), ReaderLimit).payloads
        invariant buffer == Drain(start + Concat(chunks[..i]), ReaderLimit).rest
      {
        ghost var before := start + Concat(chunks[..i]);
        ghost var acts0, buffer0 := actions, buffer;
        ConcatPrefix(start, chunks, i);
        Receive(chunks[i]);
        ReceiveAfter(acts, before, chunks[i], acts0, buffer0, actions, buffer);
      }
      assert chunks[..|chunks|] == chunks;
    }
  }

  class Writer {
    /** Everything written to the socket so far. */
    var written: seq<Byte>

    constructor ()
      ensures written == []
    {
      written := [];
    }

    /** Write one message: its encoded byte length in decimal, then the encoded bytes. */
    method Send(data: Json, encode: Json -> seq<Byte>)
      modifies this
      ensures written == old(written) + FrameBytes(encode(data))
    {
      var encoded := encode(data);
      var message := DecimalDigits(|encoded|) + encoded;
      written := written + message;
    }
  }

  /**
    Whatever a Writer sends, a Reader hands on unchanged and in order, and
    keeps nothing back (the encoder produces non-empty JSON texts, which
    never start with a digit or CR/LF).
   */
  lemma WriterToReader(payloads: seq<seq<Byte>>)
    requires forall i :: 0 <= i < |payloads| ==> Unambiguous(payloads[i], ReaderLimit)
    ensures Drain(FramesBytes(payloads), ReaderLimit) == Drained(payloads, [])
  {
    assert FindFrame([], ReaderLimit).None?;
    DrainFrames(payloads, [], ReaderLimit);
    assert FramesBytes(payloads) + [] == FramesBytes(payloads);
  }

  /**
    A new Reader fed the Writer's bytes, split into reads in any way, hands
    on exactly the payloads written, in order, and keeps nothing back.
   */
  method WriterToReaderByReads(payloads: seq<seq<Byte>>, chunks: seq<seq<Byte>>)
    returns (received: seq<seq<Byte>>, left: seq<Byte>)
    requires forall i :: 0 <= i < |payloads| ==> Unambiguous(payloads[i], ReaderLimit)
    requires Concat(chunks) == FramesBytes(payloads)
    ensures received == payloads && left == []
  {
    var reader := new Reader();
    assert FindFrame([], ReaderLimit).None?;
    reader.Run(chunks);
    WriterToReader(payloads);
    assert [] + Concat(chunks) == FramesBytes(payloads);
    received := reader.actions;
    left := reader.buffer;
  }

  /** A requester's reply channel. */
  type Slot = nat

  /** A response sent to a requester. */
  datatype Delivery = Delivery(slot: Slot, response: Resp.Response)

  function SlotsOf(ds: seq<Delivery>): seq<Slot> {
    seq(|ds|, i requires 0 <= i < |ds| => ds[i].slot)
  }

  class Handler {
    /** Requests sent to the writer. */
    var writeTo: seq<Json>
    /** Events sent to the event consumer. */
    var eventTo: seq<Ev.Event>
    /** Requesters waiting for a response, oldest first. */
    var responseTo: seq<Slot>
    /** Responses sent to requesters. */
    var delivered: seq<Delivery>
    /** Every requester ever queued, in order. */
    ghost var requested: seq<Slot>

    /** The queue: requesters already answered, in order, followed by those still waiting, are all requesters. */
    ghost predicate Valid()
      reads this
    {
      SlotsOf(delivered) + responseTo == requested
    }

    constructor ()
      ensures Valid()
      ensures writeTo == [] && eventTo == [] && responseTo == [] && delivered == [] && requested == []
    {
      writeTo := [];
      eventTo := [];
      responseTo := [];
      delivered := [];
      requested := [];
    }

    /** Send the request to the writer and queue the requester. */
    method HandleRequest(request: Req.Request, respondTo: Slot) returns (ok: bool)
      requires Valid()
      requires !Req.IsCommandUnsubscribe(request)
      modifies this`writeTo, this`responseTo, this`requested
      ensures Valid() && ok
      ensures writeTo == old(writeTo) + [Req.ToJson(request)]
      ensures responseTo == old(responseTo) + [respondTo]
      ensures requested == old(requested) + [respondTo]
    {
      writeTo := writeTo + [Req.ToJson(request)];
      responseTo := responseTo + [respondTo];
      requested := requested + [respondTo];
      ok := true;
    }

    /**
      Answer the oldest waiting requester. With nobody waiting the handler
      stops (false), changing nothing. The n-th response goes to the n-th
      requester.
     */
    method HandleResponse(data: Json) returns (ok: bool)
      requires Valid()
      modifies this`responseTo, this`delivered
      ensures Valid()
      ensures ok <==> old(responseTo) != []
      ensures ok ==>
                delivered == old(delivered) + [Delivery(old(responseTo)[0], Resp.Response(data))]
                && responseTo == old(responseTo)[1..]
                && delivered[|old(delivered)|].slot == requested[|old(delivered)|]
      ensures !ok ==> delivered == old(delivered) && responseTo == old(responseTo)
    {
      var resp := Resp.FromJson(data);
      match resp
      case Success(r) =>
        if responseTo == [] {
          ok := false;
        } else {
          var sender := responseTo[0];
          responseTo := responseTo[1..];
          delivered := delivered + [Delivery(sender, r)];
          assert SlotsOf(delivered) == SlotsOf(old(delivered)) + [sender];
          ok := true;
        }
      case Failure(_) =>
        ok := false;
    }

    /** Send a well-formed event to the event consumer; an invalid event stops the handler. */
    method HandleEvent(data: Json) returns (ok: bool)
      modifies this`eventTo
      ensures ok <==> Ev.FromJson(data).Success?
      ensures ok ==> eventTo == old(eventTo) + [Ev.FromJson(data).value]
      ensures !ok ==> eventTo == old(eventTo)
    {
      match Ev.FromJson(data)
      case Success(evt) =>
        eventTo := eventTo + [evt];
        ok := true;
      case Failure(_) =>
        ok := false;
    }

    /** Route a decoded message: events to the event consumer, everything else as a response. */
    method HandleSocketMsg(data: Json) returns (ok: bool)
      requires Valid()
      modifies this`eventTo, this`responseTo, this`delivered
      ensures Valid()
      ensures Ev.IsEvent(data) ==>
                (ok <==> Ev.FromJson(data).Success?)
                && eventTo == old(eventTo) + (if ok then [Ev.FromJson(data).value] else [])
                && responseTo == old(responseTo) && delivered == old(delivered)
      ensures !Ev.IsEvent(data) ==>
                (ok <==> old(responseTo) != [])
                && eventTo == old(eventTo)
                && delivered == old(delivered) + (if ok then [Delivery(old(responseTo)[0], Resp.Response(data))] else [])
                && responseTo == (if ok then old(responseTo)[1..] else old(responseTo))
    {
      if Ev.IsEvent(data) {
        ok := HandleEvent(data);
      } else {
        ok := HandleResponse(data);
      }
    }
  }
}
