/**
  The wire framing of the plugin protocol: every message is its byte length
  in ASCII decimal followed by the payload bytes, with no separator. Stray
  CR and LF bytes before and among the digits are skipped.

  This module is the reference scan that both handler files implement:
  `limit` is the exclusive upper bound of the byte test each of them uses
  for a length digit (handler.rs accepts 0x30-0x39, handlers.rs 0x30-0x3F).
 */
module Framing {
  import opened Wrappers

  type Byte = b: int | 0 <= b < 256

  const LF: Byte := 0x0A
  const CR: Byte := 0x0D
  const ZERO: Byte := 0x30

  /** handler.rs: a length digit is a byte in 0x30..0x39. */
  const DecimalLimit: int := 0x3A
  /** handlers.rs: a length digit is a byte in 0x30..0x3F. */
  const ReaderLimit: int := 0x40

  /** The exclusive upper bounds of a length digit this model covers. */
  type DigitLimit = l: int | 0x3A <= l <= 0x40 witness 0x3A

  predicate IsLengthDigit(b: Byte, limit: DigitLimit) {
    ZERO <= b < limit
  }

  predicate IsNewline(b: Byte) {
    b == LF || b == CR
  }

  /** A byte the length scan steps over. */
  predicate IsPrefixByte(b: Byte, limit: DigitLimit) {
    IsLengthDigit(b, limit) || IsNewline(b)
  }

  /** Where the scan stops: the first byte that is neither a digit nor CR/LF. */
  function PrefixEnd(buf: seq<Byte>, limit: DigitLimit): (n: nat)
    ensures n <= |buf|
  {
    if buf == [] || !IsPrefixByte(buf[0], limit) then 0
    else 1 + PrefixEnd(buf[1..], limit)
  }

  /** The scan steps over prefix bytes only, and stops at the first other byte. */
  lemma {:induction false} PrefixEndStops(buf: seq<Byte>, limit: DigitLimit)
    ensures forall i :: 0 <= i < PrefixEnd(buf, limit) ==> IsPrefixByte(buf[i], limit)
    ensures PrefixEnd(buf, limit) < |buf| ==> !IsPrefixByte(buf[PrefixEnd(buf, limit)], limit)
  {
    if buf != [] && IsPrefixByte(buf[0], limit) {
      PrefixEndStops(buf[1..], limit);
      forall i | 0 <= i < PrefixEnd(buf, limit)
        ensures IsPrefixByte(buf[i], limit)
      {
        if i > 0 {
          assert buf[i] == buf[1..][i - 1];
        }
      }
    }
  }

  /** The scan gets at least as far as a run of prefix bytes goes. */
  lemma {:induction false} PrefixEndAtLeast(buf: seq<Byte>, n: nat, limit: DigitLimit)
    requires n <= |buf|
    requires forall i :: 0 <= i < n ==> IsPrefixByte(buf[i], limit)
    ensures n <= PrefixEnd(buf, limit)
  {
    if n > 0 {
      PrefixEndAtLeast(buf[1..], n - 1, limit);
    }
  }

  /** The stopping point is unique: the scan stops at the first byte it cannot step over. */
  lemma PrefixEndUnique(buf: seq<Byte>, n: nat, limit: DigitLimit)
    requires n <= |buf|
    requires forall i :: 0 <= i < n ==> IsPrefixByte(buf[i], limit)
    requires n < |buf| ==> !IsPrefixByte(buf[n], limit)
    ensures PrefixEnd(buf, limit) == n
  {
    PrefixEndStops(buf, limit);
  }

  /**
    The length accumulated over `s`, left to right: each digit multiplies the
    value so far by ten and adds the digit's value; CR/LF add nothing.
   */
  function PrefixValue(s: seq<Byte>, limit: DigitLimit): nat {
    if s == [] then 0
    else
      var v := PrefixValue(s[..|s| - 1], limit);
      var b := s[|s| - 1];
      if IsLengthDigit(b, limit) then v * 10 + (b - ZERO) else v
  }

  datatype Span = Span(offset: nat, len: nat)

  /**
    The reference scan: the payload starts where the length prefix ends, and
    a frame is found only once its length is positive and all of it is there.
   */
  function FindFrame(buf: seq<Byte>, limit: DigitLimit): (r: Option<Span>)
    ensures r.Some? ==> 0 < r.value.len && r.value.offset + r.value.len <= |buf|
  {
    var offset := PrefixEnd(buf, limit);
    var len := PrefixValue(buf[..offset], limit);
    if len > 0 && |buf| >= offset + len then Some(Span(offset, len)) else None
  }

  /** A finished scan of the length prefix decides the frame. */
  lemma ScanFindsFrame(buf: seq<Byte>, offset: nat, len: nat, limit: DigitLimit)
    requires offset == PrefixEnd(buf, limit)
    requires len == PrefixValue(buf[..offset], limit)
    ensures FindFrame(buf, limit) == if len > 0 && |buf| >= offset + len then Some(Span(offset, len)) else None
  {
  }

  /** The ASCII decimal representation of `n`, without leading zeros. */
  function DecimalDigits(n: nat): (s: seq<Byte>)
    ensures |s| >= 1
    ensures forall i :: 0 <= i < |s| ==> ZERO <= s[i] < DecimalLimit
  {
    if n < 10 then [ZERO + n] else DecimalDigits(n / 10) + [ZERO + n % 10]
  }

  /** Reading the decimal representation back gives the number. */
  lemma {:induction false} DecimalDigitsValue(n: nat, limit: DigitLimit)
    ensures PrefixValue(DecimalDigits(n), limit) == n
  {
    var s := DecimalDigits(n);
    if n < 10 {
      assert s[..0] == [];
    } else {
      assert s[..|s| - 1] == DecimalDigits(n / 10);
      DecimalDigitsValue(n / 10, limit);
    }
  }

  /** An outgoing frame: the payload's byte length in decimal, then the payload. */
  function FrameBytes(payload: seq<Byte>): seq<Byte> {
    DecimalDigits(|payload|) + payload
  }

  /** The frames of several payloads, back to back. */
  function FramesBytes(payloads: seq<seq<Byte>>): seq<Byte> {
    if payloads == [] then [] else FrameBytes(payloads[0]) + FramesBytes(payloads[1..])
  }

  /**
    A payload the scan can delimit: non-empty, and not starting with a byte
    the length scan would step over (a JSON text starts with `{`, `[`, `"`, ...).
   */
  predicate Unambiguous(payload: seq<Byte>, limit: DigitLimit) {
    |payload| > 0 && !IsPrefixByte(payload[0], limit)
  }

  /** Any length prefix whose value is the payload length delimits the payload, whatever follows it. */
  lemma FindFrameAfterPrefix(pre: seq<Byte>, payload: seq<Byte>, rest: seq<Byte>, limit: DigitLimit)
    requires forall i :: 0 <= i < |pre| ==> IsPrefixByte(pre[i], limit)
    requires Unambiguous(payload, limit)
    requires PrefixValue(pre, limit) == |payload|
    ensures FindFrame(pre + payload + rest, limit) == Some(Span(|pre|, |payload|))
    ensures (pre + payload + rest)[|pre|..|pre| + |payload|] == payload
    ensures (pre + payload + rest)[|pre| + |payload|..] == rest
  {
    var buf := pre + payload + rest;
    PrefixEndUnique(buf, |pre|, limit);
    assert buf[..|pre|] == pre;
  }

  /** Round trip: scanning a frame, followed by anything, finds exactly its payload. */
  lemma FrameRoundTrip(payload: seq<Byte>, rest: seq<Byte>, limit: DigitLimit)
    requires Unambiguous(payload, limit)
    ensures var d := DecimalDigits(|payload|);
            FindFrame(FrameBytes(payload) + rest, limit) == Some(Span(|d|, |payload|))
    ensures var d := DecimalDigits(|payload|);
            (FrameBytes(payload) + rest)[|d|..|d| + |payload|] == payload
            && (FrameBytes(payload) + rest)[|d| + |payload|..] == rest
  {
    var d := DecimalDigits(|payload|);
    DecimalDigitsValue(|payload|, limit);
    assert FrameBytes(payload) + rest == d + payload + rest;
    FindFrameAfterPrefix(d, payload, rest, limit);
  }

  /** A strict prefix of a frame never yields a frame. */
  lemma PartialFrameNeverYields(payload: seq<Byte>, k: nat, limit: DigitLimit)
    requires Unambiguous(payload, limit)
    requires k < |FrameBytes(payload)|
    ensures FindFrame(FrameBytes(payload)[..k], limit) == None
  {
    var d := DecimalDigits(|payload|);
    var p := FrameBytes(payload)[..k];
    if k <= |d| {
      assert p == d[..k];
      PrefixEndUnique(p, k, limit);
    } else {
      assert p == d + payload[..k - |d|];
      PrefixEndUnique(p, |d|, limit);
      assert p[..|d|] == d;
      DecimalDigitsValue(|payload|, limit);
    }
  }

  lemma {:induction false} PrefixValueOfNewlines(nl: seq<Byte>, limit: DigitLimit)
    requires forall i :: 0 <= i < |nl| ==> IsNewline(nl[i])
    ensures PrefixValue(nl, limit) == 0
  {
    if nl != [] {
      PrefixValueOfNewlines(nl[..|nl| - 1], limit);
    }
  }

  /** CR/LF bytes before the digits do not contribute to the length. */
  lemma {:induction false} PrefixValueLeadingNewlines(nl: seq<Byte>, s: seq<Byte>, limit: DigitLimit)
    requires forall i :: 0 <= i < |nl| ==> IsNewline(nl[i])
    ensures PrefixValue(nl + s, limit) == PrefixValue(s, limit)
  {
    if s == [] {
      assert nl + s == nl;
      PrefixValueOfNewlines(nl, limit);
    } else {
      assert (nl + s)[..|nl + s| - 1] == nl + s[..|s| - 1];
      PrefixValueLeadingNewlines(nl, s[..|s| - 1], limit);
    }
  }

  /** CR/LF bytes after the digits do not contribute to the length. */
  lemma {:induction false} PrefixValueTrailingNewlines(s: seq<Byte>, nl: seq<Byte>, limit: DigitLimit)
    requires forall i :: 0 <= i < |nl| ==> IsNewline(nl[i])
    ensures PrefixValue(s + nl, limit) == PrefixValue(s, limit)
  {
    if nl == [] {
      assert s + nl == s;
    } else {
      assert (s + nl)[..|s + nl| - 1] == s + nl[..|nl| - 1];
      PrefixValueTrailingNewlines(s, nl[..|nl| - 1], limit);
    }
  }

  /** Newline tolerance: CR/LF noise around the length digits decodes like no noise. */
  lemma NewlineNoise(before: seq<Byte>, after: seq<Byte>, payload: seq<Byte>, rest: seq<Byte>, limit: DigitLimit)
    requires forall i :: 0 <= i < |before| ==> IsNewline(before[i])
    requires forall i :: 0 <= i < |after| ==> IsNewline(after[i])
    requires Unambiguous(payload, limit)
    ensures var pre := before + DecimalDigits(|payload|) + after;
            FindFrame(pre + payload + rest, limit) == Some(Span(|pre|, |payload|))
            && (pre + payload + rest)[|pre|..|pre| + |payload|] == payload
  {
    var d := DecimalDigits(|payload|);
    var pre := before + d + after;
    DecimalDigitsValue(|payload|, limit);
    PrefixValueLeadingNewlines(before, d, limit);
    PrefixValueTrailingNewlines(before + d, after, limit);
    FindFrameAfterPrefix(pre, payload, rest, limit);
  }

  /** The frames a buffer holds, taken one by one from the front, and what is left. */
  datatype Drained = Drained(payloads: seq<seq<Byte>>, rest: seq<Byte>)

  /** Take frames from the front of `buf` until no complete frame is left. */
  function Drain(buf: seq<Byte>, limit: DigitLimit): Drained
    decreases |buf|
  {
    match FindFrame(buf, limit)
    case None => Drained([], buf)
    case Some(span) =>
      var d := Drain(buf[span.offset + span.len..], limit);
      Drained([buf[span.offset..span.offset + span.len]] + d.payloads, d.rest)
  }

  /** One step of draining, as the definition takes it. */
  lemma DrainStep(buf: seq<Byte>, limit: DigitLimit)
    ensures FindFrame(buf, limit).Some? ==>
              var span := FindFrame(buf, limit).value;
              var d := Drain(buf[span.offset + span.len..], limit);
              Drain(buf, limit) == Drained([buf[span.offset..span.offset + span.len]] + d.payloads, d.rest)
  {
  }

  /** Draining a buffer without a complete frame hands nothing on and keeps every byte. */
  lemma DrainNone(buf: seq<Byte>, limit: DigitLimit)
    requires FindFrame(buf, limit).None?
    ensures Drain(buf, limit) == Drained([], buf)
  {
  }

  /**
    Handing on the first frame of `buf` and draining what follows it is the
    same as draining `buf`: the frames sent so far, followed by the frames
    still to come, stay the same.
   */
  lemma DrainAfterFrame(sent: seq<seq<Byte>>, buf: seq<Byte>, offset: nat, len: nat, limit: DigitLimit)
    requires FindFrame(buf, limit) == Some(Span(offset, len))
    ensures sent + Drain(buf, limit).payloads
            == (sent + [buf[offset..offset + len]]) + Drain(buf[offset + len..], limit).payloads
    ensures Drain(buf, limit).rest == Drain(buf[offset + len..], limit).rest
  {
    var payload := buf[offset..offset + len];
    var d := Drain(buf[offset + len..], limit);
    DrainStep(buf, limit);
    assert sent + ([payload] + d.payloads) == (sent + [payload]) + d.payloads;
  }

  lemma DrainInvariantStep(total: seq<seq<Byte>>, rest: seq<Byte>, sent: seq<seq<Byte>>, buf: seq<Byte>,
                            offset: nat, len: nat, sent': seq<seq<Byte>>, buf': seq<Byte>, limit: DigitLimit)
    requires sent + Drain(buf, limit).payloads == total && Drain(buf, limit).rest == rest
    requires FindFrame(buf, limit) == Some(Span(offset, len))
    requires sent' == sent + [buf[offset..offset + len]] && buf' == buf[offset + len..]
    ensures sent' + Drain(buf', limit).payloads == total && Drain(buf', limit).rest == rest
  {
    DrainAfterFrame(sent, buf, offset, len, limit);
  }

  /** What is left after draining holds no complete frame. */
  lemma {:induction false} DrainLeavesNoFrame(buf: seq<Byte>, limit: DigitLimit)
    ensures FindFrame(Drain(buf, limit).rest, limit).None?
    decreases |buf|
  {
    match FindFrame(buf, limit)
    case None =>
    case Some(span) => DrainLeavesNoFrame(buf[span.offset + span.len..], limit);
  }

  /** Once the scan stops inside the buffer, later bytes do not move where it stops. */
  lemma {:induction false} PrefixEndExtends(buf: seq<Byte>, more: seq<Byte>, limit: DigitLimit)
    requires PrefixEnd(buf, limit) < |buf|
    ensures PrefixEnd(buf + more, limit) == PrefixEnd(buf, limit)
  {
    assert (buf + more)[0] == buf[0];
    if IsPrefixByte(buf[0], limit) {
      assert (buf + more)[1..] == buf[1..] + more;
      PrefixEndExtends(buf[1..], more, limit);
    }
  }

  /** A frame found in `buf` is found unchanged whatever bytes follow. */
  lemma {:induction false} FindFrameExtends(buf: seq<Byte>, more: seq<Byte>, limit: DigitLimit)
    requires FindFrame(buf, limit).Some?
    ensures FindFrame(buf + more, limit) == FindFrame(buf, limit)
  {
    var offset := PrefixEnd(buf, limit);
    PrefixEndExtends(buf, more, limit);
    SliceOfConcat(buf, more, 0, offset);
  }

  /**
    Draining with any frame finder `find` that keeps to the buffer; `Drain`
    is the instance for the reference scan.
   */
  function DrainWith(find: seq<Byte> -> Option<Span>, buf: seq<Byte>): Drained
    decreases |buf|
  {
    match find(buf)
    case Some(span) =>
      if 0 < span.len && span.offset + span.len <= |buf| then
        var d := DrainWith(find, buf[span.offset + span.len..]);
        Drained([buf[span.offset..span.offset + span.len]] + d.payloads, d.rest)
      else
        Drained([], buf)
    case None => Drained([], buf)
  }

  lemma {:induction false} DrainIsDrainWith(buf: seq<Byte>, limit: DigitLimit)
    ensures Drain(buf, limit) == DrainWith(b => FindFrame(b, limit), buf)
    decreases |buf|
  {
    if FindFrame(buf, limit).Some? {
      var span := FindFrame(buf, limit).value;
      DrainIsDrainWith(buf[span.offset + span.len..], limit);
    }
  }

  /**
    Draining in two rounds equals draining once: drain `a`, append `b` to
    what is left and drain again, and the payloads of both rounds together,
    and the bytes left at the end, are those of draining `a + b`.
   */
  lemma DrainConcat(a: seq<Byte>, b: seq<Byte>, limit: DigitLimit)
    ensures Drain(a + b, limit).payloads
            == Drain(a, limit).payloads + Drain(Drain(a, limit).rest + b, limit).payloads
    ensures Drain(a + b, limit).rest == Drain(Drain(a, limit).rest + b, limit).rest
  {
    var find := buf => FindFrame(buf, limit);
    forall x: seq<Byte>, y: seq<Byte> | find(x).Some?
      ensures find(x + y) == find(x)
    {
      FindFrameExtends(x, y, limit);
    }
    DrainWithConcat(find, a, b);
    DrainIsDrainWith(a + b, limit);
    DrainIsDrainWith(a, limit);
    DrainIsDrainWith(Drain(a, limit).rest + b, limit);
  }

  /** `DrainConcat` for any frame finder whose frames stay put when bytes are appended. */
  lemma {:induction false} DrainWithConcat(find: seq<Byte> -> Option<Span>, a: seq<Byte>, b: seq<Byte>)
    requires forall x: seq<Byte>, y: seq<Byte> :: find(x).Some? ==> find(x + y) == find(x)
    ensures DrainWith(find, a + b).payloads
            == DrainWith(find, a).payloads + DrainWith(find, DrainWith(find, a).rest + b).payloads
    ensures DrainWith(find, a + b).rest == DrainWith(find, DrainWith(find, a).rest + b).rest
    decreases |a|
  {
    if find(a).Some? && 0 < find(a).value.len && find(a).value.offset + find(a).value.len <= |a| {
      var span := find(a).value;
      var end := span.offset + span.len;
      var p := a[span.offset..end];
      DrainWithConcat(find, a[end..], b);
      DrainWithFirst(find, a, span);
      assert find(a + b) == find(a);
      SliceOfConcat(a, b, span.offset, end);
      DrainWithFirst(find, a + b, span);
      JoinRounds(p, DrainWith(find, a + b), DrainWith(find, a), DrainWith(find, a[end..] + b),
                 DrainWith(find, a[end..]), DrainWith(find, DrainWith(find, a[end..]).rest + b));
    } else {
      assert DrainWith(find, a) == Drained([], a);
    }
  }

  /** `DrainWith` when `find` gives a frame inside the buffer. */
  lemma DrainWithFirst(find: seq<Byte> -> Option<Span>, buf: seq<Byte>, span: Span)
    requires find(buf) == Some(span) && 0 < span.len && span.offset + span.len <= |buf|
    ensures DrainWith(find, buf)
            == Drained([buf[span.offset..span.offset + span.len]] + DrainWith(find, buf[span.offset + span.len..]).payloads,
                       DrainWith(find, buf[span.offset + span.len..]).rest)
  {
  }

  /** The bookkeeping of `DrainWithConcat`: one payload put in front of both rounds. */
  lemma JoinRounds(p: seq<Byte>, whole: Drained, first: Drained, tail: Drained, tailFirst: Drained, second: Drained)
    requires whole == Drained([p] + tail.payloads, tail.rest)
    requires first == Drained([p] + tailFirst.payloads, tailFirst.rest)
    requires tail.payloads == tailFirst.payloads + second.payloads && tail.rest == second.rest
    ensures whole.payloads == first.payloads + second.payloads && whole.rest == second.rest
  {
    assert [p] + (tailFirst.payloads + second.payloads) == ([p] + tailFirst.payloads) + second.payloads;
  }

  lemma {:induction false} SliceOfConcat<T>(a: seq<T>, b: seq<T>, i: nat, j: nat)
    requires i <= j <= |a|
    ensures (a + b)[i..j] == a[i..j]
    ensures (a + b)[j..] == a[j..] + b
  {
  }

  /**
    Back-to-back frames come out one by one, in order, never merged; bytes
    that do not yet form a frame (such as a partial frame) are left over.
   */
  lemma {:induction false} DrainFrames(payloads: seq<seq<Byte>>, rest: seq<Byte>, limit: DigitLimit)
    requires forall i :: 0 <= i < |payloads| ==> Unambiguous(payloads[i], limit)
    requires FindFrame(rest, limit).None?
    ensures Drain(FramesBytes(payloads) + rest, limit) == Drained(payloads, rest)
  {
    if payloads == [] {
      assert FramesBytes(payloads) + rest == rest;
    } else {
      var tail := FramesBytes(payloads[1..]) + rest;
      assert FramesBytes(payloads) + rest == FrameBytes(payloads[0]) + tail;
      FrameRoundTrip(payloads[0], tail, limit);
      DrainFrames(payloads[1..], rest, limit);
      assert [payloads[0]] + payloads[1..] == payloads;
    }
  }

  /**
    The two digit tests disagree: a `:` (0x3A) after a digit ends the length
    for handler.rs but is a digit of value 10 for handlers.rs.
   */
  lemma DigitTestsDiffer()
    ensures FindFrame([0x31, 0x3A], DecimalLimit) == Some(Span(1, 1))
    ensures FindFrame([0x31, 0x3A], ReaderLimit) == None
  {
    var buf: seq<Byte> := [0x31, 0x3A];
    PrefixEndUnique(buf, 1, DecimalLimit);
    PrefixEndUnique(buf, 2, ReaderLimit);
    assert buf[..1] == [0x31];
    assert buf[..2][..1] == [0x31];
  }
}
