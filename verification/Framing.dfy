/** Reading newline-terminated protocol frames: Core's reader and the injected client's reader. */
module Framing {
  import opened Wrappers
  import opened Sequences

  const MAX_FRAME_SIZE := 0x10_0000

  // ---- What a byte stream means, however it is cut ----

  datatype Frame = EndOfStream | Line(bytes: Bytes) | TooLarge

  /** The first frame: with its newline when it has one, with a final partial frame as it is. */
  function FirstFrame(stream: Bytes): Frame {
    var n := LineEnd(stream);
    if n > MAX_FRAME_SIZE then TooLarge
    else if n < |stream| then Line(stream[..n + 1])
    else if stream == [] then EndOfStream
    else Line(stream)
  }

  function Rest(stream: Bytes): Bytes {
    var n := LineEnd(stream);
    if n < |stream| then stream[n + 1..] else []
  }

  /** Every frame up to the end of the stream or the first that is too large. */
  function AllFrames(stream: Bytes): seq<Bytes>
    decreases |stream|
  {
    var first := FirstFrame(stream);
    if first.Line? then [first.bytes] + AllFrames(Rest(stream)) else []
  }

  function Encode(body: Bytes): Bytes {
    body + [LF]
  }

  function EncodeAll(bodies: seq<Bytes>): Bytes {
    if bodies == [] then [] else Encode(bodies[0]) + EncodeAll(bodies[1..])
  }

  predicate Frameable(body: Bytes) {
    LF !in body && |body| <= MAX_FRAME_SIZE
  }

  predicate AllFrameable(bodies: seq<Bytes>) {
    bodies == [] || (Frameable(bodies[0]) && AllFrameable(bodies[1..]))
  }

  // ---- Line ends in concatenations ----

  lemma {:induction false} LineEndAppend(a: Bytes, b: Bytes)
    ensures LineEnd(a + b) == if LineEnd(a) < |a| then LineEnd(a) else |a| + LineEnd(b)
  {
    if a == [] {
      assert a + b == b;
    } else {
      assert (a + b)[1..] == a[1..] + b;
      LineEndAppend(a[1..], b);
    }
  }

  lemma LineEndFree(a: Bytes)
    ensures LineEnd(a) == |a| <==> LF !in a
  {
    if LineEnd(a) < |a| {
      assert a[LineEnd(a)] in a;
    }
  }

  /** The frame of an encoded body is that body, and the rest is what follows it. */
  lemma EncodedFrameIsRead(body: Bytes, rest: Bytes)
    requires Frameable(body)
    ensures FirstFrame(Encode(body) + rest) == Line(Encode(body)) && Rest(Encode(body) + rest) == rest
  {
    var stream := Encode(body) + rest;
    LineEndFree(body);
    LineEndAppend(body, [LF]);
    LineEndAppend(Encode(body), rest);
    assert stream[..|body| + 1] == Encode(body);
    assert stream[|body| + 1..] == rest;
  }

  /** Concatenated encoded frames are read back in order. */
  lemma {:induction false} FramesRoundTrip(bodies: seq<Bytes>)
    requires AllFrameable(bodies)
    ensures AllFrames(EncodeAll(bodies)) == seq(|bodies|, i requires 0 <= i < |bodies| => Encode(bodies[i]))
  {
    if bodies != [] {
      EncodedFrameIsRead(bodies[0], EncodeAll(bodies[1..]));
      FramesRoundTrip(bodies[1..]);
    }
  }

  // ---- Core's reader ----

  predicate NoneEmpty(chunks: seq<Bytes>) {
    chunks == [] || (chunks[0] != [] && NoneEmpty(chunks[1..]))
  }

  /** Buffered input: the chunks still to come, none of them empty. */
  class Reader {
    var chunks: seq<Bytes>

    ghost predicate Valid()
      reads this
    {
      NoneEmpty(chunks)
    }

    constructor (input: seq<Bytes>)
      requires NoneEmpty(input)
      ensures Valid() && chunks == input
    {
      chunks := input;
    }

    method Consume(n: nat)
      requires Valid() && chunks != [] && n <= |chunks[0]|
      modifies this
      ensures Valid() && Flat(chunks) == old(chunks[0])[n..] + Flat(old(chunks)[1..])
      ensures |Flat(chunks)| == |Flat(old(chunks))| - n
      ensures n == |old(chunks[0])| ==> chunks == old(chunks)[1..]
    {
      var first := chunks[0];
      chunks := if n == |first| then chunks[1..] else [first[n..]] + chunks[1..];
      assert n < |first| ==> chunks[1..] == old(chunks)[1..];
    }

    /** One frame; the result depends only on the bytes, not on how they are cut into chunks. */
    method ReadFrame() returns (frame: Frame)
      requires Valid()
      modifies this
      ensures Valid()
      ensures frame == FirstFrame(Flat(old(chunks)))
      ensures frame.Line? ==> Flat(chunks) == Rest(Flat(old(chunks)))
      ensures frame.EndOfStream? ==> chunks == []
    {
      ghost var stream := Flat(chunks);
      var buf: Bytes := [];
      while chunks != []
        invariant Valid()
        invariant stream == buf + Flat(chunks) && LineEnd(buf) == |buf| <= MAX_FRAME_SIZE
        decreases |chunks|
      {
        var available := chunks[0];
        var pos := LineEnd(available);
        ghost var more := Flat(chunks[1..]);
        if pos < |available| {
          FoundInChunk(buf, available, more);
          if |buf| + pos > MAX_FRAME_SIZE {
            return TooLarge;
          }
          frame := Line(buf + available[..pos + 1]);
          Consume(pos + 1);
          return;
        }
        NotInChunk(buf, available, more);
        if |buf| + |available| > MAX_FRAME_SIZE {
          return TooLarge;
        }
        buf := buf + available;
        Consume(|available|);
      }
      assert stream == buf;
      frame := if buf == [] then EndOfStream else Line(buf);
    }
  }

  lemma LineEndInChunk(buf: Bytes, available: Bytes, more: Bytes)
    requires LineEnd(buf) == |buf| && LineEnd(available) < |available|
    ensures LineEnd(buf + (available + more)) == |buf| + LineEnd(available)
  {
    LineEndAppend(buf, available + more);
    LineEndAppend(available, more);
  }

  lemma CutInChunk(buf: Bytes, available: Bytes, more: Bytes, k: nat)
    requires k <= |available|
    ensures (buf + (available + more))[..|buf| + k] == buf + available[..k]
    ensures (buf + (available + more))[|buf| + k..] == available[k..] + more
  {
    CutBeyond(buf, available + more, k);
    TakeOfAppend(available, more, k);
    DropOfAppend(available, more, k);
  }

  /** The first frame when the stream is what was buffered, a chunk with a newline, and more. */
  lemma FoundInChunk(buf: Bytes, available: Bytes, more: Bytes)
    requires LineEnd(buf) == |buf| && LineEnd(available) < |available|
    ensures var stream := buf + (available + more);
            var pos := LineEnd(available);
            && FirstFrame(stream) ==
               (if |buf| + pos > MAX_FRAME_SIZE then TooLarge else Line(buf + available[..pos + 1]))
            && Rest(stream) == available[pos + 1..] + more
  {
    LineEndInChunk(buf, available, more);
    CutInChunk(buf, available, more, LineEnd(available) + 1);
  }

  /** The same with a chunk without newline: too large already, or buffered. */
  lemma NotInChunk(buf: Bytes, available: Bytes, more: Bytes)
    requires LineEnd(buf) == |buf| && LineEnd(available) == |available|
    ensures var stream := buf + (available + more);
            && (|buf| + |available| > MAX_FRAME_SIZE ==> FirstFrame(stream) == TooLarge)
            && stream == (buf + available) + more
    ensures LineEnd(buf + available) == |buf| + |available|
  {
    LineEndAppend(buf, available + more);
    LineEndAppend(available, more);
    LineEndAppend(buf, available);
    Assoc(buf, available, more);
  }

  /** The answers to the frames still ahead after those read; each may depend on the frames before,
      and the first that cannot be written ends the connection. */
  function Answers(respond: seq<Bytes> -> Bytes, writes: nat -> bool, read: seq<Bytes>, ahead: seq<Bytes>): seq<Bytes>
    decreases |ahead|
  {
    if ahead == [] || !writes(|read|) then []
    else
      var now := read + [ahead[0]];
      [respond(now)] + Answers(respond, writes, now, ahead[1..])
  }

  lemma AnswersStep(
    respond: seq<Bytes> -> Bytes, writes: nat -> bool, read: seq<Bytes>, frame: Bytes, ahead: seq<Bytes>)
    ensures Answers(respond, writes, read, [frame] + ahead) ==
            if writes(|read|) then [respond(read + [frame])] + Answers(respond, writes, read + [frame], ahead) else []
  {
    assert ([frame] + ahead)[1..] == ahead;
  }

  /** One connection: the frames up to the end, or up to one that is too large, are answered in order
      until an answer cannot be written. */
  method HandleConnection(reader: Reader, respond: seq<Bytes> -> Bytes, writes: nat -> bool)
    returns (written: seq<Bytes>)
    requires reader.Valid()
    modifies reader
    ensures written == Answers(respond, writes, [], AllFrames(Flat(old(reader.chunks))))
  {
    written := [];
    var read: seq<Bytes> := [];
    ghost var all := Answers(respond, writes, [], AllFrames(Flat(reader.chunks)));
    while true
      invariant reader.Valid()
      invariant written + Answers(respond, writes, read, AllFrames(Flat(reader.chunks))) == all
      decreases |Flat(reader.chunks)|
    {
      ghost var ahead := AllFrames(Rest(Flat(reader.chunks)));
      var frame := reader.ReadFrame();
      if !frame.Line? {
        return;
      }
      AnswersStep(respond, writes, read, frame.bytes, ahead);
      if !writes(|read|) {
        return;
      }
      read := read + [frame.bytes];
      Assoc(written, [respond(read)], Answers(respond, writes, read, ahead));
      written := written + [respond(read)];
    }
  }

  /** The k-th answer is to the frames up to the k-th; answers stop early only where one could not be
      written. */
  lemma {:induction false} AnswersAre(
    respond: seq<Bytes> -> Bytes, writes: nat -> bool, read: seq<Bytes>, ahead: seq<Bytes>, k: nat)
    ensures var answers := Answers(respond, writes, read, ahead);
            && |answers| <= |ahead|
            && (k < |answers| ==> writes(|read| + k) && answers[k] == respond(read + ahead[..k + 1]))
            && (|answers| < |ahead| ==> !writes(|read| + |answers|))
    decreases |ahead|
  {
    if ahead != [] && writes(|read|) {
      AnswersAre(respond, writes, read + [ahead[0]], ahead[1..], if k > 0 then k - 1 else 0);
      if 0 < k < |ahead| {
        Assoc(read, [ahead[0]], ahead[1..][..k]);
        assert [ahead[0]] + ahead[1..][..k] == ahead[..k + 1];
      } else if k == 0 {
        assert ahead[..1] == [ahead[0]];
      }
    }
  }

  // ---- The injected client's reader ----

  datatype Reply = Pending | Received(bytes: Bytes) | Refused

  /** What the client makes of a reply stream: the bytes before the first newline. */
  function ReplyOf(stream: Bytes): Reply {
    var n := LineEnd(stream);
    if n > MAX_FRAME_SIZE then Refused
    else if n < |stream| then Received(stream[..n])
    else Pending
  }

  class FrameReader {
    var chunks: seq<Bytes>
    var totalLen: nat
    var reply: Reply

    /** Until the reply settles, everything received is kept, has no newline and fits. */
    ghost predicate Valid()
      reads this
    {
      reply.Pending? ==>
        totalLen == |Flat(chunks)| && LineEnd(Flat(chunks)) == totalLen <= MAX_FRAME_SIZE
    }

    constructor ()
      ensures Valid() && chunks == [] && reply == Pending
    {
      chunks, totalLen, reply := [], 0, Pending;
    }

    /** One data event; there are none once the reply has settled. */
    method OnData(chunk: Bytes)
      requires Valid() && reply.Pending?
      modifies this
      ensures Valid() && chunks == old(chunks) + [chunk]
      ensures reply == ReplyOf(Flat(old(chunks)) + chunk)
    {
      ghost var before := Flat(chunks);
      var idx := LineEnd(chunk);
      var nl := totalLen + idx;
      FlatAppend(chunks, chunk);
      LineEndAppend(before, chunk);
      var found := idx < |chunk|;
      chunks := chunks + [chunk];
      totalLen := totalLen + |chunk|;
      if found {
        reply := if nl > MAX_FRAME_SIZE then Refused else Received(Flat(chunks)[..nl]);
      } else if totalLen > MAX_FRAME_SIZE {
        reply := Refused;
      }
    }

    /** All data events of a reply, until it settles. */
    method Receive(events: seq<Bytes>)
      requires Valid() && reply.Pending? && chunks == []
      modifies this
      ensures reply == ReplyOf(Flat(events))
    {
      var k := 0;
      while k < |events| && reply.Pending?
        invariant k <= |events| && Valid() && chunks == events[..k]
        invariant reply == ReplyOf(Flat(events[..k]))
      {
        FlatAppend(events[..k], events[k]);
        assert events[..k + 1] == events[..k] + [events[k]];
        OnData(events[k]);
        k := k + 1;
      }
      if k < |events| {
        FlatSplit(events, k);
        SettledStays(Flat(events[..k]), Flat(events[k..]));
      } else {
        assert events[..k] == events;
      }
    }
  }

  /** Later bytes never change a settled reply. */
  lemma SettledStays(stream: Bytes, more: Bytes)
    requires !ReplyOf(stream).Pending?
    ensures ReplyOf(stream + more) == ReplyOf(stream)
  {
    LineEndAppend(stream, more);
    var n := LineEnd(stream);
    if n < |stream| {
      assert (stream + more)[..n] == stream[..n];
    }
  }

  // ---- The two readers agree ----

  /** On every stream with a newline the two readers agree: both refuse it or both give the same
      bytes, Core's with the newline. */
  lemma ReadersAgree(stream: Bytes)
    requires LF in stream
    ensures match FirstFrame(stream)
            case EndOfStream => false
            case TooLarge => ReplyOf(stream) == Refused
            case Line(bytes) => ReplyOf(stream).Received? && bytes == Encode(ReplyOf(stream).bytes)
  {
    LineEndFree(stream);
    var n := LineEnd(stream);
    assert stream[..n + 1] == stream[..n] + [stream[n]];
  }

  /** Without a newline the client waits for one while Core serves the partial frame at the end of
      the stream; both refuse it when it is too large. */
  lemma ReadersDifferWithoutNewline(stream: Bytes)
    requires LF !in stream
    ensures FirstFrame(stream) == TooLarge <==> |stream| > 0x10_0000
    ensures ReplyOf(stream) == Refused <==> |stream| > 0x10_0000
    ensures FirstFrame(stream) != TooLarge ==>
              ReplyOf(stream) == Pending && FirstFrame(stream) == if stream == [] then EndOfStream else Line(stream)
  {
    LineEndFree(stream);
  }

  /** A frame is refused exactly when more than 2^20 bytes precede its newline. */
  lemma RefusedExactlyWhen(stream: Bytes)
    ensures FirstFrame(stream) == TooLarge <==>
            |stream| > 0x10_0000 && LF !in stream[..0x10_0001]
  {
    if |stream| > MAX_FRAME_SIZE {
      var head, tail := stream[..MAX_FRAME_SIZE + 1], stream[MAX_FRAME_SIZE + 1..];
      assert stream == head + tail;
      LineEndAppend(head, tail);
      LineEndFree(head);
    }
  }
}
