/**
  The framed multiplexer under the TCP and TLS listeners of
  src/frontend/ninep.rs: frame coding, the reader task, the stream dispatcher,
  reassembly in `MuxStream`, and the message loop of `run_connection` on top.
  */
module NinepMux {
  import opened Arithmetic
  import opened Bytes
  import opened NinepMessages

  datatype Frame = Frame(stream: nat, payload: seq<byte>)

  const MAX_BODY := 65536

  // ---------------------------------------------------------------------
  // Frames on the wire
  // ---------------------------------------------------------------------

  function EncodeFrame(f: Frame): seq<byte> {
    U32(f.stream) + U32(|f.payload|) + f.payload
  }

  function EncodeFrames(frames: seq<Frame>): seq<byte> {
    if frames == [] then [] else EncodeFrame(frames[0]) + EncodeFrames(frames[1..])
  }

  function DecodeHeader(header: seq<byte>): (nat, nat)
    requires |header| == 8
  {
    (Field(header, 0, 4), Field(header, 4, 4))
  }

  /** The frames that a reader can cut off the front of `wire`. */
  function DecodeWire(wire: seq<byte>): seq<Frame> {
    if |wire| < 8 then []
    else
      var n := Field(wire, 4, 4);
      if 8 + n > |wire| then []
      else [Frame(Field(wire, 0, 4), wire[8..8 + n])] + DecodeWire(wire[8 + n..])
  }

  predicate FrameFits(f: Frame) {
    f.stream < U32_LIMIT && |f.payload| < U32_LIMIT
  }

  lemma FrameStream(f: Frame, rest: seq<byte>)
    requires FrameFits(f)
    ensures Field(EncodeFrame(f) + rest, 0, 4) == f.stream
  {
    Limits();
    var tail := U32(|f.payload|) + f.payload + rest;
    assert EncodeFrame(f) + rest == [] + ToLE(4, f.stream) + tail;
    FieldOf([], 4, f.stream, tail);
  }

  lemma FrameLength(f: Frame, rest: seq<byte>)
    requires FrameFits(f)
    ensures Field(EncodeFrame(f) + rest, 4, 4) == |f.payload|
  {
    Limits();
    assert EncodeFrame(f) + rest == U32(f.stream) + ToLE(4, |f.payload|) + (f.payload + rest);
    FieldOf(U32(f.stream), 4, |f.payload|, f.payload + rest);
  }

  /** Decoding inverts encoding for every list of frames, empty payloads included. */
  lemma {:induction false} DecodeInvertsEncode(frames: seq<Frame>)
    requires forall i :: 0 <= i < |frames| ==> FrameFits(frames[i])
    ensures DecodeWire(EncodeFrames(frames)) == frames
  {
    if frames != [] {
      var rest := EncodeFrames(frames[1..]);
      var wire, n := EncodeFrame(frames[0]) + rest, |frames[0].payload|;
      FrameStream(frames[0], rest);
      FrameLength(frames[0], rest);
      DecodeInvertsEncode(frames[1..]);
      assert wire[8..8 + n] == frames[0].payload && wire[8 + n..] == rest;
    }
  }

  /** Frames that have arrived completely do not change when more bytes arrive. */
  lemma {:induction false} DecodePrefix(early: seq<byte>, late: seq<byte>)
    requires early <= late
    ensures DecodeWire(early) <= DecodeWire(late)
  {
    if |early| >= 8 {
      FieldPrefix(early, late, 0, 4);
      FieldPrefix(early, late, 4, 4);
      var n := Field(early, 4, 4);
      if 8 + n <= |early| {
        assert early[8..8 + n] == late[8..8 + n];
        DecodePrefix(early[8 + n..], late[8 + n..]);
      }
    }
  }

  /** What the reader does with the header at `at` is what decoding does there. */
  lemma NextFrame(wire: seq<byte>, at: nat)
    requires at + 8 <= |wire|
    ensures var (stream, n) := DecodeHeader(wire[at..at + 8]);
            DecodeWire(wire[at..]) ==
              if at + 8 + n > |wire| then []
              else [Frame(stream, wire[at + 8..at + 8 + n])] + DecodeWire(wire[at + 8 + n..])
  {
    var rest := wire[at..];
    FieldPrefix(wire[at..at + 8], rest, 0, 4);
    FieldPrefix(wire[at..at + 8], rest, 4, 4);
    var n := Field(rest, 4, 4);
    if at + 8 + n <= |wire| {
      assert rest[8..8 + n] == wire[at + 8..at + 8 + n];
      assert rest[8 + n..] == wire[at + 8 + n..];
    }
  }

  lemma FramesSnoc(frames: seq<Frame>, f: Frame, rest: seq<Frame>)
    ensures frames + ([f] + rest) == frames + [f] + rest
  {
  }

  /** The reader task of `run_server_mux`, on everything the peer ever sends. */
  method ReadFrames(wire: seq<byte>) returns (frames: seq<Frame>)
    ensures frames == DecodeWire(wire)
  {
    frames := [];
    var at := 0;
    while |wire| - at >= 8
      invariant at <= |wire|
      invariant frames + DecodeWire(wire[at..]) == DecodeWire(wire)
      decreases |wire| - at
    {
      var (stream, n) := DecodeHeader(wire[at..at + 8]);
      NextFrame(wire, at);
      if |wire| - at - 8 < n {
        return;
      }
      var frame := Frame(stream, wire[at + 8..at + 8 + n]);
      FramesSnoc(frames, frame, DecodeWire(wire[at + 8 + n..]));
      at := at + 8 + n;
      frames := frames + [frame];
    }
  }

  // ---------------------------------------------------------------------
  // The stream dispatcher
  // ---------------------------------------------------------------------

  /** The payloads of one stream, in arrival order. */
  function PayloadsOf(frames: seq<Frame>, stream: nat): seq<seq<byte>> {
    if frames == [] then []
    else
      var front := PayloadsOf(frames[..|frames| - 1], stream);
      if frames[|frames| - 1].stream == stream then front + [frames[|frames| - 1].payload] else front
  }

  /** The dispatch loop of `serve_tcp`: one channel per stream id, created on first sight. */
  method DispatchStreams(frames: seq<Frame>) returns (channels: map<nat, seq<seq<byte>>>)
    ensures forall s :: s in channels <==> exists i :: 0 <= i < |frames| && frames[i].stream == s
    ensures forall s :: s in channels ==> channels[s] == PayloadsOf(frames, s)
  {
    channels := map[];
    for k := 0 to |frames|
      invariant forall s :: s in channels <==> exists i :: 0 <= i < k && frames[i].stream == s
      invariant forall s: nat :: PayloadsOf(frames[..k], s) == if s in channels then channels[s] else []
    {
      var f := frames[k];
      assert frames[..k + 1][..k] == frames[..k];
      if f.stream in channels {
        channels := channels[f.stream := channels[f.stream] + [f.payload]];
      } else {
        channels := channels[f.stream := [f.payload]];
      }
    }
    assert frames[..|frames|] == frames;
  }

  // ---------------------------------------------------------------------
  // 9P messages in a byte stream
  // ---------------------------------------------------------------------

  function BodyLength(size: nat): nat {
    if size > 7 then size - 7 else 0
  }

  /** The messages `run_connection` takes off a byte stream before it stops. */
  function ParseMessages(bytes: seq<byte>): seq<Message> {
    if |bytes| < 7 then []
    else
      var n := BodyLength(Field(bytes, 0, 4));
      if n > MAX_BODY || 7 + n > |bytes| then []
      else [Message(bytes[4], Field(bytes, 5, 2), bytes[7..7 + n])] + ParseMessages(bytes[7 + n..])
  }

  function EncodeMessages(ms: seq<Message>): seq<byte> {
    if ms == [] then [] else EncodeMessage(ms[0]) + EncodeMessages(ms[1..])
  }

  predicate MessageFits(m: Message) {
    m.tag < U16_LIMIT && |m.body| <= MAX_BODY
  }

  lemma MessageSize(m: Message, rest: seq<byte>)
    requires MessageFits(m)
    ensures Field(EncodeMessage(m) + rest, 0, 4) == 7 + |m.body|
  {
    Limits();
    var size, tail := 7 + |m.body|, [m.ty] + U16(m.tag) + m.body + rest;
    assert EncodeMessage(m) + rest == [] + ToLE(4, size) + tail;
    FieldOf([], 4, size, tail);
  }

  lemma MessageTag(m: Message, rest: seq<byte>)
    requires MessageFits(m)
    ensures Field(EncodeMessage(m) + rest, 5, 2) == m.tag
  {
    Limits();
    var head := U32(7 + |m.body|) + [m.ty];
    assert EncodeMessage(m) + rest == head + ToLE(2, m.tag) + (m.body + rest);
    FieldOf(head, 2, m.tag, m.body + rest);
  }

  lemma {:induction false} ParseInvertsEncode(ms: seq<Message>)
    requires forall i :: 0 <= i < |ms| ==> MessageFits(ms[i])
    ensures ParseMessages(EncodeMessages(ms)) == ms
  {
    if ms != [] {
      var rest := EncodeMessages(ms[1..]);
      var bytes, n := EncodeMessage(ms[0]) + rest, |ms[0].body|;
      MessageSize(ms[0], rest);
      MessageTag(ms[0], rest);
      ParseInvertsEncode(ms[1..]);
      assert bytes[4] == ms[0].ty && bytes[7..7 + n] == ms[0].body && bytes[7 + n..] == rest;
    }
  }

  lemma FieldPrefix(early: seq<byte>, late: seq<byte>, at: nat, width: nat)
    requires early <= late && at + width <= |early|
    ensures Field(early, at, width) == Field(late, at, width)
  {
    assert early[at..at + width] == late[at..at + width];
  }

  /** What has arrived so far yields a prefix of what the whole stream will yield. */
  lemma {:induction false} ParsePrefix(early: seq<byte>, late: seq<byte>)
    requires early <= late
    ensures ParseMessages(early) <= ParseMessages(late)
  {
    if |early| >= 7 {
      FieldPrefix(early, late, 0, 4);
      FieldPrefix(early, late, 5, 2);
      var n := BodyLength(Field(early, 0, 4));
      if n <= MAX_BODY && 7 + n <= |early| {
        ParsePrefix(early[7 + n..], late[7 + n..]);
        var first := Message(early[4], Field(early, 5, 2), early[7..7 + n]);
        assert late[7..7 + n] == first.body;
        assert ParseMessages(early) == [first] + ParseMessages(early[7 + n..]);
        assert ParseMessages(late) == [first] + ParseMessages(late[7 + n..]);
      }
    }
  }

  // ---------------------------------------------------------------------
  // Reassembly
  // ---------------------------------------------------------------------

  /** A stream's end of the mux: the channel's remaining payloads and the one being read. */
  class MuxStream {
    var rx: seq<seq<byte>>   // what the channel still delivers before it is closed
    var buf: seq<byte>
    var pos: nat

    ghost predicate Valid()
      reads this
    {
      pos <= |buf|
    }

    /** The bytes not yet read. */
    ghost function Pending(): seq<byte>
      requires Valid()
      reads this
    {
      buf[pos..] + Flatten(rx)
    }

    constructor (payloads: seq<seq<byte>>)
      ensures Valid() && Pending() == Flatten(payloads)
    {
      rx, buf, pos := payloads, [], 0;
    }

    /** Take the next payload off the channel once the current one is used up. */
    method Refill()
      requires Valid() && pos == |buf| && rx != []
      modifies this
      ensures Valid() && Pending() == old(Pending()) && rx == old(rx)[1..]
    {
      FlattenFront(rx);
      buf, pos, rx := rx[0], 0, rx[1..];
    }

    /** Copy what the current payload has, up to what is still needed. */
    method CopyOut(out: array<byte>, offset: nat) returns (avail: nat)
      requires Valid() && offset <= out.Length
      modifies `pos, out
      ensures Valid() && avail == Min(|buf| - old(pos), out.Length - offset)
      ensures out[..offset + avail] == old(out[..offset]) + old(Pending())[..avail]
      ensures Pending() == old(Pending())[avail..]
    {
      avail := Min(|buf| - pos, out.Length - offset);
      forall k | 0 <= k < avail {
        out[offset + k] := buf[pos + k];
      }
      pos := pos + avail;
    }

    /** Fill `out` from the payloads, however they are cut; fail once the channel is closed and empty. */
    method ReadExact(out: array<byte>) returns (ok: bool)
      requires Valid()
      modifies this, out
      ensures Valid()
      ensures ok == (out.Length <= |old(Pending())|)
      ensures ok ==> out[..] == old(Pending())[..out.Length] && Pending() == old(Pending())[out.Length..]
    {
      ghost var all := Pending();
      var offset := 0;
      while offset < out.Length
        invariant Valid() && offset <= out.Length && offset <= |all|
        invariant out[..offset] == all[..offset] && Pending() == all[offset..]
        decreases out.Length - offset, |rx|
      {
        if pos >= |buf| {
          if rx == [] {
            assert Pending() == [];
            return false;
          }
          Refill();
        }
        var avail := CopyOut(out, offset);
        assert all[..offset] + all[offset..][..avail] == all[..offset + avail];
        assert all[offset..][avail..] == all[offset + avail..];
        offset := offset + avail;
      }
      assert out[..] == out[..offset];
      return true;
    }
  }

  /** One turn of the receive loop, on the bytes still to come and the header taken off them. */
  lemma NextMessage(pending: seq<byte>, header: seq<byte>)
    requires |pending| >= 7 && header == pending[..7]
    ensures var n := BodyLength(Field(header, 0, 4));
            ParseMessages(pending) ==
              if n > MAX_BODY || |pending[7..]| < n then []
              else [Message(header[4], Field(header, 5, 2), pending[7..][..n])] + ParseMessages(pending[7..][n..])
  {
    FieldPrefix(header, pending, 0, 4);
    FieldPrefix(header, pending, 5, 2);
    var n := BodyLength(Field(header, 0, 4));
    if 7 + n <= |pending| {
      assert pending[7..][..n] == pending[7..7 + n] && pending[7..][n..] == pending[7 + n..];
    }
  }

  /** The body that follows a header; an empty one is not waited for. */
  method ReadBody(stream: MuxStream, n: nat) returns (ok: bool, body: seq<byte>)
    requires stream.Valid()
    modifies stream
    ensures stream.Valid()
    ensures ok == (n <= |old(stream.Pending())|)
    ensures ok ==> body == old(stream.Pending())[..n] && stream.Pending() == old(stream.Pending())[n..]
  {
    if n == 0 {
      return true, [];
    }
    var buffer := new byte[n];
    ok := stream.ReadExact(buffer);
    body := buffer[..];
  }

  /** The receive loop of `run_connection`; what it hands to `handle_message`, in order. */
  method ReadMessages(stream: MuxStream) returns (messages: seq<Message>)
    requires stream.Valid()
    modifies stream
    ensures messages == ParseMessages(old(stream.Pending()))
  {
    messages := [];
    ghost var all := stream.Pending();
    while true
      invariant stream.Valid()
      invariant messages + ParseMessages(stream.Pending()) == ParseMessages(all)
      decreases |stream.Pending()|
    {
      ghost var pending := stream.Pending();
      var buffer := new byte[7];
      var ok := stream.ReadExact(buffer);
      if !ok {
        return;
      }
      var header := buffer[..];
      NextMessage(pending, header);
      var n := BodyLength(Field(header, 0, 4));
      if n > MAX_BODY {
        return;
      }
      var body;
      ok, body := ReadBody(stream, n);
      if !ok {
        return;
      }
      messages := messages + [Message(header[4], Field(header, 5, 2), body)];
    }
  }

  // ---------------------------------------------------------------------
  // End to end
  // ---------------------------------------------------------------------

  /** The messages that the runner of one stream reads off a connection's bytes. */
  function MessagesOn(wire: seq<byte>, stream: nat): seq<Message> {
    ParseMessages(Flatten(PayloadsOf(DecodeWire(wire), stream)))
  }

  /** The frames are the streams' payloads, each stream's in order, interleaved in any way. */
  ghost predicate Interleaves(frames: seq<Frame>, cuts: nat -> seq<seq<byte>>) {
    if frames == [] then forall s :: cuts(s) == []
    else
      var f, n := frames[|frames| - 1], |cuts(frames[|frames| - 1].stream)| - 1;
      && n >= 0 && cuts(f.stream)[n] == f.payload
      && Interleaves(frames[..|frames| - 1], Without(cuts, f.stream))
  }

  /** The streams before the last payload of one of them was sent. */
  function Without(cuts: nat -> seq<seq<byte>>, stream: nat): nat -> seq<seq<byte>> {
    s => if s == stream && cuts(s) != [] then cuts(s)[..|cuts(s)| - 1] else cuts(s)
  }

  lemma {:induction false} InterleavedPayloads(frames: seq<Frame>, cuts: nat -> seq<seq<byte>>, stream: nat)
    requires Interleaves(frames, cuts)
    ensures PayloadsOf(frames, stream) == cuts(stream)
  {
    if frames != [] {
      var f := frames[|frames| - 1];
      InterleavedPayloads(frames[..|frames| - 1], Without(cuts, f.stream), stream);
    }
  }

  /**
    Any number of streams, each sending messages whose bytes are cut into payloads in
    any way, empty ones included, and the payloads' frames interleaved in any way:
    each stream's runner reads exactly the messages that stream sent, in order.
    */
  lemma {:induction false} MuxDeliversEveryStream(
    frames: seq<Frame>, cuts: nat -> seq<seq<byte>>, stream: nat, sent: seq<Message>)
    requires forall i :: 0 <= i < |frames| ==> FrameFits(frames[i])
    requires forall i :: 0 <= i < |sent| ==> MessageFits(sent[i])
    requires Interleaves(frames, cuts) && Flatten(cuts(stream)) == EncodeMessages(sent)
    ensures MessagesOn(EncodeFrames(frames), stream) == sent
  {
    InterleavedPayloads(frames, cuts, stream);
    DecodeInvertsEncode(frames);
    ParseInvertsEncode(sent);
  }

  lemma {:induction false} PayloadsPrefix(early: seq<Frame>, late: seq<Frame>, stream: nat)
    requires early <= late
    ensures PayloadsOf(early, stream) <= PayloadsOf(late, stream)
  {
    if |early| < |late| {
      PayloadsPrefix(early, late[..|late| - 1], stream);
    } else {
      assert early == late;
    }
  }

  lemma {:induction false} FlattenPrefix(early: seq<seq<byte>>, late: seq<seq<byte>>)
    requires early <= late
    ensures Flatten(early) <= Flatten(late)
  {
    if |early| < |late| {
      FlattenPrefix(early, late[..|late| - 1]);
    } else {
      assert early == late;
    }
  }

  /** At every moment, what a stream's runner has read is a prefix of what that stream sends. */
  lemma MuxDeliversPrefixes(arrived: seq<byte>, wire: seq<byte>, stream: nat)
    requires arrived <= wire
    ensures MessagesOn(arrived, stream) <= MessagesOn(wire, stream)
  {
    DecodePrefix(arrived, wire);
    PayloadsPrefix(DecodeWire(arrived), DecodeWire(wire), stream);
    FlattenPrefix(PayloadsOf(DecodeWire(arrived), stream), PayloadsOf(DecodeWire(wire), stream));
    ParsePrefix(Flatten(PayloadsOf(DecodeWire(arrived), stream)), Flatten(PayloadsOf(DecodeWire(wire), stream)));
  }

  /** The whole receiving side put together: reader, dispatcher, reassembly, message loop. */
  method ReceiveStream(wire: seq<byte>, stream: nat) returns (messages: seq<Message>)
    ensures messages == MessagesOn(wire, stream)
  {
    var frames := ReadFrames(wire);
    var channels := DispatchStreams(frames);
    var payloads := if stream in channels then channels[stream] else [];
    if stream !in channels {
      NoPayloads(frames, stream);
    }
    var mux := new MuxStream(payloads);
    messages := ReadMessages(mux);
  }

  lemma {:induction false} NoPayloads(frames: seq<Frame>, stream: nat)
    requires forall i :: 0 <= i < |frames| ==> frames[i].stream != stream
    ensures PayloadsOf(frames, stream) == []
  {
    if frames != [] {
      NoPayloads(frames[..|frames| - 1], stream);
    }
  }

  /** A message larger than the limit ends the connection: it and whatever follows it are not delivered. */
  lemma OversizedMessageStops(m: Message, rest: seq<byte>)
    requires MAX_BODY < |m.body| && 7 + |m.body| < U32_LIMIT
    ensures ParseMessages(EncodeMessage(m) + rest) == []
  {
    Limits();
    var size, tail := 7 + |m.body|, [m.ty] + U16(m.tag) + m.body + rest;
    assert EncodeMessage(m) + rest == [] + ToLE(4, size) + tail;
    FieldOf([], 4, size, tail);
  }
}
