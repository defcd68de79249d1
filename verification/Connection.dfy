/**
  One server connection: the session loop that grows a buffer read by read and drains whole
  frames from it, against a parser that is given the entire byte stream at once.
 */
module Connection {
  import opened Prelude
  import opened Framing

  const READ_CHUNK: nat := 4096

  /** What the socket reports once its last bytes were read. */
  datatype StreamEnd = Eof | ReadError

  datatype Close =
    | StreamEnded(how: StreamEnd)
    | BadFirstMagic
    | MagicDrift
    | RejectedType(reason: TypeError)
    | OversizedPayload
    | DecodeFailed(error: FrameError)
    | HandshakeViolation
    | Hangup
    | ResponseFailed

  datatype Session = Session(frames: seq<Frame>, close: Close)

  /**
    The parts of the server the session loop does not decide: whether an INIT payload asks for the
    supported framing version, and whether the response to the newest of the frames dispatched so
    far cannot be encoded or written.
   */
  datatype Server = Server(initSupported: Frame -> bool, responseFails: seq<Frame> -> bool)

  datatype Dispatched = KeepOpen | HangUp | Failed

  function Dispatch(server: Server, earlier: seq<Frame>, f: Frame): Dispatched {
    if f.msgType == CLOSE || (f.msgType == INIT && !server.initSupported(f)) then HangUp
    else if f.msgType in {INIT, PING, DISCOVER, CALL} && server.responseFails(earlier + [f]) then Failed
    else KeepOpen
  }

  /** An INIT must come first and may not come again. */
  predicate HandshakeOk(initialized: bool, f: Frame) {
    initialized <==> f.msgType != INIT
  }

  // ---- The whole stream at once ----

  datatype Next = Stop(close: Close) | Take(frame: Frame, size: nat)

  /** What the stream brings next: a frame to dispatch, or a reason to stop. */
  function NextFrame(s: seq<byte>, end: StreamEnd, initialized: bool): (n: Next)
    ensures n.Take? ==> 0 < n.size <= |s|
  {
    if |s| < FRAME_HEADER_LEN then Stop(StreamEnded(end))
    else if s[..4] != MAGIC then Stop(MagicDrift)
    else if StableTaskMessageTypeError(s[5]).Some? then Stop(RejectedType(StableTaskMessageTypeError(s[5]).value))
    else if AnnouncedLen(s) > MAX_FRAME_PAYLOAD then Stop(OversizedPayload)
    else if |s| < FRAME_HEADER_LEN + AnnouncedLen(s) then Stop(StreamEnded(end))
    else
      match DecodeFrame(s)
      case Err(e) => Stop(DecodeFailed(e))
      case Ok((f, n)) => if HandshakeOk(initialized, f) then Take(f, n) else Stop(HandshakeViolation)
  }

  function ParseFrames(s: seq<byte>, end: StreamEnd, server: Server, done: seq<Frame>): Session
    decreases |s|
  {
    match NextFrame(s, end, done != [])
    case Stop(close) => Session(done, close)
    case Take(f, n) =>
      match Dispatch(server, done, f)
      case KeepOpen => ParseFrames(s[n..], end, server, done + [f])
      case HangUp => Session(done + [f], Hangup)
      case Failed => Session(done + [f], ResponseFailed)
  }

  /** The meaning of a connection: a function of the bytes received, not of how they were cut. */
  function ParseStream(s: seq<byte>, end: StreamEnd, server: Server): Session {
    if |s| < 4 then Session([], StreamEnded(end))
    else if s[..4] != MAGIC then Session([], BadFirstMagic)
    else ParseFrames(s, end, server, [])
  }

  function Concat(parts: seq<seq<byte>>): seq<byte> {
    if parts == [] then [] else parts[0] + Concat(parts[1..])
  }

  /** How a stream may arrive: every read returns between one byte and the chunk size. */
  ghost predicate ReadSizes(chunks: seq<seq<byte>>) {
    forall i :: 0 <= i < |chunks| ==> 0 < |chunks[i]| <= READ_CHUNK
  }

  // ---- The session loop ----

  class Socket {
    const chunks: seq<seq<byte>>
    var next: nat

    constructor (chunks: seq<seq<byte>>)
      ensures this.chunks == chunks && next == 0
    {
      this.chunks := chunks;
      next := 0;
    }

    ghost predicate Valid()
      reads this
    {
      next <= |chunks| && ReadSizes(chunks)
    }

    /** The bytes not read yet. */
    ghost function Pending(): seq<byte>
      requires Valid()
      reads this
    {
      Concat(chunks[next..])
    }

    /** One read; an empty chunk says that the stream is over. */
    method Read() returns (chunk: seq<byte>)
      requires Valid()
      modifies this`next
      ensures Valid()
      ensures chunk + Pending() == old(Pending())
      ensures |chunk| <= READ_CHUNK
      ensures chunk == [] <==> old(next) == |chunks|
      ensures chunk == [] ==> old(Pending()) == []
      ensures chunk != [] ==> next == old(next) + 1
    {
      if next == |chunks| {
        return [];
      }
      chunk := chunks[next];
      next := next + 1;
      assert chunks[next - 1..][1..] == chunks[next..];
    }
  }

  /** Read until the buffer holds `want` bytes or the stream is over. */
  method Fill(socket: Socket, buf: seq<byte>, want: nat) returns (grown: seq<byte>, enough: bool)
    requires socket.Valid()
    modifies socket`next
    ensures socket.Valid()
    ensures grown + socket.Pending() == buf + old(socket.Pending())
    ensures enough <==> |grown| >= want
    ensures !enough ==> socket.Pending() == []
    ensures |grown| <= |buf| || |grown| < want + READ_CHUNK
  {
    grown := buf;
    while |grown| < want
      invariant socket.Valid()
      invariant grown + socket.Pending() == buf + old(socket.Pending())
      invariant |grown| <= |buf| || |grown| < want + READ_CHUNK
      decreases |socket.chunks| - socket.next
    {
      ghost var before := grown;
      var chunk := socket.Read();
      if chunk == [] {
        assert grown + socket.Pending() == buf + old(socket.Pending());
        return grown, false;
      }
      grown := grown + chunk;
      assert grown + socket.Pending() == before + (chunk + socket.Pending());
    }
    enough := true;
  }

  const BUFFER_LIMIT: int := FRAME_HEADER_LEN + MAX_FRAME_PAYLOAD + READ_CHUNK

  /** Read and check the next frame; `rest` is the buffer after it, `peak` the largest it was. */
  method ReadFrame(socket: Socket, buf: seq<byte>, end: StreamEnd, initialized: bool)
    returns (rest: seq<byte>, next: Next, peak: nat)
    requires socket.Valid() && |buf| < BUFFER_LIMIT
    modifies socket`next
    ensures socket.Valid()
    ensures next == NextFrame(buf + old(socket.Pending()), end, initialized)
    ensures next.Take? ==> rest + socket.Pending() == (buf + old(socket.Pending()))[next.size..]
    ensures |rest| <= peak < BUFFER_LIMIT
  {
    ghost var s := buf + socket.Pending();
    var enough;
    rest, enough := Fill(socket, buf, FRAME_HEADER_LEN);
    peak := |rest|;
    if !enough {
      assert s == rest;
      return rest, Stop(StreamEnded(end)), peak;
    }
    SameHeader(rest, socket.Pending());
    if rest[..4] != MAGIC {
      return rest, Stop(MagicDrift), peak;
    }
    if StableTaskMessageTypeError(rest[5]).Some? {
      return rest, Stop(RejectedType(StableTaskMessageTypeError(rest[5]).value)), peak;
    }
    if AnnouncedLen(rest) > MAX_FRAME_PAYLOAD {
      return rest, Stop(OversizedPayload), peak;
    }
    rest, enough := Fill(socket, rest, FRAME_HEADER_LEN + AnnouncedLen(rest));
    peak := Max(peak, |rest|);
    if !enough {
      assert s == rest;
      return rest, Stop(StreamEnded(end)), peak;
    }
    SameHeader(rest, socket.Pending());
    SameFrame(rest, socket.Pending());
    match DecodeFrame(rest) {
      case Err(e) =>
        next := Stop(DecodeFailed(e));
      case Ok((f, consumed)) =>
        if HandshakeOk(initialized, f) {
          assert rest[consumed..] + socket.Pending() == s[consumed..];
          rest := rest[consumed..];
          next := Take(f, consumed);
        } else {
          next := Stop(HandshakeViolation);
        }
    }
  }

  /**
    The loop dispatches exactly what the whole-stream parser does and ends for the same reason.
    `peak` is the largest buffer it ever held: a header, a full payload and less than one read more.
   */
  method HandleConnection(chunks: seq<seq<byte>>, end: StreamEnd, server: Server)
    returns (session: Session, peak: nat)
    requires ReadSizes(chunks)
    ensures session == ParseStream(Concat(chunks), end, server)
    ensures peak < FRAME_HEADER_LEN + MAX_FRAME_PAYLOAD + READ_CHUNK
  {
    var socket := new Socket(chunks);
    assert chunks[0..] == chunks;
    ghost var stream := Concat(chunks);
    var buf: seq<byte>, enough := Fill(socket, [], 4);
    peak := |buf|;
    assert buf + socket.Pending() == [] + stream == stream;
    if !enough {
      assert buf == stream;
      return Session([], StreamEnded(end)), peak;
    }
    assert buf[..4] == (buf + socket.Pending())[..4];
    if buf[..4] != MAGIC {
      return Session([], BadFirstMagic), peak;
    }
    var frames: seq<Frame> := [];
    while true
      invariant socket.Valid()
      invariant |buf| <= peak < BUFFER_LIMIT
      invariant ParseStream(stream, end, server) == ParseFrames(buf + socket.Pending(), end, server, frames)
      decreases |buf| + |socket.Pending()|
    {
      var next, size;
      buf, next, size := ReadFrame(socket, buf, end, frames != []);
      peak := Max(peak, size);
      match next {
        case Stop(close) =>
          return Session(frames, close), peak;
        case Take(f, _) =>
          var outcome := Dispatch(server, frames, f);
          frames := frames + [f];
          match outcome {
            case KeepOpen =>
            case HangUp => return Session(frames, Hangup), peak;
            case Failed => return Session(frames, ResponseFailed), peak;
          }
      }
    }
  }

  lemma SameHeader(buf: seq<byte>, pending: seq<byte>)
    requires |buf| >= FRAME_HEADER_LEN
    ensures var s := buf + pending;
            s[..4] == buf[..4] && s[5] == buf[5] && s[8..12] == buf[8..12]
  {
  }

  lemma SameFrame(buf: seq<byte>, pending: seq<byte>)
    requires |buf| >= FRAME_HEADER_LEN && |buf| >= FRAME_HEADER_LEN + AnnouncedLen(buf)
    ensures DecodeFrame(buf + pending) == DecodeFrame(buf)
  {
    SameHeader(buf, pending);
    var total := FRAME_HEADER_LEN + AnnouncedLen(buf);
    assert (buf + pending)[12..total] == buf[12..total];
  }

  // ---- Streams of encoded frames ----

  /** A message a peer can put on the wire. */
  datatype Message = Message(msgType: byte, flags: byte, payload: seq<byte>)

  function AsFrame(m: Message): Frame {
    Frame(FRAMING_VERSION, m.msgType, m.flags, m.payload)
  }

  ghost predicate Sendable(ms: seq<Message>) {
    forall i :: 0 <= i < |ms| ==> |ms[i].payload| <= MAX_FRAME_PAYLOAD
  }

  function Wire(ms: seq<Message>): seq<byte>
    requires Sendable(ms)
  {
    if ms == [] then []
    else TryEncodeFrame(ms[0].msgType, ms[0].payload, ms[0].flags).value + Wire(ms[1..])
  }

  /** The session in terms of messages only: no bytes, no lengths. */
  function Serve(ms: seq<Message>, end: StreamEnd, server: Server, done: seq<Frame>): Session {
    if ms == [] then Session(done, StreamEnded(end))
    else if StableTaskMessageTypeError(ms[0].msgType).Some? then
      Session(done, RejectedType(StableTaskMessageTypeError(ms[0].msgType).value))
    else if !HandshakeOk(done != [], AsFrame(ms[0])) then Session(done, HandshakeViolation)
    else
      match Dispatch(server, done, AsFrame(ms[0]))
      case KeepOpen => Serve(ms[1..], end, server, done + [AsFrame(ms[0])])
      case HangUp => Session(done + [AsFrame(ms[0])], Hangup)
      case Failed => Session(done + [AsFrame(ms[0])], ResponseFailed)
  }

  lemma {:induction false} ParseOfWire(ms: seq<Message>, end: StreamEnd, server: Server, done: seq<Frame>)
    requires Sendable(ms)
    ensures ParseFrames(Wire(ms), end, server, done) == Serve(ms, end, server, done)
    decreases |ms|
  {
    if ms != [] {
      var m := ms[0];
      var bytes := TryEncodeFrame(m.msgType, m.payload, m.flags).value;
      var rest := Wire(ms[1..]);
      var s := bytes + rest;
      DecodeOfEncode(m.msgType, m.payload, m.flags, rest);
      assert s[5] == m.msgType;
      assert s[|bytes|..] == rest;
      if Dispatch(server, done, AsFrame(m)).KeepOpen? {
        ParseOfWire(ms[1..], end, server, done + [AsFrame(m)]);
      }
    }
  }

  /** Messages sent are messages served: encoding, cutting and reassembly are invisible. */
  lemma StreamOfMessages(ms: seq<Message>, end: StreamEnd, server: Server)
    requires Sendable(ms)
    ensures ParseStream(Wire(ms), end, server) == Serve(ms, end, server, [])
  {
    ParseOfWire(ms, end, server, []);
    if ms != [] {
      DecodeOfEncode(ms[0].msgType, ms[0].payload, ms[0].flags, Wire(ms[1..]));
    }
  }

  function Frames(ms: seq<Message>): (fs: seq<Frame>)
    ensures |fs| == |ms|
  {
    seq(|ms|, i requires 0 <= i < |ms| => AsFrame(ms[i]))
  }

  /** A message that the session goes past: accepted type, in handshake order, answered. */
  ghost predicate Passes(ms: seq<Message>, i: nat, server: Server)
    requires i < |ms|
  {
    && StableTaskMessageTypeError(ms[i].msgType).None?
    && HandshakeOk(i > 0, AsFrame(ms[i]))
    && Dispatch(server, Frames(ms[..i]), AsFrame(ms[i])).KeepOpen?
  }

  /**
    Exactly how many messages are dispatched: all of those before the first that does not pass,
    and that one too when it was refused by its own handler (CLOSE among them) rather than before.
   */
  lemma {:induction false} ServedPrefix(ms: seq<Message>, end: StreamEnd, server: Server, k: nat)
    requires k <= |ms| && forall i :: 0 <= i < k ==> Passes(ms, i, server)
    requires k < |ms| ==> !Passes(ms, k, server)
    ensures var r := Serve(ms, end, server, []);
            if k == |ms| then r == Session(Frames(ms), StreamEnded(end))
            else if StableTaskMessageTypeError(ms[k].msgType).Some? || !HandshakeOk(k > 0, AsFrame(ms[k]))
            then r.frames == Frames(ms[..k])
            else r.frames == Frames(ms[..k + 1]) && (r.close.Hangup? || r.close.ResponseFailed?)
  {
    SkipPassing(ms, end, server, k);
    assert ms[..|ms|] == ms;
    if k < |ms| {
      assert Frames(ms[..k + 1]) == Frames(ms[..k]) + [AsFrame(ms[k])];
    }
  }

  lemma {:induction false} SkipPassing(ms: seq<Message>, end: StreamEnd, server: Server, k: nat)
    requires k <= |ms| && forall i :: 0 <= i < k ==> Passes(ms, i, server)
    ensures Serve(ms, end, server, []) == Serve(ms[k..], end, server, Frames(ms[..k]))
    decreases k
  {
    if k == 0 {
      assert ms[0..] == ms && Frames(ms[..0]) == [];
    } else {
      SkipPassing(ms, end, server, k - 1);
      assert Passes(ms, k - 1, server);
      assert ms[k - 1..][1..] == ms[k..];
      assert Frames(ms[..k]) == Frames(ms[..k - 1]) + [AsFrame(ms[k - 1])];
    }
  }

  // ---- The session by type bytes ----

  /** The types whose handler writes a response. */
  predicate Answered(t: byte) {
    t in {0x01, 0x03, 0x05, 0x09}
  }

  /** A message that is dispatched and after which the session goes on, by its type byte and place. */
  ghost predicate Continues(ms: seq<Message>, i: nat, server: Server)
    requires i < |ms|
  {
    var t := ms[i].msgType;
    && (if i == 0 then t == 0x01 && server.initSupported(AsFrame(ms[0]))
        else t in {0x02, 0x03, 0x04, 0x05, 0x06, 0x08, 0x09, 0x0a, 0x0d, 0x0e})
    && (Answered(t) ==> !server.responseFails(Frames(ms[..i + 1])))
  }

  /** How a session ends at a message that does not let it go on, by its type byte and place. */
  ghost function Stopped(ms: seq<Message>, k: nat, server: Server): Session
    requires k < |ms|
  {
    var t := ms[k].msgType;
    if t == 0x00 || t == 0xff then Session(Frames(ms[..k]), RejectedType(InvalidType))
    else if t == 0x0b || t == 0x0c then Session(Frames(ms[..k]), RejectedType(ConflictedType))
    else if 0xf0 <= t <= 0xfe then Session(Frames(ms[..k]), RejectedType(UnsupportedExtension))
    else if 0x0f <= t <= 0xef then Session(Frames(ms[..k]), RejectedType(UnknownType))
    else if (k == 0) != (t == 0x01) then Session(Frames(ms[..k]), HandshakeViolation)
    else if t == 0x07 || (t == 0x01 && !server.initSupported(AsFrame(ms[k]))) then
      Session(Frames(ms[..k + 1]), Hangup)
    else Session(Frames(ms[..k + 1]), ResponseFailed)
  }

  lemma FramesSnoc(ms: seq<Message>, i: nat)
    requires i < |ms|
    ensures Frames(ms[..i + 1]) == Frames(ms[..i]) + [AsFrame(ms[i])]
  {
  }

  lemma ContinuesPasses(ms: seq<Message>, i: nat, server: Server)
    requires i < |ms|
    ensures Continues(ms, i, server) <==> Passes(ms, i, server)
  {
    FramesSnoc(ms, i);
  }

  /**
    What a session serves, by type bytes alone: every message up to the first that does not let it go on,
    and at that one it is refused, hung up or failed as its type and place say.
   */
  lemma SessionByType(ms: seq<Message>, end: StreamEnd, server: Server, k: nat)
    requires Sendable(ms) && k <= |ms| && forall i :: 0 <= i < k ==> Continues(ms, i, server)
    requires k < |ms| ==> !Continues(ms, k, server)
    ensures ParseStream(Wire(ms), end, server)
         == if k == |ms| then Session(Frames(ms), StreamEnded(end)) else Stopped(ms, k, server)
  {
    AllPass(ms, server, k);
    StreamOfMessages(ms, end, server);
    SkipPassing(ms, end, server, k);
    if k < |ms| {
      ServeStops(ms, end, server, k);
    } else {
      ServedAll(ms, end, server);
    }
  }

  lemma AllPass(ms: seq<Message>, server: Server, k: nat)
    requires k <= |ms| && forall i :: 0 <= i < k ==> Continues(ms, i, server)
    ensures forall i :: 0 <= i < k ==> Passes(ms, i, server)
  {
    forall i | 0 <= i < k ensures Passes(ms, i, server) {
      ContinuesPasses(ms, i, server);
    }
  }

  lemma ServedAll(ms: seq<Message>, end: StreamEnd, server: Server)
    ensures Serve(ms[|ms|..], end, server, Frames(ms[..|ms|])) == Session(Frames(ms), StreamEnded(end))
  {
    assert ms[..|ms|] == ms && ms[|ms|..] == [];
  }

  lemma ServeStops(ms: seq<Message>, end: StreamEnd, server: Server, k: nat)
    requires k < |ms| && !Continues(ms, k, server)
    ensures Serve(ms[k..], end, server, Frames(ms[..k])) == Stopped(ms, k, server)
  {
    ContinuesPasses(ms, k, server);
    FramesSnoc(ms, k);
    assert ms[k..][0] == ms[k];
  }

  /** Whatever bytes follow messages that were served: how the session ends at the first of them. */
  lemma StreamTail(ms: seq<Message>, tail: seq<byte>, end: StreamEnd, server: Server)
    requires Sendable(ms) && ms != [] && forall i :: 0 <= i < |ms| ==> Continues(ms, i, server)
    ensures var r := ParseStream(Wire(ms) + tail, end, server);
            && (|tail| < 12 ==> r == Session(Frames(ms), StreamEnded(end)))
            && (|tail| >= 12 && tail[..4] != [0x49, 0x49, 0x43, 0x50] ==> r == Session(Frames(ms), MagicDrift))
  {
    AllPass(ms, server, |ms|);
    SkipWire(ms, tail, end, server, |ms|);
    WireStarts(ms, tail);
    assert ms[|ms|..] == [] && ms[..|ms|] == ms && [] + tail == tail;
  }

  lemma WireStarts(ms: seq<Message>, tail: seq<byte>)
    requires Sendable(ms) && ms != []
    ensures |Wire(ms) + tail| >= 4 && (Wire(ms) + tail)[..4] == MAGIC
  {
    var first := TryEncodeFrame(ms[0].msgType, ms[0].payload, ms[0].flags).value;
    assert (Wire(ms) + tail)[..4] == first[..4];
  }

  /** Parsing goes past encoded messages that pass, whatever follows them. */
  lemma {:induction false} SkipWire(ms: seq<Message>, tail: seq<byte>, end: StreamEnd, server: Server, k: nat)
    requires Sendable(ms) && k <= |ms| && forall i :: 0 <= i < k ==> Passes(ms, i, server)
    ensures ParseFrames(Wire(ms) + tail, end, server, [])
         == ParseFrames(Wire(ms[k..]) + tail, end, server, Frames(ms[..k]))
    decreases k
  {
    if k == 0 {
      assert ms[0..] == ms && Frames(ms[..0]) == [];
    } else {
      SkipWire(ms, tail, end, server, k - 1);
      assert Passes(ms, k - 1, server);
      WireSplit(ms, tail, k - 1);
      FramesSnoc(ms, k - 1);
      ParsePast(ms[k - 1], Wire(ms[k..]) + tail, end, server, Frames(ms[..k - 1]));
    }
  }

  lemma WireSplit(ms: seq<Message>, tail: seq<byte>, i: nat)
    requires Sendable(ms) && i < |ms|
    ensures Wire(ms[i..]) + tail
         == TryEncodeFrame(ms[i].msgType, ms[i].payload, ms[i].flags).value + (Wire(ms[i + 1..]) + tail)
  {
    assert ms[i..][0] == ms[i] && ms[i..][1..] == ms[i + 1..];
    var bytes := TryEncodeFrame(ms[i].msgType, ms[i].payload, ms[i].flags).value;
    assert bytes + Wire(ms[i + 1..]) + tail == bytes + (Wire(ms[i + 1..]) + tail);
  }

  lemma ParsePast(m: Message, rest: seq<byte>, end: StreamEnd, server: Server, done: seq<Frame>)
    requires |m.payload| <= MAX_FRAME_PAYLOAD && StableTaskMessageTypeError(m.msgType).None?
    requires HandshakeOk(done != [], AsFrame(m)) && Dispatch(server, done, AsFrame(m)).KeepOpen?
    ensures ParseFrames(TryEncodeFrame(m.msgType, m.payload, m.flags).value + rest, end, server, done)
         == ParseFrames(rest, end, server, done + [AsFrame(m)])
  {
    var bytes := TryEncodeFrame(m.msgType, m.payload, m.flags).value;
    TakeWire(m, rest, end, done != []);
    assert (bytes + rest)[|bytes|..] == rest;
  }

  /** The next frame of a stream that starts with an encoded message. */
  lemma TakeWire(m: Message, rest: seq<byte>, end: StreamEnd, initialized: bool)
    requires |m.payload| <= MAX_FRAME_PAYLOAD
    requires StableTaskMessageTypeError(m.msgType).None? && HandshakeOk(initialized, AsFrame(m))
    ensures var bytes := TryEncodeFrame(m.msgType, m.payload, m.flags).value;
            NextFrame(bytes + rest, end, initialized) == Take(AsFrame(m), |bytes|)
  {
    var bytes := TryEncodeFrame(m.msgType, m.payload, m.flags).value;
    DecodeOfEncode(m.msgType, m.payload, m.flags, rest);
    assert (bytes + rest)[5] == m.msgType;
  }

  // ---- Every stream, encoded or not ----

  /** The last dispatched frame ends the session: a CLOSE or an INIT that is not supported. */
  ghost predicate EndsSession(frames: seq<Frame>, server: Server) {
    && frames != []
    && var f := frames[|frames| - 1];
    (f.msgType == 0x07 || (f.msgType == 0x01 && !server.initSupported(f)))
  }

  /** The last dispatched frame is answered and its response cannot be delivered. */
  ghost predicate FailsSession(frames: seq<Frame>, server: Server) {
    && frames != [] && !EndsSession(frames, server)
    && Answered(frames[|frames| - 1].msgType) && server.responseFails(frames)
  }

  lemma {:induction false} FramesEnd(s: seq<byte>, end: StreamEnd, server: Server, done: seq<Frame>)
    requires !EndsSession(done, server) && !FailsSession(done, server)
    ensures var r := ParseFrames(s, end, server, done);
            && (r.close.Hangup? <==> EndsSession(r.frames, server))
            && (r.close.ResponseFailed? <==> FailsSession(r.frames, server))
    decreases |s|
  {
    match NextFrame(s, end, done != [])
    case Stop(_) =>
    case Take(f, n) =>
      if Dispatch(server, done, f).KeepOpen? {
        FramesEnd(s[n..], end, server, done + [f]);
      }
  }

  /**
    For every byte stream: a session hangs up exactly at a CLOSE or an unsupported INIT, and fails in a
    response exactly at an INIT, DISCOVER, CALL or PING whose response cannot be delivered.
   */
  lemma SessionEndsExactly(s: seq<byte>, end: StreamEnd, server: Server)
    ensures var r := ParseStream(s, end, server);
            && (r.close.Hangup? <==> EndsSession(r.frames, server))
            && (r.close.ResponseFailed? <==> FailsSession(r.frames, server))
  {
    FramesEnd(s, end, server, []);
  }

  /** INIT first and only once, nothing after a CLOSE, no refused type. */
  ghost predicate WellOrdered(frames: seq<Frame>) {
    forall i :: 0 <= i < |frames| ==>
      && (i == 0 <==> frames[i].msgType == INIT)
      && (i < |frames| - 1 ==> frames[i].msgType != CLOSE)
      && (0x01 <= frames[i].msgType <= 0x0a || frames[i].msgType == 0x0d || frames[i].msgType == 0x0e)
      && |frames[i].payload| <= MAX_FRAME_PAYLOAD
  }

  lemma {:induction false} ParsedFramesWellOrdered(s: seq<byte>, end: StreamEnd, server: Server, done: seq<Frame>)
    requires WellOrdered(done) && (done != [] ==> done[|done| - 1].msgType != CLOSE)
    ensures WellOrdered(ParseFrames(s, end, server, done).frames)
    ensures done <= ParseFrames(s, end, server, done).frames
    decreases |s|
  {
    if |s| >= FRAME_HEADER_LEN {
      match DecodeFrame(s)
      case Err(_) =>
      case Ok((f, n)) =>
        if Dispatch(server, done, f).KeepOpen? && HandshakeOk(done != [], f)
           && StableTaskMessageTypeError(f.msgType).None?
        {
          ParsedFramesWellOrdered(s[n..], end, server, done + [f]);
        }
    }
  }

  lemma StreamWellOrdered(s: seq<byte>, end: StreamEnd, server: Server)
    ensures WellOrdered(ParseStream(s, end, server).frames)
  {
    ParsedFramesWellOrdered(s, end, server, []);
  }
}
