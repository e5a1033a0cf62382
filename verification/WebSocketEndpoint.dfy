/** What an endpoint does with a stream of frames, however it is cut into pieces. */
module WebSocketEndpoint {
  import opened ByteStrings
  import opened Sequences
  import opened Results
  import opened WebSocketFrames

  datatype ReadyState = CLOSING | CLOSED | CONNECTING | OPEN

  /**
   The buffers of an endpoint, and three histories: the messages handed to the user, the frames put out, and the bytes that
   the operating system has taken from the transmit buffer.
   */
  datatype Endpoint = Endpoint(
    rx: Bytes, tx: Bytes, received: Bytes, ready: ReadyState, useMask: bool, bad: bool,
    delivered: seq<Bytes>, sent: seq<Frame>, wire: Bytes)

  function DataFrame(useMask: bool, opcode: nat, message: Bytes): Frame {
    Frame(true, 0, opcode, if useMask then Some(CLIENT_KEY) else None, message)
  }

  const CLOSE_FRAME := Frame(true, 0, CLOSE, Some(NO_KEY), [])

  function Put(e: Endpoint, f: Frame): Endpoint
    requires Encodable(f)
  {
    e.(tx := e.tx + Encode(f), sent := e.sent + [f])
  }

  predicate MayNotSend(e: Endpoint) {
    e.ready == CLOSING || e.ready == CLOSED
  }

  function SendData(e: Endpoint, opcode: nat, message: Bytes): Endpoint
    requires opcode < 16 && |message| < TOO_LONG
  {
    if MayNotSend(e) then e else Put(e, DataFrame(e.useMask, opcode, message))
  }

  function Closed(e: Endpoint): Endpoint {
    if MayNotSend(e) then e else Put(e.(ready := CLOSING), CLOSE_FRAME)
  }

  /** The effect of a frame that has arrived as a whole. */
  function Apply(e: Endpoint, f: Frame): Endpoint
    requires |f.payload| < TOO_LONG
  {
    if f.opcode == TEXT_FRAME || f.opcode == BINARY_FRAME || f.opcode == CONTINUATION then
      var all := e.received + f.payload;
      if f.fin then e.(received := [], delivered := e.delivered + [all]) else e.(received := all)
    else if f.opcode == PING then SendData(e, PONG, f.payload)
    else if f.opcode == PONG then e
    else Closed(e)
  }

  /** The bytes put out for a message: a whole frame, masked by a client with its key. */
  lemma SentBytes(e: Endpoint, opcode: nat, message: Bytes)
    requires e.ready != CLOSING && e.ready != CLOSED && opcode < 16 && |message| < TOO_LONG
    ensures
      var after := SendData(e, opcode, message);
      var b := Encode(DataFrame(e.useMask, opcode, message));
      var at := |b| - |message|;
      && after == e.(tx := e.tx + b, sent := after.sent)
      && at >= 2 && b[0] == 128 + opcode && b[1] / 128 == (if e.useMask then 1 else 0)
      && (e.useMask ==> at >= 4 && b[at - 4..at] == [0x12, 0x34, 0x56, 0x78])
  {
    EncodedHeader(DataFrame(e.useMask, opcode, message));
  }

  /** The first byte by the kind of frame; closing puts out an empty frame under a zero key. */
  lemma FirstBytes(e: Endpoint, message: Bytes)
    requires e.ready != CLOSING && e.ready != CLOSED && |message| < TOO_LONG
    ensures SendData(e, TEXT_FRAME, message).tx[|e.tx|..][..1] == [0x81]
    ensures SendData(e, BINARY_FRAME, message).tx[|e.tx|..][..1] == [0x82]
    ensures SendData(e, PING, message).tx[|e.tx|..][..1] == [0x89]
    ensures SendData(e, PONG, message).tx[|e.tx|..][..1] == [0x8A]
    ensures Closed(e).tx == e.tx + [0x88, 0x80, 0, 0, 0, 0] && Closed(e).ready == CLOSING
  {
    SentBytes(e, TEXT_FRAME, message);
    SentBytes(e, BINARY_FRAME, message);
    SentBytes(e, PING, message);
    SentBytes(e, PONG, message);
    ClosingBytes();
  }

  lemma ClosingBytes()
    ensures Encode(CLOSE_FRAME) == [0x88, 0x80, 0, 0, 0, 0]
  {
    EncodedHeader(CLOSE_FRAME);
    assert Encode(CLOSE_FRAME)[2..6] == NO_KEY;
  }

  /** What a frame does, by its number: data is delivered once it is final, a ping is answered, any other number closes. */
  lemma AppliedByNumber(e: Endpoint, f: Frame)
    requires |f.payload| < TOO_LONG
    ensures f.opcode <= 2 && f.fin ==> Apply(e, f) == e.(received := [], delivered := e.delivered + [e.received + f.payload])
    ensures f.opcode <= 2 && !f.fin ==> Apply(e, f) == e.(received := e.received + f.payload)
    ensures f.opcode == 9 ==> Apply(e, f) == SendData(e, 10, f.payload)
    ensures f.opcode == 10 ==> Apply(e, f) == e
    ensures 3 <= f.opcode <= 8 || f.opcode > 10 ==> Apply(e, f) == Closed(e)
  {
  }

  lemma {:induction false} NumberBound(b: Bytes)
    ensures Number(b) < Pow256(|b|)
    decreases |b|
  {
    if b != [] {
      NumberBound(b[..|b| - 1]);
    }
  }

  lemma ParsedIsShort(data: Bytes)
    ensures Parse(data).Whole? ==> |Parse(data).frame.payload| < TOO_LONG
  {
    if Parse(data).Whole? && data[1] % 128 == 126 {
      NumberBound(data[2..4]);
      assert Pow256(2) == 65536;
    }
  }

  /** Handles all frames that have arrived as a whole. */
  function Dispatch(e: Endpoint): Endpoint
    decreases |e.rx|
  {
    if e.bad then e else
      ParsedIsShort(e.rx);
      match Parse(e.rx)
      case NeedMore => e
      case BadLength => Closed(e.(bad := true))
      case Whole(f, size) => Dispatch(Apply(e, f).(rx := e.rx[size..]))
  }

  function Feed(e: Endpoint, data: Bytes): Endpoint {
    e.(rx := e.rx + data)
  }

  // ----- pieces -----

  lemma ApplyIgnoresRx(e: Endpoint, f: Frame, rx: Bytes)
    requires |f.payload| < TOO_LONG
    ensures Apply(e.(rx := rx), f) == Apply(e, f).(rx := rx)
    ensures Apply(e, f).rx == e.rx && Apply(e, f).bad == e.bad
  {
  }

  /** The effect of the first frame, if it has arrived. */
  lemma DispatchFirst(e: Endpoint, f: Frame, size: nat)
    requires !e.bad && Parse(e.rx) == Whole(f, size)
    ensures |f.payload| < TOO_LONG && 2 <= size <= |e.rx|
    ensures Dispatch(e) == Dispatch(Apply(e, f).(rx := e.rx[size..]))
  {
    ParsedIsShort(e.rx);
  }

  lemma DispatchRest(e: Endpoint, more: Bytes)
    requires e.bad || Parse(e.rx).NeedMore?
    ensures Dispatch(e) == e
  {
  }

  lemma DispatchBad(e: Endpoint)
    requires !e.bad && Parse(e.rx).BadLength?
    ensures Dispatch(e) == Closed(e.(bad := true))
  {
  }

  /** A length with its top bit set ends the connection. */
  lemma DispatchLong(e: Endpoint, mask: bool, n0: nat, headerSize: nat, n: nat)
    requires !e.bad && 2 <= |e.rx| && mask == (e.rx[1] >= 128) && n0 == e.rx[1] % 128 == 127
    requires headerSize == HeaderSize(n0, mask) <= |e.rx| && n == Number(e.rx[2..10]) >= TOO_LONG
    ensures Dispatch(e) == Closed(e.(bad := true))
  {
    HeaderIsParsed(e.rx, mask, n0, headerSize, n, 10);
    DispatchBad(e);
  }

  lemma FedFirst(e: Endpoint, more: Bytes, f: Frame, size: nat)
    requires !e.bad && Parse(e.rx) == Whole(f, size)
    ensures |f.payload| < TOO_LONG && 2 <= size <= |e.rx|
    ensures Dispatch(Feed(e, more)) == Dispatch(Feed(Apply(e, f).(rx := e.rx[size..]), more))
  {
    ParseMore(e.rx, more);
    DispatchFirst(Feed(e, more), f, size);
    ApplyIgnoresRx(e, f, e.rx + more);
    assert (e.rx + more)[size..] == e.rx[size..] + more;
  }

  /** Dispatching early makes no difference, whatever the bytes are. */
  lemma {:induction false} DispatchEarly(e: Endpoint, more: Bytes)
    ensures Dispatch(Feed(Dispatch(e), more)) == Dispatch(Feed(e, more))
    decreases |e.rx|
  {
    var p := Parse(e.rx);
    if e.bad || p.NeedMore? {
      DispatchRest(e, more);
    } else if p.BadLength? {
      EarlyBad(e, more);
    } else {
      DispatchFirst(e, p.frame, p.size);
      FedFirst(e, more, p.frame, p.size);
      DispatchEarly(Apply(e, p.frame).(rx := e.rx[p.size..]), more);
    }
  }

  lemma EarlyBad(e: Endpoint, more: Bytes)
    requires !e.bad && Parse(e.rx).BadLength?
    ensures Dispatch(Feed(Dispatch(e), more)) == Dispatch(Feed(e, more))
  {
    ParseMore(e.rx, more);
    DispatchBad(e);
    DispatchBad(Feed(e, more));
    DispatchRest(Feed(Closed(e.(bad := true)), more), []);
  }

  /** Receives piece after piece, and dispatches after each. */
  function ReceiveAll(e: Endpoint, pieces: seq<Bytes>): Endpoint
    decreases |pieces|
  {
    if pieces == [] then e else ReceiveAll(Dispatch(Feed(e, pieces[0])), pieces[1..])
  }

  lemma FeedTwice(e: Endpoint, a: Bytes, b: Bytes)
    ensures Feed(Feed(e, a), b) == Feed(e, a + b)
  {
    assert e.rx + a + b == e.rx + (a + b);
  }

  /** How a stream is cut into pieces makes no difference. */
  lemma {:induction false} CutsDoNotMatter(e: Endpoint, pieces: seq<Bytes>)
    requires pieces != []
    ensures ReceiveAll(e, pieces) == Dispatch(Feed(e, Joined(pieces)))
    decreases |pieces|
  {
    var first, rest := pieces[0], pieces[1..];
    if rest == [] {
      assert Joined(pieces) == first;
    } else {
      CutsDoNotMatter(Dispatch(Feed(e, first)), rest);
      DispatchEarly(Feed(e, first), Joined(rest));
      FeedTwice(e, first, Joined(rest));
    }
  }

  // ----- a stream of frames -----

  predicate AllEncodable(fs: seq<Frame>) {
    fs == [] || (Encodable(fs[0]) && AllEncodable(fs[1..]))
  }

  function EncodeAll(fs: seq<Frame>): Bytes
    requires AllEncodable(fs)
  {
    if fs == [] then [] else Encode(fs[0]) + EncodeAll(fs[1..])
  }

  function ApplyAll(e: Endpoint, fs: seq<Frame>): Endpoint
    requires AllEncodable(fs)
    decreases |fs|
  {
    if fs == [] then e else ApplyAll(Apply(e, fs[0]), fs[1..])
  }

  /** Dispatching encoded frames is applying them one after the other. */
  lemma {:induction false} DispatchesFrames(e: Endpoint, fs: seq<Frame>, rest: Bytes)
    requires !e.bad && AllEncodable(fs)
    requires e.rx == EncodeAll(fs) + rest
    ensures Dispatch(e) == Dispatch(ApplyAll(e, fs).(rx := rest))
    decreases |fs|
  {
    if fs == [] {
      assert e.rx == rest;
    } else {
      var f := fs[0];
      var after := EncodeAll(fs[1..]) + rest;
      assert e.rx == Encode(f) + after;
      ParseUndoesEncode(f, after);
      DispatchFirst(e, f, |Encode(f)|);
      assert e.rx[|Encode(f)|..] == after;
      var next := Apply(e, f).(rx := after);
      ApplyIgnoresRx(e, f, after);
      DispatchesFrames(next, fs[1..], rest);
      ApplyAllIgnoresRx(Apply(e, f), fs[1..], after);
    }
  }

  lemma {:induction false} ApplyAllIgnoresRx(e: Endpoint, fs: seq<Frame>, rx: Bytes)
    requires AllEncodable(fs)
    ensures ApplyAll(e.(rx := rx), fs) == ApplyAll(e, fs).(rx := rx)
    decreases |fs|
  {
    if fs != [] {
      ApplyIgnoresRx(e, fs[0], rx);
      ApplyAllIgnoresRx(Apply(e, fs[0]), fs[1..], rx);
    }
  }

  // ----- lists of frames -----

  lemma EncodeFirst(f: Frame, rest: seq<Frame>)
    requires Encodable(f) && AllEncodable(rest)
    ensures AllEncodable([f] + rest) && EncodeAll([f] + rest) == Encode(f) + EncodeAll(rest)
  {
    assert ([f] + rest)[1..] == rest;
  }

  lemma {:induction false} EncodeAppend(a: seq<Frame>, b: seq<Frame>)
    requires AllEncodable(a) && AllEncodable(b)
    ensures AllEncodable(a + b) && EncodeAll(a + b) == EncodeAll(a) + EncodeAll(b)
    decreases |a|
  {
    if a == [] {
      assert a + b == b;
    } else {
      var rest := a[1..];
      EncodeAppend(rest, b);
      FirstOfSum(a, b);
      EncodeFirst(a[0], rest + b);
      Assoc(Encode(a[0]), EncodeAll(rest), EncodeAll(b));
    }
  }

  lemma FirstOfSum<T>(a: seq<T>, b: seq<T>)
    requires a != []
    ensures a + b == [a[0]] + (a[1..] + b)
  {
  }

  lemma AppliesFirst(e: Endpoint, f: Frame, rest: seq<Frame>)
    requires Encodable(f) && AllEncodable(rest)
    ensures AllEncodable([f] + rest) && ApplyAll(e, [f] + rest) == ApplyAll(Apply(e, f), rest)
  {
    assert ([f] + rest)[1..] == rest;
  }

  lemma {:induction false} ApplyAppend(e: Endpoint, a: seq<Frame>, b: seq<Frame>)
    requires AllEncodable(a) && AllEncodable(b)
    ensures AllEncodable(a + b) && ApplyAll(e, a + b) == ApplyAll(ApplyAll(e, a), b)
    decreases |a|
  {
    EncodeAppend(a, b);
    if a == [] {
      assert a + b == b;
    } else {
      ApplyAppend(Apply(e, a[0]), a[1..], b);
      FirstOfSum(a, b);
      AppliesFirst(e, a[0], a[1..] + b);
    }
  }

  // ----- what a peer sends: messages in fragments, with pings between them -----

  /** A fragment of a message, and the pings that follow it. */
  datatype Part = Part(payload: Bytes, pings: seq<Bytes>)

  datatype Arrival = Message(opcode: nat, parts: seq<Part>) | Pinged(payload: Bytes)

  predicate AllShort(bs: seq<Bytes>) {
    bs == [] || (|bs[0]| < TOO_LONG && AllShort(bs[1..]))
  }

  predicate ShortParts(parts: seq<Part>) {
    parts == [] || (|parts[0].payload| < TOO_LONG && AllShort(parts[0].pings) && ShortParts(parts[1..]))
  }

  /** A message is text or binary, and has at least one fragment. */
  predicate Admissible(a: Arrival) {
    match a
    case Message(opcode, parts) => (opcode == TEXT_FRAME || opcode == BINARY_FRAME) && parts != [] && ShortParts(parts)
    case Pinged(payload) => |payload| < TOO_LONG
  }

  predicate AllAdmissible(arrivals: seq<Arrival>) {
    arrivals == [] || (Admissible(arrivals[0]) && AllAdmissible(arrivals[1..]))
  }

  function ControlFrames(opcode: nat, payloads: seq<Bytes>, key: Option<Key>): (r: seq<Frame>)
    requires AllShort(payloads) && opcode < 16
    ensures AllEncodable(r)
  {
    if payloads == [] then [] else
      var f, rest := Frame(true, 0, opcode, key, payloads[0]), ControlFrames(opcode, payloads[1..], key);
      EncodeFirst(f, rest);
      [f] + rest
  }

  /** The first fragment has the opcode of the message, the others continue it, and only the last one is final. */
  function PartFrames(opcode: nat, parts: seq<Part>, key: Option<Key>): (r: seq<Frame>)
    requires ShortParts(parts) && opcode < 16
    ensures AllEncodable(r)
  {
    if parts == [] then [] else
      var f := Frame(|parts| == 1, 0, opcode, key, parts[0].payload);
      var pings, rest := ControlFrames(PING, parts[0].pings, key), PartFrames(CONTINUATION, parts[1..], key);
      EncodeAppend(pings, rest);
      EncodeFirst(f, pings + rest);
      [f] + (pings + rest)
  }

  function ArrivalFrames(a: Arrival, key: Option<Key>): (r: seq<Frame>)
    requires Admissible(a)
    ensures AllEncodable(r)
  {
    match a
    case Message(opcode, parts) => PartFrames(opcode, parts, key)
    case Pinged(payload) => [Frame(true, 0, PING, key, payload)]
  }

  function StreamFrames(arrivals: seq<Arrival>, key: Option<Key>): (r: seq<Frame>)
    requires AllAdmissible(arrivals)
    ensures AllEncodable(r)
  {
    if arrivals == [] then [] else
      var first, rest := ArrivalFrames(arrivals[0], key), StreamFrames(arrivals[1..], key);
      EncodeAppend(first, rest);
      first + rest
  }

  /** The whole message. */
  function Content(parts: seq<Part>): Bytes {
    if parts == [] then [] else parts[0].payload + Content(parts[1..])
  }

  function PartPings(parts: seq<Part>): (r: seq<Bytes>)
    ensures ShortParts(parts) ==> AllShort(r)
  {
    if parts == [] then [] else
      ShortAppend(parts[0].pings, PartPings(parts[1..]));
      parts[0].pings + PartPings(parts[1..])
  }

  lemma {:induction false} ShortAppend(a: seq<Bytes>, b: seq<Bytes>)
    ensures AllShort(a) && AllShort(b) ==> AllShort(a + b)
    decreases |a|
  {
    if a == [] {
      assert a + b == b;
    } else {
      ShortAppend(a[1..], b);
      assert (a + b)[1..] == a[1..] + b;
    }
  }

  function Pings(a: Arrival): seq<Bytes> {
    match a
    case Message(_, parts) => PartPings(parts)
    case Pinged(payload) => [payload]
  }

  function Contents(a: Arrival): seq<Bytes> {
    match a
    case Message(_, parts) => [Content(parts)]
    case Pinged(_) => []
  }

  function AllPings(arrivals: seq<Arrival>): (r: seq<Bytes>)
    ensures AllAdmissible(arrivals) ==> AllShort(r)
  {
    if arrivals == [] then [] else
      ShortAppend(Pings(arrivals[0]), AllPings(arrivals[1..]));
      Pings(arrivals[0]) + AllPings(arrivals[1..])
  }

  function AllContents(arrivals: seq<Arrival>): seq<Bytes> {
    if arrivals == [] then [] else Contents(arrivals[0]) + AllContents(arrivals[1..])
  }

  // ----- what an endpoint makes of it -----

  /** The pongs for some pings, unless the endpoint has closed. */
  function Answers(e: Endpoint, pings: seq<Bytes>): (r: seq<Frame>)
    requires AllShort(pings)
    ensures AllEncodable(r)
  {
    if MayNotSend(e) then [] else ControlFrames(PONG, pings, if e.useMask then Some(CLIENT_KEY) else None)
  }

  lemma {:induction false} ControlAppend(opcode: nat, a: seq<Bytes>, b: seq<Bytes>, key: Option<Key>)
    requires AllShort(a) && AllShort(b) && opcode < 16
    ensures AllShort(a + b) && ControlFrames(opcode, a + b, key) == ControlFrames(opcode, a, key) + ControlFrames(opcode, b, key)
    decreases |a|
  {
    ShortAppend(a, b);
    if a == [] {
      assert a + b == b;
    } else {
      ControlAppend(opcode, a[1..], b, key);
      assert (a + b)[1..] == a[1..] + b;
      Assoc([Frame(true, 0, opcode, key, a[0])], ControlFrames(opcode, a[1..], key), ControlFrames(opcode, b, key));
    }
  }

  lemma AnswersAppend(e: Endpoint, a: seq<Bytes>, b: seq<Bytes>)
    requires AllShort(a) && AllShort(b)
    ensures AllShort(a + b) && Answers(e, a + b) == Answers(e, a) + Answers(e, b)
  {
    ControlAppend(PONG, a, b, if e.useMask then Some(CLIENT_KEY) else None);
  }

  /** What is put out on top of what was put out before. */
  ghost predicate PutsOut(e: Endpoint, r: Endpoint, frames: seq<Frame>)
    requires AllEncodable(frames)
  {
    r.tx == e.tx + EncodeAll(frames) && r.sent == e.sent + frames
  }

  /** From `e` to `r` some messages were delivered and some pings answered; part of a message may be unfinished. */
  ghost predicate Handles(e: Endpoint, r: Endpoint, messages: seq<Bytes>, pings: seq<Bytes>, unfinished: Bytes)
    requires AllShort(pings)
  {
    && r.delivered == e.delivered + messages && r.received == unfinished && r.ready == e.ready && r.bad == e.bad
    && r.useMask == e.useMask && PutsOut(e, r, Answers(e, pings))
  }

  lemma HandlesNothing(e: Endpoint)
    ensures Handles(e, e, [], [], e.received)
  {
    assert e.delivered + [] == e.delivered && e.tx + [] == e.tx && e.sent + [] == e.sent;
    assert Answers(e, []) == [];
  }

  lemma HandlesBoth(e: Endpoint, mid: Endpoint, r: Endpoint, m: seq<Bytes>, p: seq<Bytes>, u: Bytes, m': seq<Bytes>, p': seq<Bytes>, u': Bytes)
    requires AllShort(p) && AllShort(p') && Handles(e, mid, m, p, u) && Handles(mid, r, m', p', u')
    ensures AllShort(p + p') && Handles(e, r, m + m', p + p', u')
  {
    AnswersAppend(e, p, p');
    assert Answers(mid, p') == Answers(e, p');
    EncodeAppend(Answers(e, p), Answers(e, p'));
    Assoc(e.delivered, m, m');
    Assoc(e.tx, EncodeAll(Answers(e, p)), EncodeAll(Answers(e, p')));
    Assoc(e.sent, Answers(e, p), Answers(e, p'));
  }

  /** A ping is answered with a pong of the same payload. */
  lemma AppliesPing(e: Endpoint, payload: Bytes, key: Option<Key>)
    requires |payload| < TOO_LONG
    ensures Handles(e, Apply(e, Frame(true, 0, PING, key, payload)), [], [payload], e.received)
  {
    HandlesNothing(e);
    assert [payload][1..] == [];
    if !MayNotSend(e) {
      var pong := DataFrame(e.useMask, PONG, payload);
      assert ControlFrames(PONG, [], pong.key) == [];
      assert [pong] + [] == [pong];
      assert Answers(e, [payload]) == [pong];
      EncodeFirst(pong, []);
      assert Encode(pong) + [] == Encode(pong);
    }
  }

  /** Pings do not disturb a message that is not finished. */
  lemma {:induction false} AppliesPings(e: Endpoint, pings: seq<Bytes>, key: Option<Key>)
    requires AllShort(pings)
    ensures Handles(e, ApplyAll(e, ControlFrames(PING, pings, key)), [], pings, e.received)
    decreases |pings|
  {
    if pings == [] {
      HandlesNothing(e);
    } else {
      var f, rest := Frame(true, 0, PING, key, pings[0]), ControlFrames(PING, pings[1..], key);
      var next := Apply(e, f);
      AppliesPing(e, pings[0], key);
      AppliesPings(next, pings[1..], key);
      AppliesFirst(e, f, rest);
      HandlesBoth(e, next, ApplyAll(next, rest), [], [pings[0]], e.received, [], pings[1..], e.received);
      assert [pings[0]] + pings[1..] == pings;
    }
  }

  /** One fragment, with nothing in between yet. */
  lemma AppliesFragment(e: Endpoint, opcode: nat, payload: Bytes, last: bool, key: Option<Key>)
    requires (opcode == TEXT_FRAME || opcode == BINARY_FRAME || opcode == CONTINUATION) && |payload| < TOO_LONG
    ensures Handles(e, Apply(e, Frame(last, 0, opcode, key, payload)), if last then [e.received + payload] else [], [],
                    if last then [] else e.received + payload)
  {
    HandlesNothing(e);
  }

  /** The fragments of a message are one message, whatever pings come between them. */
  lemma {:induction false} AppliesParts(e: Endpoint, opcode: nat, parts: seq<Part>, key: Option<Key>)
    requires (opcode == TEXT_FRAME || opcode == BINARY_FRAME || opcode == CONTINUATION) && parts != [] && ShortParts(parts)
    ensures Handles(e, ApplyAll(e, PartFrames(opcode, parts, key)), [e.received + Content(parts)], PartPings(parts), [])
    decreases |parts|
  {
    var f := Frame(|parts| == 1, 0, opcode, key, parts[0].payload);
    var pings, more := ControlFrames(PING, parts[0].pings, key), PartFrames(CONTINUATION, parts[1..], key);
    var one := Apply(e, f);
    var two := ApplyAll(one, pings);
    var far := e.received + parts[0].payload;
    AppliesFragment(e, opcode, parts[0].payload, |parts| == 1, key);
    AppliesPings(one, parts[0].pings, key);
    ApplyAppend(one, pings, more);
    AppliesFirst(e, f, pings + more);
    assert [] + parts[0].pings == parts[0].pings;
    if |parts| == 1 {
      HandlesBoth(e, one, two, [far], [], [], [], parts[0].pings, []);
      assert [far] + [] == [far] && parts[0].payload + [] == parts[0].payload && parts[0].pings + [] == parts[0].pings;
      assert more == [] && PartPings(parts[1..]) == [] && Content(parts[1..]) == [];
    } else {
      HandlesBoth(e, one, two, [], [], far, [], parts[0].pings, far);
      AppliesParts(two, CONTINUATION, parts[1..], key);
      HandlesBoth(e, two, ApplyAll(two, more), [], parts[0].pings, far, [far + Content(parts[1..])], PartPings(parts[1..]), []);
      Assoc(e.received, parts[0].payload, Content(parts[1..]));
      assert [] + [far + Content(parts[1..])] == [far + Content(parts[1..])];
    }
  }

  lemma AppliesArrival(e: Endpoint, a: Arrival, key: Option<Key>)
    requires Admissible(a) && e.received == []
    ensures AllShort(Pings(a)) && Handles(e, ApplyAll(e, ArrivalFrames(a, key)), Contents(a), Pings(a), [])
  {
    match a
    case Message(opcode, parts) =>
      AppliesParts(e, opcode, parts, key);
      assert [] + Content(parts) == Content(parts);
    case Pinged(payload) =>
      AppliesPing(e, payload, key);
      AppliesFirst(e, Frame(true, 0, PING, key, payload), []);
  }

  lemma {:induction false} AppliesStream(e: Endpoint, arrivals: seq<Arrival>, key: Option<Key>)
    requires AllAdmissible(arrivals) && e.received == []
    ensures Handles(e, ApplyAll(e, StreamFrames(arrivals, key)), AllContents(arrivals), AllPings(arrivals), [])
    decreases |arrivals|
  {
    if arrivals == [] {
      HandlesNothing(e);
    } else {
      var a, rest := arrivals[0], arrivals[1..];
      var next := ApplyAll(e, ArrivalFrames(a, key));
      AppliesArrival(e, a, key);
      AppliesStream(next, rest, key);
      ApplyAppend(e, ArrivalFrames(a, key), StreamFrames(rest, key));
      HandlesBoth(e, next, ApplyAll(next, StreamFrames(rest, key)), Contents(a), Pings(a), [], AllContents(rest), AllPings(rest), []);
    }
  }

  /**
   Messages in any number of fragments, pings with any payload between the fragments and between the messages, all
   masked or none, cut into pieces in any way: every message is delivered once, whole and in order, and every ping is
   answered in order with a pong of the same payload, unless the receiver has closed.
   */
  lemma FragmentsRoundTrip(receiver: Endpoint, arrivals: seq<Arrival>, key: Option<Key>, pieces: seq<Bytes>)
    requires AllAdmissible(arrivals) && pieces != []
    requires receiver.rx == [] && receiver.received == [] && !receiver.bad
    requires Joined(pieces) == EncodeAll(StreamFrames(arrivals, key))
    ensures
      var r := ReceiveAll(receiver, pieces);
      && r.delivered == receiver.delivered + AllContents(arrivals) && r.received == [] && r.rx == [] && !r.bad
      && r.ready == receiver.ready
      && r.tx == receiver.tx + EncodeAll(Answers(receiver, AllPings(arrivals)))
  {
    var frames := StreamFrames(arrivals, key);
    CutsDoNotMatter(receiver, pieces);
    var fed := Feed(receiver, Joined(pieces));
    assert fed.rx == EncodeAll(frames) + [];
    DispatchesFrames(fed, frames, []);
    AppliesStream(fed, arrivals, key);
    assert Answers(fed, AllPings(arrivals)) == Answers(receiver, AllPings(arrivals));
  }

  // ----- from one endpoint to the other -----

  /** What a user sends. */
  datatype Item = Text(message: Bytes) | Binary(message: Bytes) | Ping(payload: Bytes)

  function OpcodeOf(i: Item): nat {
    match i
    case Text(_) => TEXT_FRAME
    case Binary(_) => BINARY_FRAME
    case Ping(_) => PING
  }

  function PayloadOf(i: Item): Bytes {
    if i.Ping? then i.payload else i.message
  }

  predicate AllSendable(items: seq<Item>) {
    items == [] || (|PayloadOf(items[0])| < TOO_LONG && AllSendable(items[1..]))
  }

  function SendAll(e: Endpoint, items: seq<Item>): Endpoint
    requires AllSendable(items)
    decreases |items|
  {
    if items == [] then e else SendAll(SendData(e, OpcodeOf(items[0]), PayloadOf(items[0])), items[1..])
  }

  /** An endpoint does not fragment. */
  function AsArrival(i: Item): Arrival {
    if i.Ping? then Pinged(i.payload) else Message(OpcodeOf(i), [Part(i.message, [])])
  }

  lemma OneAdmissible(i: Item)
    ensures |PayloadOf(i)| < TOO_LONG ==> Admissible(AsArrival(i))
  {
    if !i.Ping? {
      assert [Part(i.message, [])][1..] == [] && ShortParts([]) && AllShort([]);
    }
  }

  function AsArrivals(items: seq<Item>): (r: seq<Arrival>)
    ensures AllSendable(items) ==> AllAdmissible(r)
  {
    if items == [] then [] else
      var a, rest := AsArrival(items[0]), AsArrivals(items[1..]);
      OneAdmissible(items[0]);
      assert ([a] + rest)[1..] == rest;
      [a] + rest
  }

  function Messages(items: seq<Item>): seq<Bytes> {
    if items == [] then [] else (if items[0].Ping? then [] else [items[0].message]) + Messages(items[1..])
  }

  /** The payloads of the pings among the items. */
  function PingsAmong(items: seq<Item>): seq<Bytes> {
    if items == [] then [] else (if items[0].Ping? then [items[0].payload] else []) + PingsAmong(items[1..])
  }

  lemma OneArrival(i: Item, key: Option<Key>)
    requires |PayloadOf(i)| < TOO_LONG
    ensures Admissible(AsArrival(i)) && ArrivalFrames(AsArrival(i), key) == [Frame(true, 0, OpcodeOf(i), key, PayloadOf(i))]
    ensures Contents(AsArrival(i)) == (if i.Ping? then [] else [i.message])
    ensures Pings(AsArrival(i)) == if i.Ping? then [i.payload] else []
  {
    if !i.Ping? {
      var part := Part(i.message, []);
      OneAdmissible(i);
      assert [part][1..] == [] && PartFrames(CONTINUATION, [], key) == [] && ControlFrames(PING, [], key) == [];
      assert Content([]) == [] && PartPings([]) == [];
      assert Content([part]) == i.message + [] == i.message;
      assert PartPings([part]) == [] + [] == [];
    }
  }

  lemma PutsOutFirst(e: Endpoint, f: Frame, r: Endpoint, rest: seq<Frame>)
    requires Encodable(f) && AllEncodable(rest) && PutsOut(Put(e, f), r, rest)
    ensures AllEncodable([f] + rest) && PutsOut(e, r, [f] + rest)
  {
    EncodeFirst(f, rest);
    Assoc(e.tx, Encode(f), EncodeAll(rest));
    Assoc(e.sent, [f], rest);
  }

  lemma ArrivalsFirst(items: seq<Item>)
    requires items != []
    ensures AsArrivals(items)[0] == AsArrival(items[0]) && AsArrivals(items)[1..] == AsArrivals(items[1..])
  {
  }

  /** What is sent is the stream of the items, and says what they say. */
  lemma {:induction false} SendsStream(e: Endpoint, items: seq<Item>)
    requires !MayNotSend(e) && AllSendable(items)
    ensures PutsOut(e, SendAll(e, items), StreamFrames(AsArrivals(items), if e.useMask then Some(CLIENT_KEY) else None))
    ensures AllContents(AsArrivals(items)) == Messages(items) && AllPings(AsArrivals(items)) == PingsAmong(items)
    decreases |items|
  {
    var key := if e.useMask then Some(CLIENT_KEY) else None;
    if items == [] {
      assert e.tx + [] == e.tx && e.sent + [] == e.sent;
    } else {
      var f := DataFrame(e.useMask, OpcodeOf(items[0]), PayloadOf(items[0]));
      var rest := StreamFrames(AsArrivals(items[1..]), key);
      OneArrival(items[0], key);
      ArrivalsFirst(items);
      SendsStream(Put(e, f), items[1..]);
      PutsOutFirst(e, f, SendAll(e, items), rest);
    }
  }

  /**
   Whatever was sent before closing, and however the bytes are cut into pieces: exactly the messages arrive, in order, and
   every ping is answered with a pong of the same payload, unless the receiver has closed.
   */
  lemma StreamRoundTrip(sender: Endpoint, receiver: Endpoint, items: seq<Item>, pieces: seq<Bytes>)
    requires sender.tx == [] && !MayNotSend(sender) && AllSendable(items)
    requires receiver.rx == [] && receiver.received == [] && !receiver.bad
    requires Joined(pieces) == SendAll(sender, items).tx && pieces != []
    ensures AllShort(PingsAmong(items))
    ensures
      var r := ReceiveAll(receiver, pieces);
      && r.delivered == receiver.delivered + Messages(items) && r.received == [] && r.rx == [] && !r.bad
      && r.ready == receiver.ready
      && r.tx == receiver.tx + EncodeAll(Answers(receiver, PingsAmong(items)))
  {
    var key := if sender.useMask then Some(CLIENT_KEY) else None;
    SendsStream(sender, items);
    FragmentsRoundTrip(receiver, AsArrivals(items), key, pieces);
  }

  lemma ApplyGrows(e: Endpoint, f: Frame)
    requires |f.payload| < TOO_LONG
    ensures e.delivered <= Apply(e, f).delivered
  {
  }

  lemma {:induction false} DispatchGrows(e: Endpoint)
    ensures e.delivered <= Dispatch(e).delivered
    decreases |e.rx|
  {
    var p := Parse(e.rx);
    if e.bad || p.NeedMore? {
      DispatchRest(e, []);
    } else if p.BadLength? {
      DispatchBad(e);
    } else {
      DispatchFirst(e, p.frame, p.size);
      ApplyGrows(e, p.frame);
      DispatchGrows(Apply(e, p.frame).(rx := e.rx[p.size..]));
    }
  }

  /** While part of the stream is still on its way, the first of the messages have arrived, whole and in order. */
  lemma PartOfStream(sender: Endpoint, receiver: Endpoint, items: seq<Item>, pieces: seq<Bytes>, rest: Bytes)
    requires sender.tx == [] && !MayNotSend(sender) && AllSendable(items)
    requires receiver.rx == [] && receiver.received == [] && !receiver.bad
    requires Joined(pieces) + rest == SendAll(sender, items).tx && pieces != []
    ensures receiver.delivered <= ReceiveAll(receiver, pieces).delivered <= receiver.delivered + Messages(items)
  {
    var first, all := Joined(pieces), Joined(pieces) + rest;
    var r := ReceiveAll(receiver, pieces);
    CutsDoNotMatter(receiver, pieces);
    DispatchGrows(Feed(receiver, first));
    DispatchEarly(Feed(receiver, first), rest);
    FeedTwice(receiver, first, rest);
    DispatchGrows(Feed(r, rest));
    assert Joined([all]) == all + [] == all;
    CutsDoNotMatter(receiver, [all]);
    StreamRoundTrip(sender, receiver, items, [all]);
  }

  // ----- the socket underneath -----

  /** What the operating system says when asked for data, and when offered some; a list of answers ends in blocking. */
  datatype Arrived = Data(bytes: Bytes) | NoData | Disconnected

  datatype Taken = Took(n: nat) | NoRoom | Broken

  function Receive(e: Endpoint, answers: seq<Arrived>): Endpoint
    decreases |answers|
  {
    if answers == [] || answers[0].NoData? then e
    else if answers[0].Disconnected? || answers[0].bytes == [] then e.(ready := CLOSED)
    else Receive(Feed(e, answers[0].bytes), answers[1..])
  }

  /** The first `n` bytes go out, or all if there are fewer. */
  function Transmit(e: Endpoint, n: nat): Endpoint {
    var k := if n < |e.tx| then n else |e.tx|;
    e.(tx := e.tx[k..], wire := e.wire + e.tx[..k])
  }

  function Flush(e: Endpoint, answers: seq<Taken>): Endpoint
    decreases |answers|
  {
    if e.tx == [] || answers == [] || answers[0].NoRoom? then e
    else if answers[0].Broken? || answers[0].n == 0 then e.(ready := CLOSED)
    else Flush(Transmit(e, answers[0].n), answers[1..])
  }

  function Poll(e: Endpoint, arrived: seq<Arrived>, taken: seq<Taken>): Endpoint {
    if e.ready == CLOSED then e else
      var r := Flush(Receive(e, arrived), taken);
      if r.tx == [] && r.ready == CLOSING then r.(ready := CLOSED) else r
  }

  function AsData(pieces: seq<Bytes>): (r: seq<Arrived>)
    ensures |r| == |pieces|
  {
    if pieces == [] then [] else [Data(pieces[0])] + AsData(pieces[1..])
  }

  function AsTaken(counts: seq<nat>): (r: seq<Taken>)
    ensures |r| == |counts|
  {
    if counts == [] then [] else [Took(counts[0])] + AsTaken(counts[1..])
  }

  function Total(counts: seq<nat>): nat {
    if counts == [] then 0 else counts[0] + Total(counts[1..])
  }

  /** Whatever arrives in pieces that are not empty is appended, up to where the connection ends or has no more. */
  lemma {:induction false} ReceivesAll(e: Endpoint, pieces: seq<Bytes>, last: Arrived, more: seq<Arrived>)
    requires [] !in pieces && (last.Data? ==> last.bytes == [])
    ensures
      Receive(e, AsData(pieces) + [last] + more) ==
      Feed(e, Joined(pieces)).(ready := if last.NoData? then e.ready else CLOSED)
    decreases |pieces|
  {
    if pieces == [] {
      assert AsData(pieces) + [last] + more == [last] + more;
      assert e.rx + [] == e.rx;
    } else {
      var first := pieces[0];
      assert first in pieces && [] !in pieces[1..];
      assert (AsData(pieces) + [last] + more)[1..] == AsData(pieces[1..]) + [last] + more;
      ReceivesAll(Feed(e, first), pieces[1..], last, more);
      Assoc(e.rx, first, Joined(pieces[1..]));
    }
  }

  /** The first `k` bytes have gone out. */
  function Out(e: Endpoint, k: nat): Endpoint
    requires k <= |e.tx|
  {
    e.(tx := e.tx[k..], wire := e.wire + e.tx[..k])
  }

  lemma OutTwice(e: Endpoint, j: nat, k: nat)
    requires j <= k <= |e.tx|
    ensures Out(Out(e, j), k - j) == Out(e, k)
  {
    var rest := e.tx[j..];
    assert rest[k - j..] == e.tx[k..];
    assert e.tx[..j] + rest[..k - j] == e.tx[..k];
    Assoc(e.wire, e.tx[..j], rest[..k - j]);
  }

  function Least(a: nat, b: nat): nat {
    if a < b then a else b
  }

  lemma FlushStep(e: Endpoint, counts: seq<nat>, j: nat)
    requires e.tx != [] && counts != [] && counts[0] > 0 && j == Least(counts[0], |e.tx|)
    ensures Flush(e, AsTaken(counts)) == Flush(Out(e, j), AsTaken(counts[1..]))
  {
  }

  lemma FlushNothing(e: Endpoint, counts: seq<nat>)
    requires counts == [] || e.tx == []
    ensures Flush(e, AsTaken(counts)) == Out(e, 0)
  {
    assert e.tx[0..] == e.tx && e.wire + [] == e.wire;
  }

  /** As many bytes go out as are taken, the first ones first. */
  lemma {:induction false} FlushesAll(e: Endpoint, counts: seq<nat>, k: nat)
    requires 0 !in counts && k == Least(Total(counts), |e.tx|)
    ensures Flush(e, AsTaken(counts)) == Out(e, k)
    decreases |counts|
  {
    if counts == [] || e.tx == [] {
      FlushNothing(e, counts);
    } else {
      var rest, j := counts[1..], Least(counts[0], |e.tx|);
      assert counts[0] in counts && 0 !in rest;
      FlushStep(e, counts, j);
      FlushesAll(Out(e, j), rest, k - j);
      OutTwice(e, j, k);
    }
  }

  /** One poll: all that has arrived is taken in, as much goes out as is taken, and a closing endpoint with nothing left closes. */
  lemma PollIs(e: Endpoint, pieces: seq<Bytes>, counts: seq<nat>, k: nat)
    requires e.ready != CLOSED && [] !in pieces && 0 !in counts && k == Least(Total(counts), |e.tx|)
    ensures
      Poll(e, AsData(pieces) + [NoData], AsTaken(counts)) ==
      e.(rx := e.rx + Joined(pieces), tx := e.tx[k..], wire := e.wire + e.tx[..k],
         ready := if e.ready == CLOSING && k == |e.tx| then CLOSED else e.ready)
  {
    ReceivesAll(e, pieces, NoData, []);
    assert AsData(pieces) + [NoData] + [] == AsData(pieces) + [NoData];
    FlushesAll(Feed(e, Joined(pieces)), counts, k);
  }

  // ----- nothing follows the close frame -----

  predicate NoClose(fs: seq<Frame>) {
    forall f <- fs :: f.opcode != CLOSE
  }

  /** The frames put out are no close frames, but for the last one once the endpoint is closing. */
  ghost predicate ClosesLast(ready: ReadyState, sent: seq<Frame>) {
    if ready == CLOSING || (ready == CLOSED && sent != [] && sent[|sent| - 1] == CLOSE_FRAME)
    then sent != [] && sent[|sent| - 1] == CLOSE_FRAME && NoClose(sent[..|sent| - 1])
    else NoClose(sent)
  }

  /** What has gone out and what waits to go out are the frames put out, of which none follows a close frame. */
  ghost predicate Orderly(e: Endpoint) {
    AllEncodable(e.sent) && e.wire + e.tx == EncodeAll(e.sent) && ClosesLast(e.ready, e.sent)
  }

  lemma PutKeepsOrder(e: Endpoint, f: Frame)
    requires Orderly(e) && !MayNotSend(e) && Encodable(f)
    ensures f.opcode != CLOSE ==> Orderly(Put(e, f))
    ensures f == CLOSE_FRAME ==> Orderly(Put(e.(ready := CLOSING), f))
  {
    EncodeFirst(f, []);
    EncodeAppend(e.sent, [f]);
    Assoc(e.wire, e.tx, Encode(f));
    assert (e.sent + [f])[..|e.sent|] == e.sent;
  }

  /** Sending keeps the output in order; only closing puts out a close frame. */
  lemma SendKeepsOrder(e: Endpoint, opcode: nat, message: Bytes)
    requires Orderly(e) && opcode < 16 && opcode != CLOSE && |message| < TOO_LONG
    ensures Orderly(SendData(e, opcode, message))
  {
    if !MayNotSend(e) {
      PutKeepsOrder(e, DataFrame(e.useMask, opcode, message));
    }
  }

  lemma CloseKeepsOrder(e: Endpoint)
    requires Orderly(e)
    ensures Orderly(Closed(e)) && Orderly(e.(bad := true))
  {
    if !MayNotSend(e) {
      PutKeepsOrder(e, CLOSE_FRAME);
    }
  }

  lemma ApplyKeepsOrder(e: Endpoint, f: Frame)
    requires Orderly(e) && |f.payload| < TOO_LONG
    ensures Orderly(Apply(e, f))
  {
    SendKeepsOrder(e, PONG, f.payload);
    CloseKeepsOrder(e);
  }

  /** Whatever arrives, no frame follows the close frame. */
  lemma {:induction false} DispatchKeepsOrder(e: Endpoint)
    requires Orderly(e)
    ensures Orderly(Dispatch(e))
    decreases |e.rx|
  {
    var p := Parse(e.rx);
    if e.bad || p.NeedMore? {
      DispatchRest(e, []);
    } else if p.BadLength? {
      DispatchBad(e);
      CloseKeepsOrder(e);
      CloseKeepsOrder(e.(bad := true));
    } else {
      DispatchFirst(e, p.frame, p.size);
      ApplyKeepsOrder(e, p.frame);
      DispatchKeepsOrder(Apply(e, p.frame).(rx := e.rx[p.size..]));
    }
  }

  lemma {:induction false} ReceiveKeepsOrder(e: Endpoint, answers: seq<Arrived>)
    requires Orderly(e)
    ensures Orderly(Receive(e, answers))
    decreases |answers|
  {
    if answers != [] && answers[0].Data? && answers[0].bytes != [] {
      ReceiveKeepsOrder(Feed(e, answers[0].bytes), answers[1..]);
    }
  }

  lemma TransmitKeepsOrder(e: Endpoint, n: nat)
    requires Orderly(e)
    ensures Orderly(Transmit(e, n))
  {
    var k := if n < |e.tx| then n else |e.tx|;
    assert e.tx[..k] + e.tx[k..] == e.tx;
    Assoc(e.wire, e.tx[..k], e.tx[k..]);
  }

  lemma {:induction false} FlushKeepsOrder(e: Endpoint, answers: seq<Taken>)
    requires Orderly(e)
    ensures Orderly(Flush(e, answers)) && e.wire <= Flush(e, answers).wire
    decreases |answers|
  {
    if e.tx != [] && answers != [] && answers[0].Took? && answers[0].n > 0 {
      TransmitKeepsOrder(e, answers[0].n);
      FlushKeepsOrder(Transmit(e, answers[0].n), answers[1..]);
    }
  }

  lemma {:induction false} ReceiveTransmitsNothing(e: Endpoint, answers: seq<Arrived>)
    ensures Receive(e, answers).wire == e.wire && Receive(e, answers).sent == e.sent
    decreases |answers|
  {
    if answers != [] && answers[0].Data? && answers[0].bytes != [] {
      ReceiveTransmitsNothing(Feed(e, answers[0].bytes), answers[1..]);
    }
  }

  lemma PollKeepsOrder(e: Endpoint, arrived: seq<Arrived>, taken: seq<Taken>)
    requires Orderly(e)
    ensures Orderly(Poll(e, arrived, taken)) && e.wire <= Poll(e, arrived, taken).wire
  {
    ReceiveKeepsOrder(e, arrived);
    ReceiveTransmitsNothing(e, arrived);
    FlushKeepsOrder(Receive(e, arrived), taken);
  }

  // ----- whole runs -----

  /** What a user does with an endpoint, and what the operating system answers. */
  datatype Action = Sends(item: Item) | Polls(arrived: seq<Arrived>, taken: seq<Taken>) | Dispatches | Closes

  function Act(e: Endpoint, a: Action): Endpoint
    requires a.Sends? ==> |PayloadOf(a.item)| < TOO_LONG
  {
    match a
    case Sends(item) => SendData(e, OpcodeOf(item), PayloadOf(item))
    case Polls(arrived, taken) => Poll(e, arrived, taken)
    case Dispatches => Dispatch(e)
    case Closes => Closed(e)
  }

  predicate Possible(actions: seq<Action>) {
    actions == [] || ((actions[0].Sends? ==> |PayloadOf(actions[0].item)| < TOO_LONG) && Possible(actions[1..]))
  }

  function Run(e: Endpoint, actions: seq<Action>): Endpoint
    requires Possible(actions)
    decreases |actions|
  {
    if actions == [] then e else Run(Act(e, actions[0]), actions[1..])
  }

  lemma ActKeepsOrder(e: Endpoint, a: Action)
    requires Orderly(e) && (a.Sends? ==> |PayloadOf(a.item)| < TOO_LONG)
    ensures Orderly(Act(e, a)) && e.wire <= Act(e, a).wire
  {
    match a
    case Sends(item) => SendKeepsOrder(e, OpcodeOf(item), PayloadOf(item));
    case Polls(arrived, taken) => PollKeepsOrder(e, arrived, taken);
    case Dispatches =>
      DispatchKeepsOrder(e);
      DispatchTransmitsNothing(e);
    case Closes => CloseKeepsOrder(e);
  }

  lemma {:induction false} DispatchTransmitsNothing(e: Endpoint)
    ensures Dispatch(e).wire == e.wire
    decreases |e.rx|
  {
    var p := Parse(e.rx);
    if !e.bad && p.Whole? {
      DispatchFirst(e, p.frame, p.size);
      DispatchTransmitsNothing(Apply(e, p.frame).(rx := e.rx[p.size..]));
    }
  }

  /**
   Whatever is done with an endpoint and whatever the peer and the operating system do, what has gone out is always the
   beginning of a sequence of whole frames, in the order in which they were put out, that only the last one may close.
   */
  lemma {:induction false} RunKeepsOrder(e: Endpoint, actions: seq<Action>)
    requires Orderly(e) && Possible(actions)
    ensures Orderly(Run(e, actions)) && e.wire <= Run(e, actions).wire
    decreases |actions|
  {
    if actions != [] {
      ActKeepsOrder(e, actions[0]);
      RunKeepsOrder(Act(e, actions[0]), actions[1..]);
    }
  }
}
