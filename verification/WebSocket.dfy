/** The socket itself: buffers that are appended to, masked in place and consumed from the front. */
module WebSocket {
  import opened ByteStrings
  import opened WebSocketFrames
  import opened WebSocketEndpoint
  import E = WebSocketEndpoint

  class RealWebSocket {
    var rxbuf: Bytes
    var txbuf: Bytes
    var receivedData: Bytes
    var readyState: ReadyState
    const useMask: bool
    var isRxBad: bool
    ghost var delivered: seq<Bytes>
    ghost var sent: seq<Frame>
    ghost var wire: Bytes

    constructor (useMask: bool)
      ensures State() == Endpoint([], [], [], OPEN, useMask, false, [], [], []) && Orderly(State())
    {
      rxbuf, txbuf, receivedData, readyState, this.useMask, isRxBad := [], [], [], OPEN, useMask, false;
      delivered, sent, wire := [], [], [];
    }

    ghost function State(): Endpoint
      reads this
    {
      Endpoint(rxbuf, txbuf, receivedData, readyState, useMask, isRxBad, delivered, sent, wire)
    }

    /** Takes what has arrived, sends what can be sent, and closes once the close frame is out. */
    method Poll(arrived: seq<Arrived>, taken: seq<Taken>)
      modifies this
      ensures State() == E.Poll(old(State()), arrived, taken)
      ensures Orderly(old(State())) ==> Orderly(State())
    {
      if Orderly(State()) {
        PollKeepsOrder(State(), arrived, taken);
      }
      if readyState == ReadyState.CLOSED {
        return;
      }
      ReceiveAvailable(arrived);
      SendBuffered(taken);
      if txbuf == [] && readyState == ReadyState.CLOSING {
        readyState := ReadyState.CLOSED;
      }
    }

    method ReceiveAvailable(answers: seq<Arrived>)
      modifies this
      ensures State() == E.Receive(old(State()), answers)
    {
      var i := 0;
      while i < |answers|
        invariant i <= |answers| && E.Receive(State(), answers[i..]) == E.Receive(old(State()), answers)
      {
        match answers[i]
        case NoData => return;
        case Disconnected =>
          readyState := ReadyState.CLOSED;
          return;
        case Data(bytes) =>
          if bytes == [] {
            readyState := ReadyState.CLOSED;
            return;
          }
          rxbuf := rxbuf + bytes;
          assert answers[i..][1..] == answers[i + 1..];
          i := i + 1;
      }
    }

    method SendBuffered(answers: seq<Taken>)
      modifies this
      ensures State() == Flush(old(State()), answers)
    {
      var i := 0;
      while txbuf != [] && i < |answers|
        invariant i <= |answers| && Flush(State(), answers[i..]) == Flush(old(State()), answers)
        decreases |answers| - i
      {
        match answers[i]
        case NoRoom => return;
        case Broken =>
          readyState := ReadyState.CLOSED;
          return;
        case Took(n) =>
          if n == 0 {
            readyState := ReadyState.CLOSED;
            return;
          }
          var k := if n < |txbuf| then n else |txbuf|;
          wire := wire + txbuf[..k];
          txbuf := txbuf[k..];
          assert answers[i..][1..] == answers[i + 1..];
          i := i + 1;
      }
    }

    method Send(message: Bytes)
      requires |message| < TOO_LONG
      modifies this
      ensures State() == E.SendData(old(State()), TEXT_FRAME, message)
    {
      SendData(TEXT_FRAME, message);
    }

    method SendBinary(message: Bytes)
      requires |message| < TOO_LONG
      modifies this
      ensures State() == E.SendData(old(State()), BINARY_FRAME, message)
    {
      SendData(BINARY_FRAME, message);
    }

    method SendPing()
      modifies this
      ensures State() == E.SendData(old(State()), PING, [])
    {
      SendData(PING, []);
    }

    method SendData(opcode: nat, message: Bytes)
      requires opcode < 16 && |message| < TOO_LONG
      modifies this
      ensures State() == E.SendData(old(State()), opcode, message)
      ensures Orderly(old(State())) && opcode != CLOSE ==> Orderly(State())
    {
      if Orderly(State()) && opcode != CLOSE {
        SendKeepsOrder(State(), opcode, message);
      }
      if readyState == ReadyState.CLOSING || readyState == ReadyState.CLOSED {
        return;
      }
      ghost var f := DataFrame(useMask, opcode, message);
      var header := HeaderFor(opcode, |message|, f);
      var body := message;
      if useMask {
        body := MaskTail(message, 0, CLIENT_KEY);
        assert message[0..] == message;
      }
      assert Encode(f) == header + body;
      txbuf := txbuf + (header + body);
      sent := sent + [f];
    }

    /** The length takes one, three or nine bytes. */
    method HeaderFor(opcode: nat, size: nat, ghost f: Frame) returns (header: Bytes)
      requires opcode < 16 && size < TOO_LONG && size == |f.payload| && f == DataFrame(useMask, opcode, f.payload)
      ensures header == Header(f)
    {
      header := [128 + opcode];
      var maskBit := if useMask then 128 else 0;
      if size < 126 {
        header := header + [size + maskBit];
      } else if size < 65536 {
        header := header + [126 + maskBit] + BigEndian(size, ExtendedSize(size));
      } else {
        header := header + [127 + maskBit] + BigEndian(size, ExtendedSize(size));
      }
      if useMask {
        header := header + CLIENT_KEY;
      }
      HeaderIs(f, header);
    }

    /** Masks what comes from `offset` on. */
    method MaskTail(data: Bytes, offset: nat, key: Key) returns (r: Bytes)
      requires offset <= |data|
      ensures r == data[..offset] + Masked(data[offset..], key)
    {
      r := data;
      var n := |data| - offset;
      for i := 0 to n
        invariant |r| == |data| && r[..offset] == data[..offset]
        invariant forall k :: 0 <= k < i ==> r[offset + k] == Xor(data[offset..][k], key[k % 4])
        invariant forall k :: offset + i <= k < |data| ==> r[k] == data[k]
      {
        r := r[offset + i := Xor(r[offset + i], key[i % 4])];
      }
    }

    lemma HeaderIs(f: Frame, header: Bytes)
      requires Encodable(f) && f.fin && f.reserved == 0
      requires
        var n := |f.payload|;
        header == [128 + f.opcode]
          + (if n < 126 then [n + MaskBit(f)]
             else [(if n < 65536 then 126 else 127) + MaskBit(f)] + BigEndian(n, ExtendedSize(n)))
          + KeyOf(f)
      ensures header == Header(f)
    {
      var n := |f.payload|;
      assert LengthField(n)[1..] == BigEndian(n, ExtendedSize(n));
    }

    method Close()
      modifies this
      ensures State() == Closed(old(State()))
      ensures Orderly(old(State())) ==> Orderly(State())
    {
      if Orderly(State()) {
        CloseKeepsOrder(State());
      }
      if readyState == ReadyState.CLOSING || readyState == ReadyState.CLOSED {
        return;
      }
      readyState := ReadyState.CLOSING;
      ClosingBytes();
      txbuf := txbuf + [0x88, 0x80, 0x00, 0x00, 0x00, 0x00];
      sent := sent + [CLOSE_FRAME];
    }

    /** Handles every frame that has arrived as a whole, and takes it out of the buffer. */
    method DispatchBinary()
      modifies this
      ensures State() == Dispatch(old(State()))
      ensures Orderly(old(State())) ==> Orderly(State())
    {
      ghost var start := State();
      if Orderly(start) {
        DispatchKeepsOrder(start);
      }
      if isRxBad {
        return;
      }
      while true
        invariant !isRxBad && Dispatch(State()) == Dispatch(start)
        decreases |rxbuf|
      {
        ghost var now := State();
        if |rxbuf| < 2 {
          return;
        }
        var mask, n0 := rxbuf[1] >= 128, rxbuf[1] % 128;
        var headerSize := 2 + (if n0 == 126 then 2 else 0) + (if n0 == 127 then 8 else 0) + (if mask then 4 else 0);
        if |rxbuf| < headerSize {
          return;
        }
        var n, i := n0, 2;
        if n0 == 126 {
          n, i := Number(rxbuf[2..4]), 4;
        } else if n0 == 127 {
          n, i := Number(rxbuf[2..10]), 10;
          if n >= TOO_LONG {
            DispatchLong(now, mask, n0, headerSize, n);
            isRxBad := true;
            Close();
            return;
          }
        }
        HeaderIsParsed(rxbuf, mask, n0, headerSize, n, i);
        assert mask ==> |rxbuf[i..i + 4]| == 4;
        var maskingKey: Key := if mask then rxbuf[i..i + 4] else NO_KEY;
        if |rxbuf| < headerSize + n {
          return;
        }
        HandleFrame(mask, headerSize, n, maskingKey);
      }
    }

    /** A whole frame is at the front of the buffer. */
    method HandleFrame(mask: bool, headerSize: nat, n: nat, maskingKey: Key)
      requires !isRxBad && headerSize + n <= |rxbuf| && 2 <= headerSize && (!mask ==> maskingKey == NO_KEY)
      requires Parse(rxbuf).Whole? && Parse(rxbuf).size == headerSize + n
      requires Parse(rxbuf).frame.opcode == rxbuf[0] % 16 && Parse(rxbuf).frame.fin == (rxbuf[0] >= 128)
      requires Parse(rxbuf).frame.payload == Masked(rxbuf[headerSize..headerSize + n], maskingKey)
      modifies this
      ensures |rxbuf| < |old(rxbuf)| && !isRxBad && Dispatch(State()) == Dispatch(old(State()))
    {
      ghost var now, f := State(), Parse(rxbuf).frame;
      DispatchFirst(now, f, headerSize + n);
      var fin, opcode := rxbuf[0] >= 128, rxbuf[0] % 16;
      var rest := rxbuf[headerSize + n..];
      if opcode == TEXT_FRAME || opcode == BINARY_FRAME || opcode == CONTINUATION {
        var payload := Unmask(headerSize, n, mask, maskingKey);
        receivedData := receivedData + payload;
        if fin {
          delivered := delivered + [receivedData];
          receivedData := [];
        }
      } else if opcode == PING {
        var payload := Unmask(headerSize, n, mask, maskingKey);
        SendData(PONG, payload);
      } else if opcode == PONG {
      } else if opcode == CLOSE {
        Close();
      } else {
        Close();
      }
      rxbuf := rest;
      assert State() == Apply(now, f).(rx := rest);
    }

    method Unmask(headerSize: nat, n: nat, mask: bool, maskingKey: Key) returns (payload: Bytes)
      requires headerSize + n <= |rxbuf| && (!mask ==> maskingKey == NO_KEY)
      ensures payload == Masked(rxbuf[headerSize..headerSize + n], maskingKey)
    {
      payload := rxbuf[headerSize..headerSize + n];
      if mask {
        payload := MaskTail(payload, 0, maskingKey);
        assert rxbuf[headerSize..headerSize + n][0..] == rxbuf[headerSize..headerSize + n];
      } else {
        MaskedZero(payload);
      }
    }
  }
}
