/** The peer wire codec of message/message.go: the length-prefixed frames of the
    "peer messages" section of BEP 3. A frame is a 4-byte big-endian length, then (when the
    length is not zero) one id byte and length-1 payload bytes; a zero length is the keep-alive. */
module Wire {
  import opened Wrappers
  import opened Binary
  import opened Net

  const MsgChoke: byte := 0
  const MsgUnchoke: byte := 1
  const MsgInterested: byte := 2
  const MsgNotInterested: byte := 3
  const MsgHave: byte := 4
  const MsgBitField: byte := 5
  const MsgRequest: byte := 6
  const MsgPiece: byte := 7
  const MsgCancel: byte := 8

  /** A non-keep-alive message; the keep-alive is the absent message (a nil *Message in Go). */
  datatype Message = Message(id: byte, payload: seq<byte>)

  /** The longest payload whose frame length, 4 + 1 + payload, still fits a uint32. */
  const MaxPayload: int := TwoTo32 - 6

  predicate Framable(m: Option<Message>)
  {
    m.None? || |m.value.payload| <= MaxPayload
  }

  /** Message.Serialize. The length and the buffer size are uint32 values in the source, so
      they wrap around; None stands for the runtime panic of a buffer too short for the
      header (only possible when the payload is longer than MaxPayload). */
  function Serialize(m: Option<Message>): (r: Option<seq<byte>>)
    ensures m.None? ==> r == Some([0, 0, 0, 0])
    ensures Framable(m) && m.Some? ==>
              r.Some? && |r.value| == 5 + |m.value.payload| &&
              Uint32(r.value[..4]) == |m.value.payload| + 1 &&
              r.value[4] == m.value.id && r.value[5..] == m.value.payload
    ensures m.Some? && r.Some? ==>
              5 <= |r.value| && Uint32(r.value[..4]) == |r.value| - 4 &&
              r.value[4] == m.value.id && r.value[5..] <= m.value.payload
    ensures r.None? ==> !Framable(m)
  {
    match m
    case None => Some([0, 0, 0, 0])
    case Some(msg) =>
      var length := (|msg.payload| + 1) % TwoTo32;
      var size := (4 + length) % TwoTo32;
      if size < 5 then None
      else
        assert size == 4 + length;
        Uint32OfPutUint32(length);
        Some(PutUint32(length) + [msg.id] + msg.payload[..size - 5])
  }

  /** The frame of a message with id `t` and no payload (message.New). */
  function New(t: byte): (r: seq<byte>)
    ensures r == [0, 0, 0, 1, t]
  {
    Serialize(Some(Message(t, []))).value
  }

  /** The frames of `ms`, one after the other. */
  function Frames(ms: seq<Option<Message>>): (s: seq<byte>)
    requires forall i :: 0 <= i < |ms| ==> Framable(ms[i])
  {
    if ms == [] then [] else Serialize(ms[0]).value + Frames(ms[1..])
  }

  /** What one ReadMessage call makes of the bytes `s`: the message (None for a
      keep-alive) and the number of bytes the frame takes, or the short-read error. */
  datatype Decoded = Decoded(msg: Option<Message>, used: nat)

  function Decode(s: seq<byte>): (r: Result<Decoded, ReadError>)
    ensures r.Ok? ==> 4 <= r.value.used <= |s|
    ensures r.Err? <==> |s| < 4 || |s| - 4 < Uint32(s[..4])
    ensures r.Err? ==> (r.error == EOF <==> |s| == 0 || |s| == 4)
    ensures r.Ok? ==> (r.value.msg.None? <==> Uint32(s[..4]) == 0)
    ensures r.Ok? && r.value.msg.None? ==> r.value.used == 4
    ensures r.Ok? && r.value.msg.Some? ==>
              r.value.used == 4 + Uint32(s[..4]) &&
              r.value.msg.value == Message(s[4], s[5..r.value.used])
  {
    if |s| < 4 then Err(if |s| == 0 then EOF else UnexpectedEOF)
    else
      var length := Uint32(s[..4]);
      if length == 0 then Ok(Decoded(None, 4))
      else if |s| - 4 < length then Err(if |s| == 4 then EOF else UnexpectedEOF)
      else Ok(Decoded(Some(Message(s[4], s[5..4 + length])), 4 + length))
  }

  /** The outcome of one ReadMessage call on a connection whose unread input is `s`, and
      the input left afterwards: a failed read consumes everything that was left. */
  datatype Received = Received(result: Result<Option<Message>, ReadError>, rest: seq<byte>)

  function Receive(s: seq<byte>): (r: Received)
    ensures r.result.Ok? ==> |r.rest| + 4 <= |s| && s == s[..|s| - |r.rest|] + r.rest
    ensures r.result.Err? ==> r.rest == []
  {
    match Decode(s)
    case Ok(d) => Received(Ok(d.msg), s[d.used..])
    case Err(e) => Received(Err(e), [])
  }

  /** message.ReadMessage: reads the 4-byte length, then the rest of the frame. */
  method ReadMessage(r: Conn) returns (m: Result<Option<Message>, ReadError>)
    modifies r
    ensures r.writes == old(r.writes) && r.sent == old(r.sent)
    ensures Received(m, r.input) == Receive(old(r.input))
  {
    ghost var s := r.input;
    var lengthBuf, err := r.ReadFull(4);
    if err.Some? {
      return Err(err.value);
    }
    var length := Uint32(lengthBuf);
    if length == 0 {
      return Ok(None);
    }
    var messageBuf, err2 := r.ReadFull(length);
    if err2.Some? {
      return Err(err2.value);
    }
    assert messageBuf == s[4..4 + length] && r.input == s[4 + length..];
    assert messageBuf[1..] == s[5..4 + length];
    return Ok(Some(Message(messageBuf[0], messageBuf[1..])));
  }

  /** message.FormatRequest: a request message whose payload is the piece index, the
      offset in the piece and the block length, each converted to uint32 (which keeps the
      value modulo 2^32) and written big-endian. */
  function FormatRequest(index: int, begin: int, length: int): (m: Message)
    ensures m.id == MsgRequest && |m.payload| == 12
    ensures Uint32(m.payload[0..4]) == index % TwoTo32
    ensures Uint32(m.payload[4..8]) == begin % TwoTo32
    ensures Uint32(m.payload[8..12]) == length % TwoTo32
  {
    var payload := PutUint32(index % TwoTo32) + PutUint32(begin % TwoTo32) + PutUint32(length % TwoTo32);
    Uint32OfPutUint32(index % TwoTo32);
    Uint32OfPutUint32(begin % TwoTo32);
    Uint32OfPutUint32(length % TwoTo32);
    assert payload[0..4] == PutUint32(index % TwoTo32);
    assert payload[4..8] == PutUint32(begin % TwoTo32);
    assert payload[8..12] == PutUint32(length % TwoTo32);
    Message(MsgRequest, payload)
  }

  /** A request whose arguments are in uint32 range carries them unchanged. */
  lemma RequestRoundTrip(index: int, begin: int, length: int)
    requires 0 <= index < TwoTo32 && 0 <= begin < TwoTo32 && 0 <= length < TwoTo32
    ensures var p := FormatRequest(index, begin, length).payload;
            Uint32(p[0..4]) == index && Uint32(p[4..8]) == begin && Uint32(p[8..12]) == length
  {
  }

  /** Decoding the frame of a message gives the message back and consumes exactly its frame. */
  lemma DecodeSerialize(m: Option<Message>, rest: seq<byte>)
    requires Framable(m)
    ensures Decode(Serialize(m).value + rest) == Ok(Decoded(m, |Serialize(m).value|))
  {
    var f := Serialize(m).value;
    var s := f + rest;
    assert s[..4] == f[..4];
    if m.None? {
      assert Uint32(s[..4]) == 0;
    } else {
      assert s[5..|f|] == f[5..];
    }
  }

  /** Every frame the decoder accepts is the frame of the message it yields (when that
      message can be framed at all). */
  lemma SerializeDecode(s: seq<byte>)
    requires Decode(s).Ok? && Framable(Decode(s).value.msg)
    ensures Serialize(Decode(s).value.msg) == Some(s[..Decode(s).value.used])
  {
    var d := Decode(s).value;
    PutUint32OfUint32(s[..4]);
    if d.msg.None? {
      assert s[..4] == PutUint32(0);
    } else {
      var f := Serialize(d.msg).value;
      assert f[..4] == s[..4] by {
        PutUint32OfUint32(f[..4]);
      }
      assert f == f[..4] + [f[4]] + f[5..];
      assert s[..d.used] == s[..4] + [s[4]] + s[5..d.used];
    }
  }

  /** ReadMessage on a connection whose input starts with the frame of `m` returns `m`
      and leaves the input just after that frame. */
  lemma ReceiveFrame(m: Option<Message>, rest: seq<byte>)
    requires Framable(m)
    ensures Receive(Serialize(m).value + rest) == Received(Ok(m), rest)
  {
    DecodeSerialize(m, rest);
    var f := Serialize(m).value;
    assert (f + rest)[|f|..] == rest;
  }

  /** A zero length prefix is the keep-alive, whatever follows, and takes only 4 bytes. */
  lemma ReceiveKeepAlive(rest: seq<byte>)
    ensures Receive([0, 0, 0, 0] + rest) == Received(Ok(None), rest)
  {
    ReceiveFrame(None, rest);
  }
}
