/** Messages on a byte stream: `nmxp_sendMessage` on one side, `nmxp_receiveMessage` on
    the other, over a socket that cuts the stream into pieces as it likes. */
module Framing {
  import opened Words

  const SIGNATURE: Int32 := 0x7abc_de0f
  const HEADER_BYTES := 12

  type Body = b: seq<Byte> | |b| < 0x8000_0000

  datatype Message = Message(kind: Int32, body: Body)

  // ----- the wire -----------------------------------------------------------

  /** Four bytes in network order, the highest first. */
  function NetworkBytes(n: Int32): (b: seq<Byte>)
    ensures |b| == 4
  {
    [Low(n / 0x100_0000), Low(n / 0x1_0000), Low(n / 0x100), Low(n)]
  }

  function FromNetwork(b: seq<Byte>): Int32
    requires |b| == 4
  {
    Signed32(b[3], b[2], b[1], b[0])
  }

  lemma NetworkRoundTrip(n: Int32)
    ensures FromNetwork(NetworkBytes(n)) == n
  {
    Int32Bytes(n);
  }

  function Header(kind: Int32, length: Int32): (b: seq<Byte>)
    ensures |b| == HEADER_BYTES
  {
    NetworkBytes(SIGNATURE) + NetworkBytes(kind) + NetworkBytes(length)
  }

  function Encode(m: Message): seq<Byte>
  {
    Header(m.kind, |m.body|) + m.body
  }

  // ----- reading a whole stream ---------------------------------------------

  /** What one receive makes of a stream. `Cut` is a stream that ends too early. */
  datatype Reading = Delivered(m: Message) | BadSignature | TooLong | Cut

  function Field(stream: seq<Byte>, i: nat): Int32
    requires i + 4 <= |stream|
  {
    FromNetwork(stream[i..i + 4])
  }

  /** The reading of the first message, and what it leaves of the stream. A header of
      type 0 is taken as an empty message, whatever else is in it. */
  function Read(stream: seq<Byte>, bufferLength: nat): (Reading, seq<Byte>) {
    if |stream| < HEADER_BYTES then (Cut, [])
    else
      var signature, kind, length := Field(stream, 0), Field(stream, 4), Field(stream, 8);
      var rest := stream[HEADER_BYTES..];
      if kind == 0 then (Delivered(Message(0, [])), rest)
      else if signature != SIGNATURE then (BadSignature, rest)
      else if length > bufferLength then (TooLong, rest)
      else if length <= 0 then (Delivered(Message(kind, [])), rest)
      else if |rest| < length then (Cut, [])
      else (Delivered(Message(kind, rest[..length])), rest[length..])
  }

  lemma HeaderFields(kind: Int32, length: Int32, rest: seq<Byte>)
    ensures var stream := Header(kind, length) + rest;
      && Field(stream, 0) == SIGNATURE && Field(stream, 4) == kind && Field(stream, 8) == length
      && stream[HEADER_BYTES..] == rest
  {
    var stream := Header(kind, length) + rest;
    assert stream[0..4] == NetworkBytes(SIGNATURE);
    assert stream[4..8] == NetworkBytes(kind);
    assert stream[8..12] == NetworkBytes(length);
    NetworkRoundTrip(SIGNATURE);
    NetworkRoundTrip(kind);
    NetworkRoundTrip(length);
  }

  /** The first four bytes of every message. */
  lemma SignatureBytes(m: Message)
    ensures Encode(m)[..4] == [0x7a, 0xbc, 0xde, 0x0f]
    ensures Encode(m)[4..8] == NetworkBytes(m.kind) && Encode(m)[8..12] == NetworkBytes(|m.body|)
    ensures Encode(m)[12..] == m.body
  {
    assert NetworkBytes(SIGNATURE) == [0x7a, 0xbc, 0xde, 0x0f];
    hide NetworkBytes;
  }

  /** The highest byte of a number comes first. */
  lemma HighestFirst(n: Int32)
    ensures var b := NetworkBytes(n);
      var b0, b1, b2, b3: int := b[0], b[1], b[2], b[3];
      n == (if b0 < 128 then b0 else b0 - 256) * 16777216 + b1 * 65536 + b2 * 256 + b3
  {
    NetworkRoundTrip(n);
    hide NetworkBytes;
  }

  /** What is made of any header: of a good signature and a bad one, and of lengths that are
      negative, too long, or longer than the stream. */
  lemma ReadAnyHeader(signature: Int32, kind: Int32, length: Int32, rest: seq<Byte>, bufferLength: nat)
    ensures Read(NetworkBytes(signature) + NetworkBytes(kind) + NetworkBytes(length) + rest, bufferLength) ==
            if kind == 0 then (Delivered(Message(0, [])), rest)
            else if signature != 0x7abcde0f then (BadSignature, rest)
            else if length > bufferLength then (TooLong, rest)
            else if length <= 0 then (Delivered(Message(kind, [])), rest)
            else if |rest| < length then (Cut, [])
            else (Delivered(Message(kind, rest[..length])), rest[length..])
  {
    var stream := NetworkBytes(signature) + NetworkBytes(kind) + NetworkBytes(length) + rest;
    assert stream[0..4] == NetworkBytes(signature) && stream[4..8] == NetworkBytes(kind);
    assert stream[8..12] == NetworkBytes(length) && stream[12..] == rest;
    NetworkRoundTrip(signature);
    NetworkRoundTrip(kind);
    NetworkRoundTrip(length);
    hide NetworkBytes, FromNetwork;
  }

  /** How many bytes the first message of a stream takes, as far as its header says. */
  function Extent(stream: seq<Byte>, bufferLength: nat): nat {
    if |stream| < HEADER_BYTES then HEADER_BYTES
    else
      var signature, kind, length := Field(stream, 0), Field(stream, 4), Field(stream, 8);
      if kind == 0 || signature != SIGNATURE || length > bufferLength || length <= 0 then HEADER_BYTES
      else HEADER_BYTES + length
  }

  /** Reading takes these bytes, or all there are. */
  lemma ReadTakesExtent(stream: seq<Byte>, bufferLength: nat)
    ensures Read(stream, bufferLength).1 ==
            if Extent(stream, bufferLength) <= |stream| then stream[Extent(stream, bufferLength)..] else []
    ensures Read(stream, bufferLength).0 == Cut <==> |stream| < Extent(stream, bufferLength)
    ensures Read(stream, bufferLength).0.Delivered? ==>
              Extent(stream, bufferLength) == HEADER_BYTES + |Read(stream, bufferLength).0.m.body|
  {
    hide Field;
  }

  predicate Receivable(m: Message, bufferLength: nat) {
    m.body == [] || (m.kind != 0 && |m.body| <= bufferLength)
  }

  /** A message comes back, and the stream is left at the next one, exactly when it has
      no body, or has a type other than 0 and a body that fits the buffer. */
  lemma MessageRoundTrip(m: Message, rest: seq<Byte>, bufferLength: nat)
    ensures Read(Encode(m) + rest, bufferLength) == (Delivered(m), rest) <==>
            Receivable(m, bufferLength)
  {
    assert Encode(m) + rest == Header(m.kind, |m.body|) + (m.body + rest);
    HeaderFields(m.kind, |m.body|, m.body + rest);
    assert (m.body + rest)[..|m.body|] == m.body && (m.body + rest)[|m.body|..] == rest;
    hide Header, Field;
  }

  /** A body that does not fit the buffer is refused. */
  lemma LongMessage(m: Message, rest: seq<Byte>, bufferLength: nat)
    requires m.kind != 0 && |m.body| > bufferLength
    ensures Read(Encode(m) + rest, bufferLength).0 == TooLong
  {
    assert Encode(m) + rest == Header(m.kind, |m.body|) + (m.body + rest);
    HeaderFields(m.kind, |m.body|, m.body + rest);
    hide Header, Field;
  }

  function EncodeAll(ms: seq<Message>): seq<Byte> {
    if ms == [] then [] else Encode(ms[0]) + EncodeAll(ms[1..])
  }

  // ----- the sender ---------------------------------------------------------

  /** The other end. send() may take only some of the bytes, or fail; on a reliable wire
      it takes all. */
  class Wire {
    var sent: seq<Byte>
    const reliable: bool

    constructor (reliable: bool)
      ensures sent == [] && this.reliable == reliable
    {
      this.sent, this.reliable := [], reliable;
    }

    method Send(bytes: seq<Byte>) returns (count: int)
      modifies this
      ensures -1 <= count <= |bytes| && (reliable ==> count == |bytes|)
      ensures sent == old(sent) + bytes[..if count < 0 then 0 else count]
    {
      count :| -1 <= count <= |bytes| && (reliable ==> count == |bytes|);
      sent := sent + bytes[..if count < 0 then 0 else count];
    }
  }

  /** nmxp_send_ctrl: the first k bytes are on the wire, and the call succeeds just when
      these are all. (To send nothing can still fail.) */
  method SendCtrl(wire: Wire, bytes: seq<Byte>) returns (ok: bool, ghost k: nat)
    modifies wire
    ensures k <= |bytes| && wire.sent == old(wire.sent) + bytes[..k]
    ensures bytes != [] ==> (ok <==> k == |bytes|)
    ensures ok ==> k == |bytes|
    ensures wire.reliable ==> ok
  {
    var sendCount := wire.Send(bytes);
    ok, k := sendCount == |bytes|, if sendCount < 0 then 0 else sendCount;
  }

  /** nmxp_sendMessage: the first k bytes of the encoded message are on the wire, and the
      call succeeds just when these are all. */
  method SendMessage(wire: Wire, m: Message) returns (ok: bool, ghost k: nat)
    modifies wire
    ensures k <= |Encode(m)| && wire.sent == old(wire.sent) + Encode(m)[..k]
    ensures ok <==> k == |Encode(m)|
    ensures wire.reliable ==> ok
  {
    ghost var before := wire.sent;
    var header := Header(m.kind, |m.body|);
    hide Header;
    ok, k := SendCtrl(wire, header);
    HeaderFirst(header, m.body, before, k);
    if ok && |m.body| > 0 {
      ghost var n;
      ok, n := SendCtrl(wire, m.body);
      BodyNext(header, m.body, before, n);
      k := HEADER_BYTES + n;
    }
  }

  lemma HeaderFirst(header: seq<Byte>, body: seq<Byte>, before: seq<Byte>, k: nat)
    requires k <= |header|
    ensures before + header[..k] == before + (header + body)[..k]
  {
    assert header[..k] == (header + body)[..k];
  }

  lemma BodyNext(header: seq<Byte>, body: seq<Byte>, before: seq<Byte>, n: nat)
    requires n <= |body|
    ensures before + header[..|header|] + body[..n] == before + (header + body)[..|header| + n]
  {
    assert header[..|header|] + body[..n] == (header + body)[..|header| + n];
    assert before + header[..|header|] + body[..n] == before + (header[..|header|] + body[..n]);
  }
}
