/** `nmxp_receiveData`: from the wire to the packet. */
module DataReceiver {
  import opened Packets
  import opened Words
  import opened Wrappers
  import opened Framing
  import opened Receiving
  import opened BundlePacking
  import opened CompressedPacket

  const COMPRESSED: Int32 := 1
  const BUFFER_LENGTH := 4092 * 4

  lemma DeliveredFits(stream: seq<Byte>)
    ensures Read(stream, BUFFER_LENGTH).0.Delivered? ==> |Read(stream, BUFFER_LENGTH).0.m.body| <= BUFFER_LENGTH
  {
    hide Field;
  }

  /** The receive buffer, cleared before the message is put into it. */
  function Filled(body: seq<Byte>): seq<Byte>
    requires |body| <= BUFFER_LENGTH
  {
    body + seq(BUFFER_LENGTH - |body|, _ => 0)
  }

  /** What a stream brings: None when there is no message or no compressed packet in it. */
  function Brings(stream: seq<Byte>, keys: set<int>): Option<Outcome> {
    DeliveredFits(stream);
    match Read(stream, BUFFER_LENGTH).0
    case Delivered(m) =>
      if m.kind == COMPRESSED then Some(Meaning(Filled(m.body), |m.body|, keys)) else None
    case _ => None
  }

  /** nmxp_receiveData, for the messages that carry compressed packets. */
  method ReceiveData(sock: Socket, timeoutsec: nat, keys: set<int>) returns (pd: Option<Outcome>, recvErrno: int)
    requires sock.Valid()
    modifies sock
    ensures sock.Valid()
    ensures pd == if recvErrno == 0 then Brings(old(sock.incoming), keys) else None
    ensures sock.reliable ==> recvErrno in {0, EWOULDBLOCK, END_OF_STREAM}
  {
    ghost var stream := sock.incoming;
    DeliveredFits(stream);
    var ok, m;
    ghost var read;
    ok, m, recvErrno, read := ReceiveMessage(sock, BUFFER_LENGTH, timeoutsec);
    hide Read, Meaning;
    pd := None;
    if ok && m.kind == COMPRESSED {
      var r := ProcessCompressedData(Filled(m.body), |m.body|, keys);
      pd := Some(r);
    }
  }

  /** Header and waveform, sent in a message, come back as a packet just when the message
      fits the receive buffer, the packet is no filler, its channel is subscribed, and the
      samples fit the output buffer. */
  lemma FromWireToPacket(h: Header, rest: seq<Int32>, more: seq<Byte>, keys: set<int>)
    requires |WritePacket(h, rest)| < 0x8000_0000
    ensures |WritePacket(h, rest)| == 21 + 17 * |Chunks(Widths(Differences(h.x0, rest)))|
    ensures Brings(Encode(Message(1, WritePacket(h, rest))) + more, keys) ==
            if |WritePacket(h, rest)| > 16368 then None
            else if h.packetType % 16 == 9 then Some(Filler)
            else if KeyOf(h) !in keys then Some(UnknownChannel(KeyOf(h)))
            else if !Fits(Chunks(Widths(Differences(h.x0, rest))), 1) then Some(NoRoom)
            else Some(Decoded(DataProcess(KeyOf(h), h.packetType, h.x0, ([h.x0 as int] + rest)[|rest|],
                                          h.oldestSeqNo, h.seqNo, TimeOf(h), RateOf(h),
                                          ([h.x0 as int] + rest)[..|rest|])))
  {
    var bytes := WritePacket(h, rest);
    PackingRoundTrip(Chunks(Widths(Differences(h.x0, rest))));
    WrittenSize(h, rest);
    if |bytes| <= BUFFER_LENGTH {
      PacketRoundTrip(h, rest, seq(BUFFER_LENGTH - |bytes|, _ => 0), keys);
      Carried(bytes, more, keys);
    } else {
      TooLongToCarry(bytes, more, keys);
    }
  }

  lemma WrittenSize(h: Header, rest: seq<Int32>)
    ensures |WritePacket(h, rest)| == CompressedPacket.HEADER_BYTES + |PackAll(Chunks(Widths(Differences(h.x0, rest))))|
  {
    hide Chunks, Widths, Differences, PackAll;
  }

  lemma Carried(bytes: Body, more: seq<Byte>, keys: set<int>)
    requires CompressedPacket.HEADER_BYTES <= |bytes| <= BUFFER_LENGTH
    ensures Brings(Encode(Message(COMPRESSED, bytes)) + more, keys) == Some(Meaning(Filled(bytes), |bytes|, keys))
  {
    MessageRoundTrip(Message(COMPRESSED, bytes), more, BUFFER_LENGTH);
    hide Read, Encode, Meaning, Filled;
  }

  lemma TooLongToCarry(bytes: Body, more: seq<Byte>, keys: set<int>)
    requires |bytes| > BUFFER_LENGTH
    ensures Brings(Encode(Message(COMPRESSED, bytes)) + more, keys) == None
  {
    LongMessage(Message(COMPRESSED, bytes), more, BUFFER_LENGTH);
    hide Read, Encode, Meaning, Filled;
  }
}
