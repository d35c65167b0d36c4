/** A whole compressed packet: header and data, as `nmxp_processCompressedData` reads
    them from the wire. */
module CompressedPacket {
  import opened Packets
  import opened Sequences
  import opened Words
  import opened Wrappers
  import opened Bundles
  import opened CompressedData
  import opened BundlePacking
  import opened Trim

  type Int24 = n: int | -0x80_0000 <= n < 0x80_0000

  datatype Header = Header(oldestSeqNo: Int32, packetType: Byte, seconds: Int32, ticks: Diff16,
                           instrId: Diff16, seqNo: Int32, rateAndChannel: Byte, x0: Int24)

  /** `Filler`, `BadLength` and `NoRoom` end the program; `UnknownChannel` returns a
      packet without contents. */
  datatype Outcome =
    | Filler
    | UnknownChannel(key: int)
    | BadLength
    | NoRoom
    | Decoded(packet: DataProcess)

  const HEADER_BYTES := 21
  const FILLER := 9

  const SAMPLE_RATES: seq<int> :=
    [0, 1, 2, 5, 10, 20, 40, 50, 80, 100, 125, 200, 250, 500, 1000, 25,
     120, 0, 0, 0, 0, 0, 0, 0, 0, 0, 0, 0, 0, 0, 0, 0]

  // ----- reading ------------------------------------------------------------

  /** A three-byte signed number: the fourth byte is taken to be zero, and 2^24 is
      subtracted when bit 23 is set. */
  function Signed24(b0: Byte, b1: Byte, b2: Byte): int {
    var n := b0 + 0x100 * b1 + 0x1_0000 * b2;
    if (n / 0x80_0000) % 2 == 1 then n - 0x100_0000 else n
  }

  function ReadHeader(b: seq<Byte>): Header
    requires |b| >= HEADER_BYTES
  {
    Header(Signed32(b[0], b[1], b[2], b[3]), b[4], Signed32(b[5], b[6], b[7], b[8]),
           Signed16(b[9], b[10]), Signed16(b[11], b[12]), Signed32(b[13], b[14], b[15], b[16]),
           b[17], Signed24(b[18], b[19], b[20]))
  }

  /** The value of bytes, the lowest first. */
  function Unsigned(b: seq<Byte>): int {
    if b == [] then 0 else b[0] + 256 * Unsigned(b[1..])
  }

  function Word(b0: int, b1: int, b2: int, b3: int): int {
    b0 + 256 * b1 + 65536 * b2 + 16777216 * b3
  }

  lemma UnsignedOf(b: seq<Byte>)
    ensures |b| == 2 ==> Unsigned(b) == Word(b[0], b[1], 0, 0)
    ensures |b| == 3 ==> Unsigned(b) == Word(b[0], b[1], b[2], 0)
    ensures |b| == 4 ==> Unsigned(b) == Word(b[0], b[1], b[2], b[3])
  {
    if 2 <= |b| <= 4 {
      assert Unsigned(b) == b[0] + 256 * Unsigned(b[1..]);
      assert Unsigned(b[1..]) == b[1] + 256 * Unsigned(b[1..][1..]);
      if |b| > 2 {
        assert Unsigned(b[1..][1..]) == b[2] + 256 * Unsigned(b[1..][1..][1..]);
      }
    }
  }

  /** Where each field of the header is, and that the lowest byte comes first. */
  lemma HeaderMeans(b: seq<Byte>)
    requires |b| >= 21
    ensures var h := ReadHeader(b);
      && SignedValue(h.oldestSeqNo, Unsigned(b[0..4]), 4294967296)
      && h.packetType == b[4]
      && SignedValue(h.seconds, Unsigned(b[5..9]), 4294967296)
      && SignedValue(h.ticks, Unsigned(b[9..11]), 65536)
      && SignedValue(h.instrId, Unsigned(b[11..13]), 65536)
      && SignedValue(h.seqNo, Unsigned(b[13..17]), 4294967296)
      && h.rateAndChannel == b[17]
      && SignedValue(h.x0, Unsigned(b[18..21]), 16777216)
  {
    hide SignedValue, Signed16, Signed24, Signed32, Unsigned;
    FourBytes(b[0..4]);
    FourBytes(b[5..9]);
    FourBytes(b[13..17]);
    TwoBytes(b[9..11]);
    TwoBytes(b[11..13]);
    ThreeBytes(b[18..21]);
  }

  lemma FourBytes(b: seq<Byte>)
    requires |b| == 4
    ensures SignedValue(Signed32(b[0], b[1], b[2], b[3]), Unsigned(b), 4294967296)
  {
    Signed32Means(b[0], b[1], b[2], b[3]);
    UnsignedOf(b);
    hide SignedValue, Signed32, Unsigned;
  }

  lemma TwoBytes(b: seq<Byte>)
    requires |b| == 2
    ensures SignedValue(Signed16(b[0], b[1]), Unsigned(b), 65536)
  {
    Signed16Means(b[0], b[1]);
    UnsignedOf(b);
    hide SignedValue, Signed16, Unsigned;
  }

  lemma ThreeBytes(b: seq<Byte>)
    requires |b| == 3
    ensures SignedValue(Signed24(b[0], b[1], b[2]), Unsigned(b), 16777216)
  {
    Signed24Means(b[0], b[1], b[2]);
    UnsignedOf(b);
    hide SignedValue, Signed24, Unsigned;
  }

  lemma Signed24Means(b0: Byte, b1: Byte, b2: Byte)
    ensures SignedValue(Signed24(b0, b1, b2), Word(b0, b1, b2, 0), 16777216)
  {
    var n := Word(b0, b1, b2, 0);
    assert 0 <= n < 0x100_0000;
    assert n / 0x80_0000 == if n < 0x80_0000 then 0 else 1;
    assert Signed24(b0, b1, b2) == if n < 0x80_0000 then n else n - 0x100_0000;
  }

  /** Instrument, data type 1 (time series), channel number. */
  function KeyOf(h: Header): int {
    h.instrId * 0x1_0000 + 0x100 + h.rateAndChannel % 8
  }

  function RateOf(h: Header): int {
    SAMPLE_RATES[h.rateAndChannel / 8]
  }

  function TimeOf(h: Header): real {
    h.seconds as real + h.ticks as real / 10000.0
  }

  function Contents(h: Header, data: seq<Byte>): DataProcess {
    DataProcess(KeyOf(h), h.packetType, h.x0, Xn(h.x0, data), h.oldestSeqNo, h.seqNo,
           TimeOf(h), RateOf(h), Samples(h.x0, data))
  }

  /** The data part of a message. A message that ends within the header has none. */
  function DataOf(buffer: seq<Byte>, length: nat): seq<Byte>
    requires length <= |buffer|
  {
    if length > HEADER_BYTES then buffer[HEADER_BYTES..length] else []
  }

  /** What a message at the start of the receive buffer means, given the keys of the
      subscribed channels. When the message ends within the header, the rest of the
      header is what lies behind it in the buffer. */
  function Meaning(buffer: seq<Byte>, length: nat, keys: set<int>): Outcome
    requires length <= |buffer| && HEADER_BYTES <= |buffer|
  {
    var h := ReadHeader(buffer);
    if h.packetType % 0x10 == FILLER then Filler
    else if KeyOf(h) !in keys then UnknownChannel(KeyOf(h))
    else
      match EndingOf(1, DataOf(buffer, length))
      case Truncated => BadLength
      case TooSmall => NoRoom
      case Complete => Decoded(Contents(h, DataOf(buffer, length)))
  }

  /** nmxp_processCompressedData */
  method ProcessCompressedData(buffer: seq<Byte>, length: nat, keys: set<int>) returns (r: Outcome)
    requires length <= |buffer| && HEADER_BYTES <= |buffer|
    ensures r == Meaning(buffer, length, keys)
  {
    var h := ReadHeader(buffer);
    if h.packetType % 0x10 == FILLER {
      return Filler;
    }
    var pKey := KeyOf(h);
    if pKey !in keys {
      return UnknownChannel(pKey);
    }
    var indata := DataOf(buffer, length);
    var ending, outdata, nout := UnpackData(indata, h.x0);
    match ending {
      case Truncated => return BadLength;
      case TooSmall => return NoRoom;
      case Complete =>
        var samples, xn := outdata[..nout], outdata[nout];
        BufferContents(outdata, nout, h.x0, indata);
        return Decoded(DataProcess(pKey, h.packetType, h.x0, xn, h.oldestSeqNo, h.seqNo,
                              TimeOf(h), RateOf(h), samples));
    }
  }

  lemma BufferContents(outdata: array<int>, nout: nat, x0: int, data: seq<Byte>)
    requires nout == |LiveDiffs(data)| < outdata.Length
    requires Holds(outdata, [x0] + RunningSums(x0, LiveDiffs(data)))
    ensures outdata[..nout] == Samples(x0, data) && outdata[nout] == Xn(x0, data)
  {
    EndsWithFinal(x0, LiveDiffs(data));
  }

  // ----- writing ------------------------------------------------------------

  function Bytes4(n: int): (b: seq<Byte>)
    ensures |b| == 4
  {
    [Low(n), Low(n / 0x100), Low(n / 0x1_0000), Low(n / 0x100_0000)]
  }

  function WriteHeader(h: Header): (b: seq<Byte>)
    ensures |b| == HEADER_BYTES
  {
    Bytes4(h.oldestSeqNo) + [h.packetType] + Bytes4(h.seconds)
    + [Low(h.ticks), Low(h.ticks / 0x100), Low(h.instrId), Low(h.instrId / 0x100)]
    + Bytes4(h.seqNo) + [h.rateAndChannel, Low(h.x0), Low(h.x0 / 0x100), Low(h.x0 / 0x1_0000)]
  }

  lemma Int24Bytes(n: Int24)
    ensures Signed24(Low(n), Low(n / 0x100), Low(n / 0x1_0000)) == n
  {
    var n1, low := n / 0x100, n % 0x100;
    var n2, mid := n1 / 0x100, n1 % 0x100;
    assert n == 0x1_0000 * n2 + (0x100 * mid + low);
    Quotient(n, 0x1_0000, n2, 0x100 * mid + low);
    if n2 < 0 {
      Quotient(n2, 0x100, -1, n2 + 0x100);
    } else {
      Quotient(n2, 0x100, 0, n2);
    }
    hide Low;
    assert Low(n) == low && Low(n1) == mid && Low(n2) == if n2 < 0 then n2 + 0x100 else n2 by {
      LowIsRemainder(n);
      LowIsRemainder(n1);
      LowIsRemainder(n2);
    }
  }

  lemma LowIsRemainder(n: int)
    ensures Low(n) == n % 0x100
  {
  }

  /** Quotient and remainder are unique. */
  lemma Quotient(n: int, d: int, q: int, r: int)
    requires d in {0x10, 0x100, 0x1_0000} && 0 <= r < d && n == d * q + r
    ensures n / d == q && n % d == r
  {
    if d == 0x10 {
      assert n == 0x10 * q + r;
    } else if d == 0x100 {
      assert n == 0x100 * q + r;
    } else {
      assert n == 0x1_0000 * q + r;
    }
  }

  lemma HeaderRoundTrip(h: Header, data: seq<Byte>)
    ensures ReadHeader(WriteHeader(h) + data) == h
  {
    Int32Bytes(h.oldestSeqNo);
    Int32Bytes(h.seconds);
    Int32Bytes(h.seqNo);
    Int16Bytes(h.ticks);
    Int16Bytes(h.instrId);
    Int24Bytes(h.x0);
    hide Signed32, Signed16, Signed24, Low;
  }

  // ----- time and rate ------------------------------------------------------

  /** Every time that is a whole number of ten-thousandths of a second is told by seconds
      and ticks, and comes back. */
  lemma TimeRoundTrip(h: Header, n: int)
    requires h.seconds == n / 10000 && h.ticks == n % 10000
    ensures TimeOf(h) * 10000.0 == n as real
  {
    assert n == 10000 * (n / 10000) + n % 10000;
    assert TimeOf(h) * 10000.0 == h.seconds as real * 10000.0 + h.ticks as real;
  }

  /** So times are in the order of seconds, and then of ticks. */
  lemma TimeOrder(g: Header, h: Header)
    requires 0 <= g.ticks < 10000 && 0 <= h.ticks < 10000
    ensures TimeOf(g) < TimeOf(h) <==> g.seconds < h.seconds || (g.seconds == h.seconds && g.ticks < h.ticks)
  {
    var m, n := 10000 * g.seconds + g.ticks, 10000 * h.seconds + h.ticks;
    Quotients(g.seconds, g.ticks);
    Quotients(h.seconds, h.ticks);
    TimeRoundTrip(g, m);
    TimeRoundTrip(h, n);
    hide TimeOf;
    assert TimeOf(g) < TimeOf(h) <==> m as real < n as real;
  }

  lemma Quotients(seconds: int, ticks: int)
    requires 0 <= ticks < 10000
    ensures (10000 * seconds + ticks) / 10000 == seconds && (10000 * seconds + ticks) % 10000 == ticks
  {
  }

  /** The code of a sampling rate; every rate has one code. */
  function CodeOfRate(rate: int): Option<nat> {
    match rate
    case 1 => Some(1)
    case 2 => Some(2)
    case 5 => Some(3)
    case 10 => Some(4)
    case 20 => Some(5)
    case 25 => Some(15)
    case 40 => Some(6)
    case 50 => Some(7)
    case 80 => Some(8)
    case 100 => Some(9)
    case 120 => Some(16)
    case 125 => Some(10)
    case 200 => Some(11)
    case 250 => Some(12)
    case 500 => Some(13)
    case 1000 => Some(14)
    case _ => None
  }

  /** A packet has a rate just when its five high bits are the code of that rate; a packet
      without a known code has rate 0. */
  lemma RateRoundTrip(h: Header, rate: int)
    requires rate != 0
    ensures RateOf(h) == rate <==> CodeOfRate(rate) == Some(h.rateAndChannel / 8)
  {
  }

  /** The key of a packet says time series, and gives instrument and channel back. */
  lemma KeyParts(h: Header)
    ensures (KeyOf(h) / 0x100) % 0x100 == 1
    ensures KeyOf(h) % 0x10 == h.rateAndChannel % 8
    ensures KeyOf(h) / 0x1_0000 == h.instrId
  {
    var c := h.rateAndChannel % 8;
    Quotient(KeyOf(h), 0x100, h.instrId * 0x100 + 1, c);
    Quotient(h.instrId * 0x100 + 1, 0x100, h.instrId, 1);
    Quotient(KeyOf(h), 0x10, h.instrId * 0x1000 + 0x10, c);
    Quotient(KeyOf(h), 0x1_0000, h.instrId, 0x100 + c);
  }

  /** The packet that carries a waveform: its x0 starts it, its differences follow. */
  function WritePacket(h: Header, rest: seq<Int32>): seq<Byte> {
    WriteHeader(h) + Pack(Differences(h.x0, rest))
  }

  /** What is written to the wire is decoded, header and waveform, for every header of a
      subscribed channel that is not a filler, just when the samples fit the output
      buffer. Up to 4080 samples always do. */
  lemma PacketRoundTrip(h: Header, rest: seq<Int32>, behind: seq<Byte>, keys: set<int>)
    ensures Meaning(WritePacket(h, rest) + behind, |WritePacket(h, rest)|, keys) ==
            if h.packetType % 16 == 9 then Filler
            else if KeyOf(h) !in keys then UnknownChannel(KeyOf(h))
            else if !Fits(Chunks(Widths(Differences(h.x0, rest))), 1) then NoRoom
            else Decoded(DataProcess(KeyOf(h), h.packetType, h.x0, ([h.x0 as int] + rest)[|rest|],
                                     h.oldestSeqNo, h.seqNo, TimeOf(h), RateOf(h),
                                     ([h.x0 as int] + rest)[..|rest|]))
    ensures |rest| <= 4080 ==> Fits(Chunks(Widths(Differences(h.x0, rest))), 1)
    ensures |rest| > 4095 ==> !Fits(Chunks(Widths(Differences(h.x0, rest))), 1)
  {
    var data := Pack(Differences(h.x0, rest));
    Assoc(WriteHeader(h), data, behind);
    MeaningOfData(h, data, behind, keys);
    PackedEnding(Chunks(Widths(Differences(h.x0, rest))), 1);
    WaveformRoundTrip(h.x0, rest);
    WaveformFits(h.x0, rest);
    hide Differences, Samples, Xn, WriteHeader, EndingOf, Fits, Chunks, Widths, PackAll, KeyOf, TimeOf, RateOf,
         Meaning;
  }

  lemma MeaningOfData(h: Header, data: seq<Byte>, behind: seq<Byte>, keys: set<int>)
    ensures Meaning(WriteHeader(h) + (data + behind), HEADER_BYTES + |data|, keys) ==
            if h.packetType % 0x10 == FILLER then Filler
            else if KeyOf(h) !in keys then UnknownChannel(KeyOf(h))
            else
              match EndingOf(1, data)
              case Truncated => BadLength
              case TooSmall => NoRoom
              case Complete => Decoded(Contents(h, data))
  {
    HeaderRoundTrip(h, data + behind);
    hide ReadHeader, WriteHeader, EndingOf, KeyOf, Contents;
    assert DataOf(WriteHeader(h) + (data + behind), HEADER_BYTES + |data|) == data;
  }

  lemma WaveformFits(x0: Int32, rest: seq<Int32>)
    ensures |rest| <= 4080 ==> Fits(Chunks(Widths(Differences(x0, rest))), 1)
    ensures |rest| > 4095 ==> !Fits(Chunks(Widths(Differences(x0, rest))), 1)
  {
    RoomForSamples(Differences(x0, rest));
    AsManyDifferences(x0, rest);
  }

  /** The waveform on the wire: the samples of the packet, and the one after the last. */
  function Waveform(x0: int, data: seq<Byte>): seq<int> {
    [x0] + RunningSums(x0, LiveDiffs(data))
  }

  lemma SamplesAndXn(x0: int, data: seq<Byte>)
    ensures Samples(x0, data) + [Xn(x0, data)] == Waveform(x0, data) && Waveform(x0, data)[0] == x0
  {
    var diffs := LiveDiffs(data);
    SumsLength(x0, diffs);
    hide RunningSums, LiveDiffs;
    var w := Waveform(x0, data);
    assert w[|diffs|] == Final(x0, diffs) && w[..|diffs|] + [w[|diffs|]] == w;
  }

  /** A decoded packet that is then trimmed still carries a stretch of the waveform that
      came over the wire: x0 is its first sample, and xn the one after its last. */
  lemma DecodedThenTrimmed(h: Header, data: seq<Byte>, start: real, end: real, bitmap: bv8)
    requires RateOf(h) > 0
    ensures var (ret, d) := Trimmed(Contents(h, data), start, end, bitmap);
      ret == 1 && d.samples != [] ==>
        && d.x0 == d.samples[0]
        && exists f, t :: 0 <= f < t <= |Waveform(h.x0, data)| && d.samples + [d.xn] == Waveform(h.x0, data)[f..t]
  {
    var p := Contents(h, data);
    SamplesAndXn(h.x0, data);
    TrimKeepsWaveform(p, start, end, bitmap);
    assert p.samples == Samples(h.x0, data) && p.xn == Xn(h.x0, data) && p.x0 == h.x0 && p.sampRate == RateOf(h);
    hide Waveform, Samples, Xn, RateOf, Contents;
    var (ret, d) := Trimmed(p, start, end, bitmap);
    if ret == 1 && d.samples != [] {
      var f, t := FirstToRemove(p, start, end, bitmap), |p.samples| - LastToRemove(p, end, bitmap) + 1;
      StretchLeft(p, start, end, bitmap);
      hide FirstToRemove, LastToRemove, Trimmed;
      assert p.samples[0] == (p.samples + [p.xn])[0];
      assert d.samples + [d.xn] == Waveform(h.x0, data)[f..t];
    }
  }

  lemma StretchLeft(p: DataProcess, start: real, end: real, bitmap: bv8)
    requires p.sampRate > 0 && Trimmed(p, start, end, bitmap).0 == 1 && Trimmed(p, start, end, bitmap).1.samples != []
    ensures FirstToRemove(p, start, end, bitmap) + LastToRemove(p, end, bitmap) < |p.samples|
  {
    hide FirstToRemove, LastToRemove;
  }

  /** A message without a data part, cut off within its header or right behind it, is a
      packet without samples, the x0 of which is its xn as well. */
  lemma ShortMessage(buffer: seq<Byte>, length: nat, keys: set<int>)
    requires length <= 21 <= |buffer|
    ensures var r := Meaning(buffer, length, keys);
      && (r.Filler? || r.UnknownChannel? || r.Decoded?)
      && (r.Decoded? ==> r.packet.samples == [] && r.packet.xn == r.packet.x0)
  {
    assert LiveDiffs([]) == [] && EndingOf(1, []) == Complete;
    hide ReadHeader, LiveDiffs, EndingOf;
  }
}
