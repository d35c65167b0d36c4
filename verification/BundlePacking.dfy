/** The sender's side of the bundle format, and the round trip: whatever differences
    are packed, in whatever mixture of widths, unpack to the same differences. */
module BundlePacking {
  import opened Sequences
  import opened Words
  import opened Wrappers
  import opened Bundles
  import opened CompressedData

  type Diff8 = n: int | -0x80 <= n < 0x80
  type Diff16 = n: int | -0x8000 <= n < 0x8000

  /** A used group of a bundle. */
  datatype Group =
    | Four(a: Diff8, b: Diff8, c: Diff8, d: Diff8)
    | Two(v: Diff16, w: Diff16)
    | One(n: Int32)

  function Values(g: Group): seq<int> {
    match g
    case Four(a, b, c, d) => [a, b, c, d]
    case Two(v, w) => [v, w]
    case One(n) => [n]
  }

  function GroupCode(g: Group): nat {
    match g
    case Four(_, _, _, _) => 1
    case Two(_, _) => 2
    case One(_) => 3
  }

  function GroupBytes(g: Group): (b: seq<Byte>)
    ensures |b| == 4
  {
    match g
    case Four(a, b, c, d) => [Low(a), Low(b), Low(c), Low(d)]
    case Two(v, w) => [Low(v), Low(v / 0x100), Low(w), Low(w / 0x100)]
    case One(n) => [Low(n), Low(n / 0x100), Low(n / 0x1_0000), Low(n / 0x100_0000)]
  }

  lemma Int16Bytes(n: Diff16)
    ensures Signed16(Low(n), Low(n / 0x100)) == n
  {
  }

  lemma GroupRoundTrip(g: Group)
    ensures GroupDiffs(GroupCode(g), GroupBytes(g)) == Values(g)
  {
    match g
    case Four(_, _, _, _) =>
    case Two(v, w) => Int16Bytes(v); Int16Bytes(w);
    case One(n) => Int32Bytes(n);
  }

  // ----- a bundle -----------------------------------------------------------

  function CodeOf(gs: seq<Group>, i: nat): nat {
    if i < |gs| then GroupCode(gs[i]) else 0
  }

  function BytesOf(gs: seq<Group>, i: nat): (b: seq<Byte>)
    ensures |b| == 4
  {
    if i < |gs| then GroupBytes(gs[i]) else [0, 0, 0, 0]
  }

  /** A bundle of at most four groups; the unused ones come last. */
  function PackBundle(gs: seq<Group>): (b: seq<Byte>)
    requires |gs| <= 4
    ensures |b| == BUNDLE_BYTES
  {
    [64 * CodeOf(gs, 0) + 16 * CodeOf(gs, 1) + 4 * CodeOf(gs, 2) + CodeOf(gs, 3)]
    + BytesOf(gs, 0) + BytesOf(gs, 1) + BytesOf(gs, 2) + BytesOf(gs, 3)
  }

  function ValuesFrom(gs: seq<Group>, i: nat): seq<int>
    decreases |gs| - i
  {
    if i >= |gs| then [] else Values(gs[i]) + ValuesFrom(gs, i + 1)
  }

  lemma HeaderCodes(c0: nat, c1: nat, c2: nat, c3: nat)
    requires c0 < 4 && c1 < 4 && c2 < 4 && c3 < 4
    ensures var h := 64 * c0 + 16 * c1 + 4 * c2 + c3;
      Code(h, 0) == c0 && Code(h, 1) == c1 && Code(h, 2) == c2 && Code(h, 3) == c3
  {
    var h := 64 * c0 + 16 * c1 + 4 * c2 + c3;
    assert h / 64 == c0 && h / 16 == 4 * c0 + c1 && h / 4 == 16 * c0 + 4 * c1 + c2;
  }

  /** One header byte and four groups of four bytes. */
  lemma FourSlices(h: Byte, b0: seq<Byte>, b1: seq<Byte>, b2: seq<Byte>, b3: seq<Byte>)
    requires |b0| == |b1| == |b2| == |b3| == 4
    ensures var b := [h] + b0 + b1 + b2 + b3;
      |b| == 17 && b[0] == h && b[1..5] == b0 && b[5..9] == b1 && b[9..13] == b2 && b[13..17] == b3
  {
  }

  lemma PackedHeader(gs: seq<Group>, i: nat)
    requires |gs| <= 4 && i < 4
    ensures Code(PackBundle(gs)[0], i) == CodeOf(gs, i)
  {
    HeaderCodes(CodeOf(gs, 0), CodeOf(gs, 1), CodeOf(gs, 2), CodeOf(gs, 3));
    hide Code, CodeOf, BytesOf;
  }

  lemma PackedBytes(gs: seq<Group>, i: nat)
    requires |gs| <= 4 && i < 4
    ensures PackBundle(gs)[1 + 4 * i..5 + 4 * i] == BytesOf(gs, i)
  {
    FourSlices(PackBundle(gs)[0], BytesOf(gs, 0), BytesOf(gs, 1), BytesOf(gs, 2), BytesOf(gs, 3));
    hide CodeOf, BytesOf;
    assert i == 0 || i == 1 || i == 2 || i == 3;
  }

  lemma PackedGroup(gs: seq<Group>, i: nat)
    requires |gs| <= 4 && i < 4
    ensures GroupOf(PackBundle(gs), i) == GroupDiffs(CodeOf(gs, i), BytesOf(gs, i))
  {
    PackedHeader(gs, i);
    PackedBytes(gs, i);
    hide PackBundle, Code, CodeOf, BytesOf, GroupDiffs;
  }

  lemma {:induction false} PackedDiffs(gs: seq<Group>, i: nat)
    requires |gs| <= 4 && i <= 4
    ensures DiffsFrom(PackBundle(gs), i) == ValuesFrom(gs, i)
    decreases 4 - i
  {
    if i < 4 {
      PackedGroup(gs, i);
      PackedDiffs(gs, i + 1);
      hide PackBundle, CodeOf, GroupDiffs, GroupOf;
      PackedValues(gs, i);
    }
  }

  lemma PackedValues(gs: seq<Group>, i: nat)
    requires i < 4
    ensures GroupDiffs(CodeOf(gs, i), BytesOf(gs, i)) == if i < |gs| then Values(gs[i]) else []
  {
    if i < |gs| {
      GroupRoundTrip(gs[i]);
    }
  }

  /** A bundle with its unused groups last is never mistaken for the null bundle. */
  lemma NeverNull(gs: seq<Group>)
    requires |gs| <= 4
    ensures PackBundle(gs)[0] != NULL_BUNDLE
  {
  }

  lemma BundleRoundTrip(gs: seq<Group>)
    requires |gs| <= 4
    ensures BundleDiffs(PackBundle(gs)) == Some(ValuesFrom(gs, 0))
  {
    NeverNull(gs);
    PackedDiffs(gs, 0);
  }

  /** The null header is exactly that of two unused groups before a 16-bit and an 8-bit
      one: of a used group, that is, after an unused one. */
  lemma UnusedGroupsMustBeLast(h: Byte)
    ensures h == NULL_BUNDLE <==>
            Code(h, 0) == 0 && Code(h, 1) == 0 && Code(h, 2) == 2 && Code(h, 3) == 1
  {
    assert h / 16 == 4 * (h / 64) + h / 16 % 4;
    assert h / 4 == 4 * (h / 16) + h / 4 % 4;
    assert h == 4 * (h / 4) + h % 4;
  }

  type FourGroups = gs: seq<Group> | |gs| <= 4

  function PackAll(bundles: seq<FourGroups>): seq<Byte> {
    if bundles == [] then [] else PackBundle(bundles[0]) + PackAll(bundles[1..])
  }

  function AllValues(bundles: seq<FourGroups>): seq<int> {
    if bundles == [] then [] else ValuesFrom(bundles[0], 0) + AllValues(bundles[1..])
  }

  lemma FirstPacked(bundles: seq<FourGroups>)
    requires bundles != []
    ensures var data := PackAll(bundles);
      && |data| >= BUNDLE_BYTES && data[BUNDLE_BYTES..] == PackAll(bundles[1..])
      && BundleDiffs(data[..BUNDLE_BYTES]) == Some(ValuesFrom(bundles[0], 0))
  {
    BundleRoundTrip(bundles[0]);
    hide BundleDiffs, ValuesFrom, PackBundle;
    var data := PackAll(bundles);
    assert data[..BUNDLE_BYTES] == PackBundle(bundles[0]) && data[BUNDLE_BYTES..] == PackAll(bundles[1..]);
  }

  /** Round trip, for every way to spread differences over bundles and widths. */
  lemma {:induction false} PackingRoundTrip(bundles: seq<FourGroups>)
    ensures LiveDiffs(PackAll(bundles)) == AllValues(bundles)
    ensures |PackAll(bundles)| == BUNDLE_BYTES * |bundles|
  {
    if bundles != [] {
      FirstPacked(bundles);
      PackingRoundTrip(bundles[1..]);
      hide BundleDiffs, ValuesFrom, PackBundle;
    }
  }

  // ----- a packer, for any waveform -----------------------------------------

  /** Takes the narrowest width that holds the next differences. */
  function Widths(diffs: seq<Int32>): seq<Group> {
    if |diffs| >= 4 && forall i :: 0 <= i < 4 ==> -0x80 <= diffs[i] < 0x80 then
      [Four(diffs[0], diffs[1], diffs[2], diffs[3])] + Widths(diffs[4..])
    else if |diffs| >= 2 && forall i :: 0 <= i < 2 ==> -0x8000 <= diffs[i] < 0x8000 then
      [Two(diffs[0], diffs[1])] + Widths(diffs[2..])
    else if diffs != [] then
      [One(diffs[0])] + Widths(diffs[1..])
    else
      []
  }

  function Chunks(gs: seq<Group>): seq<FourGroups>
    decreases |gs|
  {
    if gs == [] then [] else if |gs| <= 4 then [gs] else [gs[..4]] + Chunks(gs[4..])
  }

  function Pack(diffs: seq<Int32>): seq<Byte> {
    PackAll(Chunks(Widths(diffs)))
  }

  lemma {:induction false} ValuesDrop(gs: seq<Group>, k: nat, i: nat)
    requires k <= |gs|
    ensures ValuesFrom(gs, k + i) == ValuesFrom(gs[k..], i)
    decreases |gs| - i
  {
    hide Values;
    if k + i < |gs| {
      assert gs[k..][i] == gs[k + i];
      ValuesDrop(gs, k, i + 1);
    }
  }

  lemma {:induction false} ValuesSplit(gs: seq<Group>, k: nat, i: nat)
    requires i <= k <= |gs|
    ensures ValuesFrom(gs, i) == ValuesFrom(gs[..k], i) + ValuesFrom(gs, k)
    decreases k - i
  {
    if i < k {
      ValuesSplit(gs, k, i + 1);
      hide Values;
      Assoc(Values(gs[i]), ValuesFrom(gs[..k], i + 1), ValuesFrom(gs, k));
    }
  }

  lemma {:induction false} ChunksKeepValues(gs: seq<Group>)
    ensures AllValues(Chunks(gs)) == ValuesFrom(gs, 0)
    decreases |gs|
  {
    hide Values;
    if |gs| > 4 {
      ChunksKeepValues(gs[4..]);
      ValuesSplit(gs, 4, 0);
      ValuesDrop(gs, 4, 0);
      assert AllValues([gs[..4]] + Chunks(gs[4..])) == ValuesFrom(gs[..4], 0) + AllValues(Chunks(gs[4..]));
    } else if gs != [] {
      assert AllValues([gs]) == ValuesFrom(gs, 0) + AllValues([]);
    }
  }

  lemma FirstGroup(g: Group, rest: seq<Group>)
    ensures ValuesFrom([g] + rest, 0) == Values(g) + ValuesFrom(rest, 0)
  {
    ValuesDrop([g] + rest, 1, 0);
    assert ([g] + rest)[1..] == rest;
  }

  /** The group that comes first, and how many differences it takes. */
  lemma FirstWidth(diffs: seq<Int32>) returns (g: Group, k: nat)
    requires diffs != []
    ensures 0 < k <= |diffs| && Values(g) == diffs[..k]
    ensures Widths(diffs) == [g] + Widths(diffs[k..])
  {
    if |diffs| >= 4 && forall i :: 0 <= i < 4 ==> -0x80 <= diffs[i] < 0x80 {
      g, k := Four(diffs[0], diffs[1], diffs[2], diffs[3]), 4;
    } else if |diffs| >= 2 && forall i :: 0 <= i < 2 ==> -0x8000 <= diffs[i] < 0x8000 {
      g, k := Two(diffs[0], diffs[1]), 2;
    } else {
      g, k := One(diffs[0]), 1;
    }
  }

  lemma {:induction false} WidthsKeepValues(diffs: seq<Int32>)
    ensures ValuesFrom(Widths(diffs), 0) == diffs
    decreases |diffs|
  {
    if diffs != [] {
      var g, k := FirstWidth(diffs);
      WidthsKeepValues(diffs[k..]);
      FirstGroup(g, Widths(diffs[k..]));
      hide Widths, Values, ValuesFrom;
      assert diffs == diffs[..k] + diffs[k..];
    }
  }

  /** Every list of 32-bit differences can be packed. */
  lemma PackRoundTrip(diffs: seq<Int32>)
    ensures LiveDiffs(Pack(diffs)) == diffs
  {
    PackingRoundTrip(Chunks(Widths(diffs)));
    ChunksKeepValues(Widths(diffs));
    WidthsKeepValues(diffs);
  }

  /** The differences a sender takes, in the arithmetic of the machine. */
  function Differences(x: Int32, samples: seq<Int32>): seq<Int32>
    decreases samples
  {
    if samples == [] then [] else [Wrap32(samples[0] - x)] + Differences(samples[0], samples[1..])
  }

  lemma {:induction false} AsManyDifferences(x: Int32, samples: seq<Int32>)
    ensures |Differences(x, samples)| == |samples|
    decreases samples
  {
    if samples != [] {
      AsManyDifferences(samples[0], samples[1..]);
    }
  }

  lemma WrapBack(x: Int32, y: Int32)
    ensures Wrap32(x + Wrap32(y - x)) == y
  {
  }

  lemma {:induction false} DifferencesUndone(x: Int32, samples: seq<Int32>)
    ensures RunningSums(x, Differences(x, samples)) == samples
    ensures Final(x, Differences(x, samples)) == if samples == [] then x else samples[|samples| - 1]
    decreases samples
  {
    if samples != [] {
      WrapBack(x, samples[0]);
      hide Wrap32;
      DifferencesUndone(samples[0], samples[1..]);
      var rest := Differences(samples[0], samples[1..]);
      assert Differences(x, samples) == [Wrap32(samples[0] - x)] + rest;
      assert ([Wrap32(samples[0] - x)] + rest)[1..] == rest;
      assert samples == [samples[0]] + samples[1..];
    }
  }

  /** A waveform of any 32-bit samples survives packing: the packet carries all but the
      last sample, and the last one is its xn, the x0 of the packet that follows. */
  lemma WaveformRoundTrip(x0: Int32, rest: seq<Int32>)
    ensures Samples(x0, Pack(Differences(x0, rest))) == ([x0] + rest)[..|rest|]
    ensures Xn(x0, Pack(Differences(x0, rest))) == ([x0] + rest)[|rest|]
  {
    PackRoundTrip(Differences(x0, rest));
    DifferencesUndone(x0, rest);
  }

  // ----- room in the output buffer ------------------------------------------

  /** When the last bundle comes there is still room for sixteen samples. */
  predicate Fits(bundles: seq<FourGroups>, nout: nat) {
    bundles != [] ==> nout + |AllValues(bundles[..|bundles| - 1])| + 16 <= MAX_OUTDATA
  }

  /** Packed bundles are decoded to the end just when they fit. */
  lemma {:induction false} PackedEnding(bundles: seq<FourGroups>, nout: nat)
    ensures EndingOf(nout, PackAll(bundles)) == if Fits(bundles, nout) then Complete else TooSmall
  {
    hide *;
    if bundles == [] {
      NothingPacked(nout);
    } else {
      FirstPacked(bundles);
      FitsNext(bundles, nout);
      if nout + 16 <= MAX_OUTDATA {
        UnfoldBundle(PackAll(bundles), nout, ValuesFrom(bundles[0], 0));
        PackedEnding(bundles[1..], nout + |ValuesFrom(bundles[0], 0)|);
      } else {
        NoRoomLeft(PackAll(bundles), nout);
      }
    }
  }

  lemma NothingPacked(nout: nat)
    ensures PackAll([]) == [] && EndingOf(nout, []) == Complete && Fits([], nout)
  {
  }

  lemma NoRoomLeft(data: seq<Byte>, nout: nat)
    requires |data| >= BUNDLE_BYTES && nout + 16 > MAX_OUTDATA
    ensures EndingOf(nout, data) == TooSmall
  {
  }

  lemma FitsNext(bundles: seq<FourGroups>, nout: nat)
    requires bundles != []
    ensures Fits(bundles, nout) <==>
            nout + 16 <= MAX_OUTDATA && Fits(bundles[1..], nout + |ValuesFrom(bundles[0], 0)|)
  {
    if |bundles| > 1 {
      var n := |bundles| - 1;
      assert bundles[..n][1..] == bundles[1..][..n - 1];
    }
  }

  lemma {:induction false} LastBundle(bundles: seq<FourGroups>)
    requires bundles != []
    ensures |AllValues(bundles)| ==
            |AllValues(bundles[..|bundles| - 1])| + |ValuesFrom(bundles[|bundles| - 1], 0)|
  {
    var n := |bundles| - 1;
    if n > 0 {
      LastBundle(bundles[1..]);
      assert bundles[..n][1..] == bundles[1..][..n - 1];
    }
  }

  lemma {:induction false} GroupValues(gs: seq<Group>, i: nat)
    requires i <= |gs|
    ensures |gs| - i <= |ValuesFrom(gs, i)| <= 4 * (|gs| - i)
    decreases |gs| - i
  {
    if i < |gs| {
      GroupValues(gs, i + 1);
    }
  }

  lemma {:induction false} LastChunk(gs: seq<Group>)
    requires gs != []
    ensures Chunks(gs) != [] && Chunks(gs)[|Chunks(gs)| - 1] != []
  {
    if |gs| > 4 {
      LastChunk(gs[4..]);
    }
  }

  /** Up to 4080 differences always fit behind the first sample, and more than 4095
      never do. In between it depends on how many the last bundle holds. */
  lemma RoomForSamples(diffs: seq<Int32>)
    ensures |diffs| <= 4080 ==> Fits(Chunks(Widths(diffs)), 1)
    ensures |diffs| > 4095 ==> !Fits(Chunks(Widths(diffs)), 1)
  {
    WidthsKeepValues(diffs);
    ChunksKeepValues(Widths(diffs));
    RoomForGroups(Widths(diffs));
  }

  lemma RoomForGroups(gs: seq<Group>)
    ensures |AllValues(Chunks(gs))| <= 4080 ==> Fits(Chunks(gs), 1)
    ensures |AllValues(Chunks(gs))| > 4095 ==> !Fits(Chunks(gs), 1)
  {
    if gs != [] {
      LastChunk(gs);
      LastBundle(Chunks(gs));
      GroupValues(Chunks(gs)[|Chunks(gs)| - 1], 0);
    }
  }
}
