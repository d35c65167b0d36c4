/** The 17-byte bundles of a compressed packet: what they mean, and
    `nmxp_data_unpack_bundle`, which unpacks one into the output buffer. */
module Bundles {
  import opened Sequences
  import opened Words
  import opened Wrappers

  const BUNDLE_BYTES := 17
  const NULL_BUNDLE := 9

  // ----- the format ---------------------------------------------------------

  /** The two compression bits of group g: 0 unused, 1 four bytes, 2 two 16-bit words,
      3 one 32-bit word. */
  function Code(header: Byte, g: nat): nat
    requires g < 4
  {
    (header / (if g == 0 then 64 else if g == 1 then 16 else if g == 2 then 4 else 1)) % 4
  }

  function GroupDiffs(code: nat, b: seq<Byte>): seq<int>
    requires |b| == 4
  {
    if code == 1 then [Signed8(b[0]), Signed8(b[1]), Signed8(b[2]), Signed8(b[3])]
    else if code == 2 then [Signed16(b[0], b[1]), Signed16(b[2], b[3])]
    else if code == 3 then [Signed32(b[0], b[1], b[2], b[3])]
    else []
  }

  /** The differences in group g of a bundle. */
  function GroupOf(bundle: seq<Byte>, g: nat): seq<int>
    requires |bundle| == BUNDLE_BYTES && g < 4
  {
    GroupDiffs(Code(bundle[0], g), bundle[1 + 4 * g..5 + 4 * g])
  }

  /** The differences in groups g, g+1, .., 3 of a bundle. */
  function DiffsFrom(bundle: seq<Byte>, g: nat): seq<int>
    requires |bundle| == BUNDLE_BYTES && g <= 4
    decreases 4 - g
  {
    if g == 4 then []
    else GroupOf(bundle, g) + DiffsFrom(bundle, g + 1)
  }

  /** The differences in a bundle; None for the null bundle. */
  function BundleDiffs(bundle: seq<Byte>): Option<seq<int>>
    requires |bundle| == BUNDLE_BYTES
  {
    if bundle[0] == NULL_BUNDLE then None else Some(DiffsFrom(bundle, 0))
  }

  // ----- running sums -------------------------------------------------------

  /** The samples that differences lead to, one after each difference. */
  function RunningSums(x: int, diffs: seq<int>): seq<Int32>
    decreases diffs
  {
    if diffs == [] then []
    else
      var next := Wrap32(x + diffs[0]);
      [next] + RunningSums(next, diffs[1..])
  }

  function Final(x: int, diffs: seq<int>): int
    decreases diffs
  {
    if diffs == [] then x else Final(Wrap32(x + diffs[0]), diffs[1..])
  }

  function Sum(diffs: seq<int>): int {
    if diffs == [] then 0 else diffs[0] + Sum(diffs[1..])
  }

  lemma {:induction false} SumsConcat(x: int, a: seq<int>, b: seq<int>)
    ensures RunningSums(x, a + b) == RunningSums(x, a) + RunningSums(Final(x, a), b)
    ensures Final(x, a + b) == Final(Final(x, a), b)
    decreases a
  {
    hide Wrap32;
    if a == [] {
      assert a + b == b;
    } else {
      var next := Wrap32(x + a[0]);
      TailOfConcat(a, b);
      SumsConcat(next, a[1..], b);
      Assoc([next], RunningSums(next, a[1..]), RunningSums(Final(next, a[1..]), b));
    }
  }

  lemma {:induction false} SumsLength(x: int, diffs: seq<int>)
    ensures |RunningSums(x, diffs)| == |diffs|
    ensures diffs != [] ==> RunningSums(x, diffs)[|diffs| - 1] == Final(x, diffs)
    decreases diffs
  {
    if diffs != [] {
      SumsLength(Wrap32(x + diffs[0]), diffs[1..]);
    }
  }

  lemma WrapAdd(m: int, n: int)
    ensures Wrap32(Wrap32(m) + n) == Wrap32(m + n)
  {
  }

  /** Every sample is the first one plus the sum of the differences so far, within the
      32 bits of the machine. */
  lemma {:induction false} SampleIsPrefixSum(x: int, diffs: seq<int>, k: nat)
    requires k < |diffs|
    ensures |RunningSums(x, diffs)| == |diffs|
    ensures RunningSums(x, diffs)[k] == Wrap32(x + Sum(diffs[..k + 1]))
    decreases diffs
  {
    SumsLength(x, diffs);
    var next := Wrap32(x + diffs[0]);
    assert diffs[..k + 1] == [diffs[0]] + diffs[1..][..k];
    if k > 0 {
      SampleIsPrefixSum(next, diffs[1..], k - 1);
      WrapAdd(x + diffs[0], Sum(diffs[1..][..k]));
    }
  }

  /** A sample is exactly the prefix sum, just when that sum fits 32 bits. */
  lemma ExactJustInRange(x: int, diffs: seq<int>, k: nat)
    requires k < |diffs|
    ensures |RunningSums(x, diffs)| == |diffs|
    ensures var sum := x + Sum(diffs[..k + 1]);
      RunningSums(x, diffs)[k] == sum <==> -0x8000_0000 <= sum < 0x8000_0000
  {
    SampleIsPrefixSum(x, diffs, k);
  }

  // ----- nmxp_data_unpack_bundle --------------------------------------------

  /** The buffer starts with `out`. */
  ghost predicate Holds(buffer: array<int>, out: seq<int>)
    reads buffer
  {
    && |out| <= buffer.Length
    && forall i :: 0 <= i < |out| ==> buffer[i] == out[i]
  }

  method Put(outdata: array<int>, at: nat, value: int, ghost out: seq<int>)
    requires at == |out| < outdata.Length && Holds(outdata, out)
    modifies outdata
    ensures Holds(outdata, out + [value])
  {
    outdata[at] := value;
  }

  lemma NextSum(out: seq<int>, x: int, diffs: seq<int>, i: nat)
    requires i < |diffs|
    ensures var next := Wrap32(Final(x, diffs[..i]) + diffs[i]);
      && out + RunningSums(x, diffs[..i + 1]) == out + RunningSums(x, diffs[..i]) + [next]
      && Final(x, diffs[..i + 1]) == next
  {
    assert diffs[..i + 1] == diffs[..i] + [diffs[i]];
    SumsConcat(x, diffs[..i], [diffs[i]]);
  }

  /** The inner loop: write the running sums of one group after what is there. */
  method Accumulate(outdata: array<int>, from: nat, diffs: seq<int>, prev: int, ghost out: seq<int>)
    returns (last: int)
    requires from == |out| && from + |diffs| <= outdata.Length && Holds(outdata, out)
    modifies outdata
    ensures Holds(outdata, out + RunningSums(prev, diffs)) && |RunningSums(prev, diffs)| == |diffs|
    ensures last == Final(prev, diffs)
  {
    last := prev;
    assert diffs[..0] == [] && out + RunningSums(prev, []) == out;
    assert diffs[..|diffs|] == diffs;
    SumsLength(prev, diffs);
    hide Holds, Wrap32, RunningSums, Final;
    for i := 0 to |diffs|
      invariant |out + RunningSums(prev, diffs[..i])| == from + i
      invariant Holds(outdata, out + RunningSums(prev, diffs[..i]))
      invariant last == Final(prev, diffs[..i])
    {
      NextSum(out, prev, diffs, i);
      var next := Wrap32(last + diffs[i]);
      Put(outdata, from + i, next, out + RunningSums(prev, diffs[..i]));
      last := next;
    }
  }

  method UnpackGroup(outdata: array<int>, at: nat, indata: seq<Byte>, j: nat, prev: int, ghost out: seq<int>)
    returns (k: nat, last: int, ghost d4: seq<int>)
    requires |indata| == BUNDLE_BYTES && j < 4 && at == |out| && at + 4 <= outdata.Length
    requires Holds(outdata, out)
    modifies outdata
    ensures d4 == GroupOf(indata, j)
    ensures k == |d4| <= 4 && |RunningSums(prev, d4)| == k
    ensures Holds(outdata, out + RunningSums(prev, d4)) && last == Final(prev, d4)
  {
    var diffs := ReadGroup(indata, j);
    last := Accumulate(outdata, at, diffs, prev, out);
    return |diffs|, last, diffs;
  }

  /** The loop over the four groups. */
  method UnpackGroups(outdata: array<int>, from: nat, indata: seq<Byte>, prev: int, ghost before: seq<int>)
    returns (nsamples: nat, last: int)
    requires |indata| == BUNDLE_BYTES && from == |before| && from + 16 <= outdata.Length
    requires Holds(outdata, before)
    modifies outdata
    ensures nsamples == |DiffsFrom(indata, 0)| <= 16 && last == Final(prev, DiffsFrom(indata, 0))
    ensures Holds(outdata, before + RunningSums(prev, DiffsFrom(indata, 0)))
  {
    nsamples, last := 0, prev;
    ghost var done: seq<int>, out := [], before;
    GroupsStart(indata, before, prev);
    hide GroupsDone, RunningSums, Final, DiffsFrom, GroupOf, Holds;
    for j := 0 to 4
      invariant nsamples == |done| <= 4 * j && |out| == from + nsamples
      invariant Holds(outdata, out)
      invariant GroupsDone(indata, before, prev, j, done, out, last)
    {
      var k, next;
      ghost var d4;
      k, next, d4 := UnpackGroup(outdata, from + nsamples, indata, j, last, out);
      GroupsNext(indata, before, prev, j, done, out, last, d4);
      out, done := out + RunningSums(last, d4), done + d4;
      nsamples, last := nsamples + k, next;
    }
    GroupsEnd(indata, before, prev, done, out, last);
  }

  /** Unpacks one bundle after the `from` samples that are there; -1 for the null bundle. */
  method UnpackBundle(outdata: array<int>, from: nat, indata: seq<Byte>, prev: int, ghost before: seq<int>)
    returns (nsamples: int, last: int)
    requires |indata| == BUNDLE_BYTES && from == |before| && from + 16 <= outdata.Length
    requires Holds(outdata, before)
    modifies outdata
    ensures BundleDiffs(indata) == None ==>
              nsamples == -1 && last == prev && Holds(outdata, before)
    ensures BundleDiffs(indata).Some? ==>
              var diffs := BundleDiffs(indata).value;
              && nsamples == |diffs| <= 16 && last == Final(prev, diffs)
              && Holds(outdata, before + RunningSums(prev, diffs))
  {
    var cbits := indata[0];
    if cbits == NULL_BUNDLE {
      return -1, prev;
    }
    nsamples, last := UnpackGroups(outdata, from, indata, prev, before);
  }

  /** After j groups: the differences `done`, the buffer `out`, the last sample `last`. */
  ghost predicate GroupsDone(indata: seq<Byte>, before: seq<int>, prev: int, j: nat,
                             done: seq<int>, out: seq<int>, last: int)
  {
    && |indata| == BUNDLE_BYTES && j <= 4
    && DiffsFrom(indata, 0) == done + DiffsFrom(indata, j)
    && out == before + RunningSums(prev, done) && last == Final(prev, done)
  }

  lemma GroupsStart(indata: seq<Byte>, before: seq<int>, prev: int)
    requires |indata| == BUNDLE_BYTES
    ensures GroupsDone(indata, before, prev, 0, [], before, prev)
  {
    assert [] + DiffsFrom(indata, 0) == DiffsFrom(indata, 0);
  }

  lemma GroupsNext(indata: seq<Byte>, before: seq<int>, prev: int, j: nat,
                   done: seq<int>, out: seq<int>, last: int, d4: seq<int>)
    requires GroupsDone(indata, before, prev, j, done, out, last) && j < 4
    requires d4 == GroupOf(indata, j)
    ensures GroupsDone(indata, before, prev, j + 1, done + d4, out + RunningSums(last, d4), Final(last, d4))
  {
    hide GroupOf;
    assert DiffsFrom(indata, j) == d4 + DiffsFrom(indata, j + 1);
    hide DiffsFrom, RunningSums, Final;
    Assoc(done, d4, DiffsFrom(indata, j + 1));
    AppendSums(before, prev, done, d4);
  }

  lemma GroupsEnd(indata: seq<Byte>, before: seq<int>, prev: int, done: seq<int>, out: seq<int>, last: int)
    requires GroupsDone(indata, before, prev, 4, done, out, last)
    ensures DiffsFrom(indata, 0) == done
    ensures out == before + RunningSums(prev, done) && last == Final(prev, done)
  {
    assert done + [] == done;
  }

  lemma AppendSums(before: seq<int>, x: int, a: seq<int>, b: seq<int>)
    ensures (before + RunningSums(x, a)) + RunningSums(Final(x, a), b) == before + RunningSums(x, a + b)
    ensures Final(Final(x, a), b) == Final(x, a + b)
  {
    hide RunningSums, Final;
    SumsConcat(x, a, b);
  }

  /** The switch on the compression bits of group j. */
  method ReadGroup(indata: seq<Byte>, j: nat) returns (d4: seq<int>)
    requires |indata| == BUNDLE_BYTES && j < 4
    ensures d4 == GroupOf(indata, j) && |d4| <= 4
  {
    var p := 1 + 4 * j;
    match Code(indata[0], j) {
      case 1 => d4 := [Signed8(indata[p]), Signed8(indata[p + 1]), Signed8(indata[p + 2]), Signed8(indata[p + 3])];
      case 2 => d4 := [Signed16(indata[p], indata[p + 1]), Signed16(indata[p + 2], indata[p + 3])];
      case 3 => d4 := [Signed32(indata[p], indata[p + 1], indata[p + 2], indata[p + 3])];
      case _ => d4 := [];
    }
  }

  // ----- what the bytes of a bundle mean ------------------------------------

  /** `d` is the number of `bits` bits, with sign, that `n` is the unsigned value of. */
  predicate SignedValue(d: int, n: int, modulus: nat)
    requires modulus > 0
  {
    (d - n) % modulus == 0 && 0 <= 2 * d + modulus < 2 * modulus
  }

  /** What four bytes mean under the two compression bits of their group. */
  predicate GroupMeans(d: seq<int>, code: int, b0: int, b1: int, b2: int, b3: int) {
    if code == 1 then
      |d| == 4 && SignedValue(d[0], b0, 256) && SignedValue(d[1], b1, 256)
      && SignedValue(d[2], b2, 256) && SignedValue(d[3], b3, 256)
    else if code == 2 then
      |d| == 2 && SignedValue(d[0], b0 + 256 * b1, 65536) && SignedValue(d[1], b2 + 256 * b3, 65536)
    else if code == 3 then
      |d| == 1 && SignedValue(d[0], b0 + 256 * b1 + 65536 * b2 + 16777216 * b3, 4294967296)
    else
      d == []
  }

  lemma GroupDiffsMean(code: nat, b: seq<Byte>)
    requires |b| == 4
    ensures GroupMeans(GroupDiffs(code, b), code, b[0], b[1], b[2], b[3])
  {
    if code == 1 {
      Signed8Means(b[0]);
      Signed8Means(b[1]);
      Signed8Means(b[2]);
      Signed8Means(b[3]);
    } else if code == 2 {
      Signed16Means(b[0], b[1]);
      Signed16Means(b[2], b[3]);
    } else if code == 3 {
      Signed32Means(b[0], b[1], b[2], b[3]);
    }
    hide SignedValue, Signed8, Signed16, Signed32;
  }

  lemma Signed8Means(b: Byte)
    ensures SignedValue(Signed8(b), b, 256)
  {
  }

  lemma Signed16Means(b0: Byte, b1: Byte)
    ensures SignedValue(Signed16(b0, b1), b0 + 256 * b1, 65536)
  {
  }

  lemma Signed32Means(b0: Byte, b1: Byte, b2: Byte, b3: Byte)
    ensures SignedValue(Signed32(b0, b1, b2, b3), b0 + 256 * b1 + 65536 * b2 + 16777216 * b3, 4294967296)
  {
  }

  /** Every header: the two highest bits are those of the first group, and used groups count
      wherever they stand, behind unused ones as well. */
  lemma BundleMeans(b: seq<Byte>) returns (d0: seq<int>, d1: seq<int>, d2: seq<int>, d3: seq<int>)
    requires |b| == 17
    ensures BundleDiffs(b) == if b[0] == 9 then None else Some(d0 + d1 + d2 + d3)
    ensures GroupMeans(d0, b[0] / 64, b[1], b[2], b[3], b[4])
    ensures GroupMeans(d1, b[0] / 16 % 4, b[5], b[6], b[7], b[8])
    ensures GroupMeans(d2, b[0] / 4 % 4, b[9], b[10], b[11], b[12])
    ensures GroupMeans(d3, b[0] % 4, b[13], b[14], b[15], b[16])
  {
    d0, d1, d2, d3 := GroupOf(b, 0), GroupOf(b, 1), GroupOf(b, 2), GroupOf(b, 3);
    Codes(b[0]);
    GroupDiffsMean(Code(b[0], 0), b[1..5]);
    GroupDiffsMean(Code(b[0], 1), b[5..9]);
    GroupDiffsMean(Code(b[0], 2), b[9..13]);
    GroupDiffsMean(Code(b[0], 3), b[13..17]);
    FourGroups(b);
    hide GroupMeans, GroupDiffs, Code, DiffsFrom;
  }

  lemma Codes(h: Byte)
    ensures Code(h, 0) == h / 64 && Code(h, 1) == h / 16 % 4 && Code(h, 2) == h / 4 % 4 && Code(h, 3) == h % 4
  {
  }

  lemma FourGroups(b: seq<Byte>)
    requires |b| == BUNDLE_BYTES
    ensures DiffsFrom(b, 0) == GroupOf(b, 0) + GroupOf(b, 1) + GroupOf(b, 2) + GroupOf(b, 3)
  {
    NoMoreGroups(b);
    hide GroupOf, DiffsFrom;
    NextGroup(b, 0);
    NextGroup(b, 1);
    NextGroup(b, 2);
    NextGroup(b, 3);
    Regroup(GroupOf(b, 0), GroupOf(b, 1), GroupOf(b, 2), GroupOf(b, 3));
  }

  lemma NoMoreGroups(b: seq<Byte>)
    requires |b| == BUNDLE_BYTES
    ensures DiffsFrom(b, 4) == []
  {
  }

  lemma Regroup(d0: seq<int>, d1: seq<int>, d2: seq<int>, d3: seq<int>)
    ensures d0 + (d1 + (d2 + (d3 + []))) == d0 + d1 + d2 + d3
  {
    assert d3 + [] == d3;
    Assoc(d1, d2, d3);
    Assoc(d0, d1 + d2, d3);
    Assoc(d0, d1, d2);
  }

  lemma NextGroup(b: seq<Byte>, g: nat)
    requires |b| == BUNDLE_BYTES && g < 4
    ensures DiffsFrom(b, g) == GroupOf(b, g) + DiffsFrom(b, g + 1)
  {
    hide GroupOf;
  }
}
