/** The data part of a compressed packet: the bundle loop of
    `nmxp_processCompressedData`, and how packets fit together. */
module CompressedData {
  import opened Sequences
  import opened Words
  import opened Wrappers
  import opened Bundles

  const MAX_OUTDATA := 4096

  /** Why the bundle loop stops: at the end or at a null bundle; at a bundle that is cut
      short; or because the output buffer might not hold another bundle. */
  datatype Ending = Complete | Truncated | TooSmall

  /** All differences before the first null bundle or the cut. */
  function LiveDiffs(data: seq<Byte>): seq<int>
    decreases |data|
  {
    if |data| < BUNDLE_BYTES then []
    else
      match BundleDiffs(data[..BUNDLE_BYTES])
      case None => []
      case Some(diffs) => diffs + LiveDiffs(data[BUNDLE_BYTES..])
  }

  /** How the loop ends on `data` with `nout` slots of the output in use. */
  function EndingOf(nout: nat, data: seq<Byte>): Ending
    decreases |data|
  {
    if data == [] then Complete
    else if |data| < BUNDLE_BYTES then Truncated
    else if nout + 16 > MAX_OUTDATA then TooSmall
    else
      match BundleDiffs(data[..BUNDLE_BYTES])
      case None => Complete
      case Some(diffs) => EndingOf(nout + |diffs|, data[BUNDLE_BYTES..])
  }

  /** The samples of a packet that starts at `x0`, and the sample after the last one. */
  function Samples(x0: int, data: seq<Byte>): seq<int> {
    var sums := RunningSums(x0, LiveDiffs(data));
    ([x0] + sums)[..|sums|]
  }

  function Xn(x0: int, data: seq<Byte>): int {
    Final(x0, LiveDiffs(data))
  }

  lemma FirstBundle(data: seq<Byte>, i: nat)
    requires i + BUNDLE_BYTES <= |data|
    ensures data[i..][..BUNDLE_BYTES] == data[i..i + BUNDLE_BYTES]
    ensures data[i..][BUNDLE_BYTES..] == data[i + BUNDLE_BYTES..]
  {
  }

  /** What is left to do after i bytes, when `done` has been unpacked. */
  ghost predicate Progress(indata: seq<Byte>, i: nat, done: seq<int>, nout: nat)
  {
    && i <= |indata| && nout == 1 + |done|
    && LiveDiffs(indata) == done + LiveDiffs(indata[i..])
    && EndingOf(1, indata) == EndingOf(nout, indata[i..])
  }

  lemma ProgressStarts(indata: seq<Byte>)
    ensures Progress(indata, 0, [], 1)
  {
    assert indata[0..] == indata;
    assert [] + LiveDiffs(indata) == LiveDiffs(indata);
  }

  lemma ProgressStops(indata: seq<Byte>, i: nat, done: seq<int>, nout: nat)
    requires Progress(indata, i, done, nout)
    ensures i == |indata| ==> LiveDiffs(indata) == done && EndingOf(1, indata) == Complete
    ensures i < |indata| < i + BUNDLE_BYTES ==> EndingOf(1, indata) == Truncated
    ensures i + BUNDLE_BYTES <= |indata| && nout + 16 > MAX_OUTDATA ==> EndingOf(1, indata) == TooSmall
  {
    assert done + [] == done;
  }

  lemma ProgressNull(indata: seq<Byte>, i: nat, done: seq<int>, nout: nat)
    requires Progress(indata, i, done, nout) && i + BUNDLE_BYTES <= |indata| && nout + 16 <= MAX_OUTDATA
    requires BundleDiffs(indata[i..i + BUNDLE_BYTES]) == None
    ensures LiveDiffs(indata) == done && EndingOf(1, indata) == Complete
  {
    FirstBundle(indata, i);
    hide BundleDiffs;
    assert done + [] == done;
  }

  lemma ProgressBundle(indata: seq<Byte>, i: nat, done: seq<int>, nout: nat, diffs: seq<int>)
    requires Progress(indata, i, done, nout) && i + BUNDLE_BYTES <= |indata| && nout + 16 <= MAX_OUTDATA
    requires BundleDiffs(indata[i..i + BUNDLE_BYTES]) == Some(diffs)
    ensures Progress(indata, i + BUNDLE_BYTES, done + diffs, nout + |diffs|)
  {
    FirstBundle(indata, i);
    hide LiveDiffs, EndingOf, BundleDiffs;
    UnfoldBundle(indata[i..], nout, diffs);
    Assoc(done, diffs, LiveDiffs(indata[i + BUNDLE_BYTES..]));
  }

  lemma UnfoldBundle(data: seq<Byte>, nout: nat, diffs: seq<int>)
    requires |data| >= BUNDLE_BYTES && BundleDiffs(data[..BUNDLE_BYTES]) == Some(diffs)
    ensures LiveDiffs(data) == diffs + LiveDiffs(data[BUNDLE_BYTES..])
    ensures nout + 16 <= MAX_OUTDATA ==> EndingOf(nout, data) == EndingOf(nout + |diffs|, data[BUNDLE_BYTES..])
  {
    hide BundleDiffs;
  }

  /** The bundle loop. */
  method UnpackData(indata: seq<Byte>, x0: int) returns (ending: Ending, outdata: array<int>, nout: nat)
    ensures fresh(outdata) && outdata.Length == MAX_OUTDATA
    ensures ending == EndingOf(1, indata)
    ensures ending.Complete? ==>
              && nout == |LiveDiffs(indata)| < MAX_OUTDATA
              && Holds(outdata, [x0] + RunningSums(x0, LiveDiffs(indata)))
  {
    outdata := new int[MAX_OUTDATA];
    outdata[0] := x0;
    ending, nout := UnpackBundles(indata, x0, outdata);
    nout := nout - 1;
  }

  /** `out` is x0 and the samples after it, of which `xn` is the last. */
  ghost predicate Unpacked(out: seq<int>, x0: int, diffs: seq<int>, xn: int) {
    out == [x0] + RunningSums(x0, diffs) && xn == Final(x0, diffs)
  }

  lemma UnpackedMore(out: seq<int>, x0: int, done: seq<int>, xn: int, more: seq<int>)
    requires Unpacked(out, x0, done, xn)
    ensures Unpacked(out + RunningSums(xn, more), x0, done + more, Final(xn, more))
    ensures |RunningSums(xn, more)| == |more|
  {
    AppendSums([x0], x0, done, more);
    SumsLength(xn, more);
  }

  /** Where the loop is after i bytes: `done` unpacked into `out`, at sample `xn`. */
  ghost predicate Reached(indata: seq<Byte>, x0: int, i: nat, done: seq<int>, out: seq<int>, xn: int) {
    Progress(indata, i, done, |out|) && Unpacked(out, x0, done, xn)
  }

  /** One turn of the loop; k is negative at a null bundle. */
  method UnpackNext(outdata: array<int>, nout: nat, indata: seq<Byte>, i: nat, prevXn: int,
                    ghost x0: int, ghost done: seq<int>, ghost out: seq<int>)
    returns (k: int, xn: int, ghost done': seq<int>, ghost out': seq<int>)
    requires i + BUNDLE_BYTES <= |indata| && nout == |out| && nout + 16 <= outdata.Length == MAX_OUTDATA
    requires Holds(outdata, out) && Reached(indata, x0, i, done, out, prevXn)
    modifies outdata
    ensures Holds(outdata, out')
    ensures k < 0 ==> done' == done && out' == out && xn == prevXn
    ensures k < 0 ==> LiveDiffs(indata) == done && EndingOf(1, indata) == Complete
    ensures k >= 0 ==> k <= 16 && |out'| == nout + k && Reached(indata, x0, i + BUNDLE_BYTES, done', out', xn)
  {
    var bundle := indata[i..i + BUNDLE_BYTES];
    assert |bundle| == BUNDLE_BYTES;
    hide Reached, Holds, BundleDiffs, RunningSums, Final, LiveDiffs, EndingOf;
    k, xn := UnpackBundle(outdata, nout, bundle, prevXn, out);
    done', out' := done, out;
    ReachedNext(indata, x0, i, done, out, prevXn, bundle);
    if k >= 0 {
      done' := done + BundleDiffs(bundle).value;
      out' := out + RunningSums(prevXn, BundleDiffs(bundle).value);
    }
  }

  lemma ReachedNext(indata: seq<Byte>, x0: int, i: nat, done: seq<int>, out: seq<int>, xn: int, bundle: seq<Byte>)
    requires i + BUNDLE_BYTES <= |indata| && bundle == indata[i..i + BUNDLE_BYTES] && |out| + 16 <= MAX_OUTDATA
    requires Reached(indata, x0, i, done, out, xn)
    ensures match BundleDiffs(bundle)
      case None => LiveDiffs(indata) == done && EndingOf(1, indata) == Complete
      case Some(more) =>
        && |RunningSums(xn, more)| == |more|
        && Reached(indata, x0, i + BUNDLE_BYTES, done + more, out + RunningSums(xn, more), Final(xn, more))
  {
    hide Unpacked, Progress, BundleDiffs, RunningSums, Final, LiveDiffs, EndingOf;
    match BundleDiffs(bundle)
    case None =>
      ProgressNull(indata, i, done, |out|);
    case Some(more) =>
      ProgressBundle(indata, i, done, |out|, more);
      UnpackedMore(out, x0, done, xn, more);
  }

  lemma Finished(indata: seq<Byte>, i: nat, out: seq<int>, x0: int, done: seq<int>, nout: nat, xn: int)
    requires Progress(indata, i, done, nout) && Unpacked(out, x0, done, xn)
    requires i == |indata| || (LiveDiffs(indata) == done && EndingOf(1, indata) == Complete)
    ensures EndingOf(1, indata) == Complete && nout == 1 + |LiveDiffs(indata)|
    ensures out == [x0] + RunningSums(x0, LiveDiffs(indata))
  {
    assert done + [] == done;
  }

  method UnpackBundles(indata: seq<Byte>, x0: int, outdata: array<int>) returns (ending: Ending, nout: nat)
    requires outdata.Length == MAX_OUTDATA && outdata[0] == x0
    modifies outdata
    ensures ending == EndingOf(1, indata) && 1 <= nout <= MAX_OUTDATA
    ensures ending.Complete? ==>
              && nout == 1 + |LiveDiffs(indata)|
              && Holds(outdata, [x0] + RunningSums(x0, LiveDiffs(indata)))
  {
    var prevXn := x0;
    nout := 1;
    ghost var done: seq<int>, out := [], [x0];
    ProgressStarts(indata);
    assert Unpacked(out, x0, done, prevXn) && Holds(outdata, out);
    var i := 0;
    while i < |indata|
      invariant i <= |indata| && 1 <= nout == |out| <= MAX_OUTDATA
      invariant Reached(indata, x0, i, done, out, prevXn) && Holds(outdata, out)
    {
      hide LiveDiffs, EndingOf, Progress, Unpacked, Holds;
      ProgressStops(indata, i, done, nout);
      if i + BUNDLE_BYTES > |indata| {
        return Truncated, nout;
      }
      if nout + 16 > MAX_OUTDATA {
        return TooSmall, nout;
      }
      var k;
      k, prevXn, done, out := UnpackNext(outdata, nout, indata, i, prevXn, x0, done, out);
      if k < 0 {
        break;
      }
      nout := nout + k;
      i := i + BUNDLE_BYTES;
    }
    Finished(indata, i, out, x0, done, nout, prevXn);
    return Complete, nout;
  }

  // ----- packets fit together -----------------------------------------------

  /** Whole bundles, none of them null. */
  predicate NullFree(data: seq<Byte>)
    decreases |data|
  {
    data == [] ||
    ( && |data| >= BUNDLE_BYTES
      && BundleDiffs(data[..BUNDLE_BYTES]).Some?
      && NullFree(data[BUNDLE_BYTES..]))
  }

  lemma {:induction false} LiveConcat(a: seq<Byte>, b: seq<Byte>)
    requires NullFree(a)
    ensures LiveDiffs(a + b) == LiveDiffs(a) + LiveDiffs(b)
    decreases |a|
  {
    hide BundleDiffs;
    if a == [] {
      assert a + b == b;
    } else {
      assert (a + b)[..BUNDLE_BYTES] == a[..BUNDLE_BYTES];
      assert (a + b)[BUNDLE_BYTES..] == a[BUNDLE_BYTES..] + b;
      LiveConcat(a[BUNDLE_BYTES..], b);
    }
  }

  lemma StitchedSums(x0: int, a: seq<int>, b: seq<int>)
    ensures var sa, sb := RunningSums(x0, a), RunningSums(Final(x0, a), b);
      && |sa| == |a| && |sb| == |b|
      && ([x0] + (sa + sb))[..|sa + sb|] == ([x0] + sa)[..|sa|] + ([Final(x0, a)] + sb)[..|sb|]
  {
    var sa, sb := RunningSums(x0, a), RunningSums(Final(x0, a), b);
    SumsLength(x0, a);
    SumsLength(Final(x0, a), b);
    hide RunningSums, Final;
    assert ([x0] + sa)[|a|] == Final(x0, a) by {
      EndsWithFinal(x0, a);
    }
  }

  lemma EndsWithFinal(x0: int, a: seq<int>)
    ensures |RunningSums(x0, a)| == |a| && ([x0] + RunningSums(x0, a))[|a|] == Final(x0, a)
  {
    SumsLength(x0, a);
  }

  /** Cutting the bundles of a packet in two gives two packets that fit together: the
      first one's xn is the second one's x0, and no sample is lost or repeated. */
  lemma PacketsStitch(x0: int, a: seq<Byte>, b: seq<Byte>)
    requires NullFree(a)
    ensures Samples(x0, a + b) == Samples(x0, a) + Samples(Xn(x0, a), b)
    ensures Xn(x0, a + b) == Xn(Xn(x0, a), b)
  {
    LiveConcat(a, b);
    SumsConcat(x0, LiveDiffs(a), LiveDiffs(b));
    StitchedSums(x0, LiveDiffs(a), LiveDiffs(b));
  }

  lemma {:induction false} AtMostSixteen(bundle: seq<Byte>, g: nat)
    requires |bundle| == BUNDLE_BYTES && g <= 4
    ensures |DiffsFrom(bundle, g)| <= 4 * (4 - g)
    decreases 4 - g
  {
    if g < 4 {
      AtMostSixteen(bundle, g + 1);
    }
  }

  lemma SmallBundle(bundle: seq<Byte>, diffs: seq<int>)
    requires |bundle| == BUNDLE_BYTES && BundleDiffs(bundle) == Some(diffs)
    ensures |diffs| <= 16
  {
    AtMostSixteen(bundle, 0);
  }

  /** Two hundred and fifty-five bundles always fit the output buffer. */
  lemma {:induction false} BufferSuffices(nout: nat, data: seq<Byte>, bundles: nat)
    requires |data| <= BUNDLE_BYTES * bundles && nout + 16 * bundles <= MAX_OUTDATA
    ensures EndingOf(nout, data) != TooSmall
    decreases bundles
  {
    if |data| >= BUNDLE_BYTES && BundleDiffs(data[..BUNDLE_BYTES]).Some? {
      var diffs := BundleDiffs(data[..BUNDLE_BYTES]).value;
      SmallBundle(data[..BUNDLE_BYTES], diffs);
      hide BundleDiffs, EndingOf, LiveDiffs, DiffsFrom;
      UnfoldBundle(data, nout, diffs);
      BufferSuffices(nout + |diffs|, data[BUNDLE_BYTES..], bundles - 1);
    }
  }

  /** Whatever the bundles, sixteen free slots behind all samples are room enough, and
      without room for the samples themselves the end is never reached. */
  lemma {:induction false} SamplesNeedRoom(nout: nat, data: seq<Byte>)
    requires nout <= MAX_OUTDATA
    ensures nout + |LiveDiffs(data)| + 16 <= MAX_OUTDATA ==> EndingOf(nout, data) != TooSmall
    ensures nout + |LiveDiffs(data)| > MAX_OUTDATA ==> EndingOf(nout, data) != Complete
    decreases |data|
  {
    hide DiffsFrom;
    if |data| >= BUNDLE_BYTES && nout + 16 <= MAX_OUTDATA && BundleDiffs(data[..BUNDLE_BYTES]).Some? {
      var diffs := BundleDiffs(data[..BUNDLE_BYTES]).value;
      SmallBundle(data[..BUNDLE_BYTES], diffs);
      hide BundleDiffs, EndingOf, LiveDiffs, DiffsFrom;
      UnfoldBundle(data, nout, diffs);
      SamplesNeedRoom(nout + |diffs|, data[BUNDLE_BYTES..]);
    }
  }

  // ----- how data end -------------------------------------------------------

  /** Behind whole bundles the loop goes on with what follows, if it gets there. */
  lemma {:induction false} EndingConcat(nout: nat, a: seq<Byte>, b: seq<Byte>)
    requires NullFree(a)
    ensures EndingOf(nout, a + b) ==
            if EndingOf(nout, a) == Complete then EndingOf(nout + |LiveDiffs(a)|, b) else TooSmall
    decreases |a|
  {
    hide BundleDiffs;
    if a == [] {
      assert a + b == b;
    } else {
      assert (a + b)[..BUNDLE_BYTES] == a[..BUNDLE_BYTES];
      assert (a + b)[BUNDLE_BYTES..] == a[BUNDLE_BYTES..] + b;
      EndingConcat(nout + |BundleDiffs(a[..BUNDLE_BYTES]).value|, a[BUNDLE_BYTES..], b);
    }
  }

  /** A null bundle ends the data, whatever follows it. */
  lemma NullBundleEnds(a: seq<Byte>, bundle: seq<Byte>, more: seq<Byte>)
    requires NullFree(a) && |bundle| == 17 && bundle[0] == 9
    ensures LiveDiffs(a + (bundle + more)) == LiveDiffs(a)
    ensures 1 + |LiveDiffs(a)| + 16 <= 4096 ==> EndingOf(1, a + (bundle + more)) == Complete
  {
    hide LiveDiffs, EndingOf, NullFree, BundleDiffs;
    var tail := bundle + more;
    LiveConcat(a, tail);
    EndingConcat(1, a, tail);
    RoomEnding(a);
    NullFirst(1 + |LiveDiffs(a)|, bundle, more);
    assert LiveDiffs(a) + [] == LiveDiffs(a);
  }

  lemma RoomEnding(a: seq<Byte>)
    requires NullFree(a)
    ensures 1 + |LiveDiffs(a)| + 16 <= MAX_OUTDATA ==> EndingOf(1, a) == Complete
  {
    SamplesNeedRoom(1, a);
    WholeEnding(1, a);
    hide LiveDiffs, EndingOf, NullFree;
  }

  lemma NullFirst(nout: nat, bundle: seq<Byte>, more: seq<Byte>)
    requires |bundle| == BUNDLE_BYTES && bundle[0] == 9
    ensures LiveDiffs(bundle + more) == []
    ensures nout + 16 <= MAX_OUTDATA ==> EndingOf(nout, bundle + more) == Complete
  {
    assert (bundle + more)[..BUNDLE_BYTES] == bundle;
    assert BundleDiffs(bundle) == None;
    hide BundleDiffs;
  }

  /** Data that end within a bundle are refused. */
  lemma CutBundleFails(a: seq<Byte>, cut: seq<Byte>)
    requires NullFree(a) && 0 < |cut| < 17
    ensures EndingOf(1, a + cut) != Complete
    ensures 1 + |LiveDiffs(a)| + 16 <= 4096 ==> EndingOf(1, a + cut) == Truncated
  {
    hide LiveDiffs, EndingOf, NullFree, BundleDiffs;
    EndingConcat(1, a, cut);
    RoomEnding(a);
    CutFirst(1 + |LiveDiffs(a)|, cut);
  }

  lemma CutFirst(nout: nat, cut: seq<Byte>)
    requires 0 < |cut| < BUNDLE_BYTES
    ensures EndingOf(nout, cut) == Truncated
  {
  }

  lemma {:induction false} WholeEnding(nout: nat, a: seq<Byte>)
    requires NullFree(a)
    ensures EndingOf(nout, a) != Truncated
    decreases |a|
  {
    hide BundleDiffs;
    if a != [] {
      WholeEnding(nout + |BundleDiffs(a[..BUNDLE_BYTES]).value|, a[BUNDLE_BYTES..]);
    }
  }
}
