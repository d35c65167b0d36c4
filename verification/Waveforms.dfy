/** The waveform behind decoder and reorder buffer: packets that carry consecutive pieces of
    one waveform arrive in any order, and what is sent on is that waveform. */
module Waveforms {
  import opened Words
  import opened Bundles
  import opened CompressedData
  import opened RawStream
  import opened RawStreamReorder

  // ----- consecutive pieces of one waveform ---------------------------------

  function Concat(datas: seq<seq<Byte>>): seq<Byte> {
    if datas == [] then []
    else
      var n := |datas| - 1;
      Concat(datas[..n]) + datas[n]
  }

  /** The x0 of piece i: the xn of the piece before it. */
  function StartOf(x0: int, datas: seq<seq<Byte>>, i: nat): int
    requires i <= |datas|
  {
    Xn(x0, Concat(datas[..i]))
  }

  /** The samples of piece i. */
  function Piece(x0: int, datas: seq<seq<Byte>>, i: nat): seq<int>
    requires i < |datas|
  {
    Samples(StartOf(x0, datas, i), datas[i])
  }

  /** Null bundles, if any, are in the last piece only. */
  predicate Whole(datas: seq<seq<Byte>>) {
    forall i :: 0 <= i < |datas| - 1 ==> NullFree(datas[i])
  }

  lemma {:induction false} NullFreeConcat(a: seq<Byte>, b: seq<Byte>)
    requires NullFree(a) && NullFree(b)
    ensures NullFree(a + b)
    decreases |a|
  {
    hide BundleDiffs;
    if a == [] {
      assert a + b == b;
    } else {
      NullFreeConcat(a[BUNDLE_BYTES..], b);
      assert (a + b)[..BUNDLE_BYTES] == a[..BUNDLE_BYTES];
      assert (a + b)[BUNDLE_BYTES..] == a[BUNDLE_BYTES..] + b;
    }
  }

  lemma {:induction false} NullFreeSoFar(datas: seq<seq<Byte>>, k: nat)
    requires k <= |datas| && forall i :: 0 <= i < k ==> NullFree(datas[i])
    ensures NullFree(Concat(datas[..k]))
  {
    hide NullFree, Concat;
    if k == 0 {
      NothingYet(datas);
    } else {
      NullFreeSoFar(datas, k - 1);
      OneMorePiece(datas, k - 1);
      NullFreeConcat(Concat(datas[..k - 1]), datas[k - 1]);
    }
  }

  lemma NothingYet(datas: seq<seq<Byte>>)
    ensures Concat(datas[..0]) == [] && NullFree(Concat(datas[..0]))
  {
  }

  lemma OneMorePiece(datas: seq<seq<Byte>>, k: nat)
    requires k < |datas|
    ensures Concat(datas[..k + 1]) == Concat(datas[..k]) + datas[k]
  {
    assert datas[..k + 1][..k] == datas[..k];
  }

  /** The waveform up to piece k and the samples of piece k are the waveform up to k + 1. */
  lemma PieceJoins(x0: int, datas: seq<seq<Byte>>, k: nat)
    requires k < |datas| && Whole(datas)
    ensures Samples(x0, Concat(datas[..k + 1])) == Samples(x0, Concat(datas[..k])) + Piece(x0, datas, k)
  {
    NullFreeSoFar(datas, k);
    OneMorePiece(datas, k);
    PacketsStitch(x0, Concat(datas[..k]), datas[k]);
  }

  // ----- what is sent on ----------------------------------------------------

  /** The samples of packets, one after another. */
  function Flat(ps: seq<Packet>): seq<int> {
    if ps == [] then []
    else
      var n := |ps| - 1;
      Flat(ps[..n]) + ps[n].samples
  }

  lemma {:induction false} FlatPieces(ps: seq<Packet>, x0: int, datas: seq<seq<Byte>>)
    requires |ps| <= |datas| && Whole(datas)
    requires forall i :: 0 <= i < |ps| ==> ps[i].samples == Piece(x0, datas, i)
    ensures Flat(ps) == Samples(x0, Concat(datas[..|ps|]))
  {
    if ps == [] {
      NoPieces(x0, datas);
    } else {
      var n := |ps| - 1;
      hide Piece, Concat, Samples, Whole;
      FlatPieces(ps[..n], x0, datas);
      PieceJoins(x0, datas, n);
    }
  }

  lemma NoPieces(x0: int, datas: seq<seq<Byte>>)
    ensures Samples(x0, Concat(datas[..0])) == []
  {
    assert datas[..0] == [];
    assert LiveDiffs([]) == [];
  }

  /** However packets with consecutive pieces of one waveform arrive, with whatever
      duplicates, and as long as nothing is forced and nothing times out, the samples sent
      on are, one after another, exactly that waveform, up to the first packet missing. */
  lemma WaveformIsRestored(cfg: Config, run: seq<Turn>, x0: int, datas: seq<seq<Byte>>)
    requires IsRun(cfg, run) && run != [] && Plain(cfg, INIT, run) && run[0].call.pd.Some? && Whole(datas)
    requires forall p :: p in Received(run) && p.seqNo >= First(cfg, run) ==>
               p.seqNo - First(cfg, run) < |datas| && p.samples == Piece(x0, datas, p.seqNo - First(cfg, run))
    ensures 0 <= After(INIT, run).last + 1 - First(cfg, run) <= |datas|
    ensures Flat(Sent(Log(run))) ==
            Samples(x0, Concat(datas[..After(INIT, run).last + 1 - First(cfg, run)]))
    ensures !Arrived(run, After(INIT, run).last + 1)
  {
    Reordering(cfg, run);
    SentArePieces(cfg, run, x0, datas);
    hide IsRun, Plain, KeepsAbove, Arrived, Received, Sent, Log, Piece, Concat, Samples, Whole, First, Flat;
    FlatPieces(Sent(Log(run)), x0, datas);
  }

  lemma SentArePieces(cfg: Config, run: seq<Turn>, x0: int, datas: seq<seq<Byte>>)
    requires IsRun(cfg, run) && run != [] && run[0].call.pd.Some?
    requires Consecutive(Sent(Log(run)), First(cfg, run) - 1, After(INIT, run).last)
    requires forall p :: p in Received(run) && p.seqNo >= First(cfg, run) ==>
               p.seqNo - First(cfg, run) < |datas| && p.samples == Piece(x0, datas, p.seqNo - First(cfg, run))
    ensures |Sent(Log(run))| <= |datas|
    ensures forall i :: 0 <= i < |Sent(Log(run))| ==> Sent(Log(run))[i].samples == Piece(x0, datas, i)
  {
    var sent := Sent(Log(run));
    hide IsRun, Received, Sent, Log, Piece, First, After;
    forall i | 0 <= i < |sent| ensures i < |datas| && sent[i].samples == Piece(x0, datas, i) {
      SentWasReceived(cfg, run, sent[i]);
    }
    if sent != [] {
      SentWasReceived(cfg, run, sent[|sent| - 1]);
    }
  }
}
