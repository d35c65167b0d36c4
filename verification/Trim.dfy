/** `nmxp_data_trim`: cutting a packet down to a time window. Times are reals, so the
    rounding of floating point is not part of the model; the rounding to whole samples,
    which the code does on purpose, is. */
module Trim {
  import opened Packets

  const EXCLUDE_FIRST: bv8 := 2
  const EXCLUDE_LAST: bv8 := 4

  // ----- what the code computes ---------------------------------------------

  function LastTime(d: DataProcess): real
    requires d.sampRate > 0
  {
    d.time + |d.samples| as real / d.sampRate as real
  }

  /** A time as a number of sample periods after the first sample. */
  function Pos(d: DataProcess, t: real): real {
    (t - d.time) * d.sampRate as real
  }

  /** A time as a number of sample periods before the end. */
  function PosFromEnd(d: DataProcess, t: real): real
    requires d.sampRate > 0
  {
    (LastTime(d) - t) * d.sampRate as real
  }

  /** (int) (x + 0.5), for x that is not negative. */
  function Round(x: real): nat
    requires x >= 0.0
  {
    (x + 0.5).Floor
  }

  function Extra(bitmap: bv8, flag: bv8): nat {
    if bitmap & flag != 0 then 1 else 0
  }

  predicate Outside(d: DataProcess, start: real, end: real)
    requires d.sampRate > 0
  {
    || (d.time < start && LastTime(d) < start)
    || (d.time > end && LastTime(d) > end)
  }

  function FirstToRemove(d: DataProcess, start: real, end: real, bitmap: bv8): nat
    requires d.sampRate > 0
  {
    if Outside(d, start, end) then |d.samples|
    else if d.time <= start <= LastTime(d) then
      Round(Pos(d, start)) + Extra(bitmap, EXCLUDE_FIRST)
    else 0
  }

  function LastToRemove(d: DataProcess, end: real, bitmap: bv8): nat
    requires d.sampRate > 0
  {
    if d.time <= end <= LastTime(d) then
      Round(PosFromEnd(d, end)) + Extra(bitmap, EXCLUDE_LAST)
    else 0
  }

  /** Removing f samples at the start and l at the end: the code returned, and what is left. */
  function Cut(d: DataProcess, f: nat, l: nat): (int, DataProcess)
    requires d.sampRate > 0
  {
    var n := |d.samples|;
    if f == 0 && l == 0 then (2, d)
    else if n - (f + l) > 0 then
      (1, d.(time := d.time + f as real / d.sampRate as real, samples := d.samples[f..n - l],
             x0 := if f > 0 then d.samples[f] else d.x0,
             xn := if l > 0 then d.samples[n - l] else d.xn))
    else if n - (f + l) == 0 then (1, d.(samples := [], x0 := -1, xn := -1))
    else (0, d)
  }

  function Trimmed(d: DataProcess, start: real, end: real, bitmap: bv8): (int, DataProcess)
    requires d.sampRate > 0
  {
    Cut(d, FirstToRemove(d, start, end, bitmap), LastToRemove(d, end, bitmap))
  }

  // ----- positions ----------------------------------------------------------

  function SampleTime(d: DataProcess, i: int): real
    requires d.sampRate > 0
  {
    d.time + i as real / d.sampRate as real
  }

  lemma Scale(a: real, b: real, r: real)
    requires r > 0.0
    ensures a < b <==> a * r < b * r
  {
  }

  lemma Unscale(i: int, rate: int)
    requires rate > 0
    ensures i as real / rate as real * rate as real == i as real
  {
  }

  /** Time order is the order of positions. */
  lemma PosOrder(d: DataProcess, t: real, i: int)
    requires d.sampRate > 0
    ensures t < SampleTime(d, i) <==> Pos(d, t) < i as real
    ensures t > SampleTime(d, i) <==> Pos(d, t) > i as real
  {
    var r := d.sampRate as real;
    Unscale(i, d.sampRate);
    Scale(t - d.time, i as real / r, r);
    Scale(i as real / r, t - d.time, r);
  }

  lemma Edges(d: DataProcess, start: real, end: real)
    requires d.sampRate > 0
    ensures d.time <= start <==> 0.0 <= Pos(d, start)
    ensures start <= LastTime(d) <==> Pos(d, start) <= |d.samples| as real
    ensures PosFromEnd(d, end) == |d.samples| as real - Pos(d, end)
  {
    PosOrder(d, start, 0);
    PosOrder(d, start, |d.samples|);
    Unscale(|d.samples|, d.sampRate);
  }

  /** The numbers to remove, in positions. */
  lemma InPositions(d: DataProcess, start: real, end: real, bitmap: bv8)
    requires d.sampRate > 0
    ensures var n, p, q := |d.samples| as real, Pos(d, start), Pos(d, end);
      && (Outside(d, start, end) <==> p > n || q < 0.0)
      && FirstToRemove(d, start, end, bitmap) == (
           if p > n || q < 0.0 then |d.samples|
           else if 0.0 <= p then Round(p) + Extra(bitmap, EXCLUDE_FIRST) else 0)
      && LastToRemove(d, end, bitmap) == (
           if 0.0 <= q <= n then Round(n - q) + Extra(bitmap, EXCLUDE_LAST) else 0)
  {
    Edges(d, start, end);
    Edges(d, end, start);
    PosOrder(d, end, 0);
    assert d.time <= LastTime(d);
    hide Pos, PosFromEnd, LastTime;
  }

  // ----- theorems -----------------------------------------------------------

  /** Half a sample period. */
  function Half(d: DataProcess): real
    requires d.sampRate > 0
  {
    0.5 / d.sampRate as real
  }

  lemma InHalves(d: DataProcess, t: real, i: int)
    requires d.sampRate > 0
    ensures t - Half(d) < SampleTime(d, i) <==> Pos(d, t) - 0.5 < i as real
    ensures SampleTime(d, i) < t - Half(d) <==> i as real < Pos(d, t) - 0.5
  {
    var r := d.sampRate as real;
    assert Half(d) * r == 0.5;
    assert Pos(d, t - Half(d)) == Pos(d, t) - 0.5 by {
      assert (t - Half(d) - d.time) * r == (t - d.time) * r - Half(d) * r;
    }
    PosOrder(d, t - Half(d), i);
  }

  /** The samples excluded on top of those outside the window, at either end of it. */
  function FirstExtra(d: DataProcess, start: real, bitmap: bv8): nat
    requires d.sampRate > 0
  {
    if d.time <= start <= LastTime(d) then Extra(bitmap, EXCLUDE_FIRST) else 0
  }

  function LastExtra(d: DataProcess, end: real, bitmap: bv8): nat
    requires d.sampRate > 0
  {
    if d.time <= end <= LastTime(d) then Extra(bitmap, EXCLUDE_LAST) else 0
  }

  /** A place in the packet, or beyond it, that is on the wrong side of the start of the
      window: not later than half a period before it, but for the samples excluded. */
  predicate BeforeWindow(d: DataProcess, start: real, end: real, bitmap: bv8, i: int)
    requires d.sampRate > 0
  {
    if Outside(d, start, end) then i < |d.samples|
    else if d.time <= start <= LastTime(d) then SampleTime(d, i - FirstExtra(d, start, bitmap)) <= start - Half(d)
    else i < 0
  }

  /** And on the wrong side of its end. */
  predicate AfterWindow(d: DataProcess, end: real, bitmap: bv8, i: int)
    requires d.sampRate > 0
  {
    if d.time <= end <= LastTime(d) then SampleTime(d, i + LastExtra(d, end, bitmap)) >= end - Half(d)
    else i >= |d.samples|
  }

  lemma RemovedJustOutside(d: DataProcess, start: real, end: real, bitmap: bv8, i: int)
    requires d.sampRate > 0
    ensures i < FirstToRemove(d, start, end, bitmap) <==> BeforeWindow(d, start, end, bitmap, i)
    ensures i >= |d.samples| - LastToRemove(d, end, bitmap) <==> AfterWindow(d, end, bitmap, i)
  {
    InPositions(d, start, end, bitmap);
    Edges(d, start, end);
    Edges(d, end, start);
    InHalves(d, start, i - FirstExtra(d, start, bitmap));
    InHalves(d, end, i + LastExtra(d, end, bitmap));
    hide SampleTime, Half, Pos, PosFromEnd, LastTime, Outside, FirstToRemove, LastToRemove, Extra;
  }

  /** A sample is in the window when it is later than half a period before the start and
      earlier than half a period before the end, with the samples excluded counted in. */
  predicate InWindow(d: DataProcess, start: real, end: real, bitmap: bv8, i: int)
    requires d.sampRate > 0
  {
    && start - Half(d) < SampleTime(d, i - FirstExtra(d, start, bitmap))
    && SampleTime(d, i + LastExtra(d, end, bitmap)) < end - Half(d)
  }

  /** For a sample of the packet that is one and the same. */
  lemma KeptJustInWindow(d: DataProcess, start: real, end: real, bitmap: bv8, i: nat)
    requires d.sampRate > 0 && i < |d.samples|
    ensures FirstToRemove(d, start, end, bitmap) <= i < |d.samples| - LastToRemove(d, end, bitmap) <==>
            InWindow(d, start, end, bitmap, i)
  {
    InPositions(d, start, end, bitmap);
    Edges(d, start, end);
    Edges(d, end, start);
    InHalves(d, start, i - FirstExtra(d, start, bitmap));
    InHalves(d, end, i + LastExtra(d, end, bitmap));
    hide SampleTime, Half, Pos, PosFromEnd, LastTime, Outside, FirstToRemove, LastToRemove, Extra;
  }

  /** A trim leaves exactly the samples in the window, in order, unless it fails, and
      then it changes nothing. */
  lemma TrimSelects(d: DataProcess, start: real, end: real, bitmap: bv8)
    requires d.sampRate > 0
    ensures var (ret, d') := Trimmed(d, start, end, bitmap);
      && ret in {0, 1, 2}
      && (ret != 1 ==> d' == d)
      && (ret != 0 ==>
            exists f, t :: 0 <= f <= t <= |d.samples| && d'.samples == d.samples[f..t] &&
              forall i :: 0 <= i < |d.samples| ==> (f <= i < t <==> InWindow(d, start, end, bitmap, i)))
  {
    var (ret, d') := Trimmed(d, start, end, bitmap);
    var f, t := FirstToRemove(d, start, end, bitmap), |d.samples| - LastToRemove(d, end, bitmap);
    forall i | 0 <= i < |d.samples| ensures f <= i < t <==> InWindow(d, start, end, bitmap, i) {
      KeptJustInWindow(d, start, end, bitmap, i);
    }
    hide FirstToRemove, LastToRemove, InWindow;
    assert ret != 0 ==> f <= t && d'.samples == d.samples[f..t];
  }

  /** Every sample that stays keeps its time. */
  lemma TimesAreKept(d: DataProcess, start: real, end: real, bitmap: bv8, i: nat)
    requires d.sampRate > 0 && i < |Trimmed(d, start, end, bitmap).1.samples|
    ensures var (ret, d') := Trimmed(d, start, end, bitmap);
      var j := if ret == 1 then i + FirstToRemove(d, start, end, bitmap) else i;
      j < |d.samples| && d'.samples[i] == d.samples[j] && SampleTime(d', i) == SampleTime(d, j)
  {
    hide FirstToRemove, LastToRemove;
    Later(d.time, d.sampRate, FirstToRemove(d, start, end, bitmap), i);
  }

  lemma Later(time: real, rate: int, f: int, i: int)
    requires rate > 0
    ensures time + f as real / rate as real + i as real / rate as real == time + (i + f) as real / rate as real
  {
    assert i as real / rate as real + f as real / rate as real == (i + f) as real / rate as real;
  }

  /** The window ends at which samples are cut are met within half a sample period, with
      the samples excluded counted in. */
  lemma EdgesAreMet(d: DataProcess, start: real, end: real, bitmap: bv8)
    requires d.sampRate > 0
    ensures var (ret, d') := Trimmed(d, start, end, bitmap);
      d'.samples != [] && ret != 0 ==>
        && (FirstToRemove(d, start, end, bitmap) > 0 ==>
              start - Half(d) < SampleTime(d', 0 - FirstExtra(d, start, bitmap)) <= start + Half(d))
        && (LastToRemove(d, end, bitmap) > 0 ==>
              end - Half(d) <= SampleTime(d', |d'.samples| + LastExtra(d, end, bitmap)) < end + Half(d))
  {
    var (ret, d') := Trimmed(d, start, end, bitmap);
    if ret == 1 && d'.samples != [] {
      PlacesMove(d, start, end, bitmap, 0 - FirstExtra(d, start, bitmap));
      PlacesMove(d, start, end, bitmap, |d'.samples| + LastExtra(d, end, bitmap));
      hide *;
      if FirstToRemove(d, start, end, bitmap) > 0 {
        FirstEdge(d, start, end, bitmap);
      }
      if LastToRemove(d, end, bitmap) > 0 {
        LastEdge(d, start, end, bitmap);
      }
    } else if ret == 2 {
      NothingRemoved(d, start, end, bitmap);
    }
  }

  lemma NothingRemoved(d: DataProcess, start: real, end: real, bitmap: bv8)
    requires d.sampRate > 0 && Trimmed(d, start, end, bitmap).0 == 2
    ensures FirstToRemove(d, start, end, bitmap) == LastToRemove(d, end, bitmap) == 0
  {
    hide FirstToRemove, LastToRemove;
  }

  /** A trimmed packet has at place k what the packet had at place f + k. */
  lemma PlacesMove(d: DataProcess, start: real, end: real, bitmap: bv8, k: int)
    requires d.sampRate > 0 && Trimmed(d, start, end, bitmap).0 == 1 && Trimmed(d, start, end, bitmap).1.samples != []
    ensures var d', f := Trimmed(d, start, end, bitmap).1, FirstToRemove(d, start, end, bitmap);
      && d'.sampRate == d.sampRate && f < |d.samples| && SampleTime(d', k) == SampleTime(d, f + k)
      && f + |d'.samples| == |d.samples| - LastToRemove(d, end, bitmap)
  {
    hide FirstToRemove, LastToRemove;
    Later(d.time, d.sampRate, FirstToRemove(d, start, end, bitmap), k);
  }

  lemma FirstEdge(d: DataProcess, start: real, end: real, bitmap: bv8)
    requires d.sampRate > 0 && 0 < FirstToRemove(d, start, end, bitmap) < |d.samples|
    ensures start - Half(d) < SampleTime(d, FirstToRemove(d, start, end, bitmap) - FirstExtra(d, start, bitmap))
                           <= start + Half(d)
  {
    var i := FirstToRemove(d, start, end, bitmap) - FirstExtra(d, start, bitmap);
    InPositions(d, start, end, bitmap);
    Edges(d, start, end);
    InHalves(d, start, i);
    AboveHalf(d, start, i);
    hide SampleTime, Half, Pos, PosFromEnd, LastTime, Outside;
  }

  lemma LastEdge(d: DataProcess, start: real, end: real, bitmap: bv8)
    requires d.sampRate > 0 && 0 < LastToRemove(d, end, bitmap)
    ensures end - Half(d) <= SampleTime(d, |d.samples| - LastToRemove(d, end, bitmap) + LastExtra(d, end, bitmap))
                          < end + Half(d)
  {
    var i := |d.samples| - LastToRemove(d, end, bitmap) + LastExtra(d, end, bitmap);
    InPositions(d, start, end, bitmap);
    Edges(d, end, start);
    InHalves(d, end, i);
    AboveHalf(d, end, i);
    hide SampleTime, Half, Pos, PosFromEnd, LastTime, Outside;
  }

  lemma AboveHalf(d: DataProcess, t: real, i: int)
    requires d.sampRate > 0
    ensures SampleTime(d, i) <= t + Half(d) <==> i as real <= Pos(d, t) + 0.5
    ensures SampleTime(d, i) < t + Half(d) <==> i as real < Pos(d, t) + 0.5
  {
    var r := d.sampRate as real;
    assert Half(d) * r == 0.5;
    assert Pos(d, t + Half(d)) == Pos(d, t) + 0.5 by {
      assert (t + Half(d) - d.time) * r == (t - d.time) * r + Half(d) * r;
    }
    PosOrder(d, t + Half(d), i);
  }

  lemma PosIncreases(d: DataProcess, s: real, t: real)
    requires d.sampRate > 0
    ensures s < t <==> Pos(d, s) < Pos(d, t)
  {
    Scale(s - d.time, t - d.time, d.sampRate as real);
  }

  /** A trim fails exactly when some place is on the wrong side of both ends. */
  lemma FailsJustOverlapping(d: DataProcess, start: real, end: real, bitmap: bv8)
    requires d.sampRate > 0
    ensures Trimmed(d, start, end, bitmap).0 == 0 <==>
            exists i :: BeforeWindow(d, start, end, bitmap, i) && AfterWindow(d, end, bitmap, i)
  {
    var f, t := FirstToRemove(d, start, end, bitmap), |d.samples| - LastToRemove(d, end, bitmap);
    forall i: int
      ensures i < f <==> BeforeWindow(d, start, end, bitmap, i)
      ensures i >= t <==> AfterWindow(d, end, bitmap, i)
    {
      RemovedJustOutside(d, start, end, bitmap, i);
    }
    hide BeforeWindow, AfterWindow, FirstToRemove, LastToRemove;
    assert t < f ==> BeforeWindow(d, start, end, bitmap, t) && AfterWindow(d, end, bitmap, t);
  }

  /** When the window is in order and nothing is excluded, that means that it is a single
      instant, half-way between samples. */
  lemma FailsJustHalfWay(d: DataProcess, start: real, end: real)
    requires d.sampRate > 0 && start <= end
    ensures Trimmed(d, start, end, 0).0 == 0 <==>
            && start == end && d.time <= start <= LastTime(d)
            && (Pos(d, start) + 0.5).Floor as real == Pos(d, start) + 0.5
  {
    InPositions(d, start, end, 0);
    Edges(d, start, end);
    var p, q, n := Pos(d, start), Pos(d, end), |d.samples|;
    PosIncreases(d, start, end);
    RoundBoth(p, q, n);
    hide FirstToRemove, LastToRemove, Outside, LastTime, Pos;
    if 0.0 <= p && q <= n as real {
      assert p <= n as real && 0.0 <= q;
    }
  }

  /** Rounding from both ends overlaps only when both meet half-way. */
  lemma RoundBoth(p: real, q: real, n: int)
    ensures p < q ==> (p + 0.5).Floor + (n as real - q + 0.5).Floor <= n
    ensures p == q ==> ((p + 0.5).Floor + (n as real - q + 0.5).Floor > n <==> (p + 0.5).Floor as real == p + 0.5)
  {
    var a, b := (p + 0.5).Floor, (n as real - q + 0.5).Floor;
    assert a as real <= p + 0.5 < a as real + 1.0;
    assert b as real <= n as real - q + 0.5 < b as real + 1.0;
    if p < q {
      assert (a + b) as real < n as real + 1.0;
    } else if p == q && a as real == p + 0.5 {
      assert n as real - q + 0.5 == (n + 1 - a) as real;
      assert b == n + 1 - a;
    } else if p == q {
      assert (a + b) as real < n as real + 1.0;
    }
  }

  /** Trimming twice is trimming once: the second trim changes nothing. It returns 2, save
      when the first one failed, or has left no sample at an edge of the window at which
      one more is to be excluded: then 0. */
  lemma TrimIsIdempotent(d: DataProcess, start: real, end: real, bitmap: bv8)
    requires d.sampRate > 0
    ensures var (ret, d') := Trimmed(d, start, end, bitmap);
      Trimmed(d', start, end, bitmap) ==
      (if ret == 0 || (ret == 1 && d'.samples == [] && ExtraAt(d, start, end, bitmap)) then 0 else 2, d')
  {
    var (ret, d') := Trimmed(d, start, end, bitmap);
    if ret == 1 && d'.samples != [] {
      AgainSome(d, start, end, bitmap);
    } else if ret == 1 {
      AgainNone(d', start, end, bitmap);
    }
  }

  /** The packet starts at an edge of the window at which a sample is to be excluded. */
  predicate ExtraAt(d: DataProcess, start: real, end: real, bitmap: bv8) {
    || (start == d.time <= end && bitmap & EXCLUDE_FIRST != 0)
    || (end == d.time && bitmap & EXCLUDE_LAST != 0)
  }

  lemma AgainSome(d: DataProcess, start: real, end: real, bitmap: bv8)
    requires d.sampRate > 0
    requires Trimmed(d, start, end, bitmap).0 == 1 && Trimmed(d, start, end, bitmap).1.samples != []
    ensures var d' := Trimmed(d, start, end, bitmap).1;
      Trimmed(d', start, end, bitmap) == (2, d')
  {
    var d' := Trimmed(d, start, end, bitmap).1;
    InPositions(d, start, end, bitmap);
    InPositions(d', start, end, bitmap);
    Moved(d, d', FirstToRemove(d, start, end, bitmap), start);
    Moved(d, d', FirstToRemove(d, start, end, bitmap), end);
  }

  lemma AgainNone(d: DataProcess, start: real, end: real, bitmap: bv8)
    requires d.sampRate > 0 && d.samples == []
    ensures Trimmed(d, start, end, bitmap) == (if ExtraAt(d, start, end, bitmap) then 0 else 2, d)
  {
    var r := d.sampRate as real;
    assert LastTime(d) == d.time;
    assert Pos(d, d.time) == 0.0 && PosFromEnd(d, d.time) == 0.0;
    hide LastTime, Pos, PosFromEnd;
  }

  /** Samples and xn together are a stretch of the waveform before and after: xn stays
      the sample that follows the last one, and x0 the first one. */
  lemma TrimKeepsWaveform(d: DataProcess, start: real, end: real, bitmap: bv8)
    requires d.sampRate > 0
    ensures var (ret, d') := Trimmed(d, start, end, bitmap);
      ret == 1 && d'.samples != [] ==>
        var f, l := FirstToRemove(d, start, end, bitmap), LastToRemove(d, end, bitmap);
        && d'.samples + [d'.xn] == (d.samples + [d.xn])[f..|d.samples| - l + 1]
        && (d.x0 == d.samples[0] ==> d'.x0 == d'.samples[0])
  {
    hide FirstToRemove, LastToRemove;
  }

  /** A packet of which all samples are removed has x0 and xn -1 and keeps its time; nothing
      else than samples, time, x0 and xn ever changes. */
  lemma WhatTrimChanges(d: DataProcess, start: real, end: real, bitmap: bv8)
    requires d.sampRate > 0
    ensures var (ret, d') := Trimmed(d, start, end, bitmap);
      && (ret == 1 && d'.samples == [] ==> d'.x0 == -1 && d'.xn == -1 && d'.time == d.time)
      && (ret == 1 && d'.samples != [] ==> |d'.samples| < |d.samples|)
      && d'.key == d.key && d'.packetType == d.packetType && d'.sampRate == d.sampRate
      && d'.oldestSeqNo == d.oldestSeqNo && d'.seqNo == d.seqNo
  {
    hide FirstToRemove, LastToRemove;
  }

  /** Bit 1 of the bitmap excludes the sample at the start of the window, bit 2 the one at
      its end: a window of whole sample periods within the packet keeps samples f to t - 1,
      without the first for bit 1, and without the last for bit 2. */
  lemma ExcludedSamples(d: DataProcess, f: nat, t: nat, bitmap: bv8)
    requires d.sampRate > 0 && 0 < f && f + 2 < t < |d.samples|
    ensures var skipFirst, skipLast := if bitmap & 2 != 0 then 1 else 0, if bitmap & 4 != 0 then 1 else 0;
      var (ret, d') := Trimmed(d, SampleTime(d, f), SampleTime(d, t), bitmap);
      ret == 1 && d'.samples == d.samples[f + skipFirst..t - skipLast]
  {
    var start, end := SampleTime(d, f), SampleTime(d, t);
    InPositions(d, start, end, bitmap);
    PosOfSample(d, f);
    PosOfSample(d, t);
    RoundWhole(f);
    RoundWhole(|d.samples| - t);
    hide Pos, SampleTime, FirstToRemove, LastToRemove, Round;
  }

  lemma PosOfSample(d: DataProcess, i: nat)
    requires d.sampRate > 0
    ensures Pos(d, SampleTime(d, i)) == i as real
  {
    Unscale(i, d.sampRate);
  }

  lemma RoundWhole(n: nat)
    ensures Round(n as real) == n
  {
  }

  lemma Moved(d: DataProcess, d': DataProcess, f: nat, t: real)
    requires d.sampRate > 0 && d'.sampRate == d.sampRate && d'.time == d.time + f as real / d.sampRate as real
    ensures Pos(d', t) == Pos(d, t) - f as real
  {
    Unscale(f, d.sampRate);
    var r := d.sampRate as real;
    assert (t - d.time - f as real / r) * r == (t - d.time) * r - f as real / r * r;
  }

  // ----- nmxp_data_trim -----------------------------------------------------

  /** A packet in memory. */
  class Process {
    const key: int
    const packetType: int
    const oldestSeqNo: int
    const seqNo: int
    var time: real
    const sampRate: int
    var nSamp: nat
    const pDataPtr: array<int>
    var x0: int
    var xn: int

    constructor (d: DataProcess)
      requires d.sampRate > 0
      ensures Valid() && fresh(pDataPtr) && Contents() == d
    {
      key, packetType, oldestSeqNo, seqNo := d.key, d.packetType, d.oldestSeqNo, d.seqNo;
      time, sampRate, nSamp, x0, xn := d.time, d.sampRate, |d.samples|, d.x0, d.xn;
      pDataPtr := new int[|d.samples|](i requires 0 <= i < |d.samples| => d.samples[i]);
    }

    ghost predicate Valid()
      reads this
    {
      sampRate > 0 && nSamp <= pDataPtr.Length
    }

    ghost function Contents(): DataProcess
      reads this, pDataPtr
      requires Valid()
    {
      DataProcess(key, packetType, x0, xn, oldestSeqNo, seqNo, time, sampRate, pDataPtr[..nSamp])
    }

    /** The packet holds `d`. */
    ghost predicate Is(d: DataProcess)
      reads this, pDataPtr
    {
      && Valid()
      && key == d.key && packetType == d.packetType && oldestSeqNo == d.oldestSeqNo && seqNo == d.seqNo
      && time == d.time && sampRate == d.sampRate && x0 == d.x0 && xn == d.xn && nSamp == |d.samples|
      && forall i :: 0 <= i < nSamp ==> pDataPtr[i] == d.samples[i]
    }

    lemma IsContents(d: DataProcess)
      requires Is(d)
      ensures Contents() == d
    {
      assert pDataPtr[..nSamp] == d.samples;
    }

    /** The copy loop: every sample moves `first` places down, over those before it. */
    method ShiftSamples(first: nat)
      requires Valid() && first <= nSamp
      modifies pDataPtr
      ensures forall i :: 0 <= i < nSamp - first ==> pDataPtr[i] == old(pDataPtr[first + i])
    {
      for i := 0 to nSamp - first
        invariant forall k :: 0 <= k < i ==> pDataPtr[k] == old(pDataPtr[first + k])
        invariant forall k :: i <= k < nSamp ==> pDataPtr[k] == old(pDataPtr[k])
      {
        pDataPtr[i] := pDataPtr[first + i];
      }
    }

    /** How many samples to remove at either end. */
    method Count(trimStart: real, trimEnd: real, excludeBitmap: bv8, ghost d: DataProcess)
      returns (first: nat, last: nat)
      requires Is(d)
      ensures first == FirstToRemove(d, trimStart, trimEnd, excludeBitmap)
      ensures last == LastToRemove(d, trimEnd, excludeBitmap)
    {
      var firstTime := time;
      var lastTime := time + nSamp as real / sampRate as real;
      assert lastTime == LastTime(d);
      hide LastTime;
      first := CountFirst(firstTime, lastTime, trimStart, excludeBitmap, d);
      last := CountLast(firstTime, lastTime, trimEnd, excludeBitmap, d);
      if (firstTime < trimStart && lastTime < trimStart) || (firstTime > trimEnd && lastTime > trimEnd) {
        first := nSamp;
      }
    }

    method CountFirst(firstTime: real, lastTime: real, trimStart: real, excludeBitmap: bv8, ghost d: DataProcess)
      returns (first: nat)
      requires sampRate == d.sampRate > 0 && firstTime == d.time && lastTime == LastTime(d)
      ensures first == if d.time <= trimStart <= LastTime(d)
                       then Round(Pos(d, trimStart)) + Extra(excludeBitmap, EXCLUDE_FIRST) else 0
    {
      first := 0;
      if firstTime <= trimStart <= lastTime {
        var scaled := (trimStart - firstTime) * sampRate as real;
        assert scaled == Pos(d, trimStart);
        hide Pos, LastTime;
        first := (scaled + 0.5).Floor;
        if excludeBitmap & EXCLUDE_FIRST != 0 {
          first := first + 1;
        }
      }
    }

    method CountLast(firstTime: real, lastTime: real, trimEnd: real, excludeBitmap: bv8, ghost d: DataProcess)
      returns (last: nat)
      requires sampRate == d.sampRate > 0 && firstTime == d.time && lastTime == LastTime(d)
      ensures last == LastToRemove(d, trimEnd, excludeBitmap)
    {
      last := 0;
      if firstTime <= trimEnd <= lastTime {
        var scaled := (lastTime - trimEnd) * sampRate as real;
        assert scaled == PosFromEnd(d, trimEnd);
        hide PosFromEnd, LastTime;
        last := (scaled + 0.5).Floor;
        if excludeBitmap & EXCLUDE_LAST != 0 {
          last := last + 1;
        }
      }
    }

    /** Removes them. */
    method Remove(first: nat, last: nat, ghost d: DataProcess) returns (ret: int)
      requires Is(d)
      modifies this, pDataPtr
      ensures ret == Cut(d, first, last).0 && Is(Cut(d, first, last).1)
    {
      ret := 0;
      if first > 0 || last > 0 {
        var newNSamp := nSamp - (first + last);
        if newNSamp > 0 {
          if first > 0 {
            x0 := pDataPtr[first];
          }
          if last > 0 {
            xn := pDataPtr[nSamp - last];
          }
          ShiftSamples(first);
          nSamp := newNSamp;
          time := time + first as real / sampRate as real;
          ret := 1;
        } else if newNSamp == 0 {
          nSamp := 0;
          x0 := -1;
          xn := -1;
          ret := 1;
        }
      } else {
        ret := 2;
      }
    }

    /** nmxp_data_trim, on a packet that is not NULL. */
    method TrimTo(trimStart: real, trimEnd: real, excludeBitmap: bv8) returns (ret: int)
      requires Valid()
      modifies this, pDataPtr
      ensures Valid()
      ensures (ret, Contents()) == Trimmed(old(Contents()), trimStart, trimEnd, excludeBitmap)
    {
      ghost var d := Contents();
      hide FirstToRemove, LastToRemove;
      var first, last := Count(trimStart, trimEnd, excludeBitmap, d);
      ret := Remove(first, last, d);
      IsContents(Cut(d, first, last).1);
    }
  }
}
