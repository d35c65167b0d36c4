/** What one time-out call leaves in the reorder buffer. At shutdown the client makes a
    single such call for each channel, and what stays behind is never sent. */
module RawStreamFlush {
  import opened Packets
  import opened Sequences
  import opened Wrappers
  import opened RawStream
  import opened RawStreamStep
  import opened RawStreamRuns
  import opened RawStreamReorder

  /** No number is missing between the first packet and the last. */
  predicate Gapless(q: seq<Packet>) {
    forall i :: 0 < i < |q| ==> q[i].seqNo - q[i - 1].seqNo <= 1
  }

  /** How many packets come before the first missing number. */
  function Reach(q: seq<Packet>): (k: nat)
    ensures k <= |q|
  {
    if |q| <= 1 then |q|
    else if q[1].seqNo - q[0].seqNo <= 1 then 1 + Reach(q[1..])
    else 1
  }

  lemma {:induction false} ReachesAll(q: seq<Packet>)
    ensures Reach(q) == |q| <==> Gapless(q)
    ensures Gapless(q[..Reach(q)])
    ensures Reach(q) < |q| ==> 0 < Reach(q) && q[Reach(q)].seqNo - q[Reach(q) - 1].seqNo > 1
  {
    if |q| > 1 {
      GaplessHead(q);
      ReachesAll(q[1..]);
      if q[1].seqNo - q[0].seqNo <= 1 {
        assert q[..Reach(q)][1..] == q[1..][..Reach(q[1..])];
        GaplessHead(q[..Reach(q)]);
      }
    }
  }

  /** The loop that starts just before or at the head stops at the first missing number. */
  lemma {:induction false} DrainLeaves(last: int, q: seq<Packet>)
    requires Sorted(q) && q != [] && last <= q[0].seqNo <= last + 1
    ensures Drain(last, q).state.buf == q[Reach(q)..]
    decreases q
  {
    var head, rest := q[0].seqNo, q[1..];
    DrainHead(last, q);
    hide Drain;
    if rest != [] && rest[0].seqNo <= head + 1 {
      DrainLeaves(head, rest);
      assert rest[Reach(rest)..] == q[1 + Reach(rest)..];
    } else {
      DrainStops(head, rest);
    }
  }

  lemma DrainHead(last: int, q: seq<Packet>)
    requires q != [] && last <= q[0].seqNo <= last + 1
    ensures Drain(last, q).state == Drain(q[0].seqNo, q[1..]).state
  {
  }

  lemma DrainStops(last: int, q: seq<Packet>)
    requires q != [] ==> q[0].seqNo > last + 1
    ensures Drain(last, q) == Outcome(State(last, q), [])
  {
  }

  lemma GaplessHead(q: seq<Packet>)
    requires q != []
    ensures Gapless(q) <==> (|q| > 1 ==> q[1].seqNo <= q[0].seqNo + 1) && Gapless(q[1..])
  {
    var rest := q[1..];
    assert forall i :: 0 < i < |rest| ==> rest[i] == q[i + 1] && rest[i - 1] == q[i];
    if (|q| > 1 ==> q[1].seqNo <= q[0].seqNo + 1) && Gapless(rest) {
      forall i | 0 < i < |q| ensures q[i].seqNo - q[i - 1].seqNo <= 1 {
        if i > 1 {
          assert rest[i - 1].seqNo - rest[i - 2].seqNo <= 1;
        }
      }
    }
  }

  // ----- qsort does not change the numbers ----------------------------------

  function Numbers(q: seq<Packet>): (ns: seq<int>)
    ensures |ns| == |q| && forall i :: 0 <= i < |q| ==> ns[i] == q[i].seqNo
  {
    seq(|q|, i requires 0 <= i < |q| => q[i].seqNo)
  }

  lemma NumbersOut(q: seq<Packet>, k: nat)
    requires k < |q|
    ensures multiset(Numbers(q)) == multiset{q[k].seqNo} + multiset(Numbers(q[..k] + q[k + 1..]))
  {
    TakeOut(Numbers(q), k);
    assert Numbers(q)[..k] + Numbers(q)[k + 1..] == Numbers(q[..k] + q[k + 1..]);
  }

  /** The first packet of `a` is somewhere in `b`; without it they still have the same. */
  lemma TakeBoth(a: seq<Packet>, b: seq<Packet>) returns (k: nat)
    requires a != [] && multiset(a) == multiset(b)
    ensures k < |b| && b[k] == a[0]
    ensures multiset(a[..0] + a[1..]) == multiset(b[..k] + b[k + 1..])
  {
    assert a[0] in multiset(b);
    k :| 0 <= k < |b| && b[k] == a[0];
    TakeOut(a, 0);
    TakeOut(b, k);
    Cancel(a[0], multiset(a[..0] + a[1..]), multiset(b[..k] + b[k + 1..]));
  }

  lemma EmptyToo(q: seq<Packet>)
    requires multiset(q) == multiset{}
    ensures q == []
  {
    assert |multiset(q)| == |q|;
  }

  lemma {:induction false} SameNumbers(a: seq<Packet>, b: seq<Packet>)
    requires multiset(a) == multiset(b)
    ensures multiset(Numbers(a)) == multiset(Numbers(b))
    decreases |a|
  {
    hide *;
    if a == [] {
      EmptyToo(b);
    } else {
      var k := TakeBoth(a, b);
      NumbersOut(a, 0);
      NumbersOut(b, k);
      SameNumbers(a[..0] + a[1..], b[..k] + b[k + 1..]);
    }
  }

  predicate Rising(ns: seq<int>) {
    forall i, j :: 0 <= i < j < |ns| ==> ns[i] <= ns[j]
  }

  lemma {:induction false} OneOrder(a: seq<int>, b: seq<int>)
    requires Rising(a) && Rising(b) && multiset(a) == multiset(b)
    ensures a == b
  {
    if a == [] {
      assert |multiset(b)| == 0;
    } else {
      assert a[0] in multiset(b);
      assert b != [] && b[0] in multiset(a);
      assert a[0] == b[0];
      HeadOut(a, []);
      HeadOut(b, []);
      Cancel(a[0], multiset(a[1..]), multiset(b[1..]));
      OneOrder(a[1..], b[1..]);
    }
  }

  lemma SortKeepsNumbers(q: seq<Packet>, unsorted: seq<Packet>)
    requires SortOf(q, unsorted) && Sorted(unsorted)
    ensures Numbers(q) == Numbers(unsorted) && Sorted(q)
  {
    SameNumbers(q, unsorted);
    OneOrder(Numbers(q), Numbers(unsorted));
  }

  lemma {:induction false} ReachOfNumbers(a: seq<Packet>, b: seq<Packet>)
    requires Numbers(a) == Numbers(b)
    ensures Reach(a) == Reach(b)
  {
    forall i | 0 <= i < |a| ensures |a| == |b| && a[i].seqNo == b[i].seqNo {
      assert Numbers(a)[i] == Numbers(b)[i];
    }
    if |a| > 1 {
      assert Numbers(a[1..]) == Numbers(b[1..]);
      ReachOfNumbers(a[1..], b[1..]);
    }
  }

  // ----- one time-out call --------------------------------------------------

  /** The packets that a time-out call has to sort: all, less the head if it is forced. */
  function Waiting(cfg: Config, s: State, c: Call): seq<Packet>
    requires s.buf != []
  {
    if ForceDue(cfg, s, c) then s.buf[1..] else s.buf
  }

  /** One time-out call leaves exactly what waits behind the first missing number, the
      forced head not counted. */
  lemma OneTimeoutLeaves(cfg: Config, s: State, c: Call, out: Outcome)
    requires cfg.capacity > 0 && Inv(cfg, s) && Step(cfg, s, c, out)
    requires c.pd.None? && s.buf != []
    ensures Numbers(out.state.buf) == Numbers(Waiting(cfg, s, c))[Reach(Waiting(cfg, s, c))..]
  {
    var q: seq<Packet> := StepOutput(cfg, s, c, out);
    var w := Waiting(cfg, s, c);
    WaitingIsSorted(cfg, s, c);
    hide *;
    SortKeepsNumbers(q, w);
    ReachOfNumbers(q, w);
    OutputLeaves(q, out.state.buf);
    NumbersFrom(q, Reach(q));
  }

  /** What a time-out call does once qsort has returned q. */
  lemma StepOutput(cfg: Config, s: State, c: Call, out: Outcome) returns (q: seq<Packet>)
    requires Step(cfg, s, c, out) && c.pd.None?
    ensures SortOf(q, Intake(cfg, s, c).state.buf)
    ensures out.state.buf == if q == [] then [] else Drain(q[0].seqNo - 1, q).state.buf
  {
    q :| StepVia(cfg, s, c, q, out);
    OutputIsDrain(Intake(cfg, s, c).state.last, q, c);
    hide Intake, SortOf, Drain, Output;
  }

  lemma OutputLeaves(q: seq<Packet>, left: seq<Packet>)
    requires Sorted(q) && left == if q == [] then [] else Drain(q[0].seqNo - 1, q).state.buf
    ensures left == q[Reach(q)..]
  {
    if q != [] {
      DrainLeaves(q[0].seqNo - 1, q);
    }
  }

  lemma NumbersFrom(q: seq<Packet>, k: nat)
    requires k <= |q|
    ensures Numbers(q[k..]) == Numbers(q)[k..]
  {
  }

  lemma OutputIsDrain(last: int, q: seq<Packet>, c: Call)
    requires c.pd.None?
    ensures Output(last, q, c).state.buf == if q == [] then [] else Drain(q[0].seqNo - 1, q).state.buf
  {
  }

  /** So it empties the buffer if and only if no number is missing among those packets. */
  lemma OneTimeoutEmpties(cfg: Config, s: State, c: Call, out: Outcome)
    requires cfg.capacity > 0 && Inv(cfg, s) && Step(cfg, s, c, out)
    requires c.pd.None? && s.buf != []
    ensures out.state.buf == [] <==> Gapless(Waiting(cfg, s, c))
  {
    var w := Waiting(cfg, s, c);
    OneTimeoutLeaves(cfg, s, c, out);
    ReachesAll(w);
    hide Waiting, Inv, Step, Gapless, Reach;
    assert |out.state.buf| == |w| - Reach(w) by { assert |Numbers(out.state.buf)| == |out.state.buf|; }
  }

  lemma WaitingIsSorted(cfg: Config, s: State, c: Call)
    requires Inv(cfg, s) && c.pd.None? && s.buf != []
    ensures Intake(cfg, s, c).state.buf == Waiting(cfg, s, c) && Sorted(Waiting(cfg, s, c))
  {
    assert [] + s.buf[1..] == s.buf[1..] && s.buf + [] == s.buf;
  }

  // ----- a run that leaves a packet behind ----------------------------------

  /** After 5, the packets 7 and 9 wait. One time-out call sends 7, and 9 stays. */
  const SEVEN: Packet := DataProcess(0, 0, 0, 0, 0, 7, 0.0, 1, [])
  const NINE: Packet := DataProcess(0, 0, 0, 0, 0, 9, 0.0, 1, [])
  const ARRIVAL_7 := Turn(Call(Some(SEVEN), false), Outcome(State(5, [SEVEN]), []))
  const ARRIVAL_9 := Turn(Call(Some(NINE), false), Outcome(State(5, [SEVEN, NINE]), []))
  const FLUSH := Turn(Call(None, false), Outcome(State(7, [NINE]), [Rebase(6), Send(SEVEN)]))
  const FLUSH_RUN := [] + [ARRIVAL_5] + [ARRIVAL_7] + [ARRIVAL_9] + [FLUSH]

  /** A step that is not due to force anything. */
  lemma SimpleStep(s: State, c: Call, q: seq<Packet>, out: Outcome)
    requires s.last >= 0 && !ForceDue(SMALL_CONFIG, s, c) && s.buf + Arriving(c) == q && Sorted(q)
    requires out == Output(s.last, q, c)
    ensures Step(SMALL_CONFIG, s, c, out)
  {
    assert Intake(SMALL_CONFIG, s, c) == Outcome(State(s.last, q), []);
    assert [] + out.events == out.events;
    hide Intake, Output;
    assert StepVia(SMALL_CONFIG, s, c, q, out);
  }

  lemma LaterSteps()
    ensures Step(SMALL_CONFIG, ARRIVAL_5.out.state, ARRIVAL_7.call, ARRIVAL_7.out)
    ensures Step(SMALL_CONFIG, ARRIVAL_7.out.state, ARRIVAL_9.call, ARRIVAL_9.out)
    ensures Step(SMALL_CONFIG, ARRIVAL_9.out.state, FLUSH.call, FLUSH.out)
  {
    hide Step;
    DrainStops(5, [SEVEN]);
    SimpleStep(State(5, []), ARRIVAL_7.call, [SEVEN], ARRIVAL_7.out);
    DrainStops(5, [SEVEN, NINE]);
    SimpleStep(State(5, [SEVEN]), ARRIVAL_9.call, [SEVEN, NINE], ARRIVAL_9.out);
    assert [SEVEN, NINE][1..] == [NINE];
    DrainStops(7, [NINE]);
    assert Drain(6, [SEVEN, NINE]) == Outcome(State(7, [NINE]), [Send(SEVEN)]);
    SimpleStep(State(5, [SEVEN, NINE]), FLUSH.call, [SEVEN, NINE], FLUSH.out);
  }

  lemma PacketIsLeft()
    ensures IsRun(SMALL_CONFIG, FLUSH_RUN) && FLUSH_RUN[3].call.pd.None? && After(INIT, FLUSH_RUN).buf == [NINE]
  {
    FirstArrival();
    LaterSteps();
    hide Step;
    ExtendRun(SMALL_CONFIG, INIT, [], ARRIVAL_5);
    ExtendRun(SMALL_CONFIG, INIT, [] + [ARRIVAL_5], ARRIVAL_7);
    ExtendRun(SMALL_CONFIG, INIT, [] + [ARRIVAL_5] + [ARRIVAL_7], ARRIVAL_9);
    ExtendRun(SMALL_CONFIG, INIT, [] + [ARRIVAL_5] + [ARRIVAL_7] + [ARRIVAL_9], FLUSH);
  }
}
