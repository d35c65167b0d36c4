/** What the reorder buffer is for: it refines "sort and send what is complete",
    whatever the order of arrival, and time-outs empty it. */
module RawStreamReorder {
  import opened Packets
  import opened Wrappers
  import opened RawStream
  import opened RawStreamStep
  import opened RawStreamRuns

  // ----- reordering ---------------------------------------------------------

  /** Every call brings a packet, and the forced branch is never taken. */
  predicate Plain(cfg: Config, s: State, run: seq<Turn>) {
    run == [] ||
    var n := |run| - 1;
    && Plain(cfg, s, run[..n])
    && run[n].call.pd.Some? && !ForceDue(cfg, After(s, run[..n]), run[n].call)
  }

  /** The first number to send: that of the first arrival, or 1 when a time-out is set. */
  function First(cfg: Config, run: seq<Turn>): int
    requires run != [] && run[0].call.pd.Some?
  {
    if cfg.timeoutRecv == 0 then run[0].call.pd.value.seqNo else 1
  }

  ghost predicate Arrived(run: seq<Turn>, n: int) {
    exists p :: p in Received(run) && p.seqNo == n
  }

  /** `kept` is what `all` holds above `last`, with the same multiplicities. */
  ghost predicate KeepsAbove(kept: seq<Packet>, all: seq<Packet>, last: int) {
    forall p :: multiset(kept)[p] == if p.seqNo > last then multiset(all)[p] else 0
  }

  lemma SplitAbove(q: seq<Packet>, k: nat, last: int)
    requires k <= |q|
    requires forall i :: 0 <= i < k ==> q[i].seqNo <= last
    requires forall i :: k <= i < |q| ==> q[i].seqNo > last
    ensures KeepsAbove(q[k..], q, last)
  {
    assert q == q[..k] + q[k..];
    assert forall p :: p in q[k..] ==> p.seqNo > last;
    assert forall p :: p in q[..k] ==> p.seqNo <= last;
  }

  lemma KeepsAboveMore(kept: seq<Packet>, all: seq<Packet>, last: int,
                       more: seq<Packet>, kept': seq<Packet>, last': int)
    requires KeepsAbove(kept, all, last) && KeepsAbove(kept', kept + more, last') && last <= last'
    ensures KeepsAbove(kept', all + more, last')
  {
  }

  lemma DrainKeepsAbove(last: int, q: seq<Packet>)
    requires Sorted(q)
    ensures KeepsAbove(Drain(last, q).state.buf, q, Drain(last, q).state.last)
  {
    DrainSplits(last, q);
    var r := Drain(last, q).state;
    hide Drain, KeepsAbove;
    var k := |q| - |r.buf|;
    assert forall i :: k <= i < |q| ==> q[i] == r.buf[i - k] && q[k].seqNo <= q[i].seqNo;
    SplitAbove(q, k, r.last);
  }

  /** A call with a packet and without a forced send. */
  lemma PlainStep(cfg: Config, s: State, c: Call, out: Outcome)
    requires cfg.capacity > 0 && Inv(cfg, s) && Step(cfg, s, c, out)
    requires c.pd.Some? && !ForceDue(cfg, s, c)
    ensures Consecutive(Sent(out.events), Primed(cfg, s, c).state.last, out.state.last)
    ensures KeepsAbove(out.state.buf, s.buf + Arriving(c), out.state.last)
    ensures 0 <= out.state.last
  {
    var q :| StepVia(cfg, s, c, q, out);
    var last := Intake(cfg, s, c).state.last;
    assert last == Primed(cfg, s, c).state.last;
    var _, sent := StepSends(cfg, s, c, q, out);
    assert Sent(out.events) == sent;
    DrainKeepsAbove(last, q);
    if s.last == -1 {
      FirstPacket(cfg, s, c, q, out);
    } else {
      StepAdvances(cfg, s, c, q, out);
    }
  }

  lemma ConsecutiveConcat(a: seq<Packet>, b: seq<Packet>, lo: int, mid: int, hi: int)
    requires Consecutive(a, lo, mid) && Consecutive(b, mid, hi)
    ensures Consecutive(a + b, lo, hi)
  {
  }

  lemma PlainFirst(cfg: Config, turn: Turn)
    requires IsRun(cfg, [turn]) && Plain(cfg, INIT, [turn])
    ensures 0 <= turn.out.state.last
    ensures Consecutive(Sent(turn.out.events), First(cfg, [turn]) - 1, turn.out.state.last)
    ensures KeepsAbove(turn.out.state.buf, Arriving(turn.call), turn.out.state.last)
  {
    assert [turn][..0] == [];
    PlainStep(cfg, INIT, turn.call, turn.out);
    assert INIT.buf + Arriving(turn.call) == Arriving(turn.call);
  }

  /** A run taken apart at its last call. */
  lemma LastTurn(cfg: Config, run: seq<Turn>)
    requires IsRun(cfg, run) && |run| > 1 && Plain(cfg, INIT, run)
    ensures var n := |run| - 1;
      var earlier, turn := run[..n], run[n];
      && IsRun(cfg, earlier) && earlier != [] && Plain(cfg, INIT, earlier) && earlier[0] == run[0]
      && turn.call.pd.Some? && !ForceDue(cfg, After(INIT, earlier), turn.call)
      && Step(cfg, After(INIT, earlier), turn.call, turn.out) && After(INIT, run) == turn.out.state
      && Log(run) == Log(earlier) + turn.out.events && Received(run) == Received(earlier) + Arriving(turn.call)
  {
    hide Step, ForceDue, Arriving;
  }

  lemma {:induction false} OneTurn(cfg: Config, run: seq<Turn>)
    requires IsRun(cfg, run) && |run| == 1
    ensures run == [run[0]] && After(INIT, run) == run[0].out.state
    ensures Log(run) == run[0].out.events && Received(run) == Arriving(run[0].call)
  {
  }

  lemma {:induction false} PlainRun(cfg: Config, run: seq<Turn>)
    requires IsRun(cfg, run) && run != [] && Plain(cfg, INIT, run)
    ensures run[0].call.pd.Some?
    ensures 0 <= After(INIT, run).last
    ensures Consecutive(Sent(Log(run)), First(cfg, run) - 1, After(INIT, run).last)
    ensures KeepsAbove(After(INIT, run).buf, Received(run), After(INIT, run).last)
  {
    if |run| == 1 {
      OneTurn(cfg, run);
      PlainFirst(cfg, run[0]);
    } else {
      LastTurn(cfg, run);
      var earlier, turn := run[..|run| - 1], run[|run| - 1];
      PlainRun(cfg, earlier);
      RunInv(cfg, earlier);
      hide IsRun, Plain, After, Log, Received, KeepsAbove, Consecutive, Step, Inv, ForceDue, Sent, Arriving, Primed;
      PlainNext(cfg, After(INIT, earlier), turn.call, turn.out);
      SentConcat(Log(earlier), turn.out.events);
      ConsecutiveConcat(Sent(Log(earlier)), Sent(turn.out.events),
                        First(cfg, run) - 1, After(INIT, earlier).last, turn.out.state.last);
      KeepsAboveMore(After(INIT, earlier).buf, Received(earlier), After(INIT, earlier).last,
                     Arriving(turn.call), turn.out.state.buf, turn.out.state.last);
    }
  }

  lemma RunInv(cfg: Config, run: seq<Turn>)
    requires IsRun(cfg, run)
    ensures cfg.capacity > 0 && Inv(cfg, After(INIT, run))
  {
    RunLegal(cfg, INIT, run);
  }

  /** `PlainStep`, once something has been sent. */
  lemma PlainNext(cfg: Config, s: State, c: Call, out: Outcome)
    requires cfg.capacity > 0 && Inv(cfg, s) && Step(cfg, s, c, out)
    requires c.pd.Some? && !ForceDue(cfg, s, c) && 0 <= s.last
    ensures Consecutive(Sent(out.events), s.last, out.state.last)
    ensures KeepsAbove(out.state.buf, s.buf + Arriving(c), out.state.last)
    ensures s.last <= out.state.last
  {
    PlainStep(cfg, s, c, out);
    StepInv(cfg, s, c, out);
    hide Step, Inv, ForceDue, Consecutive, KeepsAbove, Sent;
  }

  lemma SentWasReceived(cfg: Config, run: seq<Turn>, p: Packet)
    requires IsRun(cfg, run) && p in Sent(Log(run))
    ensures p in Received(run)
  {
    Conservation(cfg, run);
    hide Sent, Log, Received, IsRun;
    assert p in multiset(Sent(Log(run)));
    assert p in multiset(Received(run));
  }

  lemma SentHasArrived(cfg: Config, run: seq<Turn>, p: Packet)
    requires IsRun(cfg, run) && p in Sent(Log(run))
    ensures Arrived(run, p.seqNo)
  {
    SentWasReceived(cfg, run, p);
  }

  lemma NothingAtTheGap(cfg: Config, run: seq<Turn>)
    requires IsRun(cfg, run)
    requires KeepsAbove(After(INIT, run).buf, Received(run), After(INIT, run).last)
    ensures !Arrived(run, After(INIT, run).last + 1)
  {
    RunLegal(cfg, INIT, run);
    var s := After(INIT, run);
    forall p | p in Received(run) ensures p.seqNo != s.last + 1 {
      if p.seqNo > s.last {
        assert p in multiset(Received(run));
        assert p in multiset(s.buf);
      }
    }
  }

  /** Reordering: however the packets arrive, with whatever duplicates, the numbers
      sent are f, f+1, ..., m, where m is as large as the arrivals allow, and the
      buffer holds exactly the arrivals numbered above m. */
  lemma Reordering(cfg: Config, run: seq<Turn>)
    requires IsRun(cfg, run) && run != [] && Plain(cfg, INIT, run)
    ensures run[0].call.pd.Some?
    ensures Consecutive(Sent(Log(run)), First(cfg, run) - 1, After(INIT, run).last)
    ensures forall n :: First(cfg, run) <= n <= After(INIT, run).last ==> Arrived(run, n)
    ensures !Arrived(run, After(INIT, run).last + 1)
    ensures KeepsAbove(After(INIT, run).buf, Received(run), After(INIT, run).last)
  {
    PlainRun(cfg, run);
    NothingAtTheGap(cfg, run);
    hide IsRun, KeepsAbove, Received, Plain;
    forall n | First(cfg, run) <= n <= After(INIT, run).last ensures Arrived(run, n) {
      SentHasArrived(cfg, run, Sent(Log(run))[n - First(cfg, run)]);
    }
  }

  lemma ArrivedInAnyOrder(run: seq<Turn>, run': seq<Turn>, n: int)
    requires multiset(Received(run)) == multiset(Received(run')) && Arrived(run, n)
    ensures Arrived(run', n)
  {
    var p :| p in Received(run) && p.seqNo == n;
    assert p in multiset(Received(run'));
  }

  lemma SameKept(kept: seq<Packet>, kept': seq<Packet>, all: seq<Packet>, all': seq<Packet>, last: int)
    requires KeepsAbove(kept, all, last) && KeepsAbove(kept', all', last)
    requires multiset(all) == multiset(all')
    ensures multiset(kept) == multiset(kept')
  {
  }

  /** One run gets no further than another on the same packets. */
  lemma SameFrontier(cfg: Config, run: seq<Turn>, run': seq<Turn>)
    requires IsRun(cfg, run) && run != [] && Plain(cfg, INIT, run)
    requires IsRun(cfg, run') && run' != [] && Plain(cfg, INIT, run')
    requires multiset(Received(run)) == multiset(Received(run'))
    requires run[0].call.pd.Some? && run'[0].call.pd.Some? && First(cfg, run) == First(cfg, run')
    ensures After(INIT, run).last <= After(INIT, run').last
  {
    Reordering(cfg, run);
    Reordering(cfg, run');
    hide KeepsAbove, Arrived, IsRun, Plain;
    if After(INIT, run).last > After(INIT, run').last {
      ArrivedInAnyOrder(run, run', After(INIT, run').last + 1);
    }
  }

  /** The order of arrival does not matter: same packets, same first number, then the
      same numbers have been sent and the same packets are still waiting. */
  lemma ArrivalOrderIsIrrelevant(cfg: Config, run: seq<Turn>, run': seq<Turn>)
    requires IsRun(cfg, run) && run != [] && Plain(cfg, INIT, run)
    requires IsRun(cfg, run') && run' != [] && Plain(cfg, INIT, run')
    requires multiset(Received(run)) == multiset(Received(run'))
    requires run[0].call.pd.Some? && run'[0].call.pd.Some? && First(cfg, run) == First(cfg, run')
    ensures After(INIT, run).last == After(INIT, run').last
    ensures multiset(After(INIT, run).buf) == multiset(After(INIT, run').buf)
    ensures |Sent(Log(run))| == |Sent(Log(run'))|
    ensures forall i :: 0 <= i < |Sent(Log(run))| ==> Sent(Log(run))[i].seqNo == Sent(Log(run'))[i].seqNo
  {
    SameFrontier(cfg, run, run');
    SameFrontier(cfg, run', run);
    PlainRun(cfg, run);
    PlainRun(cfg, run');
    hide KeepsAbove, IsRun, Plain, Received;
    SameKept(After(INIT, run).buf, After(INIT, run').buf, Received(run), Received(run'), After(INIT, run).last);
  }

  // ----- time-outs empty the buffer -----------------------------------------

  /** A time-out call on a waiting buffer sends the head's number first and leaves
      fewer packets. */
  lemma TimeoutSendsHead(cfg: Config, s: State, c: Call, out: Outcome)
    requires cfg.capacity > 0 && Inv(cfg, s) && Step(cfg, s, c, out)
    requires c.pd.None? && s.buf != []
    ensures Sent(out.events) != [] && Sent(out.events)[0].seqNo == s.buf[0].seqNo
    ensures |out.state.buf| < |s.buf|
  {
    var q :| StepVia(cfg, s, c, q, out);
    var forced, sent := StepSends(cfg, s, c, q, out);
    StepConserves(cfg, s, c, out);
    assert s.buf + Arriving(c) == s.buf;
    TimeoutIntake(cfg, s, c, q, out);
    if forced == [] {
      RebaseFacts(cfg, s, c, q, out);
    }
    hide Intake, Rebased, StepVia, Conserves, Sent, ForceDue, Step, Inv;
    Counted(s.buf, out.events, out.state.buf);
  }

  /** Without a forced send, the buffer that a time-out call sorts is the one it found. */
  lemma TimeoutIntake(cfg: Config, s: State, c: Call, q: seq<Packet>, out: Outcome)
    requires cfg.capacity > 0 && Inv(cfg, s) && StepVia(cfg, s, c, q, out) && c.pd.None? && s.buf != []
    ensures !ForceDue(cfg, s, c) ==> q != [] && q[0].seqNo == s.buf[0].seqNo
  {
    IntakeNumbers(cfg, s, c);
    SameSize(q, Intake(cfg, s, c).state.buf);
    if !ForceDue(cfg, s, c) {
      SortedHeadIsMin(q, Intake(cfg, s, c).state.buf);
    }
  }

  lemma Counted(before: seq<Packet>, events: seq<Event>, after: seq<Packet>)
    requires Conserves(before, events, after)
    ensures |before| == |Sent(events)| + |Dropped(events)| + |after|
  {
    assert |multiset(before)| == |multiset(Sent(events))| + |multiset(Dropped(events))| + |multiset(after)|;
  }

  lemma TimeoutShrinks(cfg: Config, s: State, c: Call, out: Outcome)
    requires cfg.capacity > 0 && Inv(cfg, s) && Step(cfg, s, c, out) && c.pd.None?
    ensures |out.state.buf| <= if s.buf == [] then 0 else |s.buf| - 1
  {
    if s.buf != [] {
      TimeoutSendsHead(cfg, s, c, out);
    } else {
      StepConserves(cfg, s, c, out);
      assert s.buf + Arriving(c) == [];
      Counted([], out.events, out.state.buf);
    }
  }

  predicate AllTimeouts(run: seq<Turn>) {
    forall i :: 0 <= i < |run| ==> run[i].call.pd.None?
  }

  lemma {:induction false} TimeoutsShrink(cfg: Config, s: State, run: seq<Turn>)
    requires cfg.capacity > 0 && Inv(cfg, s) && RunFrom(cfg, s, run) && AllTimeouts(run)
    ensures |After(s, run).buf| <= if |run| < |s.buf| then |s.buf| - |run| else 0
  {
    if run != [] {
      var n := |run| - 1;
      TimeoutsShrink(cfg, s, run[..n]);
      RunLegal(cfg, s, run[..n]);
      hide Inv, Legal, Step;
      TimeoutShrinks(cfg, After(s, run[..n]), run[n].call, run[n].out);
    }
  }

  /** As many time-out calls as there are packets in the buffer empty it, and all of
      them have then been sent or dropped as stale. */
  lemma TimeoutsDrain(cfg: Config, s: State, run: seq<Turn>)
    requires cfg.capacity > 0 && Inv(cfg, s) && RunFrom(cfg, s, run) && AllTimeouts(run)
    requires |run| >= |s.buf|
    ensures After(s, run).buf == []
    ensures multiset(s.buf) == multiset(Sent(Log(run))) + multiset(Dropped(Log(run)))
  {
    TimeoutsShrink(cfg, s, run);
    RunConserves(cfg, s, run);
    NothingReceived(run);
    assert s.buf + Received(run) == s.buf;
  }

  lemma {:induction false} NothingReceived(run: seq<Turn>)
    requires AllTimeouts(run)
    ensures Received(run) == []
  {
    if run != [] {
      NothingReceived(run[..|run| - 1]);
    }
  }

  // ----- the exception ------------------------------------------------------

  /** A run in which the same number is sent twice: 8 waits twice, the time-out call
      is late, so the first 8 is forced out and the second one is re-based to. */
  const FIVE: Packet := DataProcess(0, 0, 0, 0, 0, 5, 0.0, 1, [])
  const EIGHT: Packet := DataProcess(0, 0, 0, 0, 0, 8, 0.0, 1, [])
  const SMALL_CONFIG := Config(40, 0)
  const ARRIVAL_5 := Turn(Call(Some(FIVE), false), Outcome(State(5, []), [Base(4), Send(FIVE)]))
  const ARRIVAL_8 := Turn(Call(Some(EIGHT), false), Outcome(State(5, [EIGHT]), []))
  const ARRIVAL_8_TWICE := Turn(Call(Some(EIGHT), false), Outcome(State(5, [EIGHT, EIGHT]), []))
  const LATE_TIMEOUT := Turn(Call(None, true), Outcome(State(8, []), [Force(EIGHT), Rebase(7), Send(EIGHT)]))
  const TWIN_RUN := [] + [ARRIVAL_5] + [ARRIVAL_8] + [ARRIVAL_8_TWICE] + [LATE_TIMEOUT]

  lemma FirstArrival()
    ensures Step(SMALL_CONFIG, INIT, ARRIVAL_5.call, ARRIVAL_5.out)
  {
    assert Intake(SMALL_CONFIG, INIT, ARRIVAL_5.call) == Outcome(State(4, [FIVE]), [Base(4)]);
    assert Drain(4, [FIVE]) == Outcome(State(5, []), [Send(FIVE)]);
    hide Intake, Drain;
    assert StepVia(SMALL_CONFIG, INIT, ARRIVAL_5.call, [FIVE], ARRIVAL_5.out);
  }

  lemma WaitingArrival(waiting: seq<Packet>)
    requires waiting == [] || waiting == [EIGHT]
    ensures Step(SMALL_CONFIG, State(5, waiting), Call(Some(EIGHT), false),
                 Outcome(State(5, waiting + [EIGHT]), []))
  {
    hide Legal, LastAfter, Sent, Dropped;
    var c, q := Call(Some(EIGHT), false), waiting + [EIGHT];
    assert Intake(SMALL_CONFIG, State(5, waiting), c) == Outcome(State(5, q), []);
    assert Drain(5, q) == Outcome(State(5, q), []);
    assert StepVia(SMALL_CONFIG, State(5, waiting), c, q, Outcome(State(5, q), []));
  }

  lemma TwinArrivals()
    ensures Step(SMALL_CONFIG, INIT, ARRIVAL_5.call, ARRIVAL_5.out)
    ensures Step(SMALL_CONFIG, ARRIVAL_5.out.state, ARRIVAL_8.call, ARRIVAL_8.out)
    ensures Step(SMALL_CONFIG, ARRIVAL_8.out.state, ARRIVAL_8_TWICE.call, ARRIVAL_8_TWICE.out)
  {
    hide Step;
    FirstArrival();
    WaitingArrival([]);
    WaitingArrival([EIGHT]);
    assert [] + [EIGHT] == [EIGHT] && [EIGHT] + [EIGHT] == [EIGHT, EIGHT];
  }

  lemma TwinTimeout()
    ensures Step(SMALL_CONFIG, ARRIVAL_8_TWICE.out.state, LATE_TIMEOUT.call, LATE_TIMEOUT.out)
    ensures TwinHeads(SMALL_CONFIG, ARRIVAL_8_TWICE.out.state, LATE_TIMEOUT.call)
  {
    assert [EIGHT, EIGHT][1..] == [EIGHT];
    assert Drain(7, [EIGHT]) == Outcome(State(8, []), [Send(EIGHT)]);
    assert StepVia(SMALL_CONFIG, ARRIVAL_8_TWICE.out.state, LATE_TIMEOUT.call, [EIGHT], LATE_TIMEOUT.out);
  }

  lemma TwinIsSentTwice()
    ensures IsRun(SMALL_CONFIG, TWIN_RUN) && !Increasing(Sent(Log(TWIN_RUN)))
  {
    TwinArrivals();
    TwinTimeout();
    hide Step, TwinHeads, Increasing, Sent, Log;
    ExtendRun(SMALL_CONFIG, INIT, [], ARRIVAL_5);
    ExtendRun(SMALL_CONFIG, INIT, [] + [ARRIVAL_5], ARRIVAL_8);
    ExtendRun(SMALL_CONFIG, INIT, [] + [ARRIVAL_5] + [ARRIVAL_8], ARRIVAL_8_TWICE);
    var arrivals := [] + [ARRIVAL_5] + [ARRIVAL_8] + [ARRIVAL_8_TWICE];
    ExtendRun(SMALL_CONFIG, INIT, arrivals, LATE_TIMEOUT);
    assert TWIN_RUN[..3] == arrivals;
    OutputOrder(SMALL_CONFIG, TWIN_RUN);
  }
}
