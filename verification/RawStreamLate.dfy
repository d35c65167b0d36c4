/** When the reorder buffer gives up waiting: the head is sent out of sequence just when the
    buffer is full, or the head is too late and no time-out is set. */
module RawStreamLate {
  import opened Sequences
  import opened RawStream
  import opened RawStreamStep
  import opened RawStreamRuns
  import opened RawStreamReorder

  // ----- one call -----------------------------------------------------------

  lemma {:induction false} DrainForcesNothing(last: int, q: seq<Packet>)
    ensures forall e :: e in Drain(last, q).events ==> !e.Force?
    decreases q
  {
    if q != [] && q[0].seqNo - last <= 1 {
      DrainForcesNothing(if q[0].seqNo <= last then last else q[0].seqNo, q[1..]);
    }
  }

  lemma OutputForcesNothing(last: int, q: seq<Packet>, c: Call)
    ensures forall e :: e in Output(last, q, c).events ==> !e.Force?
  {
    DrainForcesNothing(Rebased(last, q, c).state.last, q);
    hide Drain;
  }

  lemma IntakeForces(cfg: Config, s: State, c: Call)
    requires cfg.capacity > 0 && Inv(cfg, s)
    ensures forall p :: Force(p) in Intake(cfg, s, c).events <==>
              s.buf != [] && p == s.buf[0] && (|s.buf| == cfg.capacity || (c.late && cfg.timeoutRecv <= 0))
  {
  }

  /** A head is forced out just when the buffer is full, or the head is too late and no
      time-out is set; and only the head ever is. */
  lemma ForcedJustWhenDue(cfg: Config, s: State, c: Call, out: Outcome)
    requires cfg.capacity > 0 && Inv(cfg, s) && Step(cfg, s, c, out)
    ensures forall p :: Force(p) in out.events <==>
              s.buf != [] && p == s.buf[0] && (|s.buf| == cfg.capacity || (c.late && cfg.timeoutRecv <= 0))
  {
    var q: seq<Packet> :| StepVia(cfg, s, c, q, out);
    IntakeForces(cfg, s, c);
    OutputForcesNothing(Intake(cfg, s, c).state.last, q, c);
    hide Intake, Output, Inv;
  }

  // ----- what the buffer holds, in every run --------------------------------

  /** What qsort gets is what was there, but for a head that has been sent. */
  lemma IntakeKeeps(cfg: Config, s: State, c: Call)
    requires cfg.capacity > 0 && Inv(cfg, s)
    ensures forall p: Packet :: p.seqNo > Intake(cfg, s, c).state.last ==>
              multiset(Intake(cfg, s, c).state.buf)[p] == multiset(s.buf + Arriving(c))[p]
  {
    IntakePackets(cfg, s, c);
    IntakeNumbers(cfg, s, c);
    IntakeDropsNothing(cfg, s, c);
    hide Intake, Inv, ForceDue, Arriving;
    var head := if ForceDue(cfg, s, c) && s.buf != [] then [s.buf[0]] else [];
    assert multiset(s.buf + Arriving(c)) == multiset(head) + multiset(Intake(cfg, s, c).state.buf);
  }

  lemma IntakeDropsNothing(cfg: Config, s: State, c: Call)
    requires cfg.capacity > 0 && Inv(cfg, s)
    ensures Dropped(Intake(cfg, s, c).events) == []
  {
    IntakeIs(cfg, s, c);
    PrimedFacts(cfg, s, c);
    var primed := Primed(cfg, s, c);
    var log := Admitted(cfg, primed.state, c).events;
    if log != [] {
      One(s.last, log[0]);
      assert log == [log[0]];
    }
    if primed.events != [] {
      One(s.last, primed.events[0]);
      assert primed.events == [primed.events[0]];
    }
    SentConcat(primed.events, log);
    hide Primed, Admitted, Intake, Sent;
  }

  /** Every call keeps exactly the packets that are still ahead. */
  lemma StepKeepsAbove(cfg: Config, s: State, c: Call, out: Outcome)
    requires cfg.capacity > 0 && Inv(cfg, s) && Step(cfg, s, c, out)
    ensures KeepsAbove(out.state.buf, s.buf + Arriving(c), out.state.last)
    ensures s.last <= out.state.last
  {
    var q: seq<Packet> :| StepVia(cfg, s, c, q, out);
    StepInv(cfg, s, c, out);
    IntakeKeeps(cfg, s, c);
    LastAtOutput(cfg, s, c, q, out);
    var last := Intake(cfg, s, c).state.last;
    DrainKeepsAbove(Rebased(last, q, c).state.last, q);
    assert Rebased(last, q, c).state.buf == q;
    hide Intake, Rebased, Drain, Inv, Step;
  }

  lemma LastAtOutput(cfg: Config, s: State, c: Call, q: seq<Packet>, out: Outcome)
    requires cfg.capacity > 0 && Inv(cfg, s) && StepVia(cfg, s, c, q, out)
    ensures Intake(cfg, s, c).state.last <= out.state.last
  {
    if c.pd.Some? {
      ShapeOfData(cfg, s, c, q, out);
    } else if q != [] {
      RebaseFacts(cfg, s, c, q, out);
    }
  }

  lemma {:induction false} RunKeepsAbove(cfg: Config, s: State, run: seq<Turn>)
    requires cfg.capacity > 0 && Inv(cfg, s) && RunFrom(cfg, s, run)
    ensures KeepsAbove(After(s, run).buf, s.buf + Received(run), After(s, run).last)
  {
    if run == [] {
      assert s.buf + [] == s.buf;
      assert forall p: Packet :: p in s.buf ==> p.seqNo > s.last;
    } else {
      var n := |run| - 1;
      var before, turn := After(s, run[..n]), run[n];
      RunKeepsAbove(cfg, s, run[..n]);
      RunLegal(cfg, s, run[..n]);
      hide Step, Inv, KeepsAbove, Arriving;
      StepKeepsAbove(cfg, before, turn.call, turn.out);
      KeepsAboveMore(before.buf, s.buf + Received(run[..n]), before.last, Arriving(turn.call),
                     turn.out.state.buf, turn.out.state.last);
      Assoc(s.buf, Received(run[..n]), Arriving(turn.call));
    }
  }

  /** In every run, forced sends and time-outs included, the buffer holds exactly the
      packets received that are numbered above the number sent last. */
  lemma BufferIsWhatIsAhead(cfg: Config, run: seq<Turn>)
    requires IsRun(cfg, run)
    ensures KeepsAbove(After(INIT, run).buf, Received(run), After(INIT, run).last)
  {
    InitIsFine(cfg);
    hide KeepsAbove, RunFrom, Received, Inv, After;
    RunKeepsAbove(cfg, INIT, run);
    assert INIT.buf + Received(run) == Received(run);
  }

  lemma InitIsFine(cfg: Config)
    ensures Inv(cfg, INIT)
  {
  }

  // ----- late calls ---------------------------------------------------------

  predicate AllLate(run: seq<Turn>) {
    forall i :: 0 <= i < |run| ==> run[i].call.late
  }

  /** What arrives is not older than what waits. */
  predicate NothingOlder(q: seq<Packet>, run: seq<Turn>) {
    forall i, j :: 0 <= i < |run| && 0 <= j < |q| && run[i].call.pd.Some? ==>
      q[j].seqNo <= run[i].call.pd.value.seqNo
  }

  /** With no time-out set, every late call passes at least the oldest packet on: after n
      of them the numbering has gone past the n oldest packets, unless older ones arrive. */
  lemma {:induction false} LateCallsPassOldest(cfg: Config, s: State, run: seq<Turn>)
    requires cfg.capacity > 0 && Inv(cfg, s) && RunFrom(cfg, s, run) && cfg.timeoutRecv <= 0
    requires AllLate(run) && NothingOlder(s.buf, run) && 0 < |run| <= |s.buf|
    ensures s.buf[|run| - 1].seqNo <= After(s, run).last
  {
    hide *;
    var n := |run| - 1;
    var before, turn := After(s, run[..n]), run[n];
    BeforeLastTurn(cfg, s, run);
    EarlierLate(s.buf, run);
    InvSorted(cfg, s);
    if n > 0 {
      LateCallsPassOldest(cfg, s, run[..n]);
    }
    RunKeepsAbove(cfg, s, run[..n]);
    OneMoreLate(cfg, before, turn, s.buf, run[..n], n);
  }

  lemma BeforeLastTurn(cfg: Config, s: State, run: seq<Turn>)
    requires cfg.capacity > 0 && Inv(cfg, s) && RunFrom(cfg, s, run) && run != []
    ensures var n := |run| - 1; var before, turn := After(s, run[..n]), run[n];
      Inv(cfg, before) && RunFrom(cfg, s, run[..n]) && Step(cfg, before, turn.call, turn.out) &&
      After(s, run) == turn.out.state
  {
    hide Inv, Step, Log, Legal, LastAfter, Received;
    RunLegal(cfg, s, run[..|run| - 1]);
  }

  /** The turn after `run`, which has gone past the n oldest of the packets that waited. */
  lemma OneMoreLate(cfg: Config, now: State, turn: Turn, waited: seq<Packet>, run: seq<Turn>, n: nat)
    requires cfg.capacity > 0 && Inv(cfg, now) && Step(cfg, now, turn.call, turn.out)
    requires cfg.timeoutRecv <= 0 && turn.call.late
    requires n < |waited| && Sorted(waited) && NothingOlder(waited, run)
    requires KeepsAbove(now.buf, waited + Received(run), now.last)
    requires n > 0 ==> waited[n - 1].seqNo <= now.last
    ensures waited[n].seqNo <= turn.out.state.last
  {
    InvSorted(cfg, now);
    StepInv(cfg, now, turn.call, turn.out);
    hide Inv, Step, Legal, LastAfter, KeepsAbove, NothingOlder, Sorted;
    if now.last < waited[n].seqNo {
      StillAhead(now, waited, run, n);
      LateCallPassesHead(cfg, now, turn.call, turn.out);
    }
  }

  lemma EarlierLate(q: seq<Packet>, run: seq<Turn>)
    requires run != [] && AllLate(run) && NothingOlder(q, run)
    ensures var n := |run| - 1; AllLate(run[..n]) && NothingOlder(q, run[..n]) && run[n].call.late
  {
  }

  lemma InvSorted(cfg: Config, s: State)
    requires Inv(cfg, s)
    ensures Sorted(s.buf)
  {
  }

  lemma LateCallPassesHead(cfg: Config, s: State, c: Call, out: Outcome)
    requires cfg.capacity > 0 && Inv(cfg, s) && Step(cfg, s, c, out) && cfg.timeoutRecv <= 0 && c.late && s.buf != []
    ensures s.buf[0].seqNo <= out.state.last
  {
    var q: seq<Packet> :| StepVia(cfg, s, c, q, out);
    IntakeNumbers(cfg, s, c);
    LastAtOutput(cfg, s, c, q, out);
  }

  /** Packet n of those that waited is the oldest one ahead. */
  lemma StillAhead(now: State, waited: seq<Packet>, run: seq<Turn>, n: nat)
    requires n < |waited| && Sorted(waited) && Sorted(now.buf) && NothingOlder(waited, run)
    requires KeepsAbove(now.buf, waited + Received(run), now.last)
    requires (n > 0 ==> waited[n - 1].seqNo <= now.last) && now.last < waited[n].seqNo
    ensures now.buf != [] && now.buf[0].seqNo == waited[n].seqNo
  {
    KeptMembers(now.buf, waited + Received(run), now.last);
    ReceivedNotOlder(waited, run, waited[n].seqNo);
    hide KeepsAbove, NothingOlder, Received;
    assert waited[n] in now.buf;
    var head := now.buf[0];
    assert head in waited || head in Received(run);
    assert head.seqNo > now.last;
    if head in waited {
      var j :| 0 <= j < |waited| && waited[j] == head;
      assert n <= j;
    }
  }

  lemma KeptMembers(kept: seq<Packet>, all: seq<Packet>, last: int)
    requires KeepsAbove(kept, all, last)
    ensures forall p :: p in kept <==> p in all && p.seqNo > last
  {
    forall p: Packet ensures p in kept <==> p in all && p.seqNo > last {
      assert (p in kept <==> multiset(kept)[p] > 0) && (p in all <==> multiset(all)[p] > 0);
    }
  }

  lemma {:induction false} ReceivedNotOlder(q: seq<Packet>, run: seq<Turn>, number: int)
    requires NothingOlder(q, run) && exists j :: 0 <= j < |q| && q[j].seqNo == number
    ensures forall p :: p in Received(run) ==> number <= p.seqNo
  {
    if run != [] {
      ReceivedNotOlder(q, run[..|run| - 1], number);
    }
  }
}
