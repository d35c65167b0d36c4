/** Theorems about every run of the reorder buffer: what it sends, in which
    order, what it may skip, and when it is empty again. */
module RawStreamRuns {
  import opened RawStream
  import opened RawStreamStep

  // ----- order --------------------------------------------------------------

  /** A call sends the forced head, if any, and then one gapless run of numbers. */
  lemma StepSends(cfg: Config, s: State, c: Call, q: seq<Packet>, out: Outcome)
    returns (forced: seq<Packet>, sent: seq<Packet>)
    requires cfg.capacity > 0 && Inv(cfg, s) && StepVia(cfg, s, c, q, out)
    ensures Sent(out.events) == forced + sent
    ensures forced == if ForceDue(cfg, s, c) && s.buf != [] then [s.buf[0]] else []
    ensures Consecutive(sent, Rebased(Intake(cfg, s, c).state.last, q, c).state.last, out.state.last)
  {
    hide Intake, Output;
    var intake := Intake(cfg, s, c);
    forced, sent := Sent(intake.events), Sent(Output(intake.state.last, q, c).events);
    IntakePackets(cfg, s, c);
    OutputPackets(intake.state.last, q, c);
    SentConcat(intake.events, Output(intake.state.last, q, c).events);
  }

  /** At most one packet, then a gapless run that starts no earlier. */
  lemma HeadThenRun(last: int, forced: seq<Packet>, sent: seq<Packet>, from: int, to: int)
    requires |forced| <= 1 && Consecutive(sent, from, to)
    requires last <= from && (forced != [] ==> last < forced[0].seqNo <= from + 1 && forced[0].seqNo <= to)
    ensures forall p :: p in forced + sent ==> last < p.seqNo <= to
    ensures Sorted(forced + sent)
    ensures Increasing(forced + sent) <==> (forced == [] || sent == [] || forced[0].seqNo <= from)
  {
    if forced != [] && sent != [] {
      assert (forced + sent)[0] == forced[0] && (forced + sent)[1] == sent[0];
    }
  }

  lemma IntakeNumbers(cfg: Config, s: State, c: Call)
    requires cfg.capacity > 0 && Inv(cfg, s)
    ensures s.last <= Intake(cfg, s, c).state.last
    ensures ForceDue(cfg, s, c) && s.buf != [] ==> s.last < s.buf[0].seqNo == Intake(cfg, s, c).state.last
    ensures c.pd.None? ==>
              Intake(cfg, s, c).state.buf == if ForceDue(cfg, s, c) && s.buf != [] then s.buf[1..] else s.buf
  {
  }

  /** The re-base of a time-out call, and the packet that it lets out. */
  lemma RebaseFacts(cfg: Config, s: State, c: Call, q: seq<Packet>, out: Outcome)
    requires cfg.capacity > 0 && Inv(cfg, s) && StepVia(cfg, s, c, q, out)
    requires c.pd.None? && q != []
    ensures q[0].seqNo == Intake(cfg, s, c).state.buf[0].seqNo
    ensures Intake(cfg, s, c).state.last <= q[0].seqNo <= out.state.last
  {
    IntakeBuffer(cfg, s, c);
    SortedHeadIsMin(q, Intake(cfg, s, c).state.buf);
    hide Intake;
    DrainSplits(q[0].seqNo, q[1..]);
  }

  lemma ShapeOfData(cfg: Config, s: State, c: Call, q: seq<Packet>, out: Outcome)
    requires cfg.capacity > 0 && Inv(cfg, s) && StepVia(cfg, s, c, q, out) && c.pd.Some?
    ensures Intake(cfg, s, c).state.last <= out.state.last
    ensures Rebased(Intake(cfg, s, c).state.last, q, c).state.last == Intake(cfg, s, c).state.last
  {
    hide Intake;
    DrainSplits(Intake(cfg, s, c).state.last, q);
  }

  lemma ShapeOfTimeout(cfg: Config, s: State, c: Call, q: seq<Packet>, out: Outcome)
    requires cfg.capacity > 0 && Inv(cfg, s) && StepVia(cfg, s, c, q, out) && c.pd.None?
    ensures var from := Rebased(Intake(cfg, s, c).state.last, q, c).state.last;
      && Intake(cfg, s, c).state.last <= out.state.last
      && s.last <= from && Intake(cfg, s, c).state.last <= from + 1
      && (TwinHeads(cfg, s, c) <==>
          ForceDue(cfg, s, c) && s.buf != [] && from < out.state.last && from < s.buf[0].seqNo)
  {
    IntakeNumbers(cfg, s, c);
    SameSize(q, Intake(cfg, s, c).state.buf);
    if q != [] {
      RebaseFacts(cfg, s, c, q, out);
    }
  }

  /** A call sends newer packets than the calls before it, in order, and twice the
      same number exactly when a time-out call's forced send leaves a twin. */
  lemma StepOrder(cfg: Config, s: State, c: Call, out: Outcome)
    requires cfg.capacity > 0 && Inv(cfg, s) && Step(cfg, s, c, out)
    ensures forall p :: p in Sent(out.events) ==> s.last < p.seqNo <= out.state.last
    ensures Sorted(Sent(out.events))
    ensures Increasing(Sent(out.events)) <==> !TwinHeads(cfg, s, c)
  {
    var q :| StepVia(cfg, s, c, q, out);
    var last := Intake(cfg, s, c).state.last;
    var from := Rebased(last, q, c).state.last;
    var forced, sent := StepSends(cfg, s, c, q, out);
    IntakeNumbers(cfg, s, c);
    if c.pd.None? {
      ShapeOfTimeout(cfg, s, c, q, out);
    } else {
      ShapeOfData(cfg, s, c, q, out);
    }
    hide Intake, StepVia, Rebased, Sorted, Increasing;
    HeadThenRun(s.last, forced, sent, from, out.state.last);
  }

  // ----- what every run keeps -----------------------------------------------

  lemma ExtendRun(cfg: Config, s: State, run: seq<Turn>, turn: Turn)
    requires RunFrom(cfg, s, run) && Step(cfg, After(s, run), turn.call, turn.out)
    ensures RunFrom(cfg, s, run + [turn]) && After(s, run + [turn]) == turn.out.state
    ensures Received(run + [turn]) == Received(run) + Arriving(turn.call)
    ensures Log(run + [turn]) == Log(run) + turn.out.events
  {
    assert (run + [turn])[..|run|] == run;
  }

  /** The invariant holds throughout, the whole log is legal, and it leads to the
      number sent last. */
  lemma {:induction false} RunLegal(cfg: Config, s: State, run: seq<Turn>)
    requires cfg.capacity > 0 && Inv(cfg, s) && RunFrom(cfg, s, run)
    ensures Inv(cfg, After(s, run)) && s.last <= After(s, run).last
    ensures Legal(s.last, Log(run))
    ensures LastAfter(s.last, Log(run)) == After(s, run).last
  {
    if run != [] {
      var n := |run| - 1;
      var before, turn := After(s, run[..n]), run[n];
      RunLegal(cfg, s, run[..n]);
      StepInv(cfg, before, turn.call, turn.out);
      StepLegal(cfg, before, turn.call, turn.out);
      hide Step, Legal, Inv;
      LastConcat(s.last, Log(run[..n]), turn.out.events);
      LegalConcat(s.last, Log(run[..n]), turn.out.events);
    }
  }

  lemma {:induction false} RunConserves(cfg: Config, s: State, run: seq<Turn>)
    requires cfg.capacity > 0 && Inv(cfg, s) && RunFrom(cfg, s, run)
    ensures Conserves(s.buf + Received(run), Log(run), After(s, run).buf)
  {
    hide Step, Inv, Conserves, Arriving, Legal, LastAfter;
    if run == [] {
      assert s.buf + [] == s.buf;
      ConservesNothing(s.buf);
    } else {
      var n := |run| - 1;
      var before, turn := After(s, run[..n]), run[n];
      RunConserves(cfg, s, run[..n]);
      RunLegal(cfg, s, run[..n]);
      StepConserves(cfg, before, turn.call, turn.out);
      assert s.buf + Received(run) == s.buf + Received(run[..n]) + Arriving(turn.call);
      ConservesTurn(s.buf + Received(run[..n]), Log(run[..n]), before.buf,
                    Arriving(turn.call), turn.out.events, turn.out.state.buf);
    }
  }

  lemma ConservesTurn(a: seq<Packet>, e: seq<Event>, b: seq<Packet>,
                      more: seq<Packet>, f: seq<Event>, c: seq<Packet>)
    requires Conserves(a, e, b) && Conserves(b + more, f, c)
    ensures Conserves(a + more, e + f, c)
  {
    assert Conserves(a + more, e, b + more);
    ConservesConcat(a + more, e, b + more, f, c);
  }

  /** Every packet received is sent, dropped or buffered, exactly once. */
  lemma {:induction false} Conservation(cfg: Config, run: seq<Turn>)
    requires IsRun(cfg, run)
    ensures multiset(Received(run)) ==
            multiset(Sent(Log(run))) + multiset(Dropped(Log(run))) + multiset(After(INIT, run).buf)
  {
    hide RunFrom, Received, Log, Sent, Dropped;
    RunConserves(cfg, INIT, run);
    assert INIT.buf + Received(run) == Received(run);
  }

  /** The branch that the source logs as SHOULD NOT OCCUR is never taken, and a packet
      is dropped only when its number is not above the number sent last. */
  lemma DropsAreStale(cfg: Config, run: seq<Turn>, i: nat)
    requires IsRun(cfg, run) && i < |Log(run)|
    ensures !Log(run)[i].Misplaced?
    ensures Log(run)[i].Drop? ==> Log(run)[i].p.seqNo <= LastAfter(-1, Log(run)[..i])
  {
    RunLegal(cfg, INIT, run);
    assert LegalAt(LastAfter(-1, Log(run)[..i]), Log(run), i);
  }

  /** No call of the run is a time-out call whose forced send leaves a twin. */
  predicate TwinFree(cfg: Config, s: State, run: seq<Turn>) {
    run == [] ||
    var n := |run| - 1;
    TwinFree(cfg, s, run[..n]) && !TwinHeads(cfg, After(s, run[..n]), run[n].call)
  }

  lemma OrderConcat(a: seq<Packet>, b: seq<Packet>, last: int)
    requires forall p :: p in a ==> p.seqNo <= last
    requires forall p :: p in b ==> last < p.seqNo
    ensures Sorted(a + b) <==> Sorted(a) && Sorted(b)
    ensures Increasing(a + b) <==> Increasing(a) && Increasing(b)
  {
    if Sorted(a + b) || Increasing(a + b) {
      assert forall i :: 0 <= i < |a| ==> a[i] == (a + b)[i];
      assert forall i :: 0 <= i < |b| ==> b[i] == (a + b)[|a| + i];
    }
  }

  lemma {:induction false} RunOrder(cfg: Config, s: State, run: seq<Turn>)
    requires cfg.capacity > 0 && Inv(cfg, s) && RunFrom(cfg, s, run)
    ensures forall p :: p in Sent(Log(run)) ==> s.last < p.seqNo <= After(s, run).last
    ensures Sorted(Sent(Log(run)))
    ensures Increasing(Sent(Log(run))) <==> TwinFree(cfg, s, run)
  {
    if run != [] {
      var n := |run| - 1;
      var before, turn := After(s, run[..n]), run[n];
      RunOrder(cfg, s, run[..n]);
      RunLegal(cfg, s, run[..n]);
      StepOrder(cfg, before, turn.call, turn.out);
      StepInv(cfg, before, turn.call, turn.out);
      hide Step, Inv, TwinHeads, Sorted, Increasing;
      SentConcat(Log(run[..n]), turn.out.events);
      OrderConcat(Sent(Log(run[..n])), Sent(turn.out.events), before.last);
    }
  }

  /** The numbers sent never decrease, and they increase strictly exactly in the runs
      that are free of such twins. */
  lemma {:induction false} OutputOrder(cfg: Config, run: seq<Turn>)
    requires IsRun(cfg, run)
    ensures Sorted(Sent(Log(run)))
    ensures Increasing(Sent(Log(run))) <==> TwinFree(cfg, INIT, run)
  {
    RunOrder(cfg, INIT, run);
  }

  // ----- gaps ---------------------------------------------------------------

  /** The event moves the numbering over `n`, so that n will not be sent later. */
  predicate Skips(last: int, e: Event, n: int) {
    last < n && (match e
                 case Base(to) => n <= to
                 case Rebase(to) => n <= to
                 case Force(p) => n < p.seqNo
                 case _ => false)
  }

  predicate Settles(start: int, log: seq<Event>, i: nat, n: int)
    requires i < |log|
  {
    || (Delivers(log[i]) && log[i].p.seqNo == n)
    || Skips(LastAfter(start, log[..i]), log[i], n)
  }

  /** Every number up to the one sent last was sent, or was skipped by a jump. */
  lemma {:induction false} SentOrSkipped(start: int, log: seq<Event>, k: nat, n: int)
    requires k <= |log| && Legal(start, log)
    requires start < n <= LastAfter(start, log[..k])
    ensures exists i :: 0 <= i < k && Settles(start, log, i, n)
  {
    assert log[..0] == [];
    var before := log[..k - 1];
    assert log[..k][..k - 1] == before;
    if n <= LastAfter(start, before) {
      SentOrSkipped(start, log, k - 1, n);
    } else {
      assert LegalAt(LastAfter(start, before), log, k - 1);
      assert Settles(start, log, k - 1, n);
    }
  }

  /** Nothing is lost silently: when a packet is dropped, its number has been sent
      before, or an earlier jump of the numbering has gone past it. */
  lemma DropsAreJustified(cfg: Config, run: seq<Turn>, k: nat)
    requires IsRun(cfg, run) && k < |Log(run)| && Discards(Log(run)[k])
    ensures exists i :: 0 <= i < k && Settles(-1, Log(run), i, Log(run)[k].p.seqNo)
  {
    RunLegal(cfg, INIT, run);
    DropsAreStale(cfg, run, k);
    SentOrSkipped(-1, Log(run), k, Log(run)[k].p.seqNo);
  }

  /** Between event i and event k nothing is sent. */
  predicate Quiet(log: seq<Event>, i: nat, k: nat)
    requires i <= k <= |log|
  {
    forall m :: i <= m < k ==> !Delivers(log[m])
  }

  lemma {:induction false} QuietKeepsLast(start: int, log: seq<Event>, i: nat, k: nat)
    requires i <= k <= |log| && Legal(start, log) && Quiet(log, i, k)
    requires 0 <= LastAfter(start, log[..i])
    requires k > i ==> !log[k - 1].Rebase?
    ensures LastAfter(start, log[..k]) == LastAfter(start, log[..i])
    decreases k
  {
    if k > i {
      assert log[..k][..k - 1] == log[..k - 1];
      assert LegalAt(LastAfter(start, log[..k - 1]), log, k - 1);
      if k - 1 > i {
        assert LegalAt(LastAfter(start, log[..k - 2]), log, k - 2);
      }
      QuietKeepsLast(start, log, i, k - 1);
    }
  }

  lemma JumpsOfLog(start: int, log: seq<Event>, i: nat, k: nat)
    requires Legal(start, log) && i < k < |log|
    requires Delivers(log[i]) && log[k].Send? && Quiet(log, i + 1, k) && !log[k - 1].Rebase?
    ensures log[k].p.seqNo == log[i].p.seqNo + 1
  {
    assert log[..i + 1][..i] == log[..i];
    QuietKeepsLast(start, log, i + 1, k);
    assert LegalAt(LastAfter(start, log[..k]), log, k);
  }

  /** A packet sent in sequence continues the one sent before it, unless a time-out
      has re-based the numbering to it just before. All other jumps are forced. */
  lemma JumpsAreJustified(cfg: Config, run: seq<Turn>, i: nat, k: nat)
    requires IsRun(cfg, run) && i < k < |Log(run)|
    requires Delivers(Log(run)[i]) && Delivers(Log(run)[k]) && Quiet(Log(run), i + 1, k)
    ensures || Log(run)[k].p.seqNo == Log(run)[i].p.seqNo + 1
            || Log(run)[k].Force?
            || Log(run)[k - 1].Rebase?
  {
    RunLegal(cfg, INIT, run);
    hide Legal;
    if Log(run)[k].Send? && !Log(run)[k - 1].Rebase? {
      JumpsOfLog(-1, Log(run), i, k);
    }
  }
}
