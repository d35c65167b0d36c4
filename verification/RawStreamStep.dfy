/** What one call of the reorder buffer guarantees, whatever its inputs. */
module RawStreamStep {
  import opened Sequences
  import opened RawStream

  // ----- logs are read piece by piece ---------------------------------------

  lemma SentLast(log: seq<Event>)
    requires log != []
    ensures var n := |log| - 1;
      && Sent(log) == Sent(log[..n]) + (if Delivers(log[n]) then [log[n].p] else [])
      && Dropped(log) == Dropped(log[..n]) + (if Discards(log[n]) then [log[n].p] else [])
  {
  }

  lemma {:induction false} SentConcat(a: seq<Event>, b: seq<Event>)
    ensures Sent(a + b) == Sent(a) + Sent(b)
    ensures Dropped(a + b) == Dropped(a) + Dropped(b)
  {
    if b == [] {
      assert a + b == a;
    } else {
      var n := |b| - 1;
      SentConcat(a, b[..n]);
      SentLast(b);
      SentLast(a + b);
      hide Sent, Dropped, Delivers, Discards;
      assert (a + b)[..|a + b| - 1] == a + b[..n];
      Assoc(Sent(a), Sent(b[..n]), if Delivers(b[n]) then [b[n].p] else []);
      Assoc(Dropped(a), Dropped(b[..n]), if Discards(b[n]) then [b[n].p] else []);
    }
  }

  lemma {:induction false} LastConcat(start: int, a: seq<Event>, b: seq<Event>)
    ensures LastAfter(start, a + b) == LastAfter(LastAfter(start, a), b)
  {
    if b == [] {
      assert a + b == a;
    } else {
      LastConcat(start, a, b[..|b| - 1]);
      assert (a + b)[..|a + b| - 1] == a + b[..|b| - 1];
    }
  }

  lemma LegalConcat(start: int, a: seq<Event>, b: seq<Event>)
    requires Legal(start, a) && Legal(LastAfter(start, a), b)
    ensures Legal(start, a + b)
  {
    forall i | 0 <= i < |a + b|
      ensures LegalAt(LastAfter(start, (a + b)[..i]), a + b, i)
    {
      if i < |a| {
        assert (a + b)[..i] == a[..i];
        assert LegalAt(LastAfter(start, a[..i]), a, i);
      } else {
        assert (a + b)[..i] == a + b[..i - |a|];
        LastConcat(start, a, b[..i - |a|]);
        assert LegalAt(LastAfter(LastAfter(start, a), b[..i - |a|]), b, i - |a|);
      }
    }
  }

  lemma One(start: int, e: Event)
    ensures Sent([e]) == if Delivers(e) then [e.p] else []
    ensures Dropped([e]) == if Discards(e) then [e.p] else []
    ensures LastAfter(start, [e]) == Next(start, e)
    ensures Legal(start, [e]) <==> LegalAt(start, [e], 0)
  {
    assert [e][..0] == [];
  }

  /** A log that is one event longer at the front. */
  lemma Cons(e: Event, rest: seq<Event>)
    ensures Sent([e] + rest) == (if Delivers(e) then [e.p] else []) + Sent(rest)
    ensures Dropped([e] + rest) == (if Discards(e) then [e.p] else []) + Dropped(rest)
  {
    One(0, e);
    SentConcat([e], rest);
  }

  lemma LegalCons(start: int, e: Event, rest: seq<Event>)
    requires LegalAt(start, [e] + rest, 0) && Legal(Next(start, e), rest)
    ensures Legal(start, [e] + rest)
    ensures LastAfter(start, [e] + rest) == LastAfter(Next(start, e), rest)
  {
    LastCons(start, e, rest);
    forall i | 0 <= i < |[e] + rest|
      ensures LegalAt(LastAfter(start, ([e] + rest)[..i]), [e] + rest, i)
    {
      LegalConsAt(start, e, rest, i);
    }
  }

  lemma LastCons(start: int, e: Event, rest: seq<Event>)
    ensures LastAfter(start, [e] + rest) == LastAfter(Next(start, e), rest)
  {
    One(start, e);
    LastConcat(start, [e], rest);
  }

  lemma LegalConsAt(start: int, e: Event, rest: seq<Event>, i: nat)
    requires i < |[e] + rest| && LegalAt(start, [e] + rest, 0) && Legal(Next(start, e), rest)
    ensures LegalAt(LastAfter(start, ([e] + rest)[..i]), [e] + rest, i)
  {
    var log := [e] + rest;
    if i == 0 {
      assert log[..0] == [];
    } else {
      assert log[..i] == [e] + rest[..i - 1];
      LastCons(start, e, rest[..i - 1]);
      assert LegalAt(LastAfter(Next(start, e), rest[..i - 1]), rest, i - 1);
      hide LastAfter, Next, Legal;
      LegalAtLater(LastAfter(start, log[..i]), e, rest, i - 1);
    }
  }

  /** What event i owes does not depend on what is put in front of it. */
  lemma LegalAtLater(last: int, e: Event, rest: seq<Event>, i: nat)
    requires i < |rest| && LegalAt(last, rest, i)
    ensures LegalAt(last, [e] + rest, i + 1)
  {
  }

  // ----- the emit/discard loop ----------------------------------------------

  lemma {:induction false} DrainLog(last: int, q: seq<Packet>)
    ensures var r := Drain(last, q);
      && Legal(last, r.events)
      && LastAfter(last, r.events) == r.state.last
      && Consecutive(Sent(r.events), last, r.state.last)
    decreases q
  {
    if q != [] && q[0].seqNo - last <= 1 {
      var e := if q[0].seqNo <= last then Drop(q[0]) else Send(q[0]);
      DrainLog(Next(last, e), q[1..]);
      LegalCons(last, e, Drain(Next(last, e), q[1..]).events);
      Cons(e, Drain(Next(last, e), q[1..]).events);
    }
  }

  /** Every packet of `before` is sent, dropped or still there, exactly once. */
  predicate Conserves(before: seq<Packet>, events: seq<Event>, after: seq<Packet>) {
    multiset(before) == multiset(Sent(events)) + multiset(Dropped(events)) + multiset(after)
  }

  lemma ConservesConcat(a: seq<Packet>, e: seq<Event>, b: seq<Packet>, f: seq<Event>, c: seq<Packet>)
    requires Conserves(a, e, b) && Conserves(b, f, c)
    ensures Conserves(a, e + f, c)
  {
    SentConcat(e, f);
  }

  lemma ConservesOne(e: Event, q: seq<Packet>)
    requires q != [] && (Delivers(e) || Discards(e)) && e.p == q[0]
    ensures Conserves(q, [e], q[1..])
  {
    One(0, e);
    HeadOut(q, []);
  }

  lemma {:induction false} DrainConserves(last: int, q: seq<Packet>)
    ensures Conserves(q, Drain(last, q).events, Drain(last, q).state.buf)
    decreases q
  {
    if q != [] && q[0].seqNo - last <= 1 {
      var e := if q[0].seqNo <= last then Drop(q[0]) else Send(q[0]);
      var rest := Drain(Next(last, e), q[1..]);
      DrainConserves(Next(last, e), q[1..]);
      ConservesOne(e, q);
      ConservesConcat(q, [e], q[1..], rest.events, rest.state.buf);
    }
  }

  /** What stays is a suffix behind a gap; all that went is numbered at most `last`. */
  lemma {:induction false} DrainSplits(last: int, q: seq<Packet>)
    requires Sorted(q)
    ensures var r := Drain(last, q);
      && |r.state.buf| <= |q|
      && r.state.buf == q[|q| - |r.state.buf|..]
      && last <= r.state.last
      && (last < 0x8000_0000 ==> r.state.last < 0x8000_0000)
      && (forall i :: 0 <= i < |q| - |r.state.buf| ==> q[i].seqNo <= r.state.last)
      && (r.state.buf != [] ==> r.state.buf[0].seqNo >= r.state.last + 2)
    decreases q
  {
    if q != [] && q[0].seqNo - last <= 1 {
      var next := if q[0].seqNo <= last then last else q[0].seqNo;
      DrainSplits(next, q[1..]);
      var r := Drain(next, q[1..]);
      forall i | 0 <= i < |q| - |r.state.buf| ensures q[i].seqNo <= r.state.last {
        assert i > 0 ==> q[i] == q[1..][i - 1];
      }
    }
  }

  // ----- the whole call -----------------------------------------------------

  /** What every call keeps: a sorted, bounded buffer behind a gap. */
  ghost predicate Inv(cfg: Config, s: State) {
    && -1 <= s.last < 0x8000_0000
    && |s.buf| <= cfg.capacity
    && Sorted(s.buf)
    && (s.buf != [] ==> s.buf[0].seqNo >= s.last + 2)
    && (s.last == -1 ==> s.buf == [])
  }

  /** A time-out call whose forced send leaves a twin of the sent packet as head. */
  predicate TwinHeads(cfg: Config, s: State, c: Call) {
    && c.pd.None? && ForceDue(cfg, s, c)
    && |s.buf| >= 2 && s.buf[0].seqNo == s.buf[1].seqNo
  }

  lemma SortedHeadIsMin(q: seq<Packet>, unsorted: seq<Packet>)
    requires SortOf(q, unsorted) && Sorted(unsorted)
    ensures |q| == |unsorted|
    ensures q != [] ==> q[0].seqNo == unsorted[0].seqNo
  {
    SameSize(q, unsorted);
    if q != [] {
      assert q[0] in multiset(unsorted);
      assert unsorted[0] in multiset(q);
    }
  }

  lemma SameSize(a: seq<Packet>, b: seq<Packet>)
    requires multiset(a) == multiset(b)
    ensures |a| == |b|
  {
    assert |multiset(a)| == |a| && |multiset(b)| == |b|;
  }

  lemma PrimedFacts(cfg: Config, s: State, c: Call)
    requires cfg.capacity > 0 && Inv(cfg, s)
    ensures Legal(s.last, Primed(cfg, s, c).events)
    ensures LastAfter(s.last, Primed(cfg, s, c).events) == Primed(cfg, s, c).state.last
    ensures Sent(Primed(cfg, s, c).events) == []
    ensures forall q :: Conserves(q, Primed(cfg, s, c).events, q)
    ensures Inv(cfg, Primed(cfg, s, c).state)
    ensures Primed(cfg, s, c).state.buf == s.buf && s.last <= Primed(cfg, s, c).state.last
  {
    PrimedState(cfg, s, c);
    PrimedLog(cfg, s, c);
    hide Primed, Sent, Dropped, LastAfter, Legal, Inv;
    forall q ensures Conserves(q, Primed(cfg, s, c).events, q) {
      ConservesSilently(q, Primed(cfg, s, c).events);
    }
  }

  lemma PrimedState(cfg: Config, s: State, c: Call)
    requires cfg.capacity > 0 && Inv(cfg, s)
    ensures Inv(cfg, Primed(cfg, s, c).state)
    ensures Primed(cfg, s, c).state.buf == s.buf && s.last <= Primed(cfg, s, c).state.last
  {
  }

  lemma PrimedLog(cfg: Config, s: State, c: Call)
    requires s.last >= -1
    ensures Legal(s.last, Primed(cfg, s, c).events)
    ensures LastAfter(s.last, Primed(cfg, s, c).events) == Primed(cfg, s, c).state.last
    ensures Sent(Primed(cfg, s, c).events) == [] && Dropped(Primed(cfg, s, c).events) == []
  {
    var log := Primed(cfg, s, c).events;
    if log != [] {
      One(s.last, log[0]);
      assert log == [log[0]];
    }
    hide Sent, Dropped, LastAfter, Legal;
  }

  lemma ConservesSilently(q: seq<Packet>, log: seq<Event>)
    requires Sent(log) == [] && Dropped(log) == []
    ensures Conserves(q, log, q)
  {
  }

  lemma AdmittedLog(cfg: Config, s: State, c: Call)
    requires cfg.capacity > 0 && Inv(cfg, s)
    ensures Legal(s.last, Admitted(cfg, s, c).events)
    ensures LastAfter(s.last, Admitted(cfg, s, c).events) == Admitted(cfg, s, c).state.last
  {
    var log := Admitted(cfg, s, c).events;
    if log != [] {
      One(s.last, log[0]);
      assert log == [log[0]];
    }
  }

  lemma AdmittedSends(cfg: Config, s: State, c: Call)
    requires Inv(cfg, s)
    ensures Sent(Admitted(cfg, s, c).events) ==
            if ForceDue(cfg, s, c) && s.buf != [] then [s.buf[0]] else []
  {
    hide ForceDue;
    var log := Admitted(cfg, s, c).events;
    if log != [] {
      One(s.last, log[0]);
      assert log == [log[0]];
    }
    hide Sent;
  }

  lemma ConservesNothing(q: seq<Packet>)
    ensures Conserves(q, [], q)
  {
  }

  lemma ConservesHead(e: Event, q: seq<Packet>, more: seq<Packet>)
    requires q != [] && (Delivers(e) || Discards(e)) && e.p == q[0]
    ensures Conserves(q + more, [e], more + q[1..])
  {
    One(0, e);
    HeadOut(q, more);
    hide Sent, Dropped;
  }

  lemma AdmittedConserves(cfg: Config, s: State, c: Call)
    ensures Conserves(s.buf + Arriving(c), Admitted(cfg, s, c).events, Admitted(cfg, s, c).state.buf)
  {
    hide ForceDue, Conserves, Arriving;
    if ForceDue(cfg, s, c) && s.buf != [] {
      ConservesHead(Admitted(cfg, s, c).events[0], s.buf, Arriving(c));
    } else {
      ConservesNothing(s.buf + Arriving(c));
    }
  }

  lemma RebasedFacts(last: int, q: seq<Packet>, c: Call)
    ensures Rebased(last, q, c).state.buf == q
    ensures Conserves(q, Rebased(last, q, c).events, q)
    ensures Sent(Rebased(last, q, c).events) == []
  {
    var log := Rebased(last, q, c).events;
    if log != [] {
      One(last, log[0]);
      assert log == [log[0]];
    }
    hide Rebased;
  }

  lemma OutputLog(last: int, q: seq<Packet>, c: Call)
    requires c.pd.None? && q != [] ==> q[0].seqNo >= last
    ensures Legal(last, Output(last, q, c).events)
    ensures LastAfter(last, Output(last, q, c).events) == Output(last, q, c).state.last
  {
    var from := Rebased(last, q, c).state.last;
    DrainLog(from, q);
    if c.pd.None? && q != [] {
      LegalCons(last, Rebase(from), Drain(from, q).events);
    } else {
      assert [] + Drain(last, q).events == Drain(last, q).events;
    }
  }

  lemma OutputPackets(last: int, q: seq<Packet>, c: Call)
    ensures Conserves(q, Output(last, q, c).events, Output(last, q, c).state.buf)
    ensures Consecutive(Sent(Output(last, q, c).events), Rebased(last, q, c).state.last, Output(last, q, c).state.last)
  {
    hide Rebased, Drain, Conserves, Consecutive;
    var rebased := Rebased(last, q, c);
    var drained := Drain(rebased.state.last, q);
    RebasedFacts(last, q, c);
    DrainLog(rebased.state.last, q);
    DrainConserves(rebased.state.last, q);
    SentConcat(rebased.events, drained.events);
    assert [] + Sent(drained.events) == Sent(drained.events);
    ConservesConcat(q, rebased.events, q, drained.events, drained.state.buf);
  }

  lemma IntakeLog(cfg: Config, s: State, c: Call)
    requires cfg.capacity > 0 && Inv(cfg, s)
    ensures Legal(s.last, Intake(cfg, s, c).events)
    ensures LastAfter(s.last, Intake(cfg, s, c).events) == Intake(cfg, s, c).state.last
  {
    hide Primed, Admitted;
    var primed := Primed(cfg, s, c);
    PrimedFacts(cfg, s, c);
    AdmittedLog(cfg, primed.state, c);
    var admitted := Admitted(cfg, primed.state, c);
    LastConcat(s.last, primed.events, admitted.events);
    LegalConcat(s.last, primed.events, admitted.events);
  }

  lemma IntakePackets(cfg: Config, s: State, c: Call)
    requires cfg.capacity > 0 && Inv(cfg, s)
    ensures Conserves(s.buf + Arriving(c), Intake(cfg, s, c).events, Intake(cfg, s, c).state.buf)
    ensures Sent(Intake(cfg, s, c).events) == if ForceDue(cfg, s, c) && s.buf != [] then [s.buf[0]] else []
  {
    hide *;
    var primed := Primed(cfg, s, c);
    var admitted := Admitted(cfg, primed.state, c);
    IntakeIs(cfg, s, c);
    PrimedFacts(cfg, s, c);
    AdmittedSends(cfg, primed.state, c);
    AdmittedConserves(cfg, primed.state, c);
    SentConcat(primed.events, admitted.events);
    assert [] + Sent(admitted.events) == Sent(admitted.events);
    ConservesConcat(s.buf + Arriving(c), primed.events, s.buf + Arriving(c), admitted.events, admitted.state.buf);
  }

  lemma IntakeIs(cfg: Config, s: State, c: Call)
    ensures var primed := Primed(cfg, s, c);
      var admitted := Admitted(cfg, primed.state, c);
      Intake(cfg, s, c) == Outcome(admitted.state, primed.events + admitted.events)
    ensures ForceDue(cfg, Primed(cfg, s, c).state, c) == ForceDue(cfg, s, c)
  {
  }

  /** The buffer that qsort gets fits, and its head is not behind what was sent. */
  lemma IntakeBuffer(cfg: Config, s: State, c: Call)
    requires cfg.capacity > 0 && Inv(cfg, s)
    ensures s.last <= Intake(cfg, s, c).state.last < 0x8000_0000
    ensures |Intake(cfg, s, c).state.buf| <= cfg.capacity
    ensures c.pd.None? ==> Sorted(Intake(cfg, s, c).state.buf)
    ensures c.pd.None? && Intake(cfg, s, c).state.buf != [] ==>
              Intake(cfg, s, c).state.buf[0].seqNo >= Intake(cfg, s, c).state.last
  {
    PrimedFacts(cfg, s, c);
    AdmittedBuffer(cfg, Primed(cfg, s, c).state, c);
    IntakeIs(cfg, s, c);
    hide Primed, Admitted, Sorted, Inv, Intake;
  }

  lemma AdmittedBuffer(cfg: Config, s: State, c: Call)
    requires cfg.capacity > 0 && Inv(cfg, s)
    ensures s.last <= Admitted(cfg, s, c).state.last < 0x8000_0000
    ensures |Admitted(cfg, s, c).state.buf| <= cfg.capacity
    ensures c.pd.None? ==> Sorted(Admitted(cfg, s, c).state.buf)
    ensures c.pd.None? && Admitted(cfg, s, c).state.buf != [] ==>
              Admitted(cfg, s, c).state.buf[0].seqNo >= Admitted(cfg, s, c).state.last
  {
    if c.pd.None? && s.buf != [] {
      assert [] + s.buf[1..] == s.buf[1..] && s.buf + [] == s.buf;
    }
  }

  // ----- theorems about one call --------------------------------------------

  /** qsort changes neither the packets nor the head's number. */
  lemma SortFacts(cfg: Config, s: State, c: Call, q: seq<Packet>)
    requires cfg.capacity > 0 && Inv(cfg, s) && SortOf(q, Intake(cfg, s, c).state.buf)
    ensures |q| <= cfg.capacity
    ensures s.last <= Intake(cfg, s, c).state.last < 0x8000_0000
    ensures c.pd.None? && q != [] ==> q[0].seqNo >= Intake(cfg, s, c).state.last
  {
    IntakeBuffer(cfg, s, c);
    SameSize(q, Intake(cfg, s, c).state.buf);
    if c.pd.None? {
      SortedHeadIsMin(q, Intake(cfg, s, c).state.buf);
    }
  }

  /** Every event of a call is justified by the number sent last when it happens. */
  lemma StepLegal(cfg: Config, s: State, c: Call, out: Outcome)
    requires cfg.capacity > 0 && Inv(cfg, s) && Step(cfg, s, c, out)
    ensures Legal(s.last, out.events)
    ensures LastAfter(s.last, out.events) == out.state.last
  {
    var q :| StepVia(cfg, s, c, q, out);
    hide Intake, Output;
    var intake := Intake(cfg, s, c);
    SortFacts(cfg, s, c, q);
    IntakeLog(cfg, s, c);
    OutputLog(intake.state.last, q, c);
    LastConcat(s.last, intake.events, Output(intake.state.last, q, c).events);
    LegalConcat(s.last, intake.events, Output(intake.state.last, q, c).events);
  }

  /** No packet is lost and none is made up: what was buffered or arrives is sent,
      dropped or still buffered. */
  lemma StepConserves(cfg: Config, s: State, c: Call, out: Outcome)
    requires cfg.capacity > 0 && Inv(cfg, s) && Step(cfg, s, c, out)
    ensures Conserves(s.buf + Arriving(c), out.events, out.state.buf)
  {
    var q :| StepVia(cfg, s, c, q, out);
    hide Intake, Output;
    var intake := Intake(cfg, s, c);
    var output := Output(intake.state.last, q, c);
    IntakePackets(cfg, s, c);
    OutputPackets(intake.state.last, q, c);
    assert Conserves(intake.state.buf, output.events, output.state.buf);
    ConservesConcat(s.buf + Arriving(c), intake.events, intake.state.buf, output.events, output.state.buf);
  }

  /** The first packet ends the "nothing sent yet" state for good. */
  lemma FirstPacket(cfg: Config, s: State, c: Call, q: seq<Packet>, out: Outcome)
    requires cfg.capacity > 0 && Inv(cfg, s) && StepVia(cfg, s, c, q, out)
    requires s.last == -1 && c.pd.Some?
    ensures 0 <= out.state.last
  {
    var pd := c.pd.value;
    FirstIntake(cfg, s, c);
    OnlyOrder(q, pd);
    hide Intake, SortOf, Inv;
    assert [pd][1..] == [];
    assert Drain(Intake(cfg, s, c).state.last, [pd]).state.last >= 0;
  }

  lemma FirstIntake(cfg: Config, s: State, c: Call)
    requires cfg.capacity > 0 && Inv(cfg, s) && s.last == -1 && c.pd.Some?
    ensures Intake(cfg, s, c).state.buf == [c.pd.value]
    ensures Intake(cfg, s, c).state.last == if cfg.timeoutRecv == 0 then c.pd.value.seqNo - 1 else 0
  {
    assert s.buf + [c.pd.value] == [c.pd.value];
  }

  lemma OnlyOrder(q: seq<Packet>, p: Packet)
    ensures SortOf(q, [p]) ==> q == [p]
  {
    if SortOf(q, [p]) {
      SameSize(q, [p]);
      assert q[0] in multiset([p]);
    }
  }

  lemma StepAdvances(cfg: Config, s: State, c: Call, q: seq<Packet>, out: Outcome)
    requires cfg.capacity > 0 && Inv(cfg, s) && StepVia(cfg, s, c, q, out)
    ensures s.last <= out.state.last < 0x8000_0000
    ensures |out.state.buf| <= |q| <= cfg.capacity && out.state.buf == q[|q| - |out.state.buf|..]
    ensures out.state.buf != [] ==> out.state.buf[0].seqNo >= out.state.last + 2
  {
    var last := Intake(cfg, s, c).state.last;
    SortFacts(cfg, s, c, q);
    hide Intake;
    DrainSplits(Rebased(last, q, c).state.last, q);
    if c.pd.None? && q != [] {
      DrainSplits(q[0].seqNo, q[1..]);
    }
  }

  /** After every call the buffer is bounded, sorted, and starts behind a gap. */
  lemma StepInv(cfg: Config, s: State, c: Call, out: Outcome)
    requires cfg.capacity > 0 && Inv(cfg, s) && Step(cfg, s, c, out)
    ensures Inv(cfg, out.state)
    ensures s.last <= out.state.last
  {
    var q :| StepVia(cfg, s, c, q, out);
    StepAdvances(cfg, s, c, q, out);
    if out.state.last == -1 {
      if c.pd.Some? {
        FirstPacket(cfg, s, c, q, out);
      } else {
        assert s.buf + Arriving(c) == [];
      }
    }
  }
}
