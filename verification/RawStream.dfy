/** The Raw Stream reorder buffer as a state machine over values.

    One call of `nmxp_raw_stream_manage` is one `Step`. What a call does to the
    outside world is a list of `Event`s, in the order in which the code does
    them. Three things are inputs of a step, and so are arbitrary: the packet
    (None is the time-out call), the verdict of the latency comparison, and the
    order that qsort gives to packets with the same sequence number. */
module RawStream {
  import opened Packets
  import opened Wrappers

  /** A packet as the server numbers it; -1 is "nothing sent yet". */
  type Packet = p: DataProcess | 0 <= p.seqNo < 0x8000_0000
    witness DataProcess(0, 0, 0, 0, 0, 0, 0.0, 1, [])

  datatype Config = Config(capacity: nat, timeoutRecv: int)

  datatype State = State(last: int, buf: seq<Packet>)

  /** One call: the packet, and whether the head of the buffer is too late. */
  datatype Call = Call(pd: Option<Packet>, late: bool)

  /** What one call does, step by step. `Send` and `Force` run the client's
      functions on a packet; `Drop` and `Misplaced` throw a packet away. */
  datatype Event =
    | Base(to: int)          // first packet: last_seq_no_sent gets its first value
    | Force(p: Packet)       // the head is sent because the buffer is full or late
    | Misplaced(p: Packet)   // the head is dropped, logged as SHOULD NOT OCCUR
    | Rebase(to: int)        // time-out: last_seq_no_sent moves to just before the head
    | Send(p: Packet)        // sent in sequence
    | Drop(p: Packet)        // thrown away as a duplicate

  datatype Outcome = Outcome(state: State, events: seq<Event>)

  const INIT := State(-1, [])

  // ----- one call -----------------------------------------------------------

  predicate Sorted(q: seq<Packet>) {
    forall i, j :: 0 <= i < j < |q| ==> q[i].seqNo <= q[j].seqNo
  }

  /** The forced branch: buffer full, or head too late while no time-out is set. */
  predicate ForceDue(cfg: Config, s: State, c: Call) {
    || ((|s.buf| >= cfg.capacity || c.late) && cfg.timeoutRecv <= 0)
    || (|s.buf| >= cfg.capacity && cfg.timeoutRecv > 0)
  }

  function Arriving(c: Call): seq<Packet> {
    if c.pd.Some? then [c.pd.value] else []
  }

  /** First time: the base of the numbering. */
  function Primed(cfg: Config, s: State, c: Call): Outcome {
    if s.last == -1 && c.pd.Some? then
      var base := if cfg.timeoutRecv == 0 then c.pd.value.seqNo - 1 else 0;
      Outcome(s.(last := base), [Base(base)])
    else
      Outcome(s, [])
  }

  /** Forced send of the head, then the new packet takes its slot or is appended. */
  function Admitted(cfg: Config, s: State, c: Call): Outcome {
    if ForceDue(cfg, s, c) && s.buf != [] then
      var head := s.buf[0];
      if head.seqNo - s.last > 0 then
        Outcome(State(head.seqNo, Arriving(c) + s.buf[1..]), [Force(head)])
      else
        Outcome(State(s.last, Arriving(c) + s.buf[1..]), [Misplaced(head)])
    else
      Outcome(State(s.last, s.buf + Arriving(c)), [])
  }

  /** Time-out: the numbering restarts just before the head of the sorted buffer. */
  function Rebased(last: int, q: seq<Packet>, c: Call): Outcome {
    if c.pd.None? && q != [] then
      Outcome(State(q[0].seqNo - 1, q), [Rebase(q[0].seqNo - 1)])
    else
      Outcome(State(last, q), [])
  }

  /** Send what follows `last`, drop what does not, stop at the first gap. */
  function Drain(last: int, q: seq<Packet>): Outcome
    decreases q
  {
    if q == [] then
      Outcome(State(last, []), [])
    else if q[0].seqNo - last <= 0 then
      var rest := Drain(last, q[1..]);
      Outcome(rest.state, [Drop(q[0])] + rest.events)
    else if q[0].seqNo - last == 1 then
      var rest := Drain(q[0].seqNo, q[1..]);
      Outcome(rest.state, [Send(q[0])] + rest.events)
    else
      Outcome(State(last, q), [])
  }

  /** What qsort may return: sorted, the same packets, ties in any order. */
  ghost predicate SortOf(q: seq<Packet>, unsorted: seq<Packet>) {
    Sorted(q) && multiset(q) == multiset(unsorted)
  }

  /** The call up to qsort. */
  function Intake(cfg: Config, s: State, c: Call): Outcome {
    var primed := Primed(cfg, s, c);
    var admitted := Admitted(cfg, primed.state, c);
    Outcome(admitted.state, primed.events + admitted.events)
  }

  /** The call from qsort on. */
  function Output(last: int, q: seq<Packet>, c: Call): Outcome {
    var rebased := Rebased(last, q, c);
    var drained := Drain(rebased.state.last, rebased.state.buf);
    Outcome(drained.state, rebased.events + drained.events)
  }

  ghost predicate StepVia(cfg: Config, s: State, c: Call, q: seq<Packet>, out: Outcome) {
    var intake := Intake(cfg, s, c);
    && SortOf(q, intake.state.buf)
    && var output := Output(intake.state.last, q, c);
       out == Outcome(output.state, intake.events + output.events)
  }

  ghost predicate Step(cfg: Config, s: State, c: Call, out: Outcome) {
    exists q :: StepVia(cfg, s, c, q, out)
  }

  // ----- runs ---------------------------------------------------------------

  datatype Turn = Turn(call: Call, out: Outcome)

  function After(s: State, run: seq<Turn>): State {
    if run == [] then s else run[|run| - 1].out.state
  }

  /** `run` is a sequence of calls, each starting where the one before ended. */
  ghost predicate RunFrom(cfg: Config, s: State, run: seq<Turn>) {
    run == [] ||
    var n := |run| - 1;
    RunFrom(cfg, s, run[..n]) && Step(cfg, After(s, run[..n]), run[n].call, run[n].out)
  }

  ghost predicate IsRun(cfg: Config, run: seq<Turn>) {
    cfg.capacity > 0 && RunFrom(cfg, INIT, run)
  }

  function Received(run: seq<Turn>): seq<Packet> {
    if run == [] then [] else Received(run[..|run| - 1]) + Arriving(run[|run| - 1].call)
  }

  function Log(run: seq<Turn>): seq<Event> {
    if run == [] then [] else Log(run[..|run| - 1]) + run[|run| - 1].out.events
  }

  // ----- reading a log ------------------------------------------------------

  predicate Delivers(e: Event) { e.Send? || e.Force? }

  predicate Discards(e: Event) { e.Drop? || e.Misplaced? }

  function Sent(log: seq<Event>): seq<Packet> {
    if log == [] then []
    else
      var e := log[|log| - 1];
      Sent(log[..|log| - 1]) + if Delivers(e) then [e.p] else []
  }

  function Dropped(log: seq<Event>): seq<Packet> {
    if log == [] then []
    else
      var e := log[|log| - 1];
      Dropped(log[..|log| - 1]) + if Discards(e) then [e.p] else []
  }

  /** How one event moves last_seq_no_sent. */
  function Next(last: int, e: Event): int {
    match e
    case Base(to) => to
    case Rebase(to) => to
    case Force(p) => p.seqNo
    case Send(p) => p.seqNo
    case Drop(_) => last
    case Misplaced(_) => last
  }

  /** The value of last_seq_no_sent that a log leads to. */
  function LastAfter(start: int, log: seq<Event>): int {
    if log == [] then start
    else Next(LastAfter(start, log[..|log| - 1]), log[|log| - 1])
  }

  /** What event i owes to the number sent last when it happens. */
  predicate LegalAt(last: int, log: seq<Event>, i: nat)
    requires i < |log|
  {
    match log[i]
    case Base(to) => last == -1 <= to
    case Force(p) => last < p.seqNo
    case Send(p) => p.seqNo == last + 1
    case Drop(p) => p.seqNo <= last
    case Rebase(to) =>
      && last - 1 <= to
      && i + 1 < |log| && log[i + 1].Send? && log[i + 1].p.seqNo == to + 1
    case Misplaced(_) => false
  }

  predicate Legal(start: int, log: seq<Event>) {
    forall i :: 0 <= i < |log| ==> LegalAt(LastAfter(start, log[..i]), log, i)
  }

  /** The numbers of `ps` are lo+1, lo+2, ..., hi. */
  predicate Consecutive(ps: seq<Packet>, lo: int, hi: int) {
    && |ps| == hi - lo
    && forall i :: 0 <= i < |ps| ==> ps[i].seqNo == lo + 1 + i
  }

  predicate Increasing(ps: seq<Packet>) {
    forall i, j :: 0 <= i < j < |ps| ==> ps[i].seqNo < ps[j].seqNo
  }
}
