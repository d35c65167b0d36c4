/** `nmxp_raw_stream_manage` as the source has it: an object updated in place, with an
    array of pointers to heap copies. Every call is proved to be a `Step` of the state
    machine, so every theorem about runs holds of the object; and the object is proved
    to free each copy it makes exactly once. */
module RawStreamBuffer {
  import opened Wrappers
  import opened RawStream
  import opened RawStreamStep
  import opened RawStreamRuns
  import opened RawStreamArrays
  import opened Sequences

  function Arrival(pd: Copy?): seq<Copy> {
    if pd == null then [] else [pd]
  }

  /** A time-out call that is forced while two or more packets wait: the slot of the head
      stays empty, and compaction leaves the last pointer behind. */
  predicate Strays(cfg: Config, s: State, c: Call) {
    c.pd.None? && ForceDue(cfg, s, c) && |s.buf| >= 2
  }

  predicate FitsInt32(n: int) { -0x8000_0000 <= n < 0x8000_0000 }

  class Stream {
    const cfg: Config              // max_pdlist_items and timeoutrecv
    var lastSeqNoSent: int
    var nPdlist: nat
    const pdlist: array<Copy?>     // set by the constructor; `released` after Free
    ghost var released: bool

    ghost var turns: seq<Turn>     // the calls so far
    ghost var events: seq<Event>   // what the present call has done
    ghost var copied: set<Copy> // every copy made
    ghost var freed: set<Copy>     // every copy given back

    /** The part of the state that holds all through a call: the array is within its
        bounds, and `waiting` are exactly the live copies, each once. */
    ghost predicate Owns(waiting: seq<Copy>)
      reads this`nPdlist, this`copied, this`freed
    {
      && pdlist.Length == cfg.capacity > 0 && nPdlist <= cfg.capacity
      && freed <= copied
      && multiset(waiting) == multiset(copied - freed)
    }

    ghost predicate Filled()
      reads this`nPdlist, pdlist
    {
      && nPdlist <= pdlist.Length
      && forall i :: 0 <= i < nPdlist ==> pdlist[i] != null
    }

    ghost function Waiting(): seq<Copy>
      reads this`nPdlist, pdlist
      requires nPdlist <= pdlist.Length
    {
      NonNull(pdlist[..nPdlist])
    }

    /** In a filled buffer, the copies that wait are the slots. */
    lemma Slots()
      requires Filled()
      ensures |Waiting()| == nPdlist
      ensures forall i :: 0 <= i < nPdlist ==> Waiting()[i] == pdlist[i]
    {
      NonNullIsAll(pdlist[..nPdlist]);
    }

    lemma WaitingIs(copies: seq<Copy>)
      requires |copies| == nPdlist <= pdlist.Length
      requires forall i :: 0 <= i < nPdlist ==> pdlist[i] == copies[i]
      ensures Filled() && Waiting() == copies
    {
      NonNullIsAll(pdlist[..nPdlist]);
      assert pdlist[..nPdlist] == copies;
    }

    /** The slots that are not in use are NULL. */
    ghost predicate Clean()
      reads this`nPdlist, pdlist
    {
      forall i :: nPdlist <= i < pdlist.Length ==> pdlist[i] == null
    }

    /** Compaction, if there is any to do, finds the last slot NULL. */
    ghost predicate NoStray()
      reads this`nPdlist, pdlist
    {
      && nPdlist <= pdlist.Length
      && (Filled() || (nPdlist > 0 && pdlist[nPdlist - 1] == null))
    }

    ghost function Abs(): State
      reads this, pdlist
      requires nPdlist <= pdlist.Length
    {
      State(lastSeqNoSent, Data(Waiting()))
    }

    ghost predicate Valid()
      reads this, pdlist
    {
      && !released && Filled() && Owns(Waiting())
      && IsRun(cfg, turns) && Abs() == After(INIT, turns)
    }

    /** nmxp_raw_stream_init */
    constructor (maxTolerableLatency: nat, timeoutRecv: int)
      requires 0 < maxTolerableLatency
      ensures Valid() && fresh(pdlist)
      ensures cfg == Config(maxTolerableLatency * 4, timeoutRecv)
      ensures turns == [] && Abs() == INIT && copied == freed == {} && Clean()
    {
      cfg := Config(maxTolerableLatency * 4, timeoutRecv);
      lastSeqNoSent := -1;
      nPdlist := 0;
      pdlist := new Copy?[maxTolerableLatency * 4](_ => null);
      turns, events, copied, freed, released := [], [], {}, {}, false;
    }

    /** free(): only a live copy may be given back. */
    ghost method Release(c: Copy)
      requires c in copied && c !in freed
      modifies this`freed
      ensures freed == old(freed) + {c}
    {
      freed := freed + {c};
    }

    /** Lines 834-853: the base of the numbering. */
    method Prime(pd: Copy?, late: bool, ghost c: Call)
      requires Passes(c, pd, late) && Filled()
      modifies this`lastSeqNoSent, this`events
      ensures freed == old(freed) && copied == old(copied) && nPdlist == old(nPdlist)
      ensures turns == old(turns) && released == old(released)
      ensures Filled() && Waiting() == old(Waiting()) && Clean() == old(Clean())
      ensures Abs() == Primed(cfg, old(Abs()), c).state
      ensures events == old(events) + Primed(cfg, old(Abs()), c).events
    {
      if lastSeqNoSent == -1 && pd != null {
        if cfg.timeoutRecv == 0 {
          lastSeqNoSent := pd.data.seqNo - 1;
        } else {
          lastSeqNoSent := 0;
        }
        events := events + [Base(lastSeqNoSent)];
      }
    }

    /** Lines 864-907: the head is sent, or dropped as misplaced, freed, and overwritten. */
    method ForceHead(pd: Copy?)
      requires Filled() && nPdlist > 0 && pdlist[0] in copied && pdlist[0] !in freed
      requires 0 <= lastSeqNoSent < 0x8000_0000
      modifies this`lastSeqNoSent, this`events, this`freed, pdlist
      ensures Waiting() == Arrival(pd) + old(Waiting())[1..]
      ensures pdlist[0] == pd && forall i :: 0 < i < pdlist.Length ==> pdlist[i] == old(pdlist[i])
      ensures freed == old(freed) + {old(Waiting()[0])}
      ensures var head := old(Waiting()[0].data);
        if head.seqNo - old(lastSeqNoSent) > 0
        then lastSeqNoSent == head.seqNo && events == old(events) + [Force(head)]
        else lastSeqNoSent == old(lastSeqNoSent) && events == old(events) + [Misplaced(head)]
    {
      Slots();
      hide NonNull;
      var head: Copy := pdlist[0];
      var seqNoDiff := head.data.seqNo - lastSeqNoSent;
      assert FitsInt32(seqNoDiff);
      if seqNoDiff > 0 {
        events := events + [Force(head.data)];
        lastSeqNoSent := head.data.seqNo;
      } else {
        events := events + [Misplaced(head.data)];
      }
      Release(head);
      Overwrite(pd);
    }

    /** Lines 903-907: the slot of the head gets the new packet, or NULL. */
    method Overwrite(pd: Copy?)
      requires Filled() && nPdlist > 0
      modifies pdlist
      ensures Waiting() == Arrival(pd) + old(Waiting())[1..]
      ensures pdlist[0] == pd && forall i :: 0 < i < pdlist.Length ==> pdlist[i] == old(pdlist[i])
    {
      NonNullIsAll(pdlist[..nPdlist]);
      ghost var tail := pdlist[1..nPdlist];
      HeadReplaced(pd, tail);
      hide NonNull;
      pdlist[0] := null;
      if pd != null {
        pdlist[0] := pd;
      }
      assert pdlist[..nPdlist] == [pd] + tail;
    }

    lemma HeadReplaced(pd: Copy?, tail: seq<Copy?>)
      requires forall i :: 0 <= i < |tail| ==> tail[i] != null
      ensures NonNull([pd] + tail) == Arrival(pd) + tail
    {
      NonNullIsAll(tail);
      NonNullConcat([pd], tail);
    }

    method Append(pd: Copy)
      requires Filled() && nPdlist < pdlist.Length
      modifies this`nPdlist, pdlist
      ensures Filled() && Waiting() == old(Waiting()) + [pd] && (old(Clean()) ==> Clean())
    {
      NonNullIsAll(pdlist[..nPdlist]);
      pdlist[nPdlist] := pd;
      nPdlist := nPdlist + 1;
      NonNullIsAll(pdlist[..nPdlist]);
    }

    ghost predicate Passes(c: Call, pd: Copy?, late: bool) {
      c == Call(if pd == null then None else Some(pd.data), late)
    }

    /** Lines 860-919: the forced branch, and the new packet's place. */
    method Place(pd: Copy?, late: bool, ghost c: Call)
      requires Passes(c, pd, late) && Filled() && pdlist.Length == cfg.capacity > 0
      requires HeadIsReady()
      modifies this`lastSeqNoSent, this`nPdlist, this`events, this`freed, pdlist
      ensures copied == old(copied)
      ensures nPdlist <= pdlist.Length
      ensures old(Clean()) ==> Clean()
      ensures NoStray() <==> !Strays(cfg, old(Abs()), c)
      ensures Placed(ForceDue(cfg, old(Abs()), c), old(Waiting()), Arrival(pd), Waiting(), old(freed), freed)
      ensures lastSeqNoSent == Admitted(cfg, old(Abs()), c).state.last
      ensures events == old(events) + Admitted(cfg, old(Abs()), c).events
    {
      NonNullIsAll(pdlist[..nPdlist]);
      hide NonNull;
      if ((nPdlist >= cfg.capacity || late) && cfg.timeoutRecv <= 0)
         || (nPdlist >= cfg.capacity && cfg.timeoutRecv > 0)
      {
        if nPdlist > 0 {
          ForceHead(pd);
        } else {
          if pd != null {
            Append(pd);
          }
        }
      } else {
        if pd != null {
          Append(pd);
        }
      }
    }

    /** `Place`, seen from the state machine and from the heap. */
    method Admit(pd: Copy?, late: bool, ghost c: Call)
      requires Passes(c, pd, late) && Filled() && Owns(Waiting() + Arrival(pd)) && Inv(cfg, Abs())
      modifies this`lastSeqNoSent, this`nPdlist, this`events, this`freed, pdlist
      ensures turns == old(turns) && copied == old(copied) && released == old(released)
      ensures nPdlist <= cfg.capacity == pdlist.Length
      ensures old(Clean()) ==> Clean()
      ensures NoStray() <==> !Strays(cfg, old(Abs()), c)
      ensures Owns(Waiting()) && old(freed) <= freed
      ensures Abs() == Admitted(cfg, old(Abs()), c).state
      ensures events == old(events) + Admitted(cfg, old(Abs()), c).events
    {
      ghost var s, waiting, was := Abs(), Waiting(), freed;
      HeadReady(pd);
      PassesArrival(c, pd, late);
      OwnsLive(waiting + Arrival(pd));
      hide NonNull, Data, Admitted, ForceDue, Inv, Placed, HeadIsReady, Owns, Clean, NoStray, Strays, Passes, Arrival,
           Arriving;
      Place(pd, late, c);
      PlacedAsAdmitted(cfg, s, c, waiting, Arrival(pd), Waiting(), was, freed);
      PlacedOwns(ForceDue(cfg, s, c), waiting, Arrival(pd), Waiting(), copied, was, freed);
      LiveOwns(Waiting());
    }

    lemma PassesArrival(c: Call, pd: Copy?, late: bool)
      requires Passes(c, pd, late)
      ensures Arriving(c) == Data(Arrival(pd))
    {
    }

    /** When the buffer is not empty, its head is live and something has been sent. */
    lemma HeadReady(pd: Copy?)
      requires Filled() && Owns(Waiting() + Arrival(pd)) && Inv(cfg, Abs())
      ensures HeadIsReady()
    {
      NonNullIsAll(pdlist[..nPdlist]);
      HeadIsLive(Waiting(), Arrival(pd), copied, freed);
    }

    ghost predicate HeadIsReady()
      requires nPdlist <= pdlist.Length
      reads this`nPdlist, this`copied, this`freed, this`lastSeqNoSent, pdlist
    {
      nPdlist > 0 ==>
        pdlist[0] in copied && pdlist[0] !in freed && 0 <= lastSeqNoSent < 0x8000_0000
    }

    /** Lines 923-935: NULL slots are squeezed out. */
    method Squeeze()
      requires nPdlist <= pdlist.Length
      modifies this`nPdlist, pdlist
      ensures lastSeqNoSent == old(lastSeqNoSent) && copied == old(copied) && freed == old(freed)
      ensures Filled() && Waiting() == old(Waiting()) && nPdlist <= old(nPdlist)
      ensures Clean() <==> old(Clean()) && old(NoStray())
    {
      ghost var before, n := pdlist[..], nPdlist;
      assert before[..n] == pdlist[..n];
      hide NonNull;
      nPdlist := Compact(pdlist, nPdlist);
      NonNullIsAll(pdlist[..nPdlist]);
      CleanAfter(before, n, pdlist[..], nPdlist);
    }

    /** Lines 990-1037: send or drop from the front until a gap; j packets are handled. */
    method Emit(ghost q: seq<Packet>) returns (j: nat)
      requires |q| == nPdlist <= pdlist.Length
      requires forall i :: 0 <= i < nPdlist ==> pdlist[i] != null && pdlist[i].data == q[i]
      requires -1 <= lastSeqNoSent < 0x8000_0000
      requires lastSeqNoSent == -1 && nPdlist > 0 ==> q[0].seqNo == 0
      modifies this`lastSeqNoSent, this`events
      ensures Filled() && Waiting() == old(Waiting()) && Clean() == old(Clean())
      ensures turns == old(turns) && released == old(released)
      ensures freed == old(freed) && copied == old(copied) && nPdlist == old(nPdlist)
      ensures j <= |q|
      ensures Drain(old(lastSeqNoSent), q).state == State(lastSeqNoSent, q[j..])
      ensures events == old(events) + Drain(old(lastSeqNoSent), q).events
    {
      ghost var start := lastSeqNoSent;
      hide EmittedSoFar;
      NothingEmitted(events, start, q);
      j := 0;
      var sendAgain := true;
      while sendAgain && j < nPdlist
        invariant j <= nPdlist && -1 <= lastSeqNoSent < 0x8000_0000
        invariant lastSeqNoSent == -1 && j < nPdlist ==> q[j].seqNo == 0
        invariant EmittedSoFar(old(events), start, q, j, lastSeqNoSent, events)
        invariant !sendAgain ==> j < nPdlist && q[j].seqNo - lastSeqNoSent > 1
        decreases nPdlist - j, sendAgain
      {
        sendAgain := false;
        var p := pdlist[j].data;
        var seqNoDiff := p.seqNo - lastSeqNoSent;
        assert FitsInt32(seqNoDiff);
        EmitOne(old(events), start, q, j, lastSeqNoSent, events);
        if seqNoDiff <= 0 {
          events := events + [Drop(p)];
          sendAgain := true;
          j := j + 1;
        } else if seqNoDiff == 1 {
          events := events + [Send(p)];
          lastSeqNoSent := p.seqNo;
          sendAgain := true;
          j := j + 1;
        }
      }
      EmitAll(old(events), start, q, j, lastSeqNoSent, events);
    }

    /** Line 952. */
    method Sort()
      requires Filled()
      modifies pdlist
      ensures lastSeqNoSent == old(lastSeqNoSent) && copied == old(copied) && freed == old(freed)
      ensures Filled() && multiset(Waiting()) == multiset(old(Waiting())) && Clean() == old(Clean())
      ensures SortOf(Abs().buf, old(Abs()).buf)
    {
      ghost var waiting := Waiting();
      Slots();
      assert pdlist[..nPdlist] == waiting;
      Qsort(pdlist, nPdlist);
      Slots();
      assert pdlist[..nPdlist] == Waiting();
      DataMultiset(Waiting(), waiting);
    }

    /** Frees copy k of the waiting ones, after those before it. */
    ghost method FreeNext(c: Copy, waiting: seq<Copy>, k: nat, was: set<Copy>)
      requires k < |waiting| && c == waiting[k] && multiset(waiting) == multiset(copied - was)
      requires freed == was + Elements(waiting[..k])
      modifies this`freed
      ensures freed == was + Elements(waiting[..k + 1])
    {
      FreedSoFar(waiting, k, copied, was);
      hide Elements;
      Release(c);
    }

    /** After k turns of the loop that removes j of the waiting copies: the first k slots
        have what j places on was waiting, the rest is as it was, save the slots moved. */
    ghost predicate Shifted(waiting: seq<Copy>, j: nat, k: nat)
      reads this`nPdlist, pdlist
    {
      && k <= nPdlist == |waiting| <= pdlist.Length
      && (forall i :: 0 <= i < k && i + j < nPdlist ==> pdlist[i] == waiting[i + j])
      && (forall i :: k <= i < nPdlist && (i < j || k + j <= i) ==> pdlist[i] == waiting[i])
      && (forall i :: 0 <= i < k && nPdlist <= i + j ==> pdlist[i] == null)
    }

    /** Lines 1042-1058: one turn, for slot k. */
    method ShiftSlot(k: nat, j: nat, ghost waiting: seq<Copy>, ghost was: set<Copy>)
      requires 0 < j && k < nPdlist && Shifted(waiting, j, k)
      requires multiset(waiting) == multiset(copied - was)
      requires freed == was + Elements(waiting[..if k < j then k else j])
      modifies this`freed, pdlist
      ensures Shifted(waiting, j, k + 1)
      ensures forall i :: nPdlist <= i < pdlist.Length ==> pdlist[i] == old(pdlist[i])
      ensures freed == was + Elements(waiting[..if k + 1 < j then k + 1 else j])
    {
      hide Elements;
      if k < j {
        FreeNext(pdlist[k], waiting, k, was);
        pdlist[k] := null;
      }
      if k + j < nPdlist {
        pdlist[k] := pdlist[k + j];
        pdlist[k + j] := null;
      } else {
        pdlist[k] := null;
      }
    }

    /** Lines 1039-1061: the j handled copies are freed, and the others move to the
        front over them, one slot at a time. */
    method ShiftAndFree(j: nat, ghost waiting: seq<Copy>)
      requires j <= nPdlist == |waiting| <= pdlist.Length
      requires freed <= copied && multiset(waiting) == multiset(copied - freed)
      requires forall i :: 0 <= i < nPdlist ==> pdlist[i] == waiting[i]
      modifies this`nPdlist, this`freed, pdlist
      ensures nPdlist == |waiting| - j && Clean() == old(Clean())
      ensures forall i :: 0 <= i < nPdlist ==> pdlist[i] == waiting[i + j]
      ensures freed == old(freed) + Elements(waiting[..j])
    {
      ghost var was := freed;
      NoElements(waiting);
      if j > 0 {
        var n := nPdlist;
        assert Shifted(waiting, j, 0);
        hide Elements, Shifted;
        for k := 0 to n
          invariant nPdlist == n && Shifted(waiting, j, k)
          invariant forall i :: n <= i < pdlist.Length ==> pdlist[i] == old(pdlist[i])
          invariant freed == was + Elements(waiting[..if k < j then k else j])
        {
          ShiftSlot(k, j, waiting, was);
        }
        AllShifted(waiting, j);
        nPdlist := nPdlist - j;
      }
    }

    lemma AllShifted(waiting: seq<Copy>, j: nat)
      requires Shifted(waiting, j, nPdlist) && j <= nPdlist
      ensures forall i :: 0 <= i < nPdlist - j ==> pdlist[i] == waiting[i + j]
      ensures forall i :: nPdlist - j <= i < nPdlist ==> pdlist[i] == null
    {
    }

    method Remove(j: nat)
      requires Filled() && Owns(Waiting()) && j <= nPdlist
      modifies this`nPdlist, this`freed, pdlist
      ensures turns == old(turns) && released == old(released)
      ensures events == old(events) && copied == old(copied) && lastSeqNoSent == old(lastSeqNoSent)
      ensures Filled() && Owns(Waiting()) && Clean() == old(Clean())
      ensures j <= |old(Waiting())| && Waiting() == old(Waiting())[j..] && old(freed) <= freed
    {
      ghost var waiting, was := Waiting(), freed;
      Slots();
      OwnsLive(waiting);
      hide *;
      ShiftAndFree(j, waiting);
      WaitingFrom(waiting, j);
      RestOwns(waiting, j, copied, was, freed);
      LiveOwns(waiting[j..]);
    }

    lemma OwnsLive(waiting: seq<Copy>)
      requires Owns(waiting)
      ensures freed <= copied && multiset(waiting) == multiset(copied - freed)
      ensures pdlist.Length == cfg.capacity > 0 && nPdlist <= pdlist.Length
    {
    }

    lemma LiveOwns(waiting: seq<Copy>)
      requires freed <= copied && multiset(waiting) == multiset(copied - freed)
      requires pdlist.Length == cfg.capacity > 0 && nPdlist <= pdlist.Length
      ensures Owns(waiting)
    {
    }

    lemma WaitingFrom(waiting: seq<Copy>, j: nat)
      requires j <= |waiting| && nPdlist == |waiting| - j <= pdlist.Length
      requires forall i :: 0 <= i < nPdlist ==> pdlist[i] == waiting[i + j]
      ensures Filled() && Waiting() == waiting[j..]
    {
      WaitingIs(waiting[j..]);
    }

    /** Lines 923-952: NULL slots are squeezed out and the rest is sorted. */
    method Arrange()
      requires nPdlist <= pdlist.Length && Owns(Waiting())
      modifies this`nPdlist, pdlist
      ensures lastSeqNoSent == old(lastSeqNoSent) && copied == old(copied) && freed == old(freed)
      ensures Filled() && Owns(Waiting())
      ensures Clean() <==> old(Clean()) && old(NoStray())
      ensures SortOf(Abs().buf, Data(old(Waiting())))
    {
      ghost var waiting := Waiting();
      Squeeze();
      assert Waiting() == waiting;
      hide NonNull, SortOf;
      Sort();
    }

    /** Lines 834-919: everything before compaction. */
    method Enter(pd: Copy?, late: bool, ghost c: Call)
      requires Passes(c, pd, late) && Filled() && Owns(Waiting() + Arrival(pd)) && Inv(cfg, Abs())
      modifies this`lastSeqNoSent, this`nPdlist, this`events, this`freed, pdlist
      ensures turns == old(turns) && copied == old(copied) && released == old(released)
      ensures nPdlist <= cfg.capacity == pdlist.Length
      ensures old(Clean()) ==> Clean()
      ensures NoStray() <==> !Strays(cfg, old(Abs()), c)
      ensures Owns(Waiting()) && old(freed) <= freed
      ensures Abs() == Intake(cfg, old(Abs()), c).state
      ensures events == old(events) + Intake(cfg, old(Abs()), c).events
    {
      ghost var s, before, waiting := Abs(), events, Waiting();
      PrimedFacts(cfg, s, c);
      hide *;
      Prime(pd, late, c);
      Admit(pd, late, c);
      IntakeEvents(cfg, s, c, before);
    }

    /** Lines 834-952: everything up to and including the sort. */
    method TakeIn(pd: Copy?, late: bool, ghost c: Call)
      requires Passes(c, pd, late) && Filled() && Owns(Waiting() + Arrival(pd)) && Inv(cfg, Abs())
      modifies this`lastSeqNoSent, this`nPdlist, this`events, this`freed, pdlist
      ensures turns == old(turns) && copied == old(copied) && released == old(released)
      ensures Filled() && Owns(Waiting()) && old(freed) <= freed
      ensures old(Clean()) ==> (Clean() <==> !Strays(cfg, old(Abs()), c))
      ensures lastSeqNoSent == Intake(cfg, old(Abs()), c).state.last
      ensures SortOf(Abs().buf, Intake(cfg, old(Abs()), c).state.buf)
      ensures events == old(events) + Intake(cfg, old(Abs()), c).events
    {
      hide NonNull, Data, Inv, SortOf, Intake, Arrival, Passes;
      Enter(pd, late, c);
      Arrange();
    }

    /** Lines 972-988: a time-out restarts the numbering at the head. */
    method Rebase(timedOut: bool, ghost c: Call)
      requires Filled() && (timedOut <==> c.pd.None?)
      modifies this`lastSeqNoSent, this`events
      ensures freed == old(freed) && copied == old(copied) && nPdlist == old(nPdlist)
      ensures turns == old(turns) && released == old(released)
      ensures Filled() && Waiting() == old(Waiting()) && Clean() == old(Clean())
      ensures Abs() == Rebased(old(lastSeqNoSent), old(Abs()).buf, c).state
      ensures events == old(events) + Rebased(old(lastSeqNoSent), old(Abs()).buf, c).events
    {
      Slots();
      if timedOut && nPdlist > 0 {
        lastSeqNoSent := pdlist[0].data.seqNo - 1;
        events := events + [Event.Rebase(lastSeqNoSent)];
      }
    }

    /** Lines 990-1061: the emit loop, and the removal of what it has handled. */
    method EmitAndRemove()
      requires Filled() && Owns(Waiting()) && Numbered(lastSeqNoSent, Abs().buf)
      modifies this`lastSeqNoSent, this`nPdlist, this`events, this`freed, pdlist
      ensures turns == old(turns) && copied == old(copied) && released == old(released)
      ensures Filled() && Owns(Waiting()) && old(freed) <= freed && Clean() == old(Clean())
      ensures Abs() == Drain(old(lastSeqNoSent), old(Abs()).buf).state
      ensures events == old(events) + Drain(old(lastSeqNoSent), old(Abs()).buf).events
    {
      ghost var waiting := Waiting();
      Slots();
      hide NonNull, Drain, Data;
      DataFrom(waiting);
      var j := Emit(Data(waiting));
      Remove(j);
    }

    lemma DataFrom(waiting: seq<Copy>)
      ensures forall j :: 0 <= j <= |waiting| ==> Data(waiting[j..]) == Data(waiting)[j..]
    {
    }

    /** Lines 972-1061: everything after the sort. */
    method PutOut(timedOut: bool, ghost c: Call)
      requires (timedOut <==> c.pd.None?) && Filled() && Owns(Waiting())
      requires Numbered(Rebased(lastSeqNoSent, Abs().buf, c).state.last, Abs().buf)
      modifies this`lastSeqNoSent, this`nPdlist, this`events, this`freed, pdlist
      ensures turns == old(turns) && copied == old(copied) && released == old(released)
      ensures Filled() && Owns(Waiting()) && old(freed) <= freed && Clean() == old(Clean())
      ensures Abs() == Output(old(lastSeqNoSent), old(Abs()).buf, c).state
      ensures events == old(events) + Output(old(lastSeqNoSent), old(Abs()).buf, c).events
    {
      ghost var last, q, before := lastSeqNoSent, Abs().buf, events;
      RebasedFacts(last, q, c);
      hide NonNull, Drain, Data, Rebased, Numbered, Conserves, Sent;
      Rebase(timedOut, c);
      EmitAndRemove();
      OutputEvents(last, q, c, before);
    }

    /** Lines 809-832: the copy of the packet. */
    method MakeCopy(aPd: Option<Packet>) returns (pd: Copy?)
      requires Filled() && Owns(Waiting())
      modifies this`copied, this`events
      ensures turns == old(turns) && freed == old(freed) && released == old(released)
      ensures Filled() && Waiting() == old(Waiting()) && Abs() == old(Abs()) && events == []
      ensures Clean() == old(Clean())
      ensures Owns(Waiting() + Arrival(pd))
      ensures if aPd.Some? then pd != null && fresh(pd) && pd.data == aPd.value && pd in copied else pd == null
      ensures old(copied) <= copied && fresh(copied - old(copied))
    {
      hide NonNull, Data;
      pd, events := null, [];
      if aPd.Some? {
        pd := new Copy(aPd.value);
        NewOwns(Waiting(), pd, copied, freed);
        copied := copied + {pd};
      } else {
        assert Waiting() + [] == Waiting();
      }
    }

    /** All is set for the call `c` with this copy. */
    ghost predicate Ready(pd: Copy?, late: bool, c: Call)
      reads this, pdlist
    {
      && Passes(c, pd, late) && Filled() && Owns(Waiting() + Arrival(pd)) && Inv(cfg, Abs())
      && !released && events == [] && IsRun(cfg, turns) && Abs() == After(INIT, turns)
    }

    method Begin(aPd: Option<Packet>, late: bool) returns (pd: Copy?)
      requires Valid()
      modifies this`copied, this`events
      ensures Ready(pd, late, Call(aPd, late))
      ensures nPdlist <= pdlist.Length && Abs() == old(Abs()) && Clean() == old(Clean())
      ensures turns == old(turns) && freed == old(freed)
      ensures old(copied) <= copied && fresh(copied - old(copied))
    {
      BeforeCall();
      hide NonNull, Data, Inv, IsRun, Owns, Arrival, Clean, After;
      pd := MakeCopy(aPd);
    }

    /** Lines 834-1061. */
    method Process(pd: Copy?, late: bool, ghost c: Call)
      requires Passes(c, pd, late) && Filled() && Owns(Waiting() + Arrival(pd)) && Inv(cfg, Abs())
      requires events == []
      modifies this`lastSeqNoSent, this`nPdlist, this`events, this`freed, pdlist
      ensures turns == old(turns) && copied == old(copied) && released == old(released)
      ensures nPdlist <= pdlist.Length
      ensures Filled() && Owns(Waiting()) && old(freed) <= freed
      ensures old(Clean()) ==> (Clean() <==> !Strays(cfg, old(Abs()), c))
      ensures Step(cfg, old(Abs()), c, Outcome(Abs(), events))
    {
      ghost var s := Abs();
      hide *;
      TakeIn(pd, late, c);
      ghost var q := Abs().buf;
      AlwaysNumbered(cfg, s, c, q);
      PutOut(pd == null, c);
      StepDone(cfg, s, c, q, Outcome(Abs(), events));
    }

    /** What a call may rely on. */
    lemma BeforeCall()
      requires Valid()
      ensures Filled() && Owns(Waiting()) && Inv(cfg, Abs())
    {
      RunLegal(cfg, INIT, turns);
    }

    /** Adds the call to the run. */
    ghost method Record(turn: Turn, s: State)
      requires !released && Filled() && Owns(Waiting())
      requires IsRun(cfg, turns) && After(INIT, turns) == s
      requires Step(cfg, s, turn.call, turn.out) && Abs() == turn.out.state
      modifies this`turns
      ensures nPdlist <= pdlist.Length
      ensures Valid() && Abs() == turn.out.state && turns == old(turns) + [turn] && Clean() == old(Clean())
      ensures copied == old(copied) && freed == old(freed) && events == old(events)
    {
      hide Step, NonNull, Data;
      ExtendRun(cfg, INIT, turns, turn);
      turns := turns + [turn];
    }

    /** The call, once the copy is made. */
    method ManageCopy(pd: Copy?, late: bool, ghost c: Call) returns (ghost turn: Turn)
      requires Ready(pd, late, c)
      modifies this`lastSeqNoSent, this`nPdlist, this`events, this`freed, this`turns, pdlist
      ensures Valid() && copied == old(copied) && old(freed) <= freed
      ensures old(Clean()) ==> (Clean() <==> !Strays(cfg, old(Abs()), c))
      ensures turn.call == c && turn.out == Outcome(Abs(), events)
      ensures Step(cfg, old(Abs()), c, turn.out) && turns == old(turns) + [turn]
    {
      ghost var s := Abs();
      Process(pd, late, c);
      turn := Turn(c, Outcome(Abs(), events));
      Record(turn, s);
    }

    /** nmxp_raw_stream_manage. The call is a step of the state machine; it copies the
        packet it is given, and keeps exactly the copies that wait. Slots not in use stay
        NULL, unless a time-out call is forced while two or more packets wait. */
    method Manage(aPd: Option<Packet>, late: bool) returns (ghost turn: Turn)
      requires Valid()
      modifies this`lastSeqNoSent, this`nPdlist, this`events, this`copied, this`freed, this`turns, pdlist
      ensures Valid() && old(freed) <= freed && old(copied) <= copied
      ensures old(Clean()) ==> (Clean() <==> !Strays(cfg, old(Abs()), Call(aPd, late)))
      ensures fresh(copied - old(copied))
      ensures turn.call == Call(aPd, late) && turn.out == Outcome(Abs(), events)
      ensures Step(cfg, old(Abs()), Call(aPd, late), turn.out) && turns == old(turns) + [turn]
    {
      hide *;
      var pd := Begin(aPd, late);
      turn := ManageCopy(pd, late, Call(aPd, late));
    }

    /** The loop of nmxp_raw_stream_free. */
    method FreeAll(ghost waiting: seq<Copy>)
      requires nPdlist == |waiting| <= pdlist.Length
      requires freed <= copied && multiset(waiting) == multiset(copied - freed)
      requires forall i :: 0 <= i < nPdlist ==> pdlist[i] == waiting[i]
      modifies this`freed, pdlist
      ensures freed == old(freed) + Elements(waiting[..|waiting|])
    {
      ghost var was := freed;
      NoElements(waiting);
      hide Elements;
      for j := 0 to nPdlist
        invariant freed == was + Elements(waiting[..j])
        invariant forall i :: j <= i < nPdlist ==> pdlist[i] == waiting[i]
      {
        if pdlist[j] != null {
          FreeNext(pdlist[j], waiting, j, was);
          pdlist[j] := null;
        }
      }
    }

    /** nmxp_raw_stream_free. Now every copy ever made has been freed, and none twice. */
    method Free()
      requires Valid()
      modifies this`released, this`freed, pdlist
      ensures released && freed == copied
    {
      ghost var waiting, was := Waiting(), freed;
      Slots();
      FreeAll(waiting);
      NoneLive(waiting, copied, was, freed);
      released := true;
    }
  }

  lemma NoneLive(s: seq<Copy>, copied: set<Copy>, was: set<Copy>, freed: set<Copy>)
    requires was <= copied && multiset(s) == multiset(copied - was)
    requires freed == was + Elements(s[..|s|])
    ensures freed == copied
  {
    RestOwns(s, |s|, copied, was, freed);
    assert s[|s|..] == [];
    assert multiset(copied - freed) == multiset{};
    forall c | c in copied ensures c in freed {
      assert c in copied - freed <==> c in multiset(copied - freed);
    }
  }

  lemma StepDone(cfg: Config, s: State, c: Call, q: seq<Packet>, out: Outcome)
    requires SortOf(q, Intake(cfg, s, c).state.buf)
    requires out.state == Output(Intake(cfg, s, c).state.last, q, c).state
    requires out.events == [] + Intake(cfg, s, c).events + Output(Intake(cfg, s, c).state.last, q, c).events
    ensures Step(cfg, s, c, out)
  {
    hide Intake, Output, SortOf;
    assert [] + Intake(cfg, s, c).events == Intake(cfg, s, c).events;
    assert StepVia(cfg, s, c, q, out);
  }

  lemma NewOwns(waiting: seq<Copy>, pd: Copy, copied: set<Copy>, freed: set<Copy>)
    requires freed <= copied && pd !in copied && multiset(waiting) == multiset(copied - freed)
    ensures multiset(waiting + [pd]) == multiset((copied + {pd}) - freed)
  {
    assert (copied + {pd}) - freed == (copied - freed) + {pd};
    assert multiset((copied - freed) + {pd}) == multiset(copied - freed) + multiset{pd};
  }

  lemma IntakeEvents(cfg: Config, s: State, c: Call, before: seq<Event>)
    ensures var primed := Primed(cfg, s, c);
      before + primed.events + Admitted(cfg, primed.state, c).events == before + Intake(cfg, s, c).events
  {
  }

  lemma OutputEvents(last: int, q: seq<Packet>, c: Call, before: seq<Event>)
    ensures var rebased := Rebased(last, q, c);
      before + rebased.events + Drain(rebased.state.last, rebased.state.buf).events
      == before + Output(last, q, c).events
  {
  }

  /** Before the emit loop, "nothing sent yet" can only precede packet 0, so that all
      differences of sequence numbers are within 32 bits. */
  ghost predicate Numbered(last: int, q: seq<Packet>) {
    && -1 <= last < 0x8000_0000
    && (last == -1 && q != [] ==> q[0].seqNo == 0)
  }

  lemma AlwaysNumbered(cfg: Config, s: State, c: Call, q: seq<Packet>)
    requires cfg.capacity > 0 && Inv(cfg, s) && SortOf(q, Intake(cfg, s, c).state.buf)
    ensures Numbered(Rebased(Intake(cfg, s, c).state.last, q, c).state.last, q)
  {
    SortFacts(cfg, s, c, q);
    if c.pd.Some? && Intake(cfg, s, c).state.last == -1 {
      assert s.buf + [c.pd.value] == [c.pd.value];
      SortedHeadIsMin(q, [c.pd.value]);
    }
  }

  function Elements(s: seq<Copy>): set<Copy> {
    set c | c in s
  }

  /** The sequence holds each element of a set exactly once. */
  lemma LiveOnce(s: seq<Copy>, live: set<Copy>)
    requires multiset(s) == multiset(live)
    ensures forall i :: 0 <= i < |s| ==> s[i] in live
    ensures forall i, k :: 0 <= i < k < |s| ==> s[i] != s[k]
  {
    forall i | 0 <= i < |s| ensures s[i] in live {
      assert s[i] in multiset(s);
    }
    forall i, k | 0 <= i < k < |s| ensures s[i] != s[k] {
      assert s == s[..k] + [s[k]] + s[k + 1..];
      assert s[i] in s[..k];
      assert multiset(s)[s[k]] <= 1;
    }
  }

  lemma NoElements(s: seq<Copy>)
    ensures Elements(s[..0]) == {}
  {
  }

  lemma FreedSoFar(s: seq<Copy>, k: nat, copied: set<Copy>, was: set<Copy>)
    requires k < |s| && multiset(s) == multiset(copied - was)
    ensures s[k] in copied && s[k] !in was + Elements(s[..k])
    ensures Elements(s[..k + 1]) == Elements(s[..k]) + {s[k]}
  {
    LiveOnce(s, copied - was);
    assert s[..k + 1] == s[..k] + [s[k]];
  }

  lemma RestOwns(s: seq<Copy>, j: nat, copied: set<Copy>, was: set<Copy>, freed: set<Copy>)
    requires j <= |s| && was <= copied && multiset(s) == multiset(copied - was)
    requires freed == was + Elements(s[..j])
    ensures freed <= copied && multiset(s[j..]) == multiset(copied - freed)
  {
    LiveOnce(s, copied - was);
    assert s == s[..j] + s[j..];
    assert forall c :: c in s[..j] ==> c in copied;
    forall c ensures multiset(s[j..])[c] == multiset(copied - freed)[c] {
      assert multiset(s)[c] == multiset(s[..j])[c] + multiset(s[j..])[c];
    }
  }

  /** After j packets the loop that started at `start` is at `last`, and the log has
      grown from `before` to `log`. */
  ghost predicate EmittedSoFar(before: seq<Event>, start: int, q: seq<Packet>,
                               j: nat, last: int, log: seq<Event>)
  {
    && j <= |q|
    && Drain(start, q).state == Drain(last, q[j..]).state
    && before + Drain(start, q).events == log + Drain(last, q[j..]).events
  }

  lemma NothingEmitted(before: seq<Event>, start: int, q: seq<Packet>)
    ensures EmittedSoFar(before, start, q, 0, start, before)
  {
    assert q[0..] == q;
  }

  lemma EmitOne(before: seq<Event>, start: int, q: seq<Packet>, j: nat, last: int, log: seq<Event>)
    requires j < |q| && EmittedSoFar(before, start, q, j, last, log)
    ensures q[j].seqNo - last <= 0 ==> EmittedSoFar(before, start, q, j + 1, last, log + [Drop(q[j])])
    ensures q[j].seqNo - last == 1 ==> EmittedSoFar(before, start, q, j + 1, q[j].seqNo, log + [Send(q[j])])
  {
    assert q[j..][1..] == q[j + 1..];
  }

  lemma EmitAll(before: seq<Event>, start: int, q: seq<Packet>, j: nat, last: int, log: seq<Event>)
    requires EmittedSoFar(before, start, q, j, last, log)
    requires j == |q| || q[j].seqNo - last > 1
    ensures Drain(start, q).state == State(last, q[j..])
    ensures before + Drain(start, q).events == log
  {
    assert Drain(last, q[j..]).events == [];
  }

  lemma HeadIsLive(waiting: seq<Copy>, arrival: seq<Copy>, copied: set<Copy>, freed: set<Copy>)
    requires multiset(waiting + arrival) == multiset(copied - freed)
    ensures waiting != [] ==> waiting[0] in copied && waiting[0] !in freed
  {
    if waiting != [] {
      assert (waiting + arrival)[0] in multiset(waiting + arrival);
    }
  }

  /** The copies that wait after a call has made room, and those freed by then. */
  ghost predicate Placed(forced: bool, waiting: seq<Copy>, arrival: seq<Copy>, kept: seq<Copy>,
                         was: set<Copy>, freed: set<Copy>)
  {
    if forced && waiting != [] then
      kept == arrival + waiting[1..] && freed == was + {waiting[0]}
    else
      kept == waiting + arrival && freed == was
  }

  lemma PlacedAsAdmitted(cfg: Config, s: State, c: Call, waiting: seq<Copy>, arrival: seq<Copy>, kept: seq<Copy>,
                         was: set<Copy>, freed: set<Copy>)
    requires s.buf == Data(waiting) && Arriving(c) == Data(arrival)
    requires Placed(ForceDue(cfg, s, c), waiting, arrival, kept, was, freed)
    ensures Data(kept) == Admitted(cfg, s, c).state.buf
  {
    hide ForceDue;
    assert Data(waiting + arrival) == Data(waiting) + Data(arrival);
    if waiting != [] {
      assert Data(arrival + waiting[1..]) == Data(arrival) + Data(waiting)[1..];
    }
  }

  /** Freeing the head and storing the new copy keeps exactly the live copies. */
  lemma PlacedOwns(forced: bool, waiting: seq<Copy>, arrival: seq<Copy>, kept: seq<Copy>,
                   copied: set<Copy>, was: set<Copy>, freed: set<Copy>)
    requires was <= copied && multiset(waiting + arrival) == multiset(copied - was)
    requires Placed(forced, waiting, arrival, kept, was, freed)
    ensures was <= freed <= copied && multiset(kept) == multiset(copied - freed)
  {
    if forced && waiting != [] {
      var live := copied - was;
      HeadOut(waiting, arrival);
      assert waiting[0] in multiset(live);
      assert multiset(live - {waiting[0]}) == multiset(live) - multiset{waiting[0]};
      assert copied - freed == live - {waiting[0]};
    }
  }
}
