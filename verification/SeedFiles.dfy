/** The ring of open mini-SEED files: `nmxp_data_seed_fopen` and its companions. The
    ring is proved to be a first-in first-out cache of at most 200 open files, in which
    the oldest slot may be a hole: it counts as open, has a name, and holds no file. */
module SeedFiles {
  import opened Sequences
  import opened Wrappers

  const MAX_OPEN := 200

  /** A slot that counts as open: its name, and its handle unless it is a hole. */
  datatype File = File(name: string, handle: Option<nat>)

  /** What is asked of the ring. Whether the directory is there or can be made, and the
      handle that fopen returns if it comes to that, is up to the system. */
  datatype Event =
    | Asked(name: string, dirOk: bool, handle: Option<nat>)
    | ClosedAll

  // ----- the cache, oldest file first ---------------------------------------

  function Names(cache: seq<File>): set<string> {
    set f | f in cache :: f.name
  }

  function HandleOf(o: Option<nat>): set<nat> {
    if o.Some? then {o.value} else {}
  }

  function Handles(cache: seq<File>): set<nat> {
    set f | f in cache && f.handle.Some? :: f.handle.value
  }

  /** A file is found open, or opened in the next slot, which in a full ring is that of
      the oldest file. When fopen fails there, the oldest file is closed all the same. */
  function After(cache: seq<File>, e: Event): seq<File> {
    match e
    case ClosedAll => []
    case Asked(name, dirOk, handle) =>
      if name == "" || name in Names(cache) || !dirOk then cache
      else if handle.Some? then (if |cache| < MAX_OPEN then cache else cache[1..]) + [File(name, handle)]
      else if |cache| < MAX_OPEN then cache
      else [File(name, None)] + cache[1..]
  }

  predicate DistinctNames(cache: seq<File>) {
    forall i, k :: 0 <= i < k < |cache| ==> cache[i].name != cache[k].name
  }

  predicate DistinctHandles(cache: seq<File>) {
    forall i, k :: 0 <= i < k < |cache| && cache[i].handle.Some? ==> cache[i].handle != cache[k].handle
  }

  /** At most 200 slots, names and handles distinct, and no hole but in the oldest slot
      of a full ring. */
  predicate Proper(cache: seq<File>) {
    && |cache| <= MAX_OPEN
    && DistinctNames(cache) && "" !in Names(cache)
    && DistinctHandles(cache)
    && (forall i :: 0 <= i < |cache| && cache[i].handle == None ==> i == 0 && |cache| == MAX_OPEN)
  }

  predicate HasHole(cache: seq<File>) {
    cache != [] && cache[0].handle == None
  }

  predicate IsHole(cache: seq<File>, name: string) {
    HasHole(cache) && cache[0].name == name
  }

  /** The system never hands out a handle that is still open. */
  predicate Possible(cache: seq<File>, e: Event) {
    e.Asked? && e.handle.Some? ==> e.handle.value !in Handles(cache)
  }

  lemma OldestGoes(cache: seq<File>)
    requires Proper(cache) && cache != []
    ensures DistinctNames(cache[1..]) && DistinctHandles(cache[1..])
    ensures Names(cache[1..]) <= Names(cache) && Handles(cache[1..]) <= Handles(cache)
    ensures forall i :: 0 <= i < |cache| - 1 ==> cache[1..][i].handle.Some?
  {
    assert forall f :: f in cache[1..] ==> f in cache;
  }

  lemma NewestComes(cache: seq<File>, f: File)
    requires DistinctNames(cache) && DistinctHandles(cache) && "" !in Names(cache)
    requires forall i :: 0 <= i < |cache| ==> cache[i].handle.Some?
    requires f.name != "" && f.name !in Names(cache) && f.handle.Some? && f.handle.value !in Handles(cache)
    requires |cache| < MAX_OPEN
    ensures Proper(cache + [f])
  {
    forall i | 0 <= i < |cache| ensures cache[i].name != f.name && cache[i].handle != f.handle && cache[i].name != "" {
      assert cache[i] in cache;
      assert cache[i].name in Names(cache) && cache[i].handle.value in Handles(cache);
    }
    hide Names, Handles;
    NamesOf(cache + [f]);
  }

  lemma NamesOf(cache: seq<File>)
    ensures "" !in Names(cache) <==> forall i :: 0 <= i < |cache| ==> cache[i].name != ""
  {
    if "" !in Names(cache) {
      forall i | 0 <= i < |cache| ensures cache[i].name != "" {
        assert cache[i] in cache;
      }
    }
  }

  lemma HoleComes(cache: seq<File>, name: string)
    requires DistinctNames(cache) && DistinctHandles(cache) && "" !in Names(cache)
    requires forall i :: 0 <= i < |cache| ==> cache[i].handle.Some?
    requires name != "" && name !in Names(cache) && |cache| == MAX_OPEN - 1
    ensures Proper([File(name, None)] + cache)
  {
    assert forall g :: g in cache ==> g.name in Names(cache);
    assert forall g :: g in [File(name, None)] + cache ==> g in cache || g == File(name, None);
  }

  lemma AfterIsProper(cache: seq<File>, e: Event)
    requires Proper(cache) && Possible(cache, e)
    ensures Proper(After(cache, e))
  {
    if e.Asked? && e.name != "" && e.name !in Names(cache) && e.dirOk {
      if |cache| == MAX_OPEN {
        OldestGoes(cache);
      }
      var kept := if |cache| < MAX_OPEN then cache else cache[1..];
      hide DistinctNames, DistinctHandles, Names, Handles;
      if e.handle.Some? {
        NewestComes(kept, File(e.name, e.handle));
      } else if |cache| == MAX_OPEN {
        HoleComes(kept, e.name);
      }
    }
  }

  /** A hole appears just when fopen fails on a full ring, and stays until another file
      is opened or all are closed. */
  lemma HoleJustAfterFailure(cache: seq<File>, e: Event)
    requires Proper(cache) && Possible(cache, e)
    ensures HasHole(After(cache, e)) <==>
            var opens := e.Asked? && e.name != "" && e.name !in Names(cache) && e.dirOk;
            if opens then e.handle == None && |cache| == MAX_OPEN else e.Asked? && HasHole(cache)
  {
  }

  /** The cache after a run that starts with no file open. */
  function AfterRun(history: seq<Event>): seq<File> {
    if history == [] then []
    else
      var n := |history| - 1;
      After(AfterRun(history[..n]), history[n])
  }

  predicate IsHistory(history: seq<Event>) {
    history == [] ||
    var n := |history| - 1;
    IsHistory(history[..n]) && Possible(AfterRun(history[..n]), history[n])
  }

  lemma {:induction false} RunIsProper(history: seq<Event>)
    requires IsHistory(history)
    ensures Proper(AfterRun(history))
  {
    if history != [] {
      var n := |history| - 1;
      RunIsProper(history[..n]);
      AfterIsProper(AfterRun(history[..n]), history[n]);
    }
  }

  /** The names asked for since all files were closed. */
  function Wanted(history: seq<Event>): set<string> {
    if history == [] then {}
    else
      var n := |history| - 1;
      match history[n]
      case ClosedAll => {}
      case Asked(name, _, _) => Wanted(history[..n]) + {name}
  }

  /** Those among them for which the system was at least once ready to open a file. */
  function Granted(history: seq<Event>): set<string> {
    if history == [] then {}
    else
      var n := |history| - 1;
      match history[n]
      case ClosedAll => {}
      case Asked(name, dirOk, handle) =>
        Granted(history[..n]) + if name != "" && dirOk && handle.Some? then {name} else {}
  }

  lemma {:induction false} NamesCount(cache: seq<File>)
    requires DistinctNames(cache)
    ensures |Names(cache)| == |cache|
  {
    if cache != [] {
      var n := |cache| - 1;
      NamesCount(cache[..n]);
      assert cache == cache[..n] + [cache[n]];
      assert Names(cache) == Names(cache[..n]) + {cache[n].name};
    }
  }

  /** While no more than 200 different names are in use, no file is ever closed: all
      that could be opened are open, whatever else failed, and there is no hole. */
  lemma {:induction false} NothingIsEvicted(history: seq<Event>)
    requires IsHistory(history) && |Wanted(history)| <= MAX_OPEN
    ensures Names(AfterRun(history)) == Granted(history) <= Wanted(history)
    ensures !HasHole(AfterRun(history))
  {
    if history != [] && history[|history| - 1].Asked? {
      var n := |history| - 1;
      var c := AfterRun(history[..n]);
      Subset(Wanted(history[..n]), Wanted(history));
      NothingIsEvicted(history[..n]);
      RunIsProper(history[..n]);
      RoomForOne(c, Wanted(history), history[n].name);
      hide AfterRun, Wanted, Granted, IsHistory;
      NamesAfter(c, history[n]);
    }
  }

  /** A name that is not open finds room among at most 200 wanted ones. */
  lemma RoomForOne(c: seq<File>, wanted: set<string>, name: string)
    requires Proper(c) && Names(c) <= wanted && |wanted| <= MAX_OPEN && name in wanted
    ensures name !in Names(c) ==> |c| < MAX_OPEN
  {
    NamesCount(c);
    if name !in Names(c) {
      Subset(Names(c) + {name}, wanted);
    }
  }

  lemma NamesAfter(c: seq<File>, e: Event)
    requires Proper(c) && e.Asked? && (e.name !in Names(c) ==> |c| < MAX_OPEN)
    ensures Names(After(c, e)) == Names(c) + if e.name != "" && e.dirOk && e.handle.Some? then {e.name} else {}
    ensures HasHole(After(c, e)) ==> HasHole(c)
  {
    assert Names(c + [File(e.name, e.handle)]) == Names(c) + {e.name};
    if c == [] {
      assert After(c, e) == [] || After(c, e) == [File(e.name, e.handle)];
    }
  }

  // ----- a run that reaches a hole ------------------------------------------

  /** Requests that all succeed, with new handles. */
  function Opens(names: seq<string>): (history: seq<Event>)
    ensures |history| == |names|
  {
    seq(|names|, i requires 0 <= i < |names| => Asked(names[i], true, Some(i)))
  }

  function Opened(names: seq<string>): (cache: seq<File>)
    ensures |cache| == |names|
  {
    seq(|names|, i requires 0 <= i < |names| => File(names[i], Some(i)))
  }

  predicate Different(names: seq<string>) {
    "" !in names && forall i, k :: 0 <= i < k < |names| ==> names[i] != names[k]
  }

  /** The last two hundred. */
  function Latest(cache: seq<File>): seq<File> {
    if |cache| <= 200 then cache else cache[|cache| - 200..]
  }

  lemma OpensOne(names: seq<string>, n: nat)
    requires Different(names) && n < |names|
    ensures var e := Asked(names[n], true, Some(n));
      Possible(Latest(Opened(names[..n])), e) && After(Latest(Opened(names[..n])), e) == Latest(Opened(names[..n + 1]))
  {
    var before := Opened(names[..n]);
    NewToAll(names[..n], names[n], n);
    LatestNext(before, File(names[n], Some(n)));
    OpenedNext(names, n);
    assert names[n] in names;
    hide Latest, Opened, Names, Handles;
  }

  lemma OpenedNext(names: seq<string>, n: nat)
    requires n < |names|
    ensures Opened(names[..n + 1]) == Opened(names[..n]) + [File(names[n], Some(n))]
  {
  }

  lemma LatestNext(cache: seq<File>, f: File)
    ensures |Latest(cache)| <= MAX_OPEN
    ensures (if |Latest(cache)| < MAX_OPEN then Latest(cache) else Latest(cache)[1..]) + [f] == Latest(cache + [f])
  {
  }

  /** Another name and a new handle are not among those opened before. */
  lemma NewToAll(names: seq<string>, name: string, handle: nat)
    requires name !in names && |names| <= handle
    ensures name !in Names(Latest(Opened(names))) && handle !in Handles(Latest(Opened(names)))
  {
    var all := Opened(names);
    assert forall f :: f in all ==> f.name in names && f.handle.Some? && f.handle.value < |names|;
    assert forall f :: f in Latest(all) ==> f in all;
    hide Latest, Opened;
  }

  lemma OpensNext(names: seq<string>, n: nat)
    requires n < |names|
    ensures Opens(names[..n + 1]) == Opens(names[..n]) + [Asked(names[n], true, Some(n))]
  {
  }

  lemma OpensNone(names: seq<string>)
    ensures IsHistory(Opens(names[..0])) && AfterRun(Opens(names[..0])) == Latest(Opened(names[..0]))
  {
  }

  /** First in, first out: of files opened one after another, the last two hundred are open. */
  lemma {:induction false} OpensFill(names: seq<string>, n: nat)
    requires Different(names) && n <= |names|
    ensures IsHistory(Opens(names[..n])) && AfterRun(Opens(names[..n])) == Latest(Opened(names[..n]))
  {
    hide *;
    if n == 0 {
      OpensNone(names);
    } else {
      OpensFill(names, n - 1);
      OpensOne(names, n - 1);
      OpensNext(names, n - 1);
      Extend(Opens(names[..n - 1]), Asked(names[n - 1], true, Some(n - 1)));
    }
  }

  /** To be asked for again does not keep a file open any longer: the oldest one is closed
      for the next new one all the same. */
  lemma OldestIsClosed(names: seq<string>, name: string, handle: Option<nat>)
    requires Different(names) && |names| == 200 && name != "" && name !in names
    requires handle.Some? ==> handle.value >= 200
    ensures var history := Opens(names) + [Asked(names[0], true, handle)] + [Asked(name, true, Some(200))];
      && IsHistory(history)
      && AfterRun(history) == Opened(names)[1..] + [File(name, Some(200))]
      && names[0] !in Names(AfterRun(history))
  {
    var all, again, asked := Opened(names), Asked(names[0], true, handle), Asked(name, true, Some(200));
    OpensFill(names, 200);
    AllAreLatest(names);
    FirstIsOpen(names);
    NewToAll(names, name, 200);
    OthersDiffer(names, name);
    if handle.Some? {
      NewHandle(names, handle.value);
    }
    hide Latest, Opened, Opens, Names, Handles, IsHistory, AfterRun, Different;
    Extend(Opens(names), again);
    Extend(Opens(names) + [again], asked);
  }

  lemma AllAreLatest(names: seq<string>)
    requires |names| == 200
    ensures Latest(Opened(names)) == Opened(names) && names[..200] == names && |Opened(names)| == MAX_OPEN
  {
  }

  lemma FirstIsOpen(names: seq<string>)
    requires names != []
    ensures names[0] in Names(Opened(names))
  {
    assert Opened(names)[0] in Opened(names) && Opened(names)[0].name == names[0];
  }

  lemma NewHandle(names: seq<string>, handle: nat)
    requires |names| <= handle
    ensures handle !in Handles(Opened(names))
  {
    assert forall f :: f in Opened(names) ==> f.handle.Some? && f.handle.value < |names|;
  }

  lemma OthersDiffer(names: seq<string>, name: string)
    requires Different(names) && names != [] && name !in names
    ensures names[0] !in Names(Opened(names)[1..] + [File(name, Some(200))])
  {
    var rest := Opened(names)[1..] + [File(name, Some(200))];
    assert names[0] in names;
    assert forall i :: 0 <= i < |rest| - 1 ==> rest[i].name == names[i + 1] && names[i + 1] != names[0];
  }

  /** Two hundred files are open, and one more cannot be opened: the oldest file is
      closed, and its slot is a hole with the new name. Asked for again, that name is
      found, and nothing changes. */
  lemma FailureLeavesHole(names: seq<string>, name: string)
    requires Different(names) && |names| == MAX_OPEN && name != "" && name !in names
    ensures var history := Opens(names) + [Asked(name, true, None)];
      && IsHistory(history)
      && AfterRun(history) == [File(name, None)] + Opened(names)[1..]
      && IsHole(AfterRun(history), name)
      && (forall handle :: After(AfterRun(history), Asked(name, true, handle)) == AfterRun(history))
  {
    OpensFill(names, |names|);
    assert names[..|names|] == names;
    Extend(Opens(names), Asked(name, true, None));
    assert forall f :: f in Opened(names) ==> f.name in names;
    var cache := [File(name, None)] + Opened(names)[1..];
    assert cache[0] in cache && cache[0].name == name;
  }

  /** Such a run: the names are a, aa, aaa, ... */
  function Letters(n: nat): (s: string)
    ensures |s| == n
  {
    seq(n, _ => 'a')
  }

  const MANY_NAMES: seq<string> := seq(MAX_OPEN, i requires 0 <= i < MAX_OPEN => Letters(i + 1))
  const HOLE_RUN := Opens(MANY_NAMES) + [Asked(Letters(MAX_OPEN + 1), true, None)]

  lemma HoleIsReached()
    ensures IsHistory(HOLE_RUN) && IsHole(AfterRun(HOLE_RUN), Letters(MAX_OPEN + 1))
  {
    assert forall i :: 0 <= i < |MANY_NAMES| ==> |MANY_NAMES[i]| == i + 1;
    FailureLeavesHole(MANY_NAMES, Letters(MAX_OPEN + 1));
  }

  // ----- the ring -----------------------------------------------------------

  /** The slot of file i, counted from the oldest: the ring starts behind the file
      opened last once it is full. */
  function SlotOf(i: nat, nOpen: nat, last: int): int {
    if nOpen < MAX_OPEN then i
    else if last + 1 + i < MAX_OPEN then last + 1 + i
    else last + 1 + i - MAX_OPEN
  }

  lemma SlotIsUsed(slot: nat, nOpen: nat, last: int) returns (i: nat)
    requires slot < nOpen <= MAX_OPEN && -1 <= last < MAX_OPEN
    ensures i < nOpen && SlotOf(i, nOpen, last) == slot
  {
    i := if nOpen < MAX_OPEN then slot else if slot > last then slot - last - 1 else slot - last - 1 + MAX_OPEN;
  }

  function NextOf(last: int): int { (last + 1) % MAX_OPEN }

  /** A ring with these fields holds the cache `c`. */
  ghost predicate Ring(c: seq<File>, nOpen: nat, last: int, outfile: seq<Option<nat>>, filename: seq<string>) {
    && |outfile| == |filename| == MAX_OPEN
    && |c| == nOpen <= MAX_OPEN
    && (if nOpen < MAX_OPEN then last == nOpen - 1 else 0 <= last < MAX_OPEN)
    && (forall i :: 0 <= i < |c| ==> SlotHolds(c[i], SlotOf(i, nOpen, last), outfile, filename))
    && (forall i :: nOpen <= i < MAX_OPEN ==> outfile[i] == None)
  }

  ghost predicate SlotHolds(f: File, slot: int, outfile: seq<Option<nat>>, filename: seq<string>) {
    && 0 <= slot < |outfile| && slot < |filename|
    && outfile[slot] == f.handle && filename[slot] == f.name
  }

  /** Slot `last + 1` is the next one, and in a full ring that of the oldest file. */
  lemma NextSlot(c: seq<File>, nOpen: nat, last: int, outfile: seq<Option<nat>>, filename: seq<string>)
    requires Ring(c, nOpen, last, outfile, filename)
    ensures var app := NextOf(last);
      && 0 <= app < MAX_OPEN && |outfile| == |filename| == MAX_OPEN
      && (nOpen < MAX_OPEN ==> app == nOpen && outfile[app] == None)
      && (nOpen == MAX_OPEN ==> app == SlotOf(0, nOpen, last) && outfile[app] == c[0].handle)
  {
    if nOpen == MAX_OPEN {
      assert SlotHolds(c[0], SlotOf(0, nOpen, last), outfile, filename);
    }
  }

  lemma RingOpens(c: seq<File>, nOpen: nat, last: int, outfile: seq<Option<nat>>, filename: seq<string>, f: File)
    requires Ring(c, nOpen, last, outfile, filename)
    ensures var app := NextOf(last);
      && 0 <= app < |outfile| && app < |filename|
      && Ring((if nOpen < MAX_OPEN then c else c[1..]) + [f], if nOpen < MAX_OPEN then nOpen + 1 else nOpen, app,
              outfile[app := f.handle], filename[app := f.name])
  {
    NextSlot(c, nOpen, last, outfile, filename);
    var app := NextOf(last);
    var nOpen' := if nOpen < MAX_OPEN then nOpen + 1 else nOpen;
    var c' := (if nOpen < MAX_OPEN then c else c[1..]) + [f];
    forall i | 0 <= i < |c'|
      ensures SlotHolds(c'[i], SlotOf(i, nOpen', app), outfile[app := f.handle], filename[app := f.name])
    {
      if i < nOpen' - 1 {
        var j := if nOpen < MAX_OPEN then i else i + 1;
        assert SlotHolds(c[j], SlotOf(j, nOpen, last), outfile, filename);
      }
    }
  }

  /** fopen fails: the slots beyond the used ones do not matter. */
  lemma RingKeeps(c: seq<File>, nOpen: nat, last: int, outfile: seq<Option<nat>>, filename: seq<string>, name: string)
    requires Ring(c, nOpen, last, outfile, filename) && nOpen < MAX_OPEN
    ensures last + 1 == nOpen
    ensures Ring(c, nOpen, last, outfile[last + 1 := None], filename[last + 1 := name])
  {
    forall i | 0 <= i < |c|
      ensures SlotHolds(c[i], SlotOf(i, nOpen, last), outfile[last + 1 := None], filename[last + 1 := name])
    {
      assert SlotHolds(c[i], SlotOf(i, nOpen, last), outfile, filename);
    }
  }

  /** fopen fails on a full ring: the slot of the oldest file becomes a hole. */
  lemma RingLoses(c: seq<File>, nOpen: nat, last: int, outfile: seq<Option<nat>>, filename: seq<string>, name: string)
    requires Ring(c, nOpen, last, outfile, filename) && nOpen == MAX_OPEN
    ensures var app := NextOf(last);
      Ring([File(name, None)] + c[1..], nOpen, last, outfile[app := None], filename[app := name])
  {
    var app := NextOf(last);
    var c' := [File(name, None)] + c[1..];
    forall i | 0 <= i < |c'|
      ensures SlotHolds(c'[i], SlotOf(i, nOpen, last), outfile[app := None], filename[app := name])
    {
      assert SlotHolds(c[i], SlotOf(i, nOpen, last), outfile, filename);
    }
  }

  /** The ring once the next slot is given to a file that is not open. */
  lemma RingAfter(c: seq<File>, nOpen: nat, last: int, outfile: seq<Option<nat>>, filename: seq<string>,
                  name: string, handle: Option<nat>)
    requires Ring(c, nOpen, last, outfile, filename) && name != "" && name !in Names(c)
    ensures var app := NextOf(last);
      && 0 <= app < |outfile| && app < |filename|
      && Ring(After(c, Asked(name, true, handle)), if handle.Some? && nOpen < MAX_OPEN then nOpen + 1 else nOpen,
              if handle.Some? then app else last, outfile[app := handle], filename[app := name])
  {
    NextSlot(c, nOpen, last, outfile, filename);
    RingSizes(c, nOpen, last, outfile, filename);
    hide Ring, Names;
    if handle.Some? {
      RingOpens(c, nOpen, last, outfile, filename, File(name, handle));
    } else if nOpen < MAX_OPEN {
      RingKeeps(c, nOpen, last, outfile, filename, name);
    } else {
      RingLoses(c, nOpen, last, outfile, filename, name);
    }
  }

  lemma OldestIsLive(c: seq<File>)
    ensures c != [] && c[0].handle.Some? ==> c[0].handle.value in Handles(c)
  {
  }

  // ----- handles ------------------------------------------------------------

  lemma HandlesAdd(c: seq<File>, f: File)
    ensures Handles(c + [f]) == Handles(c) + HandleOf(f.handle)
  {
    assert forall g :: g in c + [f] <==> g in c || g == f;
  }

  lemma HandlesLose(c: seq<File>)
    requires Proper(c) && c != []
    ensures Handles(c[1..]) == Handles(c) - HandleOf(c[0].handle)
    ensures forall name :: Handles([File(name, None)] + c[1..]) == Handles(c[1..])
  {
    assert forall g :: g in c <==> g == c[0] || g in c[1..];
    assert forall g :: g in c[1..] && g.handle.Some? ==> g.handle != c[0].handle;
  }

  /** The handles that are left when slot `app` is closed and given to the new file. */
  lemma HandlesAfter(c: seq<File>, e: Event, closed: Option<nat>)
    requires Proper(c) && Possible(c, e) && e.Asked? && e.name != "" && e.name !in Names(c) && e.dirOk
    requires closed == if |c| < MAX_OPEN then None else c[0].handle
    ensures Handles(After(c, e)) == Handles(c) - HandleOf(closed) + HandleOf(e.handle)
  {
    HandlesAdd(if |c| < MAX_OPEN then c else c[1..], File(e.name, e.handle));
    if |c| == MAX_OPEN {
      HandlesLose(c);
    }
  }

  /** The handles of the cache are those in the slots, each in one. */
  lemma LiveSlots(c: seq<File>, nOpen: nat, last: int, outfile: seq<Option<nat>>, filename: seq<string>)
    requires Ring(c, nOpen, last, outfile, filename) && Proper(c)
    ensures |outfile| == |filename| == MAX_OPEN
    ensures Handles(c) == OpenFrom(outfile, 0) && OneSlotEach(outfile)
  {
    forall h | h in Handles(c) ensures h in OpenFrom(outfile, 0) {
      var f :| f in c && f.handle == Some(h);
      var i :| 0 <= i < |c| && c[i] == f;
      assert SlotHolds(c[i], SlotOf(i, nOpen, last), outfile, filename);
    }
    forall k | 0 <= k < MAX_OPEN && outfile[k].Some? ensures outfile[k].value in Handles(c) {
      var i := UsedSlot(c, nOpen, last, outfile, filename, k);
      assert c[i] in c;
    }
    forall k, m | 0 <= k < m < MAX_OPEN && outfile[k].Some? ensures outfile[k] != outfile[m] {
      var i := UsedSlot(c, nOpen, last, outfile, filename, k);
      if outfile[m].Some? {
        var j := UsedSlot(c, nOpen, last, outfile, filename, m);
        assert i < j || j < i;
      }
    }
  }

  lemma UsedSlot(c: seq<File>, nOpen: nat, last: int, outfile: seq<Option<nat>>, filename: seq<string>, k: nat)
    returns (i: nat)
    requires Ring(c, nOpen, last, outfile, filename) && k < MAX_OPEN && outfile[k].Some?
    ensures i < |c| && SlotOf(i, nOpen, last) == k && outfile[k] == c[i].handle
  {
    i := SlotIsUsed(k, nOpen, last);
    assert SlotHolds(c[i], SlotOf(i, nOpen, last), outfile, filename);
  }

  class Files {
    var nOpenFiles: nat
    var lastOpenFile: int
    var curOpenFile: int
    const outfile: array<Option<nat>>
    const filename: array<string>
    ghost var history: seq<Event>     // what has been asked so far
    ghost var cache: seq<File>
    ghost var live: set<nat>          // the handles that the system has open for us

    /** The ring holds `c`, oldest file first. */
    ghost predicate Holds(c: seq<File>)
      reads this, outfile, filename
    {
      Ring(c, nOpenFiles, lastOpenFile, outfile[..], filename[..])
    }

    /** The ring is where its history leads to, and the open handles are those in it. */
    ghost predicate Valid()
      reads this, outfile, filename
    {
      && IsHistory(history) && cache == AfterRun(history)
      && Holds(cache) && live == Handles(cache)
      && -1 <= curOpenFile < nOpenFiles
    }

    /** nmxp_data_seed_init */
    constructor ()
      ensures Valid() && history == [] && live == {} && fresh(outfile) && fresh(filename)
    {
      nOpenFiles, lastOpenFile, curOpenFile := 0, -1, -1;
      outfile := new Option<nat>[MAX_OPEN](_ => None);
      filename := new string[MAX_OPEN](_ => "");
      history, cache, live := [], [], {};
    }

    /** File k of the cache is in its slot. */
    lemma InSlot(c: seq<File>, k: nat)
      requires Holds(c) && k < |c|
      ensures var slot := SlotOf(k, nOpenFiles, lastOpenFile);
        0 <= slot < MAX_OPEN && outfile.Length == filename.Length == MAX_OPEN
        && outfile[slot] == c[k].handle && filename[slot] == c[k].name
    {
      assert SlotHolds(c[k], SlotOf(k, nOpenFiles, lastOpenFile), outfile[..], filename[..]);
    }

    /** The search among the open files: slot i is that of file k. */
    method Find(name: string) returns (found: bool, i: nat, ghost k: nat)
      requires Holds(cache)
      ensures found <==> name in Names(cache)
      ensures found ==> i < nOpenFiles == |cache| && k < |cache| && cache[k].name == name
      ensures found ==> i == SlotOf(k, nOpenFiles, lastOpenFile)
    {
      found, i := false, 0;
      while i < nOpenFiles && !found
        invariant i <= nOpenFiles
        invariant found ==> i < nOpenFiles && filename[i] == name
        invariant !found ==> forall j :: 0 <= j < i ==> filename[j] != name
        decreases nOpenFiles - i, !found
      {
        if filename[i] == name {
          found := true;
        } else {
          i := i + 1;
        }
      }
      if found {
        k := SlotIsUsed(i, nOpenFiles, lastOpenFile);
        InSlot(cache, k);
        assert cache[k] in cache;
      } else {
        k := 0;
        forall f | f in cache ensures f.name != name {
          var j :| 0 <= j < |cache| && cache[j] == f;
          InSlot(cache, j);
        }
      }
    }

    /** nmxp_data_seed_fclose. Only a handle that is open may be closed. */
    method Close(i: int)
      requires outfile.Length == filename.Length == MAX_OPEN
      requires 0 <= i < MAX_OPEN && outfile[i].Some? ==> outfile[i].value in live
      modifies this`live, outfile, filename
      ensures var isOpen := 0 <= i < MAX_OPEN && old(outfile[i]).Some?;
        if isOpen then
          && live == old(live) - {old(outfile[i]).value}
          && outfile[..] == old(outfile[..])[i := None] && filename[..] == old(filename[..])[i := ""]
        else
          live == old(live) && outfile[..] == old(outfile[..]) && filename[..] == old(filename[..])
    {
      if 0 <= i < MAX_OPEN {
        if outfile[i].Some? {
          live := live - {outfile[i].value};
          outfile[i] := None;
          filename[i] := "";
        }
      }
    }

    /** Lines 896-902: slot `app` is closed, and fopen is called for it. */
    method Replace(app: nat, name: string, handle: Option<nat>)
      requires outfile.Length == filename.Length == MAX_OPEN && app < MAX_OPEN
      requires outfile[app].Some? ==> outfile[app].value in live
      modifies this`live, outfile, filename
      ensures outfile[..] == old(outfile[..])[app := handle] && filename[..] == old(filename[..])[app := name]
      ensures nOpenFiles == old(nOpenFiles) && lastOpenFile == old(lastOpenFile)
      ensures curOpenFile == old(curOpenFile) && cache == old(cache) && history == old(history)
      ensures live == old(live) - HandleOf(old(outfile[app])) + HandleOf(handle)
    {
      Close(app);
      filename[app] := name;
      outfile[app] := handle;
      live := live + HandleOf(handle);
    }

    /** Lines 909-914: slot `app` holds a new file. */
    method Count(app: nat)
      requires app < outfile.Length == filename.Length == MAX_OPEN && nOpenFiles <= MAX_OPEN
      requires app < MAX_OPEN && (nOpenFiles < MAX_OPEN ==> app == nOpenFiles)
      modifies this`nOpenFiles, this`lastOpenFile, this`curOpenFile
      ensures nOpenFiles == if old(nOpenFiles) < MAX_OPEN then old(nOpenFiles) + 1 else old(nOpenFiles)
      ensures lastOpenFile == curOpenFile == app < nOpenFiles
      ensures cache == old(cache) && history == old(history) && live == old(live)
    {
      if nOpenFiles < MAX_OPEN {
        nOpenFiles := nOpenFiles + 1;
      }
      lastOpenFile := app;
      curOpenFile := lastOpenFile;
    }

    /** The ring once slot `app` has the new name, and its file if fopen gave one. */
    ghost predicate Ready(c: seq<File>, app: nat, name: string, handle: Option<nat>)
      reads this, outfile, filename
    {
      var e := Asked(name, true, handle);
      && app < outfile.Length == filename.Length == MAX_OPEN && |c| == nOpenFiles <= MAX_OPEN
      && (nOpenFiles < MAX_OPEN ==> app == nOpenFiles)
      && outfile[app] == handle && filename[app] == name
      && live == Handles(After(c, e))
      && Ring(After(c, e), if handle.Some? && nOpenFiles < MAX_OPEN then nOpenFiles + 1 else nOpenFiles,
              if handle.Some? then app else lastOpenFile, outfile[..], filename[..])
    }

    /** Lines 893-902. */
    method Prepare(name: string, handle: Option<nat>) returns (app: nat)
      requires Holds(cache) && live == Handles(cache)
      requires Proper(cache) && Possible(cache, Asked(name, true, handle))
      requires name != "" && name !in Names(cache)
      modifies this`live, outfile, filename
      ensures Ready(cache, app, name, handle)
      ensures cache == old(cache) && history == old(history)
      ensures nOpenFiles == old(nOpenFiles) && lastOpenFile == old(lastOpenFile) && curOpenFile == old(curOpenFile)
    {
      ghost var os, fs := outfile[..], filename[..];
      NextSlot(cache, nOpenFiles, lastOpenFile, os, fs);
      app := (lastOpenFile + 1) % MAX_OPEN;
      OldestIsLive(cache);
      hide *;
      Replace(app, name, handle);
      NowReady(cache, os, fs, app, name, handle);
    }

    lemma NowReady(c: seq<File>, os: seq<Option<nat>>, fs: seq<string>, app: nat, name: string, handle: Option<nat>)
      requires Ring(c, nOpenFiles, lastOpenFile, os, fs) && app == NextOf(lastOpenFile) && 0 <= app < |os|
      requires app < |fs| && outfile[..] == os[app := handle] && filename[..] == fs[app := name]
      requires Proper(c) && Possible(c, Asked(name, true, handle)) && name != "" && name !in Names(c)
      requires live == Handles(c) - HandleOf(os[app]) + HandleOf(handle)
      ensures Ready(c, app, name, handle)
    {
      NextSlot(c, nOpenFiles, lastOpenFile, os, fs);
      RingSizes(c, nOpenFiles, lastOpenFile, os, fs);
      RingAfter(c, nOpenFiles, lastOpenFile, os, fs, name, handle);
      HandlesAfter(c, Asked(name, true, handle), os[app]);
      hide Ring, Proper, Possible, Handles, Names, HandleOf, After, NextOf;
      assert outfile[..][app] == handle && filename[..][app] == name;
      assert |outfile[..]| == MAX_OPEN && |filename[..]| == MAX_OPEN;
    }

    /** Lines 892-916: a file that is not open is opened, or fails to open. */
    method Open(name: string, handle: Option<nat>) returns (err: nat)
      requires Holds(cache) && live == Handles(cache) && -1 <= curOpenFile < nOpenFiles
      requires Proper(cache) && Possible(cache, Asked(name, true, handle))
      requires name != "" && name !in Names(cache)
      modifies this`nOpenFiles, this`lastOpenFile, this`curOpenFile, this`live, outfile, filename
      ensures Holds(After(cache, Asked(name, true, handle))) && live == Handles(After(cache, Asked(name, true, handle)))
      ensures cache == old(cache) && history == old(history) && -1 <= curOpenFile < nOpenFiles
      ensures err == if handle == None then 1 else 0
      ensures handle.Some? ==> Current(name) && outfile[curOpenFile] == handle
    {
      hide Ring, Proper, Possible, Handles, Names, After;
      err := 0;
      var app := Prepare(name, handle);
      if outfile[app] == None {
        err := err + 1;
      } else {
        Count(app);
      }
    }

    /** The current slot has this name. */
    ghost predicate Current(name: string)
      reads this, filename
    {
      0 <= curOpenFile < MAX_OPEN == outfile.Length == filename.Length && filename[curOpenFile] == name
    }

    /** nmxp_data_seed_fopen, for the file name that the current record asks for. When it
        reports no error the current slot has that name, and it is an open file unless
        the name is that of a hole. */
    method Request(name: string, dirOk: bool, handle: Option<nat>) returns (err: nat)
      requires Valid() && Possible(cache, Asked(name, dirOk, handle))
      modifies this, outfile, filename
      ensures Valid() && history == old(history) + [Asked(name, dirOk, handle)]
      ensures cache == After(old(cache), Asked(name, dirOk, handle))
      ensures name == "" || name in Names(old(cache)) || !dirOk ==> cache == old(cache)
      ensures err == if name == "" || name in Names(old(cache)) || (dirOk && handle.Some?) then 0 else 1
      ensures err == 0 && name != "" ==>
                Current(name) && (outfile[curOpenFile] == None <==> IsHole(old(cache), name))
    {
      RunIsProper(history);
      hide *;
      err := 0;
      if |name| > 0 {
        err := Seek(name, dirOk, handle);
      }
      Record(Asked(name, dirOk, handle));
    }

    /** Lines 858-920. */
    method Seek(name: string, dirOk: bool, handle: Option<nat>) returns (err: nat)
      requires Holds(cache) && live == Handles(cache) && -1 <= curOpenFile < nOpenFiles
      requires Proper(cache) && Possible(cache, Asked(name, dirOk, handle)) && name != ""
      modifies this`nOpenFiles, this`lastOpenFile, this`curOpenFile, this`live, outfile, filename
      ensures Holds(After(cache, Asked(name, dirOk, handle)))
      ensures live == Handles(After(cache, Asked(name, dirOk, handle)))
      ensures cache == old(cache) && history == old(history) && -1 <= curOpenFile < nOpenFiles
      ensures err == if name in Names(cache) || (dirOk && handle.Some?) then 0 else 1
      ensures err == 0 ==> Current(name) && (outfile[curOpenFile] == None <==> IsHole(cache, name))
    {
      err := 0;
      var found, i;
      ghost var k;
      found, i, k := Find(name);
      if found {
        curOpenFile := i;
        InSlot(cache, k);
        HoleFound(cache, k, name);
      } else if !dirOk {
        err := err + 1;
      } else {
        NoHoleOf(cache, name);
        hide Ring, Proper, Handles, Names, After, Current;
        err := Open(name, handle);
      }
    }

    /** Adds the event to the history. */
    ghost method Record(e: Event)
      requires IsHistory(history) && cache == AfterRun(history) && Possible(cache, e)
      requires Holds(After(cache, e)) && live == Handles(After(cache, e)) && -1 <= curOpenFile < nOpenFiles
      modifies this`history, this`cache
      ensures Valid() && history == old(history) + [e] && cache == After(old(cache), e)
    {
      Extend(history, e);
      history, cache := history + [e], After(cache, e);
    }

    /** nmxp_data_seed_fclose_all: every handle is given back, and a hole is gone. */
    method CloseAll()
      requires Valid()
      modifies this, outfile, filename
      ensures Valid() && history == old(history) + [ClosedAll] && cache == [] && live == {}
    {
      RunIsProper(history);
      CloseSlots();
      nOpenFiles, lastOpenFile, curOpenFile := 0, -1, -1;
      Record(ClosedAll);
    }

    method CloseSlots()
      requires Holds(cache) && Proper(cache) && live == Handles(cache)
      modifies this`live, outfile, filename
      ensures live == {} && outfile.Length == filename.Length == MAX_OPEN
      ensures forall k :: 0 <= k < MAX_OPEN ==> outfile[k] == None
      ensures cache == old(cache) && history == old(history)
    {
      ghost var os := outfile[..];
      LiveSlots(cache, nOpenFiles, lastOpenFile, os, filename[..]);
      hide Ring, Proper, Handles, OpenFrom;
      for i := 0 to MAX_OPEN
        invariant forall k :: 0 <= k < i ==> outfile[k] == None
        invariant forall k :: i <= k < MAX_OPEN ==> outfile[k] == os[k]
        invariant live == OpenFrom(os, i) && OneSlotEach(os)
      {
        CloseNext(os, i);
        Close(i);
        forall k | 0 <= k < MAX_OPEN && k != i ensures outfile[k] == outfile[..][k] {}
      }
      NoneFrom(os);
    }
  }

  /** The handles in slots i and later. */
  function OpenFrom(outfile: seq<Option<nat>>, i: nat): set<nat> {
    set k | i <= k < |outfile| && outfile[k].Some? :: outfile[k].value
  }

  /** No handle is in two slots. */
  predicate OneSlotEach(outfile: seq<Option<nat>>) {
    forall i, k :: 0 <= i < k < |outfile| && outfile[i].Some? ==> outfile[i] != outfile[k]
  }

  lemma CloseNext(outfile: seq<Option<nat>>, i: nat)
    requires i < |outfile| && OneSlotEach(outfile)
    ensures OpenFrom(outfile, i) == HandleOf(outfile[i]) + OpenFrom(outfile, i + 1)
    ensures outfile[i].Some? ==>
              outfile[i].value in OpenFrom(outfile, i) && outfile[i].value !in OpenFrom(outfile, i + 1)
  {
  }

  lemma NoneFrom(outfile: seq<Option<nat>>)
    ensures OpenFrom(outfile, |outfile|) == {}
  {
  }

  lemma RingSizes(c: seq<File>, nOpen: nat, last: int, outfile: seq<Option<nat>>, filename: seq<string>)
    requires Ring(c, nOpen, last, outfile, filename)
    ensures |outfile| == |filename| == MAX_OPEN && nOpen == |c| <= MAX_OPEN
    ensures nOpen < MAX_OPEN ==> last == nOpen - 1
  {
  }

  lemma Extend(history: seq<Event>, e: Event)
    requires IsHistory(history) && Possible(AfterRun(history), e)
    ensures IsHistory(history + [e]) && AfterRun(history + [e]) == After(AfterRun(history), e)
  {
    assert (history + [e])[..|history|] == history;
  }

  lemma HoleFound(c: seq<File>, k: nat, name: string)
    requires Proper(c) && k < |c| && c[k].name == name
    ensures c[k].handle == None <==> IsHole(c, name)
  {
  }

  lemma NoHoleOf(c: seq<File>, name: string)
    requires name !in Names(c)
    ensures !IsHole(c, name)
  {
    assert c != [] ==> c[0] in c;
  }
}
