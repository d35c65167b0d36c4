/** A connection on which bytes are awaited, and the client's loop, which tries again after
    each time-out. A header is awaited for as long as the client says, a body for 30
    seconds; and 0 seconds are 30 as well. */
module Pauses {
  import opened Sequences
  import opened Words
  import opened Framing

  const HIGHEST_TIMEOUT := 30

  /** What is still to come: the bytes, and for each of them how many seconds it is awaited
      once those before it have been taken; and so for the end of the stream. */
  datatype Feed = Feed(stream: seq<Byte>, waits: seq<nat>)

  type Line = f: Feed | |f.waits| == |f.stream| + 1 witness Feed([], [0])

  /** What the socket is told for a time-out of that many seconds. */
  function Patience(timeoutsec: nat): (limit: nat)
    ensures limit > 0
  {
    if timeoutsec == 0 then HIGHEST_TIMEOUT else timeoutsec
  }

  /** How long byte i of a message may be awaited. */
  function Limit(i: nat, timeoutsec: nat): (limit: nat)
    ensures limit > 0
  {
    Patience(if i < HEADER_BYTES then timeoutsec else 0)
  }

  /** How many of n bytes come in time, the first i of them taken to. */
  function InTime(waits: seq<nat>, i: nat, n: nat, timeoutsec: nat): (k: nat)
    requires i <= n && i <= |waits|
    ensures i <= k <= n && k <= |waits|
    ensures forall j :: i <= j < k ==> waits[j] <= Limit(j, timeoutsec)
    ensures k < n && k < |waits| ==> waits[k] > Limit(k, timeoutsec)
    decreases n - i
  {
    if i == n || i == |waits| || waits[i] > Limit(i, timeoutsec) then i
    else InTime(waits, i + 1, n, timeoutsec)
  }

  // ----- the loop, as a function --------------------------------------------

  /** What becomes of one attempt to receive a message. */
  datatype Fate = TimedOut | Took(reading: Reading)

  /** The line after a time-out: k bytes are gone, and the next is awaited further. */
  function Lose(line: Line, k: nat, limit: nat): Line
    requires k <= |line.stream| && line.waits[k] > limit
  {
    Feed(line.stream[k..], [line.waits[k] - limit] + line.waits[k + 1..])
  }

  function Skip(line: Line, k: nat): Line
    requires k <= |line.stream|
  {
    Feed(line.stream[k..], line.waits[k..])
  }

  /** One attempt. A time-out takes what has come of the message off the line. */
  function Try(line: Line, bufferLength: nat, timeoutsec: nat): (Fate, Line) {
    var n := Extent(line.stream, bufferLength);
    var k := InTime(line.waits, 0, n, timeoutsec);
    if k < n && k < |line.waits| then
      (TimedOut, Lose(line, k, Limit(k, timeoutsec)))
    else
      (Took(Read(line.stream, bufferLength).0), Skip(line, if n <= |line.stream| then n else |line.stream|))
  }

  /** All the seconds that are awaited. */
  function Total(waits: seq<nat>): nat {
    if waits == [] then 0 else waits[0] + Total(waits[1..])
  }

  lemma {:induction false} TotalFrom(waits: seq<nat>, k: nat)
    requires k <= |waits|
    ensures Total(waits[k..]) <= Total(waits)
    ensures k < |waits| ==> Total(waits[k..]) == waits[k] + Total(waits[k + 1..])
  {
    if k == 0 {
      assert waits[0..] == waits;
    } else {
      TotalFrom(waits[1..], k - 1);
      assert waits[1..][k - 1..] == waits[k..];
      if k < |waits| {
        assert waits[1..][k..] == waits[k + 1..];
      }
    }
  }

  function Size(line: Line): nat {
    |line.stream| + Total(line.waits)
  }

  lemma LoseShrinks(line: Line, k: nat, limit: nat)
    requires k <= |line.stream| && line.waits[k] > limit > 0
    ensures Size(Lose(line, k, limit)) < Size(line)
  {
    TotalFrom(line.waits, k);
    var rest := line.waits[k + 1..];
    assert ([line.waits[k] - limit] + rest)[1..] == rest;
  }

  lemma TryShrinks(line: Line, bufferLength: nat, timeoutsec: nat)
    ensures var (fate, line') := Try(line, bufferLength, timeoutsec);
      && |line'.stream| <= |line.stream|
      && (fate != Took(Cut) ==> Size(line') < Size(line))
      && (fate.Took? && fate.reading.Delivered? ==> |line'.stream| + |Encode(fate.reading.m)| == |line.stream|)
  {
    var n := Extent(line.stream, bufferLength);
    var k := InTime(line.waits, 0, n, timeoutsec);
    ReadTakesExtent(line.stream, bufferLength);
    hide Read, Extent;
    if k < n && k < |line.waits| {
      LoseShrinks(line, k, Limit(k, timeoutsec));
    } else {
      TotalFrom(line.waits, if n <= |line.stream| then n else |line.stream|);
    }
  }

  /** The messages received until the connection ends. After a time-out and after a bad
      header the loop goes on where it is. */
  function Play(line: Line, bufferLength: nat, timeoutsec: nat): seq<Message>
    decreases Size(line)
  {
    TryShrinks(line, bufferLength, timeoutsec);
    var (fate, line') := Try(line, bufferLength, timeoutsec);
    match fate
    case TimedOut => Play(line', bufferLength, timeoutsec)
    case Took(Delivered(m)) => [m] + Play(line', bufferLength, timeoutsec)
    case Took(Cut) => []
    case Took(_) => Play(line', bufferLength, timeoutsec)
  }

  /** Each message received has taken its own bytes off the line. */
  lemma {:induction false} PlaySize(line: Line, bufferLength: nat, timeoutsec: nat)
    ensures |EncodeAll(Play(line, bufferLength, timeoutsec))| <= |line.stream|
    decreases Size(line)
  {
    TryShrinks(line, bufferLength, timeoutsec);
    var (fate, line') := Try(line, bufferLength, timeoutsec);
    hide Try, Encode, Size;
    if fate != Took(Cut) {
      PlaySize(line', bufferLength, timeoutsec);
    }
    if fate.Took? && fate.reading.Delivered? {
      var rest := Play(line', bufferLength, timeoutsec);
      assert ([fate.reading.m] + rest)[1..] == rest;
    }
  }

  // ----- when all messages arrive -------------------------------------------

  /** Within no message is a byte awaited too long: one after the first in a header for
      longer than the client says, or one of a body for longer than 30 seconds. How long
      the first byte of a message is awaited does not matter. */
  predicate Prompt(ms: seq<Message>, waits: seq<nat>, timeoutsec: nat)
    requires |EncodeAll(ms)| <= |waits|
    decreases ms
  {
    ms == [] ||
    (AllFromFirst(ms);
     var n := |Encode(ms[0])|;
     PromptFrom(waits, 1, n, timeoutsec) && Prompt(ms[1..], waits[n..], timeoutsec))
  }

  predicate PromptFrom(waits: seq<nat>, i: nat, n: nat, timeoutsec: nat)
    requires n <= |waits|
  {
    forall j :: i <= j < n ==> waits[j] <= Limit(j, timeoutsec)
  }

  lemma AllFromFirst(ms: seq<Message>)
    requires ms != []
    ensures EncodeAll(ms) == Encode(ms[0]) + EncodeAll(ms[1..])
  {
  }

  /** Byte i of message j, counted from the start of the line, is not awaited too long. */
  predicate InTimeAt(ms: seq<Message>, waits: seq<nat>, timeoutsec: nat, j: nat, i: nat)
    requires j <= |ms|
  {
    var place := |EncodeAll(ms[..j])| + i;
    place < |waits| && waits[place] <= if i < 12 && timeoutsec > 0 then timeoutsec else 30
  }

  lemma InTimeLater(ms: seq<Message>, waits: seq<nat>, timeoutsec: nat, j: nat, i: nat)
    requires ms != [] && |Encode(ms[0])| <= |waits| && j < |ms[1..]|
    ensures InTimeAt(ms, waits, timeoutsec, j + 1, i) <==>
            InTimeAt(ms[1..], waits[|Encode(ms[0])|..], timeoutsec, j, i)
  {
    AllFromFirst(ms[..j + 1]);
    hide EncodeAll, Encode, Limit;
    assert ms[..j + 1][1..] == ms[1..][..j];
  }

  lemma InTimeFirst(ms: seq<Message>, waits: seq<nat>, timeoutsec: nat, i: nat)
    requires ms != []
    ensures InTimeAt(ms, waits, timeoutsec, 0, i) <==> i < |waits| && waits[i] <= Limit(i, timeoutsec)
  {
    assert ms[..0] == [] && EncodeAll([]) == [];
  }

  /** What `Prompt` says of each byte. */
  lemma {:induction false} PromptAt(ms: seq<Message>, waits: seq<nat>, timeoutsec: nat, j: nat, i: nat)
    requires |EncodeAll(ms)| <= |waits| && Prompt(ms, waits, timeoutsec)
    requires j < |ms| && 0 < i < |Encode(ms[j])|
    ensures InTimeAt(ms, waits, timeoutsec, j, i)
    decreases ms
  {
    AllFromFirst(ms);
    hide EncodeAll, Encode, Limit, InTimeAt;
    if j == 0 {
      InTimeFirst(ms, waits, timeoutsec, i);
    } else {
      PromptAt(ms[1..], waits[|Encode(ms[0])|..], timeoutsec, j - 1, i);
      InTimeLater(ms, waits, timeoutsec, j - 1, i);
    }
  }

  /** And that is all it says. */
  lemma {:induction false} PromptPlaces(ms: seq<Message>, waits: seq<nat>, timeoutsec: nat)
    requires |EncodeAll(ms)| <= |waits|
    ensures Prompt(ms, waits, timeoutsec) <==>
            forall j, i :: 0 <= j < |ms| && 0 < i < |Encode(ms[j])| ==> InTimeAt(ms, waits, timeoutsec, j, i)
    decreases ms
  {
    hide EncodeAll, Encode, Limit, InTimeAt;
    if Prompt(ms, waits, timeoutsec) {
      forall j: nat, i: nat | j < |ms| && 0 < i < |Encode(ms[j])| ensures InTimeAt(ms, waits, timeoutsec, j, i) {
        PromptAt(ms, waits, timeoutsec, j, i);
      }
    } else if ms != [] {
      LateSomewhere(ms, waits, timeoutsec);
    }
  }

  lemma {:induction false} LateSomewhere(ms: seq<Message>, waits: seq<nat>, timeoutsec: nat)
    requires |EncodeAll(ms)| <= |waits| && !Prompt(ms, waits, timeoutsec)
    ensures exists j, i :: 0 <= j < |ms| && 0 < i < |Encode(ms[j])| && !InTimeAt(ms, waits, timeoutsec, j, i)
    decreases ms
  {
    AllFromFirst(ms);
    var n := |Encode(ms[0])|;
    hide EncodeAll, Encode, Limit, InTimeAt;
    if PromptFrom(waits, 1, n, timeoutsec) {
      LateSomewhere(ms[1..], waits[n..], timeoutsec);
      var rest := ms[1..];
      var j, i :| 0 <= j < |rest| && 0 < i < |Encode(rest[j])| && !InTimeAt(rest, waits[n..], timeoutsec, j, i);
      InTimeLater(ms, waits, timeoutsec, j, i);
      assert ms[j + 1] == ms[1..][j];
    } else {
      var i :| 1 <= i < n && waits[i] > Limit(i, timeoutsec);
      InTimeFirst(ms, waits, timeoutsec, i);
    }
  }

  predicate AllReceivable(ms: seq<Message>, bufferLength: nat) {
    forall m :: m in ms ==> Receivable(m, bufferLength)
  }

  /** A message that comes in time from its first byte on is received. */
  lemma FirstReceived(line: Line, m: Message, rest: seq<Byte>, bufferLength: nat, timeoutsec: nat)
    requires line.stream == Encode(m) + rest && Receivable(m, bufferLength)
    requires PromptFrom(line.waits, 0, |Encode(m)|, timeoutsec)
    ensures Try(line, bufferLength, timeoutsec) == (Took(Delivered(m)), Feed(rest, line.waits[|Encode(m)|..]))
    ensures Play(line, bufferLength, timeoutsec) ==
            [m] + Play(Feed(rest, line.waits[|Encode(m)|..]), bufferLength, timeoutsec)
  {
    MessageRoundTrip(m, rest, bufferLength);
    ReadTakesExtent(line.stream, bufferLength);
    hide Read, Extent, Limit;
    var n := |Encode(m)|;
    assert line.stream[n..] == rest;
    TryShrinks(line, bufferLength, timeoutsec);
  }

  /** Byte k is the first that is awaited too long. */
  lemma FirstLost(line: Line, k: nat, bufferLength: nat, timeoutsec: nat)
    requires k < Extent(line.stream, bufferLength) && k <= |line.stream|
    requires PromptFrom(line.waits, 0, k, timeoutsec) && line.waits[k] > Limit(k, timeoutsec)
    ensures Try(line, bufferLength, timeoutsec) == (TimedOut, Lose(line, k, Limit(k, timeoutsec)))
    ensures Play(line, bufferLength, timeoutsec) ==
            Play(Lose(line, k, Limit(k, timeoutsec)), bufferLength, timeoutsec)
  {
    hide Read, Extent, Limit;
    TryShrinks(line, bufferLength, timeoutsec);
  }

  lemma ExtentOfFirst(m: Message, rest: seq<Byte>, bufferLength: nat)
    requires Receivable(m, bufferLength)
    ensures Extent(Encode(m) + rest, bufferLength) == |Encode(m)| >= HEADER_BYTES
  {
    MessageRoundTrip(m, rest, bufferLength);
    ReadTakesExtent(Encode(m) + rest, bufferLength);
    hide Read, Extent;
  }

  /** The first byte of a message may be awaited as long as it takes: attempts that time
      out have taken nothing. */
  lemma WaitedForNothing(stream: seq<Byte>, waits: seq<nat>, bufferLength: nat, timeoutsec: nat)
    requires |waits| == |stream| + 1 && waits[0] > Limit(0, timeoutsec)
    ensures Play(Feed(stream, waits), bufferLength, timeoutsec) ==
            Play(Feed(stream, [waits[0] - Limit(0, timeoutsec)] + waits[1..]), bufferLength, timeoutsec)
  {
    hide Play;
    FirstLost(Feed(stream, waits), 0, bufferLength, timeoutsec);
    assert stream[0..] == stream;
  }

  lemma PromptIgnoresFirst(ms: seq<Message>, waits: seq<nat>, wait: nat, timeoutsec: nat)
    requires |EncodeAll(ms)| < |waits|
    ensures Prompt(ms, [wait] + waits[1..], timeoutsec) <==> Prompt(ms, waits, timeoutsec)
  {
    if ms != [] {
      AllFromFirst(ms);
      var n := |Encode(ms[0])|;
      assert ([wait] + waits[1..])[n..] == waits[n..];
      hide EncodeAll, Encode, Limit;
    }
  }

  lemma PromptFirst(ms: seq<Message>, waits: seq<nat>, timeoutsec: nat)
    requires ms != [] && |EncodeAll(ms)| <= |waits| && |Encode(ms[0])| > 0
    ensures |Encode(ms[0])| <= |waits| && |EncodeAll(ms[1..])| <= |waits| - |Encode(ms[0])|
    ensures waits[0] <= Limit(0, timeoutsec) ==>
              (Prompt(ms, waits, timeoutsec) <==>
               PromptFrom(waits, 0, |Encode(ms[0])|, timeoutsec)
               && Prompt(ms[1..], waits[|Encode(ms[0])|..], timeoutsec))
  {
    AllFromFirst(ms);
    hide EncodeAll, Encode, Limit;
  }

  /** As long as no byte within a message is awaited too long, the messages sent back to
      back are received one by one, and the line is left behind the last. */
  lemma {:induction false} PromptMessagesArrive(ms: seq<Message>, rest: seq<Byte>, waits: seq<nat>, bufferLength: nat,
                                                timeoutsec: nat)
    returns (waits': seq<nat>)
    requires |waits| == |EncodeAll(ms) + rest| + 1
    requires AllReceivable(ms, bufferLength) && Prompt(ms, waits, timeoutsec)
    ensures |waits'| == |rest| + 1
    ensures Play(Feed(EncodeAll(ms) + rest, waits), bufferLength, timeoutsec) ==
            ms + Play(Feed(rest, waits'), bufferLength, timeoutsec)
    decreases |ms|, waits[0]
  {
    hide *;
    if ms == [] {
      waits' := waits;
      NoMessages(rest);
      var all := Play(Feed(rest, waits), bufferLength, timeoutsec);
      assert [] + all == all;
    } else if waits[0] > Limit(0, timeoutsec) {
      var waits0 := [waits[0] - Limit(0, timeoutsec)] + waits[1..];
      WaitedForNothing(EncodeAll(ms) + rest, waits, bufferLength, timeoutsec);
      PromptIgnoresFirst(ms, waits, waits0[0], timeoutsec);
      waits' := PromptMessagesArrive(ms, rest, waits0, bufferLength, timeoutsec);
    } else {
      RestReceivable(ms, bufferLength);
      FirstArrives(ms, rest, waits, bufferLength, timeoutsec);
      waits' := PromptMessagesArrive(ms[1..], rest, waits[|Encode(ms[0])|..], bufferLength, timeoutsec);
      Regroup(ms, Play(Feed(rest, waits'), bufferLength, timeoutsec));
    }
  }

  lemma FirstArrives(ms: seq<Message>, rest: seq<Byte>, waits: seq<nat>, bufferLength: nat, timeoutsec: nat)
    requires ms != [] && |waits| == |EncodeAll(ms) + rest| + 1 && Receivable(ms[0], bufferLength)
    requires Prompt(ms, waits, timeoutsec) && waits[0] <= Limit(0, timeoutsec)
    ensures var n := |Encode(ms[0])|;
      && n <= |waits| && |waits[n..]| == |EncodeAll(ms[1..]) + rest| + 1 && Prompt(ms[1..], waits[n..], timeoutsec)
      && Play(Feed(EncodeAll(ms) + rest, waits), bufferLength, timeoutsec) ==
         [ms[0]] + Play(Feed(EncodeAll(ms[1..]) + rest, waits[n..]), bufferLength, timeoutsec)
  {
    AllFromFirst(ms);
    EncodedSize(ms[0]);
    PromptFirst(ms, waits, timeoutsec);
    hide *;
    Assoc(Encode(ms[0]), EncodeAll(ms[1..]), rest);
    FirstReceived(Feed(EncodeAll(ms) + rest, waits), ms[0], EncodeAll(ms[1..]) + rest, bufferLength, timeoutsec);
  }

  lemma Regroup(ms: seq<Message>, more: seq<Message>)
    requires ms != []
    ensures [ms[0]] + (ms[1..] + more) == ms + more
  {
    assert ms == [ms[0]] + ms[1..];
  }

  lemma NoMessages(rest: seq<Byte>)
    ensures EncodeAll([]) == [] && EncodeAll([]) + rest == rest
  {
  }

  lemma RestReceivable(ms: seq<Message>, bufferLength: nat)
    requires AllReceivable(ms, bufferLength) && ms != []
    ensures AllReceivable(ms[1..], bufferLength) && Receivable(ms[0], bufferLength)
  {
  }

  lemma EncodedSize(m: Message)
    ensures |Encode(m)| == HEADER_BYTES + |m.body|
  {
  }

  /** And only then: the messages of a connection are all received if and only if no byte
      within a message is awaited too long. */
  lemma AllArriveJustWhenPrompt(ms: seq<Message>, waits: seq<nat>, bufferLength: nat, timeoutsec: nat)
    requires AllReceivable(ms, bufferLength) && |waits| == |EncodeAll(ms)| + 1
    ensures Play(Feed(EncodeAll(ms), waits), bufferLength, timeoutsec) == ms <==> Prompt(ms, waits, timeoutsec)
  {
    assert EncodeAll(ms) + [] == EncodeAll(ms);
    if Prompt(ms, waits, timeoutsec) {
      var waits' := PromptMessagesArrive(ms, [], waits, bufferLength, timeoutsec);
      NothingLeft(waits', bufferLength, timeoutsec);
    } else {
      LostForGood(ms, waits, bufferLength, timeoutsec);
    }
  }

  lemma NothingLeft(waits: seq<nat>, bufferLength: nat, timeoutsec: nat)
    requires |waits| == 1
    ensures Play(Feed([], waits), bufferLength, timeoutsec) == []
  {
    PlaySize(Feed([], waits), bufferLength, timeoutsec);
  }

  /** A byte awaited too long within a message: what has come of the message is lost, and
      what is left is too short for all messages. */
  lemma {:induction false} LostForGood(ms: seq<Message>, waits: seq<nat>, bufferLength: nat, timeoutsec: nat)
    requires AllReceivable(ms, bufferLength) && |waits| == |EncodeAll(ms)| + 1
    requires !Prompt(ms, waits, timeoutsec)
    ensures Play(Feed(EncodeAll(ms), waits), bufferLength, timeoutsec) != ms
    decreases |ms|, waits[0]
  {
    NotPrompt(ms, waits, timeoutsec);
    if waits[0] > Limit(0, timeoutsec) {
      var waits0 := [waits[0] - Limit(0, timeoutsec)] + waits[1..];
      WaitedForNothing(EncodeAll(ms), waits, bufferLength, timeoutsec);
      PromptIgnoresFirst(ms, waits, waits0[0], timeoutsec);
      hide *;
      LostForGood(ms, waits0, bufferLength, timeoutsec);
    } else {
      RestReceivable(ms, bufferLength);
      AllFromFirst(ms);
      EncodedSize(ms[0]);
      PromptFirst(ms, waits, timeoutsec);
      hide *;
      if PromptFrom(waits, 0, |Encode(ms[0])|, timeoutsec) {
        LostForGood(ms[1..], waits[|Encode(ms[0])|..], bufferLength, timeoutsec);
        FirstReceived(Feed(EncodeAll(ms), waits), ms[0], EncodeAll(ms[1..]), bufferLength, timeoutsec);
        SameHead(ms, Play(Feed(EncodeAll(ms[1..]), waits[|Encode(ms[0])|..]), bufferLength, timeoutsec));
      } else {
        MessageLost(ms, waits, bufferLength, timeoutsec);
      }
    }
  }

  lemma NotPrompt(ms: seq<Message>, waits: seq<nat>, timeoutsec: nat)
    requires |EncodeAll(ms)| <= |waits| && !Prompt(ms, waits, timeoutsec)
    ensures ms != []
  {
  }

  lemma SameHead(ms: seq<Message>, rest: seq<Message>)
    requires ms != []
    ensures [ms[0]] + rest == ms <==> rest == ms[1..]
  {
    assert ms == [ms[0]] + ms[1..] && ([ms[0]] + rest)[1..] == rest;
  }

  lemma MessageLost(ms: seq<Message>, waits: seq<nat>, bufferLength: nat, timeoutsec: nat)
    requires ms != [] && |waits| == |EncodeAll(ms)| + 1 && Receivable(ms[0], bufferLength)
    requires |Encode(ms[0])| <= |waits| && waits[0] <= Limit(0, timeoutsec)
    requires !PromptFrom(waits, 0, |Encode(ms[0])|, timeoutsec)
    ensures Play(Feed(EncodeAll(ms), waits), bufferLength, timeoutsec) != ms
  {
    AllFromFirst(ms);
    ExtentOfFirst(ms[0], EncodeAll(ms[1..]), bufferLength);
    hide EncodeAll, Encode, Extent, Play, Limit;
    var line := Feed(EncodeAll(ms), waits);
    var k := InTime(waits, 0, |Encode(ms[0])|, timeoutsec);
    assert 0 < k < |Encode(ms[0])|;
    FirstLost(line, k, bufferLength, timeoutsec);
    PlaySize(Lose(line, k, Limit(k, timeoutsec)), bufferLength, timeoutsec);
  }

  /** A message that is refused, for its signature or its length, costs its header; the loop
      goes on behind it. */
  lemma RefusedIsSkipped(line: Line, bufferLength: nat, timeoutsec: nat)
    requires Read(line.stream, bufferLength).0 == BadSignature || Read(line.stream, bufferLength).0 == TooLong
    requires |line.stream| >= 12 && PromptFrom(line.waits, 0, 12, timeoutsec)
    ensures Play(line, bufferLength, timeoutsec) ==
            Play(Feed(line.stream[12..], line.waits[12..]), bufferLength, timeoutsec)
  {
    assert Extent(line.stream, bufferLength) == 12;
    TryShrinks(line, bufferLength, timeoutsec);
    hide Read, Extent, Limit;
  }

  // ----- messages that nobody sent ------------------------------------------

  /** A line on which only byte p is awaited. */
  function OneWait(stream: seq<Byte>, p: nat, seconds: nat): Line {
    Feed(stream, seq(|stream| + 1, i => if i == p then seconds else 0))
  }

  /** When byte p is awaited one second too long, the bytes before it are lost. */
  lemma OneWaitLoses(stream: seq<Byte>, p: nat, bufferLength: nat, timeoutsec: nat)
    requires p < Extent(stream, bufferLength) && p <= |stream|
    ensures Play(OneWait(stream, p, Limit(p, timeoutsec) + 1), bufferLength, timeoutsec) ==
            Play(OneWait(stream[p..], 0, 1), bufferLength, timeoutsec)
  {
    hide Extent, Play, Limit;
    var line := OneWait(stream, p, Limit(p, timeoutsec) + 1);
    FirstLost(line, p, bufferLength, timeoutsec);
    assert Lose(line, p, Limit(p, timeoutsec)).waits == OneWait(stream[p..], 0, 1).waits;
  }

  /** What comes in time is read. */
  lemma OneWaitReads(stream: seq<Byte>, m: Message, rest: seq<Byte>, bufferLength: nat, timeoutsec: nat)
    requires Read(stream, bufferLength) == (Delivered(m), rest)
    ensures Play(OneWait(stream, 0, 1), bufferLength, timeoutsec) ==
            [m] + Play(Feed(rest, seq(|rest| + 1, i => 0)), bufferLength, timeoutsec)
  {
    ReadTakesExtent(stream, bufferLength);
    hide Read, Extent, Limit;
    var line, n := OneWait(stream, 0, 1), Extent(stream, bufferLength);
    TryShrinks(line, bufferLength, timeoutsec);
    assert stream[n..] == rest && line.waits[n..] == seq(|rest| + 1, i => 0);
    assert Try(line, bufferLength, timeoutsec) == (Took(Delivered(m)), Feed(rest, seq(|rest| + 1, i => 0)));
  }

  /** A rest that is too short for a header. */
  lemma ShortRest(stream: seq<Byte>, bufferLength: nat, timeoutsec: nat)
    requires |stream| < HEADER_BYTES
    ensures Play(Feed(stream, seq(|stream| + 1, i => 0)), bufferLength, timeoutsec) == []
  {
    hide Limit, Total;
    var line := Feed(stream, seq(|stream| + 1, i => 0));
    assert Try(line, bufferLength, timeoutsec).0 == Took(Cut);
  }

  /** When the first four bytes of a header without a body are lost, type and length are
      taken for signature and type: a message of type 0 is read. */
  lemma PhantomMessage(kind: Int32, rest: seq<Byte>, bufferLength: nat)
    requires |rest| >= 4
    ensures Read((Encode(Message(kind, [])) + rest)[4..], bufferLength) == (Delivered(Message(0, [])), rest[4..])
  {
    var header := Header(kind, 0);
    assert header + [] == header && Encode(Message(kind, [])) == header;
    HeaderFields(kind, 0, rest);
    hide Encode, Header;
    FieldsMove(header + rest, bufferLength);
    assert (header + rest)[4..][HEADER_BYTES..] == rest[4..];
  }

  lemma FieldsMove(stream: seq<Byte>, bufferLength: nat)
    requires |stream| >= HEADER_BYTES + 4 && Field(stream, 8) == 0
    ensures Read(stream[4..], bufferLength) == (Delivered(Message(0, [])), stream[4..][HEADER_BYTES..])
  {
    assert stream[4..][4..8] == stream[8..12];
    hide FromNetwork;
  }

  /** Two messages, and byte 4 of the first awaited too long: what is received was never
      sent. */
  const TWO_MESSAGES := [Message(2, []), Message(5, [])]

  lemma PhantomIsReceived(bufferLength: nat, timeoutsec: nat)
    ensures Play(OneWait(EncodeAll(TWO_MESSAGES), 4, Limit(4, timeoutsec) + 1), bufferLength, timeoutsec) ==
            [Message(0, [])]
  {
    var second := Encode(Message(5, []));
    TwoEncoded(Message(2, []), Message(5, []));
    EncodedSize(Message(5, []));
    ExtentOfFirst(Message(2, []), second, bufferLength);
    hide *;
    OneWaitLoses(EncodeAll(TWO_MESSAGES), 4, bufferLength, timeoutsec);
    PhantomMessage(2, second, bufferLength);
    OneWaitReads(EncodeAll(TWO_MESSAGES)[4..], Message(0, []), second[4..], bufferLength, timeoutsec);
    ShortRest(second[4..], bufferLength, timeoutsec);
  }

  lemma TwoEncoded(a: Message, b: Message)
    ensures EncodeAll([a, b]) == Encode(a) + Encode(b)
  {
    AllFromFirst([a, b]);
    AllFromFirst([b]);
    assert EncodeAll([]) == [];
    hide EncodeAll, Encode;
    assert [a, b][1..] == [b] && [b][1..] == [] && Encode(b) + [] == Encode(b);
  }

  /** One message whose body is the text of another, and the body awaited for more than 30
      seconds: the header is lost, and the body is received as the message that it spells. */
  lemma BodyIsReceived(kind: Int32, inner: Message, bufferLength: nat, timeoutsec: nat)
    requires kind != 0 && HEADER_BYTES + |inner.body| <= bufferLength < 0x8000_0000 && Receivable(inner, bufferLength)
    ensures var m := Message(kind, Encode(inner));
      && Receivable(m, bufferLength)
      && Play(OneWait(EncodeAll([m]), HEADER_BYTES, HIGHEST_TIMEOUT + 1), bufferLength, timeoutsec) == [inner]
  {
    EncodedSize(inner);
    hide Encode, EncodeAll, Extent, Read, Play, Limit, Receivable, OneWait, InTime, Total;
    var m := Message(kind, Encode(inner));
    OneEncoded(m);
    OneEncoded(inner);
    BodyBehindHeader(m);
    EncodedSize(m);
    WrappedReceivable(m, bufferLength);
    ReadAlone(inner, bufferLength);
    ExtentOfFirst(m, [], bufferLength);
    BodyLimit(timeoutsec);
    OneWaitLoses(Encode(m), HEADER_BYTES, bufferLength, timeoutsec);
    OneWaitReads(Encode(inner), inner, [], bufferLength, timeoutsec);
    ShortRest([], bufferLength, timeoutsec);
  }

  lemma BodyBehindHeader(m: Message)
    ensures Encode(m)[HEADER_BYTES..] == m.body && Encode(m) + [] == Encode(m)
  {
    var header := Header(m.kind, |m.body|);
    assert Encode(m) == header + m.body;
    hide Encode, Header;
  }

  lemma WrappedReceivable(m: Message, bufferLength: nat)
    requires m.kind != 0 && |m.body| <= bufferLength
    ensures Receivable(m, bufferLength)
  {
  }

  lemma ReadAlone(m: Message, bufferLength: nat)
    requires Receivable(m, bufferLength)
    ensures Read(Encode(m), bufferLength) == (Delivered(m), [])
  {
    MessageRoundTrip(m, [], bufferLength);
    hide Read, Encode;
    assert Encode(m) + [] == Encode(m);
  }

  lemma BodyLimit(timeoutsec: nat)
    ensures Limit(HEADER_BYTES, timeoutsec) == HIGHEST_TIMEOUT
  {
  }

  lemma OneEncoded(m: Message)
    ensures EncodeAll([m]) == Encode(m)
  {
    AllFromFirst([m]);
    assert EncodeAll([m][1..]) == [];
    hide EncodeAll, Encode;
    assert Encode(m) + [] == Encode(m);
  }
}
