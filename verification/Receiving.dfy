/** The receiver: `nmxp_recv_ctrl`, `nmxp_receiveHeader`, `nmxp_receiveMessage` and the
    client's loop, over a socket that cuts the stream into pieces as it likes. */
module Receiving {
  import opened Sequences
  import opened Words
  import opened Framing
  import opened Pauses

  const EWOULDBLOCK := 11
  const END_OF_STREAM := -100

  // ----- the socket ---------------------------------------------------------

  /** The first n bytes come together. */
  predicate Together(waits: seq<nat>, n: nat) {
    forall i :: 0 < i < n && i < |waits| ==> waits[i] == 0
  }

  /** A connected socket. `incoming` is what the peer sends and nobody has read yet, and
      `waits` says how long each byte of it, and the end, is awaited; `limit` is for how
      long recv() waits; `ended` says that the last recv() has met the end of the stream. On
      a reliable socket only long waits and the end of the stream make recv() fail. */
  class Socket {
    var incoming: seq<Byte>
    var waits: seq<nat>
    var limit: nat
    ghost var ended: bool
    const reliable: bool

    constructor (line: Line, reliable: bool)
      ensures Valid() && Coming() == line && this.reliable == reliable && !ended
    {
      incoming, waits := line.stream, line.waits;
      this.reliable, limit, ended := reliable, 0, false;
    }

    ghost predicate Valid()
      reads this`incoming, this`waits
    {
      |waits| == |incoming| + 1
    }

    ghost function Coming(): Line
      reads this`incoming, this`waits
      requires Valid()
    {
      Feed(incoming, waits)
    }

    /** nmxp_setsockopt_RCVTIMEO: 0 seconds are the highest time-out. */
    method SetTimeout(timeoutsec: nat)
      modifies this`limit
      ensures limit == Patience(timeoutsec)
    {
      var seconds := timeoutsec;
      if seconds == 0 {
        seconds := HIGHEST_TIMEOUT;
      }
      limit := seconds;
    }

    /** recv(): some of the bytes that are there, at most n; or 0 at the end of the stream;
        or -1 and an error number, EWOULDBLOCK when nothing comes for too long. */
    method Recv(n: nat) returns (cc: int, bytes: seq<Byte>, errno: int)
      requires Valid() && n > 0
      modifies this`incoming, this`waits, this`ended
      ensures Valid() && |bytes| <= n && old(incoming) == bytes + incoming
      ensures if bytes != [] then cc == |bytes| && errno == 0 else cc <= 0
      ensures cc == 0 <==> ended
      ensures cc >= 0 ==> old(waits)[0] <= limit
      ensures cc > 0 ==> waits == old(waits)[cc..] && Together(old(waits), cc)
      ensures cc == 0 ==> errno == 0 && incoming == []
      ensures cc < 0 ==> errno > 0 && (errno == EWOULDBLOCK || !reliable)
      ensures cc < 0 && errno == EWOULDBLOCK ==>
                old(waits)[0] > limit && waits == [old(waits)[0] - limit] + old(waits)[1..]
    {
      bytes, errno, ended := [], 0, false;
      var fails: bool := *;
      if fails && !reliable {
        var e: int := *;
        cc, errno := -1, if e > 0 && e != EWOULDBLOCK then e else EWOULDBLOCK + 1;
      } else if waits[0] > limit {
        cc, errno, waits := -1, EWOULDBLOCK, [waits[0] - limit] + waits[1..];
      } else if incoming == [] {
        cc, ended := 0, true;
      } else {
        assert Together(waits, 1);
        cc :| 1 <= cc <= n && cc <= |incoming| && Together(waits, cc);
        bytes, incoming, waits := incoming[..cc], incoming[cc..], waits[cc..];
      }
    }
  }

  // ----- the receiver -------------------------------------------------------

  /** None of the first n is awaited for longer than the limit. */
  predicate Steady(waits: seq<nat>, n: nat, limit: nat)
    requires n <= |waits|
  {
    forall i :: 0 <= i < n ==> waits[i] <= limit
  }

  /** How the waits stand when n bytes have been read, and recv() has last returned `cc`. */
  ghost predicate WaitsRead(waits: seq<nat>, n: nat, limit: nat, cc: int, errno: int, left: seq<nat>) {
    && n < |waits| && Steady(waits, n, limit)
    && (cc > 0 ==> left == waits[n..])
    && (cc == 0 ==> waits[n] <= limit)
    && (errno == EWOULDBLOCK ==> waits[n] > limit && left == [waits[n] - limit] + waits[n + 1..])
  }

  /** nmxp_recv_ctrl: all of `length` bytes, in however many pieces; or EWOULDBLOCK, when
      one is awaited for longer than the time-out, which is 30 seconds for 0; or -100, at
      the end of the stream; or the error number of the socket. */
  method RecvCtrl(sock: Socket, length: nat, timeoutsec: nat) returns (ok: bool, buffer: seq<Byte>, recvErrno: int)
    requires sock.Valid()
    modifies sock
    ensures sock.Valid() && old(sock.incoming) == buffer + sock.incoming
    ensures |buffer| < |old(sock.waits)| && Steady(old(sock.waits), |buffer|, Patience(timeoutsec))
    ensures ok ==> |buffer| == length && recvErrno == 0 && sock.waits == old(sock.waits)[length..]
    ensures !ok ==> |buffer| < length && recvErrno != 0
    ensures recvErrno == EWOULDBLOCK ==>
              var k := |buffer|;
              && old(sock.waits)[k] > Patience(timeoutsec)
              && sock.waits == [old(sock.waits)[k] - Patience(timeoutsec)] + old(sock.waits)[k + 1..]
    ensures !ok ==> (recvErrno == -100 <==> sock.ended)
    ensures recvErrno == END_OF_STREAM ==> sock.incoming == [] && old(sock.waits)[|buffer|] <= Patience(timeoutsec)
    ensures !ok && sock.reliable ==> recvErrno == END_OF_STREAM || recvErrno == EWOULDBLOCK
  {
    sock.SetTimeout(timeoutsec);
    var cc := 1;
    recvErrno := 0;
    buffer := [];
    WaitsAtFirst(sock.waits, sock.limit);
    hide Steady, WaitsRead, Patience;
    while cc > 0 && recvErrno == 0 && |buffer| < length
      invariant sock.Valid() && sock.limit == Patience(timeoutsec)
      invariant |buffer| <= length
      invariant old(sock.incoming) == buffer + sock.incoming
      invariant (cc > 0 && recvErrno == 0) || |buffer| < length
      invariant WaitsRead(old(sock.waits), |buffer|, sock.limit, cc, recvErrno, sock.waits)
      invariant cc <= 0 ==> (cc == 0 <==> sock.ended)
      invariant cc == 0 ==> recvErrno == 0 && sock.incoming == []
      invariant cc < 0 ==> recvErrno > 0 && (recvErrno == EWOULDBLOCK || !sock.reliable)
      invariant cc > 0 ==> recvErrno == 0
      decreases length - |buffer|, cc
    {
      var bytes;
      cc, bytes, recvErrno := RecvSome(sock, length - |buffer|, old(sock.waits), |buffer|);
      if cc > 0 {
        Assoc(buffer, bytes, sock.incoming);
        buffer := buffer + bytes;
      }
    }
    WaitsAtLast(old(sock.waits), |buffer|, sock.limit, cc, recvErrno, sock.waits);
    sock.SetTimeout(0);
    if |buffer| != length || recvErrno != 0 || cc <= 0 {
      if cc == 0 && recvErrno == 0 {
        recvErrno := END_OF_STREAM;
      }
      if |buffer| != length || recvErrno != EWOULDBLOCK {
        return false, buffer, recvErrno;
      }
    }
    return true, buffer, recvErrno;
  }

  /** One recv(), when n bytes have been read already. */
  method RecvSome(sock: Socket, want: nat, ghost waits: seq<nat>, ghost n: nat)
    returns (cc: int, bytes: seq<Byte>, errno: int)
    requires sock.Valid() && want > 0 && WaitsRead(waits, n, sock.limit, 1, 0, sock.waits)
    modifies sock`incoming, sock`waits, sock`ended
    ensures sock.Valid() && |bytes| <= want && old(sock.incoming) == bytes + sock.incoming
    ensures if bytes != [] then cc == |bytes| && errno == 0 else cc <= 0
    ensures cc == 0 <==> sock.ended
    ensures cc == 0 ==> errno == 0 && sock.incoming == []
    ensures cc < 0 ==> errno > 0 && (errno == EWOULDBLOCK || !sock.reliable)
    ensures WaitsRead(waits, n + |bytes|, sock.limit, cc, errno, sock.waits)
  {
    ghost var before := sock.waits;
    hide WaitsRead;
    cc, bytes, errno := sock.Recv(want);
    WaitsNext(waits, n, sock.limit, before, cc, |bytes|, errno, sock.waits);
  }

  lemma WaitsAtFirst(waits: seq<nat>, limit: nat)
    requires waits != []
    ensures WaitsRead(waits, 0, limit, 1, 0, waits)
  {
    assert waits[0..] == waits;
  }

  lemma WaitsNext(waits: seq<nat>, n: nat, limit: nat, before: seq<nat>, cc: int, k: nat, errno: int, left: seq<nat>)
    requires WaitsRead(waits, n, limit, 1, 0, before) && before != []
    requires if k > 0 then cc == k && errno == 0 else cc <= 0
    requires cc >= 0 ==> before[0] <= limit
    requires cc > 0 ==> k < |before| && left == before[k..] && Together(before, k)
    requires cc == 0 ==> errno == 0
    requires errno == EWOULDBLOCK ==> before[0] > limit && left == [before[0] - limit] + before[1..]
    ensures WaitsRead(waits, n + k, limit, cc, errno, left)
  {
    assert before == waits[n..];
    if cc > 0 {
      assert waits[n..][k..] == waits[n + k..];
      forall i | 0 <= i < n + k ensures waits[i] <= limit {
        assert i >= n ==> waits[i] == before[i - n];
      }
    }
    assert waits[n..][1..] == waits[n + 1..];
  }

  lemma WaitsAtLast(waits: seq<nat>, n: nat, limit: nat, cc: int, errno: int, left: seq<nat>)
    requires WaitsRead(waits, n, limit, cc, errno, left)
    ensures n < |waits| && Steady(waits, n, limit)
    ensures cc > 0 ==> left == waits[n..]
    ensures cc == 0 ==> waits[n] <= limit
    ensures errno == EWOULDBLOCK ==> waits[n] > limit && left == [waits[n] - limit] + waits[n + 1..]
  {
  }

  /** nmxp_receiveHeader. Without an error number the whole header has been read. */
  method ReceiveHeader(sock: Socket, timeoutsec: nat)
    returns (ok: bool, kind: Int32, length: Int32, recvErrno: int, ghost header: seq<Byte>)
    requires sock.Valid()
    modifies sock
    ensures sock.Valid() && old(sock.incoming) == header + sock.incoming && |header| <= HEADER_BYTES
    ensures |header| < |old(sock.waits)| && Steady(old(sock.waits), |header|, Patience(timeoutsec))
    ensures recvErrno == 0 <==> |header| == HEADER_BYTES
    ensures recvErrno == 0 ==> (ok <==> Field(header, 4) == 0 || Field(header, 0) == SIGNATURE)
    ensures recvErrno == 0 ==> sock.waits == old(sock.waits)[HEADER_BYTES..]
    ensures recvErrno != 0 ==> !ok && (recvErrno == END_OF_STREAM <==> sock.ended)
    ensures recvErrno == EWOULDBLOCK ==>
              var k := |header|;
              && old(sock.waits)[k] > Patience(timeoutsec)
              && sock.waits == [old(sock.waits)[k] - Patience(timeoutsec)] + old(sock.waits)[k + 1..]
    ensures recvErrno == END_OF_STREAM ==> sock.incoming == [] && old(sock.waits)[|header|] <= Patience(timeoutsec)
    ensures recvErrno != 0 && sock.reliable ==> recvErrno == END_OF_STREAM || recvErrno == EWOULDBLOCK
    ensures (kind, length) ==
            if ok && Field(header, 4) != 0 then (Field(header, 4), Field(header, 8)) else (0, 0)
  {
    var buffer;
    ok, buffer, recvErrno := RecvCtrl(sock, HEADER_BYTES, timeoutsec);
    header := buffer;
    kind, length := 0, 0;
    hide Steady, Patience;
    if ok && Field(buffer, 4) != 0 {
      if Field(buffer, 0) != SIGNATURE {
        ok := false;
      } else {
        kind, length := Field(buffer, 4), Field(buffer, 8);
      }
    }
  }

  lemma HeaderIsPrefix(header: seq<Byte>, rest: seq<Byte>)
    requires |header| == HEADER_BYTES
    ensures var stream := header + rest;
      && Field(stream, 0) == Field(header, 0) && Field(stream, 4) == Field(header, 4)
      && Field(stream, 8) == Field(header, 8) && stream[HEADER_BYTES..] == rest
  {
    var stream := header + rest;
    assert stream[0..4] == header[0..4] && stream[4..8] == header[4..8] && stream[8..12] == header[8..12];
  }

  /** What a receive has done when it ends. `read` are the bytes taken from the stream:
      exactly those of its first message, or, with an error number, fewer. */
  ghost predicate Received(stream: seq<Byte>, bufferLength: nat, ok: bool, m: Message, recvErrno: int,
                           read: seq<Byte>, rest: seq<Byte>)
  {
    && stream == read + rest
    && (recvErrno != 0 ==> !ok && |read| < Extent(stream, bufferLength))
    && (recvErrno == 0 ==> |read| == Extent(stream, bufferLength))
    && (recvErrno == 0 && ok ==> Read(stream, bufferLength) == (Delivered(m), rest))
    && (recvErrno == 0 && !ok ==> Read(stream, bufferLength).0 in {BadSignature, TooLong})
  }

  lemma HeaderCutShort(header: seq<Byte>, rest: seq<Byte>, bufferLength: nat, m: Message, recvErrno: int)
    requires recvErrno != 0 && |header| < HEADER_BYTES
    ensures Received(header + rest, bufferLength, false, m, recvErrno, header, rest)
  {
  }

  /** The outcome that the header alone decides. */
  lemma HeaderDecides(header: seq<Byte>, rest: seq<Byte>, bufferLength: nat, ok: bool, kind: Int32, length: Int32)
    requires |header| == HEADER_BYTES && (ok <==> Field(header, 4) == 0 || Field(header, 0) == SIGNATURE)
    requires (kind, length) == if ok && Field(header, 4) != 0 then (Field(header, 4), Field(header, 8)) else (0, 0)
    requires ok ==> length <= 0 || length > bufferLength
    ensures Received(header + rest, bufferLength, ok && length <= bufferLength, Message(kind, []), 0, header, rest)
  {
    HeaderIsPrefix(header, rest);
    hide Field;
  }

  /** The outcome when a body is to be read. */
  lemma BodyDecides(header: seq<Byte>, body: Body, rest: seq<Byte>, bufferLength: nat, ok: bool, recvErrno: int)
    requires |header| == HEADER_BYTES && Field(header, 4) != 0 && Field(header, 0) == SIGNATURE
    requires 0 < Field(header, 8) <= bufferLength
    requires if ok then |body| == Field(header, 8) && recvErrno == 0 else |body| < Field(header, 8) && recvErrno != 0
    ensures Received(header + (body + rest), bufferLength, ok, Message(Field(header, 4), body), recvErrno,
                     header + body, rest)
  {
    HeaderIsPrefix(header, body + rest);
    hide Field;
    if ok {
      assert (body + rest)[..|body|] == body && (body + rest)[|body|..] == rest;
    }
  }

  /** The call is one attempt of the client's loop. */
  ghost predicate Follows(line: Line, bufferLength: nat, timeoutsec: nat, ok: bool, m: Message, recvErrno: int,
                          line': Line)
  {
    var (fate, left) := Try(line, bufferLength, timeoutsec);
    && (recvErrno == EWOULDBLOCK ==> !ok && fate == TimedOut && line' == left)
    && (recvErrno == END_OF_STREAM ==> !ok && fate == Took(Cut))
    && (recvErrno == 0 && ok ==> fate == Took(Delivered(m)) && line' == left)
    && (recvErrno == 0 && !ok ==> fate in {Took(BadSignature), Took(TooLong)} && line' == left)
    && (recvErrno != 0 ==> !ok)
  }

  /** How the waits of the bytes read went, and what is left of them. */
  ghost predicate Waited(waits: seq<nat>, n: nat, timeoutsec: nat, recvErrno: int, left: seq<nat>) {
    && n < |waits| && PromptFrom(waits, 0, n, timeoutsec)
    && (recvErrno == 0 ==> left == waits[n..])
    && (recvErrno == END_OF_STREAM ==> waits[n] <= Limit(n, timeoutsec))
    && (recvErrno == EWOULDBLOCK ==>
          waits[n] > Limit(n, timeoutsec) && left == [waits[n] - Limit(n, timeoutsec)] + waits[n + 1..])
  }

  lemma WaitedForHeader(waits: seq<nat>, n: nat, timeoutsec: nat, recvErrno: int, left: seq<nat>)
    requires n < |waits| && Steady(waits, n, Patience(timeoutsec)) && n <= HEADER_BYTES
    requires recvErrno != 0 <==> n < HEADER_BYTES
    requires recvErrno == 0 ==> left == waits[n..]
    requires recvErrno == END_OF_STREAM ==> waits[n] <= Patience(timeoutsec)
    requires recvErrno == EWOULDBLOCK ==>
               waits[n] > Patience(timeoutsec) && left == [waits[n] - Patience(timeoutsec)] + waits[n + 1..]
    ensures Waited(waits, n, timeoutsec, recvErrno, left)
  {
    hide Patience;
    assert forall i :: 0 <= i < HEADER_BYTES ==> Limit(i, timeoutsec) == Patience(timeoutsec);
  }

  lemma WaitedForBody(waits: seq<nat>, middle: seq<nat>, n: nat, timeoutsec: nat, recvErrno: int, left: seq<nat>)
    requires Waited(waits, HEADER_BYTES, timeoutsec, 0, middle)
    requires n < |middle| && Steady(middle, n, Patience(0))
    requires recvErrno == 0 ==> left == middle[n..]
    requires recvErrno == END_OF_STREAM ==> middle[n] <= Patience(0)
    requires recvErrno == EWOULDBLOCK ==>
               middle[n] > Patience(0) && left == [middle[n] - Patience(0)] + middle[n + 1..]
    ensures Waited(waits, HEADER_BYTES + n, timeoutsec, recvErrno, left)
  {
    assert forall i :: HEADER_BYTES <= i ==> Limit(i, timeoutsec) == Patience(0);
    hide Limit, Patience;
    assert middle == waits[HEADER_BYTES..];
    assert middle[n..] == waits[HEADER_BYTES + n..] && middle[n + 1..] == waits[HEADER_BYTES + n + 1..];
    forall i | 0 <= i < HEADER_BYTES + n ensures waits[i] <= Limit(i, timeoutsec) {
      assert i >= HEADER_BYTES ==> waits[i] == middle[i - HEADER_BYTES];
    }
  }

  lemma FollowsAttempt(line: Line, bufferLength: nat, timeoutsec: nat, ok: bool, m: Message, recvErrno: int,
                       read: seq<Byte>, line': Line)
    requires Received(line.stream, bufferLength, ok, m, recvErrno, read, line'.stream)
    requires Waited(line.waits, |read|, timeoutsec, recvErrno, line'.waits)
    requires recvErrno == END_OF_STREAM ==> line'.stream == []
    ensures Follows(line, bufferLength, timeoutsec, ok, m, recvErrno, line')
  {
    ReadTakesExtent(line.stream, bufferLength);
    hide Read, Extent, Limit, Try, PromptFrom;
    assert line.stream[|read|..] == line'.stream;
    if recvErrno == EWOULDBLOCK {
      FirstLost(line, |read|, bufferLength, timeoutsec);
    } else if recvErrno == 0 {
      TryTakes(line, |read|, bufferLength, timeoutsec);
    } else if recvErrno == END_OF_STREAM {
      TryEnds(line, bufferLength, timeoutsec);
    }
  }

  lemma TryTakes(line: Line, n: nat, bufferLength: nat, timeoutsec: nat)
    requires n == Extent(line.stream, bufferLength) <= |line.stream| && PromptFrom(line.waits, 0, n, timeoutsec)
    ensures Try(line, bufferLength, timeoutsec) == (Took(Read(line.stream, bufferLength).0), Skip(line, n))
  {
    hide Read, Extent, Limit;
  }

  lemma TryEnds(line: Line, bufferLength: nat, timeoutsec: nat)
    requires |line.stream| < Extent(line.stream, bufferLength)
    requires PromptFrom(line.waits, 0, |line.stream|, timeoutsec)
    requires line.waits[|line.stream|] <= Limit(|line.stream|, timeoutsec)
    ensures Try(line, bufferLength, timeoutsec).0 == Took(Cut)
  {
    ReadTakesExtent(line.stream, bufferLength);
    hide Read, Extent, Limit;
  }

  /** nmxp_receiveMessage. The call is one attempt of the client's loop: a message is that
      which the stream starts with; a time-out takes off the line what has come of the
      message; and, without errors of the socket, nothing else happens. The body is awaited
      with time-out 0. */
  method ReceiveMessage(sock: Socket, bufferLength: nat, timeoutsec: nat)
    returns (ok: bool, m: Message, recvErrno: int, ghost read: seq<Byte>)
    requires sock.Valid()
    modifies sock
    ensures sock.Valid() && Received(old(sock.incoming), bufferLength, ok, m, recvErrno, read, sock.incoming)
    ensures Follows(old(sock.Coming()), bufferLength, timeoutsec, ok, m, recvErrno, sock.Coming())
    ensures recvErrno != 0 ==> (recvErrno == END_OF_STREAM <==> sock.ended)
    ensures sock.reliable ==> recvErrno in {0, EWOULDBLOCK, END_OF_STREAM}
  {
    ghost var line := sock.Coming();
    ghost var header;
    var kind, length;
    ok, kind, length, recvErrno, header := ReceiveHeader(sock, timeoutsec);
    read, m := header, Message(kind, []);
    WaitedForHeader(line.waits, |header|, timeoutsec, recvErrno, sock.waits);
    hide Received, Follows, Waited, Steady, Patience;
    if recvErrno != 0 {
      HeaderCutShort(header, sock.incoming, bufferLength, m, recvErrno);
    } else if !ok || length > bufferLength || length <= 0 {
      HeaderDecides(header, sock.incoming, bufferLength, ok, kind, length);
    }
    if ok {
      if length > bufferLength {
        ok := false;
      } else if length > 0 {
        var buffer;
        ghost var middle := sock.waits;
        ok, buffer, recvErrno := RecvCtrl(sock, length, 0);
        m, read := Message(kind, buffer), header + buffer;
        BodyDecides(header, buffer, sock.incoming, bufferLength, ok, recvErrno);
        WaitedForBody(line.waits, middle, |buffer|, timeoutsec, recvErrno, sock.waits);
        assert line.stream == header + (buffer + sock.incoming);
      }
    }
    FollowsAttempt(line, bufferLength, timeoutsec, ok, m, recvErrno, read, sock.Coming());
  }

  /** The receiving loop of the client: after a time-out, and after a bad header, it goes
      on where it is. It receives what `Play` says, up to an error of the socket if there
      is one, and all of it if there is none. */
  method ReceiveLoop(sock: Socket, bufferLength: nat, timeoutsec: nat)
    returns (received: seq<Message>, recvErrno: int)
    requires sock.Valid()
    modifies sock
    ensures sock.Valid() && received <= Play(old(sock.Coming()), bufferLength, timeoutsec)
    ensures recvErrno == END_OF_STREAM ==> received == Play(old(sock.Coming()), bufferLength, timeoutsec)
    ensures sock.reliable ==> recvErrno == END_OF_STREAM
  {
    ghost var line := sock.Coming();
    received, recvErrno := [], 0;
    hide *;
    NothingReceived(line, bufferLength, timeoutsec);
    while recvErrno == 0 || recvErrno == EWOULDBLOCK
      invariant sock.Valid() && SoFar(line, bufferLength, timeoutsec, received, recvErrno, sock.Coming())
      invariant sock.reliable ==> recvErrno == 0 || recvErrno == EWOULDBLOCK || recvErrno == END_OF_STREAM
      decreases if recvErrno == 0 || recvErrno == EWOULDBLOCK then Size(sock.Coming()) + 1 else 0
    {
      ghost var now := sock.Coming();
      var ok, m, errno;
      ghost var read;
      ok, m, errno, read := ReceiveMessage(sock, bufferLength, timeoutsec);
      OneMore(line, bufferLength, timeoutsec, received, recvErrno, now, ok, m, errno, sock.Coming());
      recvErrno := errno;
      if ok {
        received := received + [m];
      }
    }
    WhatIsReceived(line, bufferLength, timeoutsec, received, recvErrno, sock.Coming());
  }

  /** What has been received of all that `line` brings, when the loop is at `now`. */
  ghost predicate SoFar(line: Line, bufferLength: nat, timeoutsec: nat, received: seq<Message>, recvErrno: int,
                        now: Line)
  {
    Part(Play(line, bufferLength, timeoutsec), received, recvErrno, Play(now, bufferLength, timeoutsec))
  }

  /** `received` is all but `rest` as long as the loop goes on, all at the end of the
      stream, and an initial part after an error. */
  predicate Part(all: seq<Message>, received: seq<Message>, recvErrno: int, rest: seq<Message>) {
    if recvErrno == 0 || recvErrno == EWOULDBLOCK then all == received + rest
    else if recvErrno == END_OF_STREAM then all == received
    else received <= all
  }

  lemma MoreOf(all: seq<Message>, received: seq<Message>, errno: int, rest: seq<Message>,
               more: seq<Message>, recvErrno: int, rest': seq<Message>)
    requires Part(all, received, errno, rest) && (errno == 0 || errno == EWOULDBLOCK)
    requires if recvErrno == 0 || recvErrno == EWOULDBLOCK then rest == more + rest' else more == []
    requires recvErrno == END_OF_STREAM ==> rest == []
    ensures Part(all, received + more, recvErrno, rest')
  {
    Assoc(received, more, rest');
    assert more == [] ==> received + more == received;
  }

  lemma NothingReceived(line: Line, bufferLength: nat, timeoutsec: nat)
    ensures SoFar(line, bufferLength, timeoutsec, [], 0, line)
  {
    hide Play;
  }

  lemma WhatIsReceived(line: Line, bufferLength: nat, timeoutsec: nat, received: seq<Message>, recvErrno: int,
                       now: Line)
    requires SoFar(line, bufferLength, timeoutsec, received, recvErrno, now)
    ensures received <= Play(line, bufferLength, timeoutsec)
    ensures recvErrno == END_OF_STREAM ==> received == Play(line, bufferLength, timeoutsec)
  {
    hide Play;
  }

  lemma OneMore(line: Line, bufferLength: nat, timeoutsec: nat, received: seq<Message>, errno: int, now: Line,
                ok: bool, m: Message, recvErrno: int, next: Line)
    requires SoFar(line, bufferLength, timeoutsec, received, errno, now) && (errno == 0 || errno == EWOULDBLOCK)
    requires Follows(now, bufferLength, timeoutsec, ok, m, recvErrno, next)
    ensures SoFar(line, bufferLength, timeoutsec, if ok then received + [m] else received, recvErrno, next)
    ensures recvErrno == 0 || recvErrno == EWOULDBLOCK ==> Size(next) < Size(now)
  {
    PlayOnce(now, bufferLength, timeoutsec, ok, m, recvErrno, next);
    hide Play, Follows, Size, Part;
    MoreOf(Play(line, bufferLength, timeoutsec), received, errno, Play(now, bufferLength, timeoutsec),
           if ok then [m] else [], recvErrno, Play(next, bufferLength, timeoutsec));
    assert received + [] == received;
  }

  lemma PlayOnce(now: Line, bufferLength: nat, timeoutsec: nat, ok: bool, m: Message, recvErrno: int, next: Line)
    requires Follows(now, bufferLength, timeoutsec, ok, m, recvErrno, next)
    ensures recvErrno == 0 || recvErrno == EWOULDBLOCK ==>
              Size(next) < Size(now)
              && Play(now, bufferLength, timeoutsec) == (if ok then [m] else []) + Play(next, bufferLength, timeoutsec)
    ensures recvErrno == END_OF_STREAM ==> Play(now, bufferLength, timeoutsec) == []
    ensures ok ==> recvErrno == 0
  {
    TryShrinks(now, bufferLength, timeoutsec);
    hide Try;
  }

  /** So the messages of a connection without errors are all received, in order, if and
      only if no byte within a message is awaited too long. */
  method ReceiveConnection(sock: Socket, bufferLength: nat, timeoutsec: nat, ghost ms: seq<Message>)
    returns (received: seq<Message>)
    requires sock.Valid() && sock.reliable && AllReceivable(ms, bufferLength) && sock.incoming == EncodeAll(ms)
    modifies sock
    ensures received == ms <==> Prompt(ms, old(sock.waits), timeoutsec)
  {
    hide Play, Prompt;
    AllArriveJustWhenPrompt(ms, sock.waits, bufferLength, timeoutsec);
    var recvErrno;
    received, recvErrno := ReceiveLoop(sock, bufferLength, timeoutsec);
  }

  /** And on any connection, while no byte within a message is awaited too long, what has
      been received is what was sent, as far as it goes. */
  method ReceiveSome(sock: Socket, bufferLength: nat, timeoutsec: nat, ghost ms: seq<Message>, ghost rest: seq<Byte>)
    returns (received: seq<Message>)
    requires sock.Valid() && AllReceivable(ms, bufferLength) && sock.incoming == EncodeAll(ms) + rest
    requires Prompt(ms, sock.waits, timeoutsec)
    modifies sock
    ensures received <= ms || ms <= received
    ensures sock.reliable ==> ms <= received
  {
    hide Play, Prompt;
    ghost var waits' := PromptMessagesArrive(ms, rest, sock.waits, bufferLength, timeoutsec);
    ghost var all := ms + Play(Feed(rest, waits'), bufferLength, timeoutsec);
    var recvErrno;
    received, recvErrno := ReceiveLoop(sock, bufferLength, timeoutsec);
    assert received <= all && ms <= all;
  }

  /** Messages received one by one, whatever pieces they arrive in, when no byte of them is
      awaited too long: the stream is left right behind the last one. */
  method ReceiveAll(sock: Socket, count: nat, bufferLength: nat, timeoutsec: nat, ghost ms: seq<Message>,
                    ghost rest: seq<Byte>)
    returns (received: seq<Message>)
    requires sock.Valid() && sock.reliable && count == |ms| && AllReceivable(ms, bufferLength)
    requires sock.incoming == EncodeAll(ms) + rest && AllPrompt(ms, sock.waits, timeoutsec)
    modifies sock
    ensures sock.Valid() && received == ms && sock.incoming == rest
  {
    received := [];
    NoMessages(rest);
    hide EncodeAll, Encode, AllPrompt, AllReceivable, Received, Follows, Receivable, PromptFrom;
    assert ms[0..] == ms;
    for i := 0 to count
      invariant sock.Valid() && received == ms[..i] && sock.incoming == EncodeAll(ms[i..]) + rest
      invariant AllPrompt(ms[i..], sock.waits, timeoutsec) && AllReceivable(ms[i..], bufferLength)
    {
      ghost var line, left := sock.Coming(), ms[i..];
      RestReceivable(left, bufferLength);
      RestPrompt(left, rest, sock.waits, timeoutsec);
      Assoc(Encode(left[0]), EncodeAll(left[1..]), rest);
      var ok, m, recvErrno;
      ghost var read;
      ok, m, recvErrno, read := ReceiveMessage(sock, bufferLength, timeoutsec);
      FirstIsIt(line, left[0], EncodeAll(left[1..]) + rest, bufferLength, timeoutsec, ok, m, recvErrno, sock.Coming());
      assert left[1..] == ms[i + 1..];
      received := received + [m];
    }
  }

  /** No byte at all is awaited too long. */
  predicate AllPrompt(ms: seq<Message>, waits: seq<nat>, timeoutsec: nat)
    decreases ms
  {
    ms == [] ||
    (var n := |Encode(ms[0])|;
     n <= |waits| && PromptFrom(waits, 0, n, timeoutsec) && AllPrompt(ms[1..], waits[n..], timeoutsec))
  }

  lemma RestPrompt(ms: seq<Message>, rest: seq<Byte>, waits: seq<nat>, timeoutsec: nat)
    requires ms != [] && AllPrompt(ms, waits, timeoutsec)
    ensures var n := |Encode(ms[0])|;
      n <= |waits| && PromptFrom(waits, 0, n, timeoutsec) && AllPrompt(ms[1..], waits[n..], timeoutsec)
    ensures EncodeAll(ms) == Encode(ms[0]) + EncodeAll(ms[1..])
  {
    AllFromFirst(ms);
    hide EncodeAll, Encode;
  }

  /** Without errors, an attempt receives the first message if it comes in time. */
  lemma FirstIsIt(line: Line, first: Message, rest: seq<Byte>, bufferLength: nat, timeoutsec: nat,
                  ok: bool, m: Message, recvErrno: int, line': Line)
    requires line.stream == Encode(first) + rest && Receivable(first, bufferLength)
    requires PromptFrom(line.waits, 0, |Encode(first)|, timeoutsec)
    requires Follows(line, bufferLength, timeoutsec, ok, m, recvErrno, line')
    requires recvErrno in {0, EWOULDBLOCK, END_OF_STREAM}
    ensures ok && m == first && line' == Feed(rest, line.waits[|Encode(first)|..])
  {
    FirstReceived(line, first, rest, bufferLength, timeoutsec);
    hide Try, Play, Encode;
  }
}
