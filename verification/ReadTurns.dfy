/** How much the message socket reads, as functions of the bytes it has kept and of what
    the kernel grants. */
module ReadTurns {
  import opened BigEndian
  import opened Framing

  /** The answer of one read: at most `n` bytes, or an error.  Zero bytes mean that
      the call would block, or that the peer has closed. */
  datatype ReadResult = UpTo(n: nat) | ReadError

  /** The bytes one read asks for: the rest of a length word, or the rest of a message
      and the length word behind it; none behind a refused length word. */
  function Room(max: nat, pending: seq<Byte>): nat {
    if |pending| < 4 then
      4 - |pending|
    else if HasRecord(max, pending) || Refused(max, pending[..4]) then
      0
    else
      4 + Value(pending[..4]) - LAST_FRAGMENT - |pending| + 4
  }

  /** A turn of the reading loop: the bytes taken, whether the callback is told of a
      failure, and whether another turn follows. */
  datatype Turn = Turn(took: nat, failed: bool, more: bool)

  /** A read that is short of its room ends the loop.  One that fills it completes a
      length word: a wrong one is a failure, and the loop goes on behind any word that
      has the last-fragment bit, too long or not. */
  function TurnOf(max: nat, pending: seq<Byte>, avail: seq<Byte>, closed: bool, r: ReadResult): (t: Turn)
    ensures t.took <= |avail|
  {
    var room := Room(max, pending);
    var took := if r.UpTo? then Min(Min(r.n, room), |avail|) else 0;
    if took < room then
      Turn(took, took == 0 && (r.ReadError? || (closed && avail == [])), false)
    else
      var word := if room == 0 then pending[..4] else LastWord(pending + avail[..took]);
      Turn(took, Refused(max, word), Value(word) >= LAST_FRAGMENT)
  }

  function LastWord(bytes: seq<Byte>): (word: seq<Byte>)
    requires |bytes| >= 4
    ensures |word| == 4
  {
    bytes[|bytes| - 4..]
  }

  /** A read of `data` that asked for `room` bytes: whether the loop goes on, and whether
      it has met a refused length word. */
  ghost predicate Completed(max: nat, pending: seq<Byte>, data: seq<Byte>, room: nat, more: bool, stuck: bool) {
    if |data| < room || |pending + data| < 4 then
      !more && !stuck
    else
      var word := LastWord(pending + data);
      (more <==> Value(word) >= LAST_FRAGMENT) && (stuck <==> Refused(max, word))
  }

  lemma ShortRead(max: nat, pending: seq<Byte>, data: seq<Byte>, room: nat)
    requires |data| < room
    ensures Completed(max, pending, data, room, false, false)
  {
  }

  lemma WordRead(max: nat, pending: seq<Byte>, data: seq<Byte>, room: nat, word: seq<Byte>)
    requires room <= |data| && |word| == 4
    requires pending + data == word || (|data| >= 4 && data[|data| - 4..] == word)
    ensures Completed(max, pending, data, room, Value(word) >= LAST_FRAGMENT, Refused(max, word))
  {
    assert LastWord(pending + data) == word;
  }

  /** The three ways a turn ends: at a refused length word read earlier, ... */
  lemma StuckTurn(max: nat, word: seq<Byte>, avail: seq<Byte>, closed: bool, r: ReadResult)
    requires |word| == 4 && Refused(max, word)
    ensures TurnOf(max, word, avail, closed, r) == Turn(0, true, Value(word) >= LAST_FRAGMENT)
  {
    assert word[..4] == word && word + avail[..0] == word;
  }

  /** ... without a byte, ... */
  lemma IdleTurn(max: nat, pending: seq<Byte>, avail: seq<Byte>, closed: bool, r: ReadResult)
    requires Room(max, pending) > 0 && (r.ReadError? || r.n == 0 || avail == [])
    ensures TurnOf(max, pending, avail, closed, r) == Turn(0, r.ReadError? || (closed && avail == []), false)
  {
  }

  /** ... or with some. */
  lemma ReadTurn(max: nat, pending: seq<Byte>, avail: seq<Byte>, closed: bool, r: ReadResult, took: nat,
                 more: bool, stuck: bool)
    requires r.UpTo? && took == Min(Min(r.n, Room(max, pending)), |avail|) && took > 0
    requires Completed(max, pending, avail[..took], Room(max, pending), more, stuck)
    ensures TurnOf(max, pending, avail, closed, r) == Turn(took, stuck, more)
  {
  }

  /** A call: the bytes taken, the failures reported, whether it goes on, the messages
      delivered and the bytes kept. */
  datatype Call = Call(taken: nat, failures: nat, more: bool, news: seq<Message>, kept: seq<Byte>)

  function NextTurn(max: nat, wire: seq<Byte>, closed: bool, c: Call, r: ReadResult): (c': Call)
    requires c.taken <= |wire|
    ensures c.taken <= c'.taken <= |wire|
  {
    if !c.more then
      c
    else
      var t := TurnOf(max, c.kept, wire[c.taken..], closed, r);
      var p := Parse(max, c.kept + wire[c.taken..][..t.took]);
      Call(c.taken + t.took, c.failures + if t.failed then 1 else 0, t.more, c.news + p.messages, p.rest)
  }

  /** The turns of a call whose reads are answered by `results`. */
  function TurnsOf(max: nat, pending: seq<Byte>, wire: seq<Byte>, closed: bool, results: seq<ReadResult>): (c: Call)
    ensures c.taken <= |wire|
  {
    if results == [] then
      Call(0, 0, true, [], pending)
    else
      var k := |results| - 1;
      NextTurn(max, wire, closed, TurnsOf(max, pending, wire, closed, results[..k]), results[k])
  }

  lemma TurnsStep(max: nat, pending: seq<Byte>, wire: seq<Byte>, closed: bool, results: seq<ReadResult>, i: nat,
                  c: Call, t: Turn, news: seq<Message>, kept: seq<Byte>) returns (c': Call)
    requires i < |results| && c == TurnsOf(max, pending, wire, closed, results[..i]) && c.more
    requires t == TurnOf(max, c.kept, wire[c.taken..], closed, results[i])
    requires Parse(max, c.kept + wire[c.taken..][..t.took]) == Parsed(news, kept)
    ensures c' == Call(c.taken + t.took, c.failures + if t.failed then 1 else 0, t.more, c.news + news, kept)
    ensures c' == TurnsOf(max, pending, wire, closed, results[..i + 1])
  {
    assert results[..i + 1][..i] == results[..i];
    c' := TurnsOf(max, pending, wire, closed, results[..i + 1]);
  }

  /** Once the loop has ended the other answers are not asked for. */
  lemma {:induction false} TurnsEnd(max: nat, pending: seq<Byte>, wire: seq<Byte>, closed: bool,
                                    results: seq<ReadResult>, i: nat)
    requires i <= |results| && (TurnsOf(max, pending, wire, closed, results[..i]).more ==> i == |results|)
    ensures TurnsOf(max, pending, wire, closed, results) == TurnsOf(max, pending, wire, closed, results[..i])
    decreases |results| - i
  {
    if i == |results| {
      assert results[..i] == results;
    } else {
      assert results[..i + 1][..i] == results[..i];
      TurnsEnd(max, pending, wire, closed, results, i + 1);
    }
  }

  /** However the reads are cut, a call delivers and keeps what parsing all its bytes at
      once would. */
  lemma {:induction false} TurnsParse(max: nat, pending: seq<Byte>, wire: seq<Byte>, closed: bool,
                                      results: seq<ReadResult>)
    requires !HasRecord(max, pending)
    ensures var c := TurnsOf(max, pending, wire, closed, results);
      Parse(max, pending + wire[..c.taken]) == Parsed(c.news, c.kept) && !HasRecord(max, c.kept)
  {
    if results == [] {
      assert pending + wire[..0] == pending;
    } else {
      var k := |results| - 1;
      TurnsParse(max, pending, wire, closed, results[..k]);
      NextParse(max, pending, wire, closed, TurnsOf(max, pending, wire, closed, results[..k]), results[k]);
    }
  }

  lemma NextParse(max: nat, pending: seq<Byte>, wire: seq<Byte>, closed: bool, c: Call, r: ReadResult)
    requires c.taken <= |wire| && !HasRecord(max, c.kept)
    requires Parse(max, pending + wire[..c.taken]) == Parsed(c.news, c.kept)
    ensures var c' := NextTurn(max, wire, closed, c, r);
      Parse(max, pending + wire[..c'.taken]) == Parsed(c'.news, c'.kept) && !HasRecord(max, c'.kept)
  {
    if c.more {
      ParseOn(max, pending, wire, c, NextTurn(max, wire, closed, c, r));
    }
  }

  lemma ParseOn(max: nat, pending: seq<Byte>, wire: seq<Byte>, c: Call, c': Call)
    requires c.taken <= c'.taken <= |wire|
    requires Parse(max, pending + wire[..c.taken]) == Parsed(c.news, c.kept)
    requires var p := Parse(max, c.kept + wire[c.taken..][..c'.taken - c.taken]);
      c'.news == c.news + p.messages && c'.kept == p.rest
    ensures Parse(max, pending + wire[..c'.taken]) == Parsed(c'.news, c'.kept) && !HasRecord(max, c'.kept)
  {
    ReadInTwo(max, pending, wire, c.taken, c'.taken - c.taken);
  }

  lemma ReadInTwo(max: nat, pending: seq<Byte>, wire: seq<Byte>, m: nat, n: nat)
    requires m + n <= |wire|
    ensures var p := Parse(max, pending + wire[..m]); var q := Parse(max, p.rest + wire[m..][..n]);
      && Parse(max, pending + wire[..m + n]) == Parsed(p.messages + q.messages, q.rest)
      && !HasRecord(max, q.rest)
  {
    var p := Parse(max, pending + wire[..m]);
    ParseAppend(max, pending + wire[..m], wire[m..][..n]);
    RestIsSettled(max, p.rest + wire[m..][..n]);
    Rejoin(pending, wire, m, n);
  }

  lemma Rejoin(pending: seq<Byte>, wire: seq<Byte>, m: nat, n: nat)
    requires m + n <= |wire|
    ensures (pending + wire[..m]) + wire[m..][..n] == pending + wire[..m + n]
  {
  }

  /** Unless the connection fails, a call reports a failure exactly when it ends at a
      refused length word. */
  lemma {:induction false} FailsIff(max: nat, pending: seq<Byte>, wire: seq<Byte>, results: seq<ReadResult>)
    requires !HasRecord(max, pending) && results != [] && ReadError !in results
    ensures var c := TurnsOf(max, pending, wire, false, results); c.failures > 0 <==> Room(max, c.kept) == 0
  {
    var k := |results| - 1;
    if k > 0 {
      FailsIff(max, pending, wire, results[..k]);
    }
    TurnsParse(max, pending, wire, false, results[..k]);
    FailsStep(max, wire, TurnsOf(max, pending, wire, false, results[..k]), results[k], k > 0);
  }

  lemma FailsStep(max: nat, wire: seq<Byte>, c: Call, r: ReadResult, begun: bool)
    requires c.taken <= |wire| && !HasRecord(max, c.kept) && r.UpTo?
    requires if begun then c.failures > 0 <==> Room(max, c.kept) == 0 else c.failures == 0 && c.more
    ensures var c' := NextTurn(max, wire, false, c, r); c'.failures > 0 <==> Room(max, c'.kept) == 0
  {
    if c.more {
      NextFails(max, c.kept, wire[c.taken..], r.n);
    }
  }

  lemma NextFails(max: nat, pending: seq<Byte>, avail: seq<Byte>, n: nat)
    requires !HasRecord(max, pending)
    ensures var t := TurnOf(max, pending, avail, false, UpTo(n));
      var stuck := Room(max, Parse(max, pending + avail[..t.took]).rest) == 0;
      (t.failed <==> stuck) && (Room(max, pending) == 0 ==> stuck)
  {
    TurnFails(max, pending, avail, n);
    if Room(max, pending) == 0 {
      RefusedTurn(max, pending, avail, UpTo(n));
    }
  }

  lemma RefusedTurn(max: nat, pending: seq<Byte>, avail: seq<Byte>, r: ReadResult)
    requires !HasRecord(max, pending) && Room(max, pending) == 0
    ensures TurnOf(max, pending, avail, false, r).took == 0
    ensures Parse(max, pending + avail[..0]) == Parsed([], pending)
  {
    assert pending + avail[..0] == pending;
  }

  lemma TurnFails(max: nat, pending: seq<Byte>, avail: seq<Byte>, n: nat)
    requires !HasRecord(max, pending)
    ensures var t := TurnOf(max, pending, avail, false, UpTo(n));
      t.failed <==> Room(max, Parse(max, pending + avail[..t.took]).rest) == 0
  {
    if Room(max, pending) == 0 {
      RefusedTurn(max, pending, avail, UpTo(n));
    } else {
      TakenFails(max, pending, avail, n, Min(Min(n, Room(max, pending)), |avail|));
    }
  }

  lemma TakenFails(max: nat, pending: seq<Byte>, avail: seq<Byte>, n: nat, took: nat)
    requires !HasRecord(max, pending) && Room(max, pending) > 0 && took == Min(Min(n, Room(max, pending)), |avail|)
    ensures var t := TurnOf(max, pending, avail, false, UpTo(n));
      t.took == took && (t.failed <==> Room(max, Parse(max, pending + avail[..took]).rest) == 0)
  {
    if |pending| < 4 {
      WordPart(max, pending, avail[..took]);
    } else {
      BodyRest(max, pending, avail[..took]);
    }
  }

  /** A read of a length word. */
  lemma WordPart(max: nat, pending: seq<Byte>, data: seq<Byte>)
    requires |pending + data| <= 4
    ensures var rest := Parse(max, pending + data).rest;
      Room(max, rest) == 0 <==> |pending + data| == 4 && Refused(max, LastWord(pending + data))
  {
    var bytes := pending + data;
    if |bytes| == 4 {
      assert LastWord(bytes) == bytes;
      WordRest(max, bytes);
    }
  }

  /** A read into a message: what is left is the part of the next length word. */
  lemma BodyRest(max: nat, pending: seq<Byte>, data: seq<Byte>)
    requires !HasRecord(max, pending) && |pending| >= 4 && Room(max, pending) >= |data| && Room(max, pending) > 0
    ensures var rest := Parse(max, pending + data).rest;
      Room(max, rest) == 0 <==> |data| == Room(max, pending) && Refused(max, LastWord(pending + data))
  {
    var bytes := pending + data;
    assert bytes[..4] == pending[..4];
    if HasRecord(max, bytes) {
      var tail := bytes[RecordLength(max, bytes)..];
      assert Parse(max, bytes).rest == Parse(max, tail).rest;
      if |tail| == 4 {
        assert tail == LastWord(bytes);
        WordRest(max, tail);
      }
    }
  }

  lemma WordRest(max: nat, word: seq<Byte>)
    requires |word| == 4
    ensures Room(max, Parse(max, word).rest) == 0 <==> Refused(max, word)
  {
    assert word[..4] == word;
  }

  /** Behind a refused length word nothing is ever taken. */
  lemma {:induction false} RefusedTakesNothing(max: nat, pending: seq<Byte>, wire: seq<Byte>, closed: bool,
                                               results: seq<ReadResult>)
    requires |pending| >= 4 && Refused(max, pending[..4])
    ensures var c := TurnsOf(max, pending, wire, closed, results); c.taken == 0 && c.kept == pending && c.news == []
  {
    if results != [] {
      RefusedTakesNothing(max, pending, wire, closed, results[..|results| - 1]);
      assert pending + wire[0..][..0] == pending;
    }
  }

  /** The first read of a call is granted at least a byte. */
  predicate Granted(results: seq<ReadResult>) {
    results != [] && results[0].UpTo? && results[0].n > 0
  }

  /** A call makes progress exactly when it can: the socket is not stuck, there is
      something to read and the first read is granted some of it. */
  lemma {:induction false} TakesIff(max: nat, pending: seq<Byte>, wire: seq<Byte>, closed: bool,
                                    results: seq<ReadResult>)
    requires !HasRecord(max, pending)
    ensures TurnsOf(max, pending, wire, closed, results).taken > 0
      <==> Room(max, pending) > 0 && wire != [] && Granted(results)
  {
    if Room(max, pending) == 0 {
      RefusedTakesNothing(max, pending, wire, closed, results);
    } else if |results| == 1 {
      FirstTurn(max, pending, wire, closed, results);
    } else if results != [] {
      TakesIff(max, pending, wire, closed, results[..|results| - 1]);
      if !Granted(results) || wire == [] {
        FirstTurn(max, pending, wire, closed, results[..1]);
        TurnsEnd(max, pending, wire, closed, results, 1);
      }
    }
  }

  lemma FirstTurn(max: nat, pending: seq<Byte>, wire: seq<Byte>, closed: bool, results: seq<ReadResult>)
    requires |results| == 1
    ensures var t := TurnOf(max, pending, wire, closed, results[0]);
      var c := TurnsOf(max, pending, wire, closed, results);
      c.taken == t.took && c.more == t.more
  {
    assert results[..0] == [] && wire[0..] == wire;
  }

  /** The messages delivered by a row of calls, the bytes kept and those not yet read. */
  datatype Reader = Reader(delivered: seq<Message>, pending: seq<Byte>, wire: seq<Byte>)

  function AfterCall(max: nat, rd: Reader, closed: bool, results: seq<ReadResult>): Reader {
    var c := TurnsOf(max, rd.pending, rd.wire, closed, results);
    Reader(rd.delivered + c.news, c.kept, rd.wire[c.taken..])
  }

  function CallsOf(max: nat, rd: Reader, closed: bool, calls: seq<seq<ReadResult>>): Reader
    decreases |calls|
  {
    if calls == [] then rd else CallsOf(max, AfterCall(max, rd, closed, calls[0]), closed, calls[1..])
  }

  /** What has been delivered and what is still to come. */
  function Owed(max: nat, rd: Reader): seq<Message> {
    rd.delivered + Parse(max, rd.pending + rd.wire).messages
  }

  /** No call changes what a reader will have delivered in the end. */
  lemma CallKeepsOwed(max: nat, rd: Reader, closed: bool, results: seq<ReadResult>)
    requires !HasRecord(max, rd.pending)
    ensures var rd' := AfterCall(max, rd, closed, results);
      Owed(max, rd') == Owed(max, rd) && !HasRecord(max, rd'.pending)
  {
    var c := TurnsOf(max, rd.pending, rd.wire, closed, results);
    TurnsParse(max, rd.pending, rd.wire, closed, results);
    ReadAll(max, rd, c.taken, c.news, c.kept);
  }

  lemma ReadAll(max: nat, rd: Reader, n: nat, news: seq<Message>, kept: seq<Byte>)
    requires n <= |rd.wire| && Parse(max, rd.pending + rd.wire[..n]) == Parsed(news, kept)
    ensures (rd.delivered + news) + Parse(max, kept + rd.wire[n..]).messages == Owed(max, rd)
  {
    var left := |rd.wire| - n;
    ReadInTwo(max, rd.pending, rd.wire, n, left);
    assert rd.wire[n..][..left] == rd.wire[n..] && rd.wire[..n + left] == rd.wire;
    Regroup(rd.delivered, news, Parse(max, kept + rd.wire[n..]).messages);
  }

  /** Nothing to read, or nothing that will be read. */
  predicate Finished(max: nat, rd: Reader) {
    rd.wire == [] || Room(max, rd.pending) == 0
  }

  lemma FinishedStays(max: nat, rd: Reader, closed: bool, results: seq<ReadResult>)
    requires !HasRecord(max, rd.pending) && Finished(max, rd)
    ensures var rd' := AfterCall(max, rd, closed, results); rd'.delivered == rd.delivered && Finished(max, rd')
    ensures Owed(max, rd) == rd.delivered
  {
    TakesIff(max, rd.pending, rd.wire, closed, results);
    TurnsParse(max, rd.pending, rd.wire, closed, results);
    assert rd.pending + rd.wire[..0] == rd.pending;
    if rd.wire == [] {
      assert rd.pending + rd.wire == rd.pending;
    } else {
      assert (rd.pending + rd.wire)[..4] == rd.pending[..4];
    }
  }

  /** Enough calls, each granted at least a byte at first, deliver everything that the
      bytes hold, whatever else is granted: nothing is left unread but behind a refused
      length word. */
  lemma {:induction false} CallsDeliver(max: nat, rd: Reader, closed: bool, calls: seq<seq<ReadResult>>)
    requires !HasRecord(max, rd.pending) && (|calls| >= |rd.wire| || Finished(max, rd))
    requires forall i | 0 <= i < |calls| :: Granted(calls[i])
    ensures var rd' := CallsOf(max, rd, closed, calls); rd'.delivered == Owed(max, rd) && Finished(max, rd')
    decreases |calls|
  {
    if calls == [] {
      FinishedStays(max, rd, closed, []);
    } else {
      var rd' := AfterCall(max, rd, closed, calls[0]);
      CallKeepsOwed(max, rd, closed, calls[0]);
      if Finished(max, rd) {
        FinishedStays(max, rd, closed, calls[0]);
      } else {
        TakesIff(max, rd.pending, rd.wire, closed, calls[0]);
      }
      CallsDeliver(max, rd', closed, calls[1..]);
    }
  }
}
