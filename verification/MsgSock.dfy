/** The message socket: a queue of partly written messages on one side, a partly
    read message on the other. */
module MsgSock {
  import opened BigEndian
  import opened Framing
  import opened ReadTurns

  /** The answer of one write: at most `n` bytes, would block, or an error. */
  datatype WriteResult = Accepts(n: nat) | WouldBlock | WriteError

  const MAX_IOV: nat := 8

  // ---- the write side as a value ----

  /** The bytes not yet accepted by the kernel, whether the poll set will call
      `output` when the socket is writable, and whether writing has failed. */
  datatype Writer = Writer(unsent: seq<Byte>, armed: bool, failed: bool)

  function Clipped(r: WriteResult, offered: nat): WriteResult {
    if r.Accepts? then Accepts(Min(r.n, offered)) else r
  }

  /** `output` when the kernel answers `r`. */
  function Wrote(w: Writer, cbset: bool, r: WriteResult): Writer
    requires r.Accepts? ==> r.n <= |w.unsent|
  {
    if r.WouldBlock? then
      w
    else if r.WriteError? || r.n == 0 then
      Writer([], w.armed, true)
    else
      var rest := w.unsent[r.n..];
      w.(unsent := rest, armed := if cbset then w.armed && rest != [] else w.armed || rest != [])
  }

  /** The bytes the kernel takes of those it is offered. */
  function Sent(unsent: seq<Byte>, r: WriteResult): seq<Byte>
    requires r.Accepts? ==> r.n <= |unsent|
  {
    if r.Accepts? then unsent[..r.n] else []
  }

  /** `putmsg`: only a message that finds the queue empty is written at once. */
  function Queued(w: Writer, frame: seq<Byte>, r: WriteResult): Writer
    requires r.Accepts? ==> r.n <= |w.unsent + frame|
  {
    if w.failed then
      w
    else
      var w' := w.(unsent := w.unsent + frame);
      if w.unsent == [] then Wrote(w', false, r) else w'
  }

  /** A message is put, or the socket becomes writable. */
  datatype WriteEvent = PutMessage(m: Message, r: WriteResult) | Writable(r: WriteResult)

  /** The poll set only reports what it was asked for. */
  function OnWriteEvent(w: Writer, e: WriteEvent): Writer {
    match e
    case PutMessage(m, r) => Queued(w, Frame(m), Clipped(r, |w.unsent + Frame(m)|))
    case Writable(r) => if w.armed then Wrote(w, true, Clipped(r, |w.unsent|)) else w
  }

  /** The bytes an event hands to the kernel. */
  function SentBy(w: Writer, e: WriteEvent): seq<Byte> {
    match e
    case PutMessage(m, r) =>
      var queue := w.unsent + Frame(m);
      if w.failed || w.unsent != [] then [] else Sent(queue, Clipped(r, |queue|))
    case Writable(r) => if w.armed then Sent(w.unsent, Clipped(r, |w.unsent|)) else []
  }

  function WriteRun(events: seq<WriteEvent>): Writer {
    if events == [] then
      Writer([], false, false)
    else
      OnWriteEvent(WriteRun(events[..|events| - 1]), events[|events| - 1])
  }

  /** Bytes are waiting and nothing will ever send them. */
  ghost predicate Stalled(w: Writer) {
    w.unsent != [] && !w.armed
  }

  /** The write attempted by `putmsg` itself would block. */
  ghost predicate FirstWriteBlocks(w: Writer, e: WriteEvent) {
    e.PutMessage? && e.r.WouldBlock? && w.unsent == [] && !w.failed
  }

  lemma {:induction false} IdleIsUnarmed(events: seq<WriteEvent>)
    ensures var w := WriteRun(events); w.unsent == [] && !w.failed ==> !w.armed
    ensures var w := WriteRun(events); w.failed ==> w.unsent == []
  {
    if events != [] {
      IdleIsUnarmed(events[..|events| - 1]);
    }
  }

  ghost predicate BlockedAt(events: seq<WriteEvent>, i: nat)
    requires i < |events|
  {
    FirstWriteBlocks(WriteRun(events[..i]), events[i])
  }

  ghost predicate EverBlocked(events: seq<WriteEvent>) {
    exists i: nat | i < |events| :: BlockedAt(events, i)
  }

  lemma EverBlockedStep(events: seq<WriteEvent>)
    requires events != []
    ensures var k := |events| - 1;
      EverBlocked(events) <==> EverBlocked(events[..k]) || FirstWriteBlocks(WriteRun(events[..k]), events[k])
  {
    var k := |events| - 1;
    forall i: nat | i < k
      ensures BlockedAt(events, i) <==> BlockedAt(events[..k], i)
    {
      assert events[..k][..i] == events[..i];
    }
    if EverBlocked(events[..k]) {
      var i: nat :| i < k && BlockedAt(events[..k], i);
      assert BlockedAt(events, i);
    }
    assert BlockedAt(events, k) <==> FirstWriteBlocks(WriteRun(events[..k]), events[k]);
  }

  /** A sender stalls exactly when some message finds the queue empty and its first
      write would block: `output` then returns without asking for a callback. */
  lemma {:induction false} StallsIff(events: seq<WriteEvent>)
    ensures Stalled(WriteRun(events)) <==> EverBlocked(events)
  {
    if events != [] {
      var front := events[..|events| - 1];
      IdleIsUnarmed(front);
      StallsIff(front);
      StallStep(WriteRun(front), events[|events| - 1]);
      EverBlockedStep(events);
    }
  }

  lemma StallStep(w: Writer, e: WriteEvent)
    requires (w.unsent == [] && !w.failed ==> !w.armed) && (w.failed ==> w.unsent == [])
    ensures Stalled(OnWriteEvent(w, e)) <==> Stalled(w) || FirstWriteBlocks(w, e)
    ensures Stalled(w) ==> w.unsent <= OnWriteEvent(w, e).unsent
  {
  }

  /** ... and then it stays so: no byte already waiting ever leaves. */
  lemma {:induction false} StallIsFinal(events: seq<WriteEvent>, more: seq<WriteEvent>)
    requires Stalled(WriteRun(events))
    ensures Stalled(WriteRun(events + more)) && WriteRun(events).unsent <= WriteRun(events + more).unsent
  {
    if more == [] {
      assert events + more == events;
    } else {
      var front := more[..|more| - 1];
      StallIsFinal(events, front);
      IdleIsUnarmed(events + front);
      assert (events + more)[..|events + more| - 1] == events + front;
      StallStep(WriteRun(events + front), more[|more| - 1]);
    }
  }

  // ---- the write queue ----

  function Concat(q: seq<seq<Byte>>): seq<Byte> {
    if q == [] then [] else q[0] + Concat(q[1..])
  }

  lemma {:induction false} ConcatAppend(q: seq<seq<Byte>>, r: seq<seq<Byte>>)
    ensures Concat(q + r) == Concat(q) + Concat(r)
  {
    if q == [] {
      assert q + r == r;
    } else {
      ConcatAppend(q[1..], r);
      assert (q + r)[1..] == q[1..] + r;
      Associative(q[0], Concat(q[1..]), Concat(r));
    }
  }

  lemma TakePrefix(v: seq<Byte>, u: seq<Byte>, n: nat)
    requires v <= u && n <= |v|
    ensures v[..n] == u[..n]
  {
  }

  lemma Associative(a: seq<Byte>, b: seq<Byte>, c: seq<Byte>)
    ensures (a + b) + c == a + (b + c)
  {
  }

  /** A message behind others waits with them; one on its own is written at once. */
  lemma QueuedCases(w: Writer, frame: seq<Byte>, r: WriteResult, queue: seq<Byte>, first: bool, sent: seq<Byte>)
    requires !w.failed && queue == w.unsent + frame && (first <==> w.unsent == [])
    requires r.Accepts? ==> r.n <= |queue|
    requires sent == if first then Sent(queue, r) else []
    ensures var w' := if first then Wrote(w.(unsent := queue), false, r) else w.(unsent := queue);
      Queued(w, frame, r) == w' && (!w'.failed ==> sent + w'.unsent == queue)
  {
    if first {
      WholeSent(queue, r);
    }
  }

  lemma WholeSent(unsent: seq<Byte>, r: WriteResult)
    requires r.Accepts? ==> r.n <= |unsent|
    ensures r.Accepts? ==> Sent(unsent, r) + unsent[r.n..] == unsent
    ensures !r.Accepts? ==> Sent(unsent, r) + unsent == unsent
  {
  }

  lemma ConcatOne(f: seq<Byte>)
    ensures Concat([f]) == f
  {
  }

  /** What is offered to the kernel: the first few messages, less what is sent. */
  ghost function Offered(q: seq<seq<Byte>>, start: nat, i: nat): seq<Byte>
    requires i <= |q|
  {
    var c := Concat(q[..i]);
    if start <= |c| then c[start..] else []
  }

  lemma OneOffered(frame: seq<Byte>)
    ensures Offered([frame], 0, 1) == frame
  {
    assert [frame][..1] == [frame];
    ConcatOne(frame);
  }

  // ---- lemmas about the read side ----

  lemma ParseShort(max: nat, bytes: seq<Byte>)
    requires |bytes| < 4
    ensures Parse(max, bytes) == Parsed([], bytes)
  {
  }

  lemma ParseRefused(max: nat, word: seq<Byte>)
    requires |word| == 4 && Refused(max, word)
    ensures Parse(max, word) == Parsed([], word)
  {
    assert word[..4] == word;
  }

  lemma ParsePartial(max: nat, n: nat, body: seq<Byte>)
    requires |body| < n <= max && n < LAST_FRAGMENT
    ensures Parse(max, Header(n) + body) == Parsed([], Header(n) + body)
  {
    HeaderValue(n);
    assert (Header(n) + body)[..4] == Header(n);
  }

  /** The read that completes `m` and goes on into the next length word. */
  lemma BodyRead(max: nat, header: seq<Byte>, had: seq<Byte>, data: seq<Byte>, room: nat, olds: seq<Message>)
    requires room <= |data|
    requires var m := had + data[..room]; Parse(max, header + m) == Parsed([m], [])
    ensures Advanced(max, olds, (header + had) + data, olds + [had + data[..room]], data[room..])
  {
    var m, extra := had + data[..room], data[room..];
    ParseNext(max, header + m, extra, [m], Parse(max, extra));
    assert (header + had) + data == (header + m) + extra;
  }

  lemma ParseThen(max: nat, a: seq<Byte>, b: seq<Byte>, p: Parsed, q: Parsed)
    requires Parse(max, a) == p && Parse(max, p.rest + b) == q
    ensures Parse(max, a + b) == Parsed(p.messages + q.messages, q.rest)
  {
    ParseAppend(max, a, b);
  }

  /** Reading `data` after `pending` yields the messages `news` and leaves `rest`. */
  ghost predicate Reads(max: nat, pending: seq<Byte>, data: seq<Byte>, news: seq<Message>, rest: seq<Byte>) {
    Parse(max, pending + data) == Parsed(news, rest)
  }

  lemma ReadsNothing(max: nat, pending: seq<Byte>, data: seq<Byte>)
    requires Parse(max, pending) == Parsed([], pending) && data == []
    ensures Reads(max, pending, data, [], pending)
  {
    assert pending + data == pending;
  }

  /** A read that completed some messages, followed by a look at the next length word. */
  lemma AdvancedThen(max: nat, olds: seq<Message>, pending: seq<Byte>, data: seq<Byte>,
                     mids: seq<Message>, mid: seq<Byte>, p: Parsed)
    requires Advanced(max, olds, pending + data, mids, mid) && p == Parse(max, mid)
    ensures Reads(max, pending, data, (mids + p.messages)[|olds|..], p.rest)
    ensures mids + p.messages == olds + (mids + p.messages)[|olds|..]
  {
    assert (mids + p.messages)[|olds|..] == mids[|olds|..] + p.messages;
  }

  lemma ParseEmpty(max: nat, word: seq<Byte>)
    requires |word| == 4 && Value(word) == LAST_FRAGMENT
    ensures Parse(max, word) == Parsed([[]], [])
  {
    WordIsHeader(word);
    ParseFrame(max, []);
    assert Frame([]) == word;
  }

  /** `news` holds `olds` and more messages; those and what parsing `pending` yields
      are what parsing `bytes` yields. */
  ghost predicate Advanced(max: nat, olds: seq<Message>, bytes: seq<Byte>, news: seq<Message>, pending: seq<Byte>) {
    var p := Parse(max, pending);
    && olds <= news
    && Parse(max, bytes) == Parsed(news[|olds|..] + p.messages, p.rest)
  }

  class MsgSocket {
    const maxmsglen: nat
    const nextlen: array<Byte>
    var rdmsg: array?<Byte>
    var rdpos: nat
    var delivered: seq<Message>
    var failures: nat

    var wqueue: seq<seq<Byte>>
    var wsize: nat
    var wstart: nat
    var wfail: bool
    var writecb: bool

    constructor (maxmsglen: nat)
      ensures ReadValid() && Pending() == [] && delivered == [] && failures == 0
      ensures WriteValid() && Outgoing() == Writer([], false, false)
      ensures this.maxmsglen == maxmsglen && fresh(nextlen)
    {
      this.maxmsglen := maxmsglen;
      nextlen := new Byte[4];
      rdmsg, rdpos, delivered, failures := null, 0, [], 0;
      wqueue, wsize, wstart, wfail, writecb := [], 0, 0, false, false;
    }

    // ---- writing ----

    ghost predicate WriteValid()
      reads this
    {
      && (forall i | 0 <= i < |wqueue| :: wqueue[i] != [])
      && wstart <= |Concat(wqueue)| && wsize == |Concat(wqueue)| - wstart
      && (wqueue == [] || wstart < |wqueue[0]|)
    }

    /** The bytes of the queue that have not been written. */
    ghost function Unsent(): seq<Byte>
      requires WriteValid()
      reads this
    {
      Concat(wqueue)[wstart..]
    }

    ghost function Outgoing(): Writer
      requires WriteValid()
      reads this
    {
      Writer(Unsent(), writecb, wfail)
    }

    /** `putmsg`: a message with its length word is queued whole or, after a failure,
        dropped.  One that finds the queue empty is offered to the kernel at once, and
        the answer acted on is the one given. */
    method PutMsg(frame: seq<Byte>, result: WriteResult) returns (sent: seq<Byte>)
      requires WriteValid() && frame != []
      modifies this`wqueue, this`wsize, this`wstart, this`wfail, this`writecb
      ensures WriteValid() && wsize == |Unsent()|
      ensures Outgoing() == Queued(old(Outgoing()), frame, Clipped(result, |old(Unsent()) + frame|))
      ensures !wfail ==> sent + Unsent() == old(Unsent()) + frame
      ensures sent ==
        if old(wfail) || old(Unsent()) != [] || !result.Accepts? then [] else frame[..Min(result.n, |frame|)]
      ensures wfail <==> old(wfail) || (old(Unsent()) == [] && (result.WriteError? || result == Accepts(0)))
      ensures forall m | frame == Frame(m) ::
        var e := PutMessage(m, result);
        Outgoing() == OnWriteEvent(old(Outgoing()), e) && sent == SentBy(old(Outgoing()), e)
    {
      sent := [];
      if wfail {
        return;
      }
      var was_empty := wsize == 0;
      ghost var w, queue := Outgoing(), Unsent() + frame;
      ghost var r := Clipped(result, |queue|);
      Enqueue(frame);
      if was_empty {
        OneOffered(frame);
        sent, r := Output(false, result);
      }
      QueuedCases(w, frame, r, queue, was_empty, sent);
    }

    method Enqueue(frame: seq<Byte>)
      requires WriteValid() && frame != []
      modifies this`wqueue, this`wsize
      ensures WriteValid() && Unsent() == old(Unsent()) + frame
      ensures old(Unsent()) == [] ==> wqueue == [frame] && wstart == 0
    {
      ConcatAppend(wqueue, [frame]);
      ConcatOne(frame);
      wsize := wsize + |frame|;
      wqueue := wqueue + [frame];
    }

    /** `output`: what the kernel accepts is exactly the front of the unsent bytes. */
    method Output(cbset: bool, result: WriteResult) returns (sent: seq<Byte>, ghost r: WriteResult)
      requires WriteValid()
      modifies this`wqueue, this`wsize, this`wstart, this`wfail, this`writecb
      ensures WriteValid() && wsize == |Unsent()|
      ensures r.Accepts? ==> r.n <= |old(Unsent())|
      ensures r == Clipped(result, |old(Offered(wqueue, wstart, Min(MAX_IOV, |wqueue|)))|)
      ensures Outgoing() == Wrote(old(Outgoing()), cbset, r)
      ensures sent == Sent(old(Unsent()), r)
      ensures cbset && old(writecb) ==> Outgoing() == OnWriteEvent(old(Outgoing()), Writable(r))
      ensures old(Unsent()) != [] && result.Accepts? && result.n > 0 ==> sent != []
    {
      var v := Gather();
      r := Clipped(result, |v|);
      var n := if result.Accepts? then Min(result.n, |v|) else 0;
      sent := v[..n];
      TakePrefix(v, Unsent(), n);
      if n > 0 {
        Forget(n, cbset);
      } else if !result.WouldBlock? {
        wfail, wsize, wstart, wqueue := true, 0, 0, [];
      }
    }

    /** The part of `output` after a successful write. */
    method Forget(n: nat, cbset: bool)
      requires WriteValid() && 0 < n <= wsize
      modifies this`wqueue, this`wsize, this`wstart, this`writecb
      ensures WriteValid() && wsize == |Unsent()|
      ensures Outgoing() == Wrote(old(Outgoing()), cbset, Accepts(n))
    {
      PopWBytes(n);
      if wsize > 0 && !cbset {
        writecb := true;
      } else if wsize == 0 && cbset {
        writecb := false;
      }
    }

    /** The vector of buffers that `output` hands to the kernel. */
    method Gather() returns (v: seq<Byte>)
      requires WriteValid()
      ensures v <= Unsent() && (wqueue != [] ==> v != [])
      ensures v == Offered(wqueue, wstart, Min(MAX_IOV, |wqueue|))
    {
      v := [];
      var i := 0;
      while i < MAX_IOV && i < |wqueue|
        invariant 0 <= i <= Min(MAX_IOV, |wqueue|)
        invariant v == Offered(wqueue, wstart, i)
        invariant i > 0 ==> v != [] && wstart <= |Concat(wqueue[..i])|
      {
        ConcatAppend(wqueue[..i], [wqueue[i]]);
        ConcatOne(wqueue[i]);
        assert wqueue[..i + 1] == wqueue[..i] + [wqueue[i]];
        v := v + if i > 0 then wqueue[i] else wqueue[i][wstart..];
        i := i + 1;
      }
      ConcatAppend(wqueue[..i], wqueue[i..]);
      assert wqueue == wqueue[..i] + wqueue[i..];
    }

    /** `pop_wbytes`: forget `n` bytes, whole messages first. */
    method PopWBytes(n: nat)
      requires WriteValid() && n <= wsize
      modifies this`wqueue, this`wsize, this`wstart
      ensures WriteValid() && wsize == old(wsize) - n
      ensures Unsent() == old(Unsent())[n..]
    {
      if n == 0 {
        return;
      }
      wsize := wsize - n;
      var frontbytes := |wqueue[0]| - wstart;
      if n < frontbytes {
        wstart := wstart + n;
        return;
      }
      var k: nat := n - frontbytes;
      wqueue := wqueue[1..];
      assert Concat(wqueue)[k..] == old(Unsent())[n..];
      while k > 0 && k >= |wqueue[0]|
        invariant forall i | 0 <= i < |wqueue| :: wqueue[i] != []
        invariant k <= |Concat(wqueue)| && Concat(wqueue)[k..] == old(Unsent())[n..]
        invariant wsize == |Concat(wqueue)| - k
        decreases |wqueue|
      {
        assert Concat(wqueue)[k..] == Concat(wqueue[1..])[k - |wqueue[0]|..];
        k := k - |wqueue[0]|;
        wqueue := wqueue[1..];
      }
      wstart := k;
    }

    // ---- reading ----

    ghost predicate ReadShape()
      reads this
    {
      && nextlen.Length == 4
      && (rdmsg != null ==>
        && rdmsg != nextlen
        && rdpos < rdmsg.Length <= maxmsglen && rdmsg.Length < LAST_FRAGMENT)
      && (rdmsg == null ==> rdpos <= 4)
    }

    /** Between calls a complete length word is one that was refused. */
    ghost predicate ReadValid()
      reads this, nextlen
    {
      ReadShape() && (Stuck() ==> Refused(maxmsglen, nextlen[..]))
    }

    /** The bytes read from the socket and not yet delivered. */
    ghost function Pending(): seq<Byte>
      requires ReadShape()
      reads this, nextlen, rdmsg
    {
      if rdmsg != null then Header(rdmsg.Length) + rdmsg[..rdpos] else nextlen[..rdpos]
    }

    /** A refused length word stays where it is. */
    ghost predicate Stuck()
      reads this
    {
      rdmsg == null && rdpos == 4
    }

    /** The unparsed suffix holds no whole record, and `Stuck` is seen in its bytes. */
    lemma PendingSettled()
      requires ReadValid()
      ensures Parse(maxmsglen, Pending()) == Parsed([], Pending()) && !HasRecord(maxmsglen, Pending())
      ensures Room(maxmsglen, Pending()) == if rdmsg != null then rdmsg.Length - rdpos + 4 else 4 - rdpos
      ensures Stuck() <==> |Pending()| >= 4 && Refused(maxmsglen, Pending()[..4])
    {
      if rdmsg != null {
        ParsePartial(maxmsglen, rdmsg.Length, rdmsg[..rdpos]);
        HeaderValue(rdmsg.Length);
        assert Pending()[..4] == Header(rdmsg.Length);
      } else if rdpos == 4 {
        assert nextlen[..4] == nextlen[..];
        ParseRefused(maxmsglen, nextlen[..]);
      } else {
        ParseShort(maxmsglen, nextlen[..rdpos]);
      }
    }

    /** `msg_sock::input`: at most three reads.  Whatever the sizes of the reads, what
        is delivered is what parsing the unread suffix together with the bytes taken
        yields; the bytes taken and the failures reported are those of the turns. */
    method Input(wire: seq<Byte>, closed: bool, results: seq<ReadResult>) returns (taken: nat, ghost news: seq<Message>)
      requires ReadValid() && |results| == 3
      modifies this`rdmsg, this`rdpos, this`delivered, this`failures, nextlen, rdmsg
      ensures ReadValid() && taken <= |wire| && delivered == old(delivered) + news
      ensures rdmsg == null || rdmsg == old(rdmsg) || fresh(rdmsg)
      ensures var c := TurnsOf(maxmsglen, old(Pending()), wire, closed, results);
        taken == c.taken && failures == old(failures) + c.failures && news == c.news && Pending() == c.kept
      ensures Reads(maxmsglen, old(Pending()), wire[..taken], news, Pending())
      ensures !closed && ReadError !in results ==> (failures > old(failures) <==> Stuck())
      ensures taken > 0 <==> !old(Stuck()) && wire != [] && Granted(results)
    {
      PendingSettled();
      TakesIff(maxmsglen, Pending(), wire, closed, results);
      TurnsParse(maxmsglen, Pending(), wire, closed, results);
      if !closed && ReadError !in results {
        FailsIff(maxmsglen, Pending(), wire, results);
      }
      ghost var c;
      taken, c := Turns(wire, closed, results);
      news := c.news;
      PendingSettled();
    }

    /** The turns so far gave `c`. */
    ghost predicate Stands(c: Call, delivered0: seq<Message>, failures0: nat)
      requires ReadShape()
      reads this, nextlen, rdmsg
    {
      Parsed(delivered, Pending()) == Parsed(delivered0 + c.news, c.kept) && failures == failures0 + c.failures
    }

    /** The loop of `input`. */
    method Turns(wire: seq<Byte>, closed: bool, results: seq<ReadResult>) returns (taken: nat, ghost c: Call)
      requires ReadValid() && |results| == 3
      modifies this`rdmsg, this`rdpos, this`delivered, this`failures, nextlen, rdmsg
      ensures ReadValid() && (rdmsg == null || rdmsg == old(rdmsg) || fresh(rdmsg))
      ensures c == TurnsOf(maxmsglen, old(Pending()), wire, closed, results)
      ensures taken == c.taken && Stands(c, old(delivered), old(failures))
    {
      var i, more := 0, true;
      ghost var pending := Pending();
      taken, c := 0, Call(0, 0, true, [], pending);
      while i < 3 && more
        invariant 0 <= i <= 3 && ReadValid() && (rdmsg == null || rdmsg == old(rdmsg) || fresh(rdmsg))
        invariant taken == c.taken && more == c.more && Stands(c, old(delivered), old(failures))
        invariant c == TurnsOf(maxmsglen, pending, wire, closed, results[..i])
        decreases 3 - i
      {
        taken, more, c := Next(wire, taken, closed, results, i, pending, c, old(delivered), old(failures));
        i := i + 1;
      }
      TurnsEnd(maxmsglen, pending, wire, closed, results, i);
    }

    /** The body of the loop, and where it stands in the call. */
    method Next(wire: seq<Byte>, taken: nat, closed: bool, results: seq<ReadResult>, i: nat,
                ghost pending: seq<Byte>, ghost c: Call, ghost delivered0: seq<Message>, ghost failures0: nat)
      returns (taken': nat, more: bool, ghost c': Call)
      requires ReadValid() && i < |results| && taken == c.taken && c.more
      requires Stands(c, delivered0, failures0) && c == TurnsOf(maxmsglen, pending, wire, closed, results[..i])
      modifies this`rdmsg, this`rdpos, this`delivered, this`failures, nextlen, rdmsg
      ensures ReadValid() && (rdmsg == null || rdmsg == old(rdmsg) || fresh(rdmsg))
      ensures taken' == c'.taken && more == c'.more && Stands(c', delivered0, failures0)
      ensures c' == TurnsOf(maxmsglen, pending, wire, closed, results[..i + 1])
    {
      var took; ghost var news, t;
      var left := wire[taken..];
      took, more, news, t := Round(left, closed, results[i]);
      Regroup(delivered0, c.news, news);
      c' := TurnsStep(maxmsglen, pending, wire, closed, results, i, c, t, news, Pending());
      taken' := taken + took;
    }

    /** One iteration of the loop in `input`. */
    method Round(avail: seq<Byte>, closed: bool, result: ReadResult)
      returns (took: nat, more: bool, ghost news: seq<Message>, ghost t: Turn)
      requires ReadValid()
      modifies this`rdmsg, this`rdpos, this`delivered, this`failures, nextlen, rdmsg
      ensures ReadValid() && took <= |avail| && delivered == old(delivered) + news
      ensures rdmsg == null || rdmsg == old(rdmsg) || fresh(rdmsg)
      ensures Reads(maxmsglen, old(Pending()), avail[..took], news, Pending())
      ensures t == Turn(took, failures > old(failures), more)
        == TurnOf(maxmsglen, old(Pending()), avail, closed, result)
      ensures old(failures) <= failures <= old(failures) + 1
    {
      PendingSettled();
      ghost var pending := Pending();
      if rdmsg == null && rdpos == 4 {
        assert pending == nextlen[..];
        StuckTurn(maxmsglen, pending, avail, closed, result);
        ReadsNothing(maxmsglen, pending, avail[..0]);
        took, news := 0, [];
        more := BeginRecord();
        t := Turn(0, true, more);
        return;
      }
      var room := if rdmsg != null then rdmsg.Length - rdpos + 4 else 4 - rdpos;
      took := if result.UpTo? then Min(Min(result.n, room), |avail|) else 0;
      if took == 0 {
        IdleTurn(maxmsglen, pending, avail, closed, result);
        ReadsNothing(maxmsglen, pending, avail[..0]);
        if result.ReadError? || (closed && avail == []) {
          failures := failures + 1;
        }
        return 0, false, [], Turn(0, failures > old(failures), false);
      }
      more, news := Take(avail[..took]);
      ReadTurn(maxmsglen, pending, avail, closed, result, took, more, Stuck());
      t := Turn(took, Stuck(), more);
    }

    /** A read that returned something: it ends the loop unless it completed a length
        word with the last-fragment bit, and reports a refused word. */
    method Take(data: seq<Byte>) returns (more: bool, ghost news: seq<Message>)
      requires ReadValid() && !Stuck()
      requires 0 < |data| <= if rdmsg != null then rdmsg.Length - rdpos + 4 else 4 - rdpos
      modifies this`rdmsg, this`rdpos, this`delivered, this`failures, nextlen, rdmsg
      ensures ReadValid()
      ensures rdmsg == null || rdmsg == old(rdmsg) || fresh(rdmsg)
      ensures Reads(maxmsglen, old(Pending()), data, news, Pending()) && delivered == old(delivered) + news
      ensures failures == old(failures) + if Stuck() then 1 else 0
      ensures Completed(maxmsglen, old(Pending()), data, Room(maxmsglen, old(Pending())), more, Stuck())
    {
      PendingSettled();
      ghost var olds, pending, room := delivered, Pending(), Room(maxmsglen, Pending());
      ReadData(data);
      AdvancedThen(maxmsglen, olds, pending, data, delivered, Pending(), Parse(maxmsglen, Pending()));
      if rdmsg != null || rdpos < 4 {
        PendingSettled();
        ShortRead(maxmsglen, pending, data, room);
        more := false;
      } else {
        assert Pending() == nextlen[..];
        WordRead(maxmsglen, pending, data, room, nextlen[..]);
        more := BeginRecord();
      }
      news := delivered[|olds|..];
    }

    /** The two kinds of read. */
    method ReadData(data: seq<Byte>)
      requires ReadValid() && !Stuck()
      requires 0 < |data| <= if rdmsg != null then rdmsg.Length - rdpos + 4 else 4 - rdpos
      modifies this`rdmsg, this`rdpos, this`delivered, nextlen, rdmsg
      ensures ReadShape() && (rdmsg == null || rdmsg == old(rdmsg))
      ensures Advanced(maxmsglen, old(delivered), old(Pending()) + data, delivered, Pending())
      ensures Stuck() <==> |data| == if old(rdmsg != null) then old(rdmsg.Length - rdpos) + 4 else 4 - old(rdpos)
      ensures Stuck() ==> old(Pending()) + data == nextlen[..] || (|data| >= 4 && data[|data| - 4..] == nextlen[..])
    {
      if rdmsg != null {
        ReadBody(data);
        assert nextlen[..4] == nextlen[..];
      } else {
        ReadWord(data);
        assert nextlen[..4] == nextlen[..];
      }
    }

    /** The scattering read into the rest of the message and the next length word. */
    method ReadBody(data: seq<Byte>)
      requires ReadShape() && rdmsg != null && 0 < |data| <= rdmsg.Length - rdpos + 4
      modifies this`rdmsg, this`rdpos, this`delivered, nextlen, rdmsg
      ensures ReadShape() && (rdmsg == null || rdmsg == old(rdmsg))
      ensures Advanced(maxmsglen, old(delivered), old(Pending()) + data, delivered, Pending())
      ensures rdmsg == null <==> |data| >= old(rdmsg.Length - rdpos)
      ensures rdmsg == null ==> Pending() == data[old(rdmsg.Length - rdpos)..]
    {
      ghost var had, olds := rdmsg[..rdpos], delivered;
      var room := rdmsg.Length - rdpos;
      if |data| < room {
        Store(rdmsg, rdpos, data);
        rdpos := rdpos + |data|;
        assert rdmsg[..rdpos] == had + data;
        Associative(Header(rdmsg.Length), had, data);
      } else {
        Store(rdmsg, rdpos, data[..room]);
        Store(nextlen, 0, data[room..]);
        rdpos := rdpos + |data| - rdmsg.Length;
        var m := rdmsg[..];
        delivered := delivered + [m];
        rdmsg := null;
        assert m == had + data[..room];
        assert Pending() == data[room..];
        ParseFrame(maxmsglen, m);
        BodyRead(maxmsglen, Header(|m|), had, data, room, olds);
      }
    }

    /** The read of the rest of a length word. */
    method ReadWord(data: seq<Byte>)
      requires ReadShape() && rdmsg == null && 0 < |data| <= 4 - rdpos
      modifies this`rdpos, nextlen
      ensures ReadShape()
      ensures Advanced(maxmsglen, old(delivered), old(Pending()) + data, delivered, Pending())
      ensures rdpos == old(rdpos) + |data| && nextlen[..rdpos] == old(nextlen[..rdpos]) + data
    {
      ghost var before := Pending();
      Store(nextlen, rdpos, data);
      rdpos := rdpos + |data|;
      assert Pending() == before + data;
    }

    /** The length word is complete: start the record it announces, or report it. */
    method BeginRecord() returns (more: bool)
      requires ReadShape() && rdmsg == null && rdpos == 4
      modifies this`rdmsg, this`rdpos, this`delivered, this`failures
      ensures ReadValid() && (rdmsg == null || fresh(rdmsg))
      ensures var p := Parse(maxmsglen, old(nextlen[..]));
        delivered == old(delivered) + p.messages && Pending() == p.rest
      ensures failures == old(failures) + if Stuck() then 1 else 0
      ensures Stuck() <==> Refused(maxmsglen, nextlen[..])
      ensures more <==> Value(nextlen[..]) >= LAST_FRAGMENT
    {
      ghost var word := nextlen[..];
      assert nextlen[..4] == word;
      var len := ReadUnsigned(nextlen[..]);
      if len < LAST_FRAGMENT {
        ParseRefused(maxmsglen, word);
        failures := failures + 1;
        return false;
      }
      WordIsHeader(word);
      len := len - LAST_FRAGMENT;
      more := true;
      if len == 0 {
        ParseEmpty(maxmsglen, word);
        rdpos := 0;
        delivered := delivered + [[]];
      } else if len <= maxmsglen {
        ParsePartial(maxmsglen, len, []);
        rdmsg := new Byte[len];
        rdpos := 0;
        assert Header(len) + [] == word;
      } else {
        ParseRefused(maxmsglen, word);
        failures := failures + 1;
      }
    }
  }

  /** What the kernel does with a buffer. */
  method Store(buf: array<Byte>, offset: nat, data: seq<Byte>)
    requires offset + |data| <= buf.Length
    modifies buf
    ensures buf[..] == old(buf[..offset]) + data + old(buf[offset + |data|..])
  {
    forall k | 0 <= k < |data| {
      buf[offset + k] := data[k];
    }
  }
}
