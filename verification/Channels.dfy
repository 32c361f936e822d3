/** Sender, network and receiver together. */
module Channels {
  import opened BigEndian
  import opened Framing
  import opened MsgSock

  /** The messages handed to `putmsg`, the sending socket, the bytes in the network, the
      bytes received but not yet part of a whole message, and the messages handed to the
      receive callback. */
  datatype Channel = Channel(
    put: seq<Message>, writer: Writer, wire: seq<Byte>, pending: seq<Byte>, delivered: seq<Message>)

  /** An event of the sending socket, or a read that takes at most `n` bytes. */
  datatype Op = Sender(e: WriteEvent) | Receive(n: nat)

  function Step(max: nat, ch: Channel, op: Op): Channel {
    match op
    case Sender(e) =>
      ch.(put := if e.PutMessage? then ch.put + [e.m] else ch.put,
          writer := OnWriteEvent(ch.writer, e), wire := ch.wire + SentBy(ch.writer, e))
    case Receive(n) =>
      var k := Min(n, |ch.wire|);
      var p := Parse(max, ch.pending + ch.wire[..k]);
      ch.(wire := ch.wire[k..], pending := p.rest, delivered := ch.delivered + p.messages)
  }

  function Transmit(max: nat, ops: seq<Op>): Channel {
    if ops == [] then
      Channel([], Writer([], false, false), [], [], [])
    else
      Step(max, Transmit(max, ops[..|ops| - 1]), ops[|ops| - 1])
  }

  /** `flow` is all that reached the network: with the unsent bytes it is the stream of
      the messages; after a failed write it is a proper part of it. */
  ghost predicate FlowOk(put: seq<Message>, w: Writer, flow: seq<Byte>) {
    && (!w.failed ==> Stream(put) == flow + w.unsent)
    && (w.failed ==> w.unsent == [] && flow < Stream(put))
    && (w.unsent == [] && !w.failed ==> !w.armed)
  }

  lemma StreamNext(put: seq<Message>, m: Message)
    ensures Stream(put + [m]) == Stream(put) + Frame(m)
  {
    assert (put + [m])[..|put|] == put;
  }

  lemma Associates(a: seq<Byte>, b: seq<Byte>, c: seq<Byte>)
    ensures (a + b) + c == a + (b + c)
  {
  }

  /** A write: what the kernel takes joins the flow, and a failure leaves some out. */
  lemma WroteFlow(put: seq<Message>, w: Writer, flow: seq<Byte>, cbset: bool, r: WriteResult)
    requires Stream(put) == flow + w.unsent && !w.failed && w.unsent != [] && (!cbset ==> !w.armed)
    requires r.Accepts? ==> r.n <= |w.unsent|
    ensures FlowOk(put, Wrote(w, cbset, r), flow + Sent(w.unsent, r))
  {
    assert flow + [] == flow;
    if r.Accepts? {
      assert w.unsent == w.unsent[..r.n] + w.unsent[r.n..];
      Associates(flow, w.unsent[..r.n], w.unsent[r.n..]);
    }
  }

  lemma PutFlow(put: seq<Message>, w: Writer, flow: seq<Byte>, m: Message, r: WriteResult)
    requires FlowOk(put, w, flow)
    ensures FlowOk(put + [m], OnWriteEvent(w, PutMessage(m, r)), flow + SentBy(w, PutMessage(m, r)))
  {
    StreamNext(put, m);
    Associates(flow, w.unsent, Frame(m));
    assert flow + [] == flow;
    if !w.failed && w.unsent == [] {
      var queue := w.unsent + Frame(m);
      WroteFlow(put + [m], w.(unsent := queue), flow, false, Clipped(r, |queue|));
    }
  }

  lemma WritableFlow(put: seq<Message>, w: Writer, flow: seq<Byte>, r: WriteResult)
    requires FlowOk(put, w, flow)
    ensures FlowOk(put, OnWriteEvent(w, Writable(r)), flow + SentBy(w, Writable(r)))
  {
    assert flow + [] == flow;
    if w.armed && !w.failed {
      WroteFlow(put, w, flow, true, Clipped(r, |w.unsent|));
    }
  }

  /** `arrived` is everything the receiver has read so far. */
  ghost predicate ChannelOk(max: nat, ch: Channel, arrived: seq<Byte>) {
    && Parse(max, arrived) == Parsed(ch.delivered, ch.pending)
    && FlowOk(ch.put, ch.writer, arrived + ch.wire)
  }

  lemma SenderOk(max: nat, ch: Channel, arrived: seq<Byte>, e: WriteEvent)
    requires ChannelOk(max, ch, arrived)
    ensures ChannelOk(max, Step(max, ch, Sender(e)), arrived)
  {
    Associates(arrived, ch.wire, SentBy(ch.writer, e));
    match e
    case PutMessage(m, r) =>
      PutFlow(ch.put, ch.writer, arrived + ch.wire, m, r);
    case Writable(r) =>
      WritableFlow(ch.put, ch.writer, arrived + ch.wire, r);
  }

  lemma ReceiveOk(max: nat, ch: Channel, arrived: seq<Byte>, n: nat)
    requires ChannelOk(max, ch, arrived)
    ensures ChannelOk(max, Step(max, ch, Receive(n)), arrived + ch.wire[..Min(n, |ch.wire|)])
  {
    var k := Min(n, |ch.wire|);
    ParseAppend(max, arrived, ch.wire[..k]);
    assert ch.wire == ch.wire[..k] + ch.wire[k..];
    Associates(arrived, ch.wire[..k], ch.wire[k..]);
  }

  lemma {:induction false} TransmitOk(max: nat, ops: seq<Op>) returns (arrived: seq<Byte>)
    ensures ChannelOk(max, Transmit(max, ops), arrived)
  {
    if ops == [] {
      arrived := [];
    } else {
      var ch, op := Transmit(max, ops[..|ops| - 1]), ops[|ops| - 1];
      arrived := TransmitOk(max, ops[..|ops| - 1]);
      match op
      case Sender(e) =>
        SenderOk(max, ch, arrived, e);
      case Receive(n) =>
        ReceiveOk(max, ch, arrived, n);
        arrived := arrived + ch.wire[..Min(n, |ch.wire|)];
    }
  }

  /** What was received cannot hold more messages than were put, and holds all of them
      only if it is the whole stream. */
  lemma DeliveredOf(max: nat, put: seq<Message>, arrived: seq<Byte>, after: seq<Byte>)
    requires Sendable(max, put) && Stream(put) == arrived + after
    ensures Parse(max, arrived).messages <= put
    ensures Parse(max, arrived).messages == put <==> after == []
    ensures after == [] ==> Parse(max, arrived).rest == []
  {
    ParsePrefix(max, put, arrived, after);
    ParsedStream(max, arrived);
    StreamFromStream(Parse(max, arrived).messages, Parse(max, arrived).rest);
  }

  lemma {:induction false} StreamFromStream(ms: seq<Message>, rest: seq<Byte>)
    ensures StreamFrom(ms, rest) == Stream(ms) + rest
    decreases |ms|
  {
    if ms == [] {
      assert [] + rest == rest;
    } else {
      var front, last := ms[..|ms| - 1], ms[|ms| - 1];
      StreamFromNext(front, last, rest);
      assert front + [last] == ms;
      StreamFromStream(front, Frame(last) + rest);
      Associates(Stream(front), Frame(last), rest);
    }
  }

  lemma {:induction false} StreamFromNext(ms: seq<Message>, m: Message, rest: seq<Byte>)
    ensures StreamFrom(ms + [m], rest) == StreamFrom(ms, Frame(m) + rest)
  {
    if ms == [] {
      assert [m][1..] == [] && ms + [m] == [m];
    } else {
      assert (ms + [m])[1..] == ms[1..] + [m];
      StreamFromNext(ms[1..], m, rest);
    }
  }

  /** End to end.  Whatever is put, however reads and writes are split, blocked or failed,
      the receiver has been given a prefix of what was sent, in order and unchanged; it
      holds back no whole message and sees no refused length word; and it has been given
      everything if and only if no write failed and no byte is queued or under way. */
  lemma EndToEnd(max: nat, ops: seq<Op>)
    requires Sendable(max, Transmit(max, ops).put)
    ensures var ch := Transmit(max, ops);
      && ch.delivered <= ch.put
      && !HasRecord(max, ch.pending)
      && (|ch.pending| >= 4 ==> !Refused(max, ch.pending[..4]))
      && (ch.delivered == ch.put <==> !ch.writer.failed && ch.writer.unsent == [] && ch.wire == [])
  {
    var ch := Transmit(max, ops);
    var arrived := TransmitOk(max, ops);
    var flow, stream := arrived + ch.wire, Stream(ch.put);
    var lost := if ch.writer.failed then stream[|flow|..] else ch.writer.unsent;
    assert stream == flow + lost;
    Associates(arrived, ch.wire, lost);
    RestIsSettled(max, arrived);
    ParsePrefix(max, ch.put, arrived, ch.wire + lost);
    DeliveredOf(max, ch.put, arrived, ch.wire + lost);
  }

  // ---- bytes that never leave ----

  function SenderEvents(ops: seq<Op>): seq<WriteEvent> {
    if ops == [] then [] else
      var op := ops[|ops| - 1];
      SenderEvents(ops[..|ops| - 1]) + if op.Sender? then [op.e] else []
  }

  /** The sending socket of a channel is a socket on its own. */
  lemma {:induction false} SenderRuns(max: nat, ops: seq<Op>)
    ensures Transmit(max, ops).writer == WriteRun(SenderEvents(ops))
  {
    if ops != [] {
      var front, op := ops[..|ops| - 1], ops[|ops| - 1];
      SenderRuns(max, front);
      if op.Sender? {
        assert (SenderEvents(front) + [op.e])[..|SenderEvents(front)|] == SenderEvents(front);
      } else {
        assert SenderEvents(front) + [] == SenderEvents(front);
      }
    }
  }

  /** Queued bytes will be offered to the kernel when it can take them, unless some message
      found the queue empty and its first write would have blocked. */
  lemma BytesLeaveIff(max: nat, ops: seq<Op>, n: nat)
    requires Transmit(max, ops).writer.unsent != [] && n > 0
    ensures SentBy(Transmit(max, ops).writer, Writable(Accepts(n))) != [] <==> !EverBlocked(SenderEvents(ops))
  {
    SenderRuns(max, ops);
    StallsIff(SenderEvents(ops));
  }

  lemma {:induction false} SenderEventsAppend(ops: seq<Op>, more: seq<Op>)
    ensures SenderEvents(ops + more) == SenderEvents(ops) + SenderEvents(more)
  {
    if more == [] {
      assert ops + more == ops && SenderEvents(ops) + [] == SenderEvents(ops);
    } else {
      var front := more[..|more| - 1];
      SenderEventsAppend(ops, front);
      assert (ops + more)[..|ops + more| - 1] == ops + front;
    }
  }

  /** After such a message the receiver never gets everything, whatever happens. */
  lemma BlockedNeverCompletes(max: nat, ops: seq<Op>, more: seq<Op>)
    requires EverBlocked(SenderEvents(ops)) && Sendable(max, Transmit(max, ops + more).put)
    ensures Transmit(max, ops + more).delivered != Transmit(max, ops + more).put
  {
    StallsIff(SenderEvents(ops));
    SenderEventsAppend(ops, more);
    StallIsFinal(SenderEvents(ops), SenderEvents(more));
    SenderRuns(max, ops + more);
    EndToEnd(max, ops + more);
  }
}
