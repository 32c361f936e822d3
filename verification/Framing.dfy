/** Record-marked messages on a byte stream (section 11 of RFC 5531), restricted as
    in the socket layer to records of one fragment. */
module Framing {
  import opened BigEndian

  const LAST_FRAGMENT: nat := 0x8000_0000

  type Message = seq<Byte>

  /** The length word that `message_t::alloc` puts before a message. */
  function Header(size: nat): (r: seq<Byte>)
    ensures |r| == 4
  {
    Bytes(4, size + LAST_FRAGMENT)
  }

  function Frame(m: Message): seq<Byte> {
    Header(|m|) + m
  }

  function Stream(ms: seq<Message>): seq<Byte> {
    if ms == [] then [] else Stream(ms[..|ms| - 1]) + Frame(ms[|ms| - 1])
  }

  ghost predicate Sendable(max: nat, ms: seq<Message>) {
    forall i | 0 <= i < |ms| :: |ms[i]| < LAST_FRAGMENT && |ms[i]| <= max
  }

  /** A length word that `input` turns away: not a last fragment, or too long. */
  predicate Refused(max: nat, word: seq<Byte>) {
    Value(word) < LAST_FRAGMENT || Value(word) - LAST_FRAGMENT > max
  }

  /** The number of bytes of the first record, when they are all there. */
  predicate HasRecord(max: nat, bytes: seq<Byte>) {
    && |bytes| >= 4
    && !Refused(max, bytes[..4])
    && |bytes| >= 4 + Value(bytes[..4]) - LAST_FRAGMENT
  }

  function RecordLength(max: nat, bytes: seq<Byte>): (r: nat)
    requires HasRecord(max, bytes)
    ensures 4 <= r <= |bytes|
  {
    4 + Value(bytes[..4]) - LAST_FRAGMENT
  }

  datatype Parsed = Parsed(messages: seq<Message>, rest: seq<Byte>)

  /** What a byte string holds: as many whole records as possible, then the rest. */
  function Parse(max: nat, bytes: seq<Byte>): Parsed
    decreases |bytes|
  {
    if !HasRecord(max, bytes) then
      Parsed([], bytes)
    else
      var n := RecordLength(max, bytes);
      var tail := Parse(max, bytes[n..]);
      Parsed([bytes[4..n]] + tail.messages, tail.rest)
  }

  lemma WordBound()
    ensures Power256(4) == 2 * LAST_FRAGMENT
  {
    assert Power256(1) == 256;
    assert Power256(2) == 256 * Power256(1);
    assert Power256(3) == 256 * Power256(2);
  }

  lemma HeaderValue(size: nat)
    requires size < LAST_FRAGMENT
    ensures Value(Header(size)) == size + LAST_FRAGMENT
  {
    WordBound();
    ReadWrite(4, size + LAST_FRAGMENT);
  }

  /** A length word with the last-fragment bit is the header of its length. */
  lemma WordIsHeader(word: seq<Byte>)
    requires |word| == 4 && Value(word) >= LAST_FRAGMENT
    ensures Header(Value(word) - LAST_FRAGMENT) == word
    ensures Value(word) - LAST_FRAGMENT < LAST_FRAGMENT
  {
    WordBound();
    ValueBound(word);
    WriteRead(word);
  }

  lemma Regroup(a: seq<Message>, b: seq<Message>, c: seq<Message>)
    ensures (a + b) + c == a + (b + c)
  {
  }

  /** Parsing may stop and go on: nothing depends on where the stream is cut. */
  lemma {:induction false} ParseAppend(max: nat, a: seq<Byte>, b: seq<Byte>)
    ensures var p := Parse(max, a); var q := Parse(max, p.rest + b);
      Parse(max, a + b) == Parsed(p.messages + q.messages, q.rest)
    decreases |a|
  {
    if HasRecord(max, a) {
      var n := RecordLength(max, a);
      RecordAppend(max, a, b);
      ParseAppend(max, a[n..], b);
      var p := Parse(max, a[n..]);
      Regroup([a[4..n]], p.messages, Parse(max, p.rest + b).messages);
    }
  }

  lemma RecordAppend(max: nat, a: seq<Byte>, b: seq<Byte>)
    requires HasRecord(max, a)
    ensures HasRecord(max, a + b) && RecordLength(max, a + b) == RecordLength(max, a)
    ensures var n := RecordLength(max, a); (a + b)[4..n] == a[4..n] && (a + b)[n..] == a[n..] + b
  {
    assert (a + b)[..4] == a[..4];
  }

  /** Parsing again what was left over finds nothing. */
  lemma {:induction false} RestIsSettled(max: nat, bytes: seq<Byte>)
    ensures !HasRecord(max, Parse(max, bytes).rest)
    decreases |bytes|
  {
    if HasRecord(max, bytes) {
      RestIsSettled(max, bytes[RecordLength(max, bytes)..]);
    }
  }

  lemma ParseFrame(max: nat, m: Message)
    requires |m| < LAST_FRAGMENT && |m| <= max
    ensures Parse(max, Frame(m)) == Parsed([m], [])
  {
    HeaderValue(|m|);
    var f := Frame(m);
    assert f[..4] == Header(|m|);
    assert f[4..|f|] == m && f[|f|..] == [];
  }

  lemma ParseNext(max: nat, a: seq<Byte>, b: seq<Byte>, ms: seq<Message>, p: Parsed)
    requires Parse(max, a) == Parsed(ms, []) && Parse(max, b) == p
    ensures Parse(max, a + b) == Parsed(ms + p.messages, p.rest)
  {
    ParseAppend(max, a, b);
    assert [] + b == b;
  }

  /** A stream of messages within the limit parses to those messages. */
  lemma {:induction false} ParseStream(max: nat, ms: seq<Message>)
    requires Sendable(max, ms)
    ensures Parse(max, Stream(ms)) == Parsed(ms, [])
  {
    if ms != [] {
      var front, m := ms[..|ms| - 1], ms[|ms| - 1];
      ParseStream(max, front);
      ParseFrame(max, m);
      ParseNext(max, Stream(front), Frame(m), front, Parsed([m], []));
      assert ms == front + [m];
    }
  }

  /** Conversely what has been parsed is, byte for byte, the stream of the messages
      delivered followed by what is left. */
  lemma {:induction false} ParsedStream(max: nat, bytes: seq<Byte>)
    ensures var p := Parse(max, bytes); bytes == StreamFrom(p.messages, p.rest)
    ensures var p := Parse(max, bytes); Sendable(max, p.messages)
    decreases |bytes|
  {
    if HasRecord(max, bytes) {
      var n := RecordLength(max, bytes);
      ParsedStream(max, bytes[n..]);
      WordIsHeader(bytes[..4]);
      assert bytes == bytes[..4] + bytes[4..n] + bytes[n..];
    }
  }

  /** The same stream built from the front, ending in `rest`. */
  function StreamFrom(ms: seq<Message>, rest: seq<Byte>): seq<Byte> {
    if ms == [] then rest else Frame(ms[0]) + StreamFrom(ms[1..], rest)
  }

  /** A prefix of the stream parses to a prefix of the messages. */
  lemma ParsePrefix(max: nat, ms: seq<Message>, arrived: seq<Byte>, pending: seq<Byte>)
    requires Sendable(max, ms) && Stream(ms) == arrived + pending
    ensures Parse(max, arrived).messages <= ms
    ensures pending == [] ==> Parse(max, arrived) == Parsed(ms, [])
    ensures |Parse(max, arrived).rest| >= 4 ==> !Refused(max, Parse(max, arrived).rest[..4])
  {
    ParseStream(max, ms);
    ParseAppend(max, arrived, pending);
    var p := Parse(max, arrived);
    if pending == [] {
      assert arrived + pending == arrived;
    }
    assert |p.rest| >= 4 ==> (p.rest + pending)[..4] == p.rest[..4];
  }

  function Min(a: nat, b: nat): nat {
    if a < b then a else b
  }
}
