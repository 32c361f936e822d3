/** Unsigned integers as big-endian byte strings, the keys of the decided index. */
module BigEndian {

  newtype Byte = x: int | 0 <= x < 256

  function Power256(n: nat): nat {
    if n == 0 then 1 else 256 * Power256(n - 1)
  }

  /** The `n` low bytes of a value, most significant first. */
  function Bytes(n: nat, value: nat): (r: seq<Byte>)
    ensures |r| == n
  {
    if n == 0 then [] else Bytes(n - 1, value / 256) + [(value % 256) as Byte]
  }

  /** The value of a big-endian byte string. */
  function Value(bytes: seq<Byte>): nat {
    if bytes == [] then 0 else Value(bytes[..|bytes| - 1]) * 256 + bytes[|bytes| - 1] as nat
  }

  /** The order in which the index keeps its keys: `memcmp` on equal lengths. */
  ghost predicate LexLess(a: seq<Byte>, b: seq<Byte>)
    requires |a| == |b|
  {
    exists i | 0 <= i < |a| :: a[i] < b[i] && a[..i] == b[..i]
  }

  lemma {:induction false} ValueBound(bytes: seq<Byte>)
    ensures Value(bytes) < Power256(|bytes|)
  {
    if bytes != [] {
      ValueBound(bytes[..|bytes| - 1]);
    }
  }

  /** Reading back what was written returns the value whenever it fits. */
  lemma {:induction false} ReadWrite(n: nat, value: nat)
    requires value < Power256(n)
    ensures Value(Bytes(n, value)) == value
  {
    if n > 0 {
      ReadWrite(n - 1, value / 256);
      var b := Bytes(n, value);
      assert b[..|b| - 1] == Bytes(n - 1, value / 256);
    }
  }

  /** Writing back what was read returns the bytes. */
  lemma {:induction false} WriteRead(bytes: seq<Byte>)
    ensures Bytes(|bytes|, Value(bytes)) == bytes
  {
    if bytes != [] {
      var front, last := bytes[..|bytes| - 1], bytes[|bytes| - 1];
      WriteRead(front);
      assert bytes == front + [last];
      assert Value(bytes) / 256 == Value(front) && Value(bytes) % 256 == last as nat;
    }
  }

  lemma LexLessAppend(a: seq<Byte>, b: seq<Byte>, x: Byte, y: Byte)
    requires |a| == |b|
    ensures LexLess(a + [x], b + [y]) <==> LexLess(a, b) || (a == b && x < y)
  {
    var a', b' := a + [x], b + [y];
    if LexLess(a, b) {
      var i :| 0 <= i < |a| && a[i] < b[i] && a[..i] == b[..i];
      assert a'[..i] == a[..i] && b'[..i] == b[..i];
      assert a'[i] < b'[i];
    }
    if a == b && x < y {
      assert a'[..|a|] == a && b'[..|a|] == b;
      assert a'[|a|] < b'[|a|];
    }
    if LexLess(a', b') {
      var i :| 0 <= i < |a'| && a'[i] < b'[i] && a'[..i] == b'[..i];
      if i < |a| {
        assert a'[..i] == a[..i] && b'[..i] == b[..i];
        assert a[i] < b[i];
      } else {
        assert a'[..i] == a && b'[..i] == b;
      }
    }
  }

  /** Byte order on keys is numeric order on values, so distinct values have
      distinct keys and a cursor walks them in ascending order. */
  lemma {:induction false} KeyOrder(n: nat, v: nat, w: nat)
    requires v < Power256(n) && w < Power256(n)
    ensures LexLess(Bytes(n, v), Bytes(n, w)) <==> v < w
    ensures Bytes(n, v) == Bytes(n, w) <==> v == w
  {
    ReadWrite(n, v);
    ReadWrite(n, w);
    if n > 0 {
      KeyOrder(n - 1, v / 256, w / 256);
      LexLessAppend(Bytes(n - 1, v / 256), Bytes(n - 1, w / 256), (v % 256) as Byte, (w % 256) as Byte);
    }
  }

  /** On strings of one length, byte order is the order of values. */
  lemma ValueOrder(a: seq<Byte>, b: seq<Byte>)
    requires |a| == |b|
    ensures LexLess(a, b) <==> Value(a) < Value(b)
    ensures Value(a) == Value(b) ==> a == b
  {
    ValueBound(a);
    ValueBound(b);
    WriteRead(a);
    WriteRead(b);
    KeyOrder(|a|, Value(a), Value(b));
  }

  /** `value >> (8 * count)`. */
  function ShiftedDown(value: nat, count: nat): nat
    decreases count
  {
    if count == 0 then value else ShiftedDown(value / 256, count - 1)
  }

  lemma {:induction false} ByteAt(n: nat, value: nat, k: nat)
    requires k < n
    ensures Bytes(n, value)[k] == (ShiftedDown(value, n - k - 1) % 256) as Byte
  {
    if k < n - 1 {
      ByteAt(n - 1, value / 256, k);
    }
  }

  /** `write_unsigned_big_endian`: byte `loc` is the value shifted right by
      `8 * (n - loc - 1)` bits, cut to eight bits. */
  method WriteUnsigned(buf: array<Byte>, n: nat, value: nat, offset: nat)
    requires offset + n <= buf.Length
    modifies buf
    ensures buf[offset..offset + n] == Bytes(n, value)
    ensures buf[..offset] == old(buf[..offset]) && buf[offset + n..] == old(buf[offset + n..])
  {
    for loc := 0 to n
      invariant forall k | offset <= k < offset + loc :: buf[k] == Bytes(n, value)[k - offset]
      invariant buf[..offset] == old(buf[..offset]) && buf[offset + n..] == old(buf[offset + n..])
    {
      ByteAt(n, value, loc);
      buf[loc + offset] := (ShiftedDown(value, n - loc - 1) % 256) as Byte;
    }
  }

  /** `read_unsigned_big_endian`: shift in one byte at a time. */
  method ReadUnsigned(bytes: seq<Byte>) returns (output: nat)
    ensures output == Value(bytes)
  {
    output := 0;
    for loc := 0 to |bytes|
      invariant output == Value(bytes[..loc])
    {
      assert bytes[..loc + 1][..loc] == bytes[..loc];
      output := output * 256 + bytes[loc] as nat;
    }
    assert bytes[..|bytes|] == bytes;
  }
}
