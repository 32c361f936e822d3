/** XDR marshalling (RFC 4506) of integers, booleans, opaques, arrays, vectors,
    optionals and structs, recursive ones included. */
module Xdr {
  import opened BigEndian

  // ---- types and values ----

  datatype Width = W32 | W64 {
    function Len(): (n: nat)
      ensures n == 4 || n == 8
    {
      if W32? then 4 else 8
    }
  }

  /** A struct is named, so that types may refer to themselves. */
  datatype Ty =
    | Num(width: Width, signed: bool)
    | Bool
    | Opaque(size: nat)
    | OpaqueVec(max: nat)
    | Array(elem: Ty, size: nat)
    | Vector(elem: Ty, max: nat)
    | Pointer(elem: Ty)
    | Struct(name: nat)

  datatype Fields = NoField | Field(first: Ty, rest: Fields)

  /** The struct declarations of a program. */
  type Env = nat -> Fields

  /** `Fresh` is an object that has not been assigned since it was constructed; it can
      be decoded into but is no value of any type. */
  datatype XdrValue =
    | Int(n: int)
    | Flag(b: bool)
    | Raw(bytes: seq<Byte>)
    | Many(elems: seq<XdrValue>)
    | Record(fields: Values)
    | Fresh

  datatype Values = NoValue | Cons(first: XdrValue, rest: Values)

  const TWO32: nat := 0x1_0000_0000

  function Half(w: Width): nat {
    Power256(w.Len()) / 2
  }

  predicate InRange(w: Width, signed: bool, n: int) {
    if signed then 0 - Half(w) <= n < Half(w) else 0 <= n < Power256(w.Len())
  }

  /** The values of a type that a program can hold.  A vector or opaque may be longer
      than its declared maximum; only 32 bits of length are asserted. */
  predicate HasType(env: Env, t: Ty, v: XdrValue)
    decreases v
  {
    match t
    case Num(w, s) => v.Int? && InRange(w, s, v.n)
    case Bool => v.Flag?
    case Opaque(n) => v.Raw? && |v.bytes| == n
    case OpaqueVec(_) => v.Raw? && |v.bytes| < TWO32
    case Array(e, n) => v.Many? && |v.elems| == n && AllHaveType(env, e, v.elems)
    case Vector(e, _) => v.Many? && |v.elems| < TWO32 && AllHaveType(env, e, v.elems)
    case Pointer(e) => v.Many? && |v.elems| <= 1 && AllHaveType(env, e, v.elems)
    case Struct(name) => v.Record? && FieldsHaveType(env, env(name), v.fields)
  }

  predicate AllHaveType(env: Env, t: Ty, vs: seq<XdrValue>)
    decreases vs
  {
    vs == [] || (HasType(env, t, vs[0]) && AllHaveType(env, t, vs[1..]))
  }

  predicate FieldsHaveType(env: Env, fs: Fields, vs: Values)
    decreases vs
  {
    match fs
    case NoField => vs.NoValue?
    case Field(t, rest) => vs.Cons? && HasType(env, t, vs.first) && FieldsHaveType(env, rest, vs.rest)
  }

  // ---- encoding ----

  function Padded(n: nat): (r: nat)
    ensures n <= r < n + 4 && r % 4 == 0
  {
    (n + 3) / 4 * 4
  }

  /** In an aligned buffer what fits also fits with its padding. */
  lemma PaddedFits(n: nat, room: nat)
    requires n <= room && room % 4 == 0
    ensures Padded(n) <= room && (room - Padded(n)) % 4 == 0
  {
  }

  /** The same for bytes behind a length word. */
  lemma CountedFits(n: nat, room: nat)
    requires room % 4 == 0
    ensures 4 + n <= room <==> 4 + Padded(n) <= room
  {
    if 4 + n <= room {
      PaddedFits(n, room - 4);
    }
  }

  function Zeros(n: nat): (r: seq<Byte>)
    ensures |r| == n && forall i | 0 <= i < n :: r[i] == 0
  {
    seq(n, _ => 0 as Byte)
  }

  function ToUint(w: Width, n: int): nat
    requires 0 - Half(w) <= n
  {
    if n >= 0 then n else n + 2 * Half(w)
  }

  function PutWord(w: Width, u: nat): (r: seq<Byte>)
    ensures |r| == w.Len()
  {
    Bytes(w.Len(), u)
  }

  function PutOpaque(s: seq<Byte>): seq<Byte> {
    s + Zeros(Padded(|s|) - |s|)
  }

  function Put(env: Env, t: Ty, v: XdrValue): seq<Byte>
    requires HasType(env, t, v)
    decreases v
  {
    match t
    case Num(w, _) => PutWord(w, ToUint(w, v.n))
    case Bool => PutWord(W32, if v.b then 1 else 0)
    case Opaque(_) => PutOpaque(v.bytes)
    case OpaqueVec(_) => PutWord(W32, |v.bytes|) + PutOpaque(v.bytes)
    case Array(e, _) => PutAll(env, e, v.elems)
    case Vector(e, _) => PutWord(W32, |v.elems|) + PutAll(env, e, v.elems)
    case Pointer(e) => PutWord(W32, |v.elems|) + PutAll(env, e, v.elems)
    case Struct(name) => PutFields(env, env(name), v.fields)
  }

  function PutAll(env: Env, t: Ty, vs: seq<XdrValue>): seq<Byte>
    requires AllHaveType(env, t, vs)
    decreases vs
  {
    if vs == [] then [] else Put(env, t, vs[0]) + PutAll(env, t, vs[1..])
  }

  function PutFields(env: Env, fs: Fields, vs: Values): seq<Byte>
    requires FieldsHaveType(env, fs, vs)
    decreases vs
  {
    match fs
    case NoField => []
    case Field(t, rest) => Put(env, t, vs.first) + PutFields(env, rest, vs.rest)
  }

  // ---- decoding ----

  datatype Error = Overflow | StackOverflow | ShouldBeZero | BadMessageSize

  /** A value and the bytes after it, or the exception thrown. */
  datatype Result<T> = Ok(value: T, rest: seq<Byte>) | Err(error: Error)

  function FromUint(w: Width, signed: bool, u: nat): int {
    if signed && u >= Half(w) then u - 2 * Half(w) else u
  }

  function GetWord(w: Width, buf: seq<Byte>): (r: Result<nat>)
    requires |buf| % 4 == 0
    ensures r.Ok? ==> |r.rest| % 4 == 0 && |r.rest| < |buf|
  {
    if |buf| < w.Len() then Err(Overflow) else Ok(Value(buf[..w.Len()]), buf[w.Len()..])
  }

  /** Only the unpadded length is compared with what is left of the buffer. */
  function GetOpaque(n: nat, buf: seq<Byte>): (r: Result<seq<Byte>>)
    requires |buf| % 4 == 0
    ensures r.Ok? ==> |r.rest| % 4 == 0 && |r.rest| <= |buf|
  {
    if |buf| < n then Err(Overflow) else
    PaddedFits(n, |buf|);
    if buf[n..Padded(n)] != Zeros(Padded(n) - n) then Err(ShouldBeZero)
    else Ok(buf[..n], buf[Padded(n)..])
  }

  /** `limit` is how many more structs and containers may be entered. */
  function Get(env: Env, t: Ty, buf: seq<Byte>, limit: nat): (r: Result<XdrValue>)
    requires |buf| % 4 == 0
    ensures r.Ok? ==> |r.rest| % 4 == 0 && |r.rest| <= |buf|
    decreases limit, t, 0, 0
  {
    match t
    case Num(w, signed) =>
      var r := GetWord(w, buf);
      if r.Err? then Err(r.error) else Ok(Int(FromUint(w, signed, r.value)), r.rest)
    case Bool =>
      var r := GetWord(W32, buf);
      if r.Err? then Err(r.error) else Ok(Flag(r.value != 0), r.rest)
    case Opaque(n) =>
      var r := GetOpaque(n, buf);
      if r.Err? then Err(r.error) else Ok(Raw(r.value), r.rest)
    case OpaqueVec(max) =>
      var n := GetWord(W32, buf);
      if n.Err? then Err(n.error)
      else if n.value > max then Err(Overflow)
      else
        var r := GetOpaque(n.value, n.rest);
        if r.Err? then Err(r.error) else Ok(Raw(r.value), r.rest)
    case Array(e, n) =>
      if limit == 0 then Err(StackOverflow) else ToMany(GetAll(env, e, n, buf, limit - 1))
    case Vector(e, max) =>
      if limit == 0 then Err(StackOverflow) else GetCounted(env, e, max, buf, limit - 1)
    case Pointer(e) =>
      if limit == 0 then Err(StackOverflow) else GetCounted(env, e, 1, buf, limit - 1)
    case Struct(name) =>
      if limit == 0 then Err(StackOverflow) else
        var r := GetFields(env, env(name), buf, limit - 1);
        if r.Err? then Err(r.error) else Ok(Record(r.value), r.rest)
  }

  function ToMany(r: Result<seq<XdrValue>>): Result<XdrValue> {
    if r.Err? then Err(r.error) else Ok(Many(r.value), r.rest)
  }

  function GetCounted(env: Env, t: Ty, max: nat, buf: seq<Byte>, limit: nat): (r: Result<XdrValue>)
    requires |buf| % 4 == 0
    ensures r.Ok? ==> |r.rest| % 4 == 0 && |r.rest| <= |buf|
    decreases limit, t, 2, 0
  {
    var n := GetWord(W32, buf);
    if n.Err? then Err(n.error)
    else if n.value > max then Err(Overflow)
    else ToMany(GetAll(env, t, n.value, n.rest, limit))
  }

  function GetAll(env: Env, t: Ty, n: nat, buf: seq<Byte>, limit: nat): (r: Result<seq<XdrValue>>)
    requires |buf| % 4 == 0
    ensures r.Ok? ==> |r.rest| % 4 == 0 && |r.rest| <= |buf| && |r.value| == n
    decreases limit, t, 1, n
  {
    if n == 0 then Ok([], buf) else
      var first := Get(env, t, buf, limit);
      if first.Err? then Err(first.error) else
        var rest := GetAll(env, t, n - 1, first.rest, limit);
        if rest.Err? then Err(rest.error) else Ok([first.value] + rest.value, rest.rest)
  }

  function GetFields(env: Env, fs: Fields, buf: seq<Byte>, limit: nat): (r: Result<Values>)
    requires |buf| % 4 == 0
    ensures r.Ok? ==> |r.rest| % 4 == 0 && |r.rest| <= |buf|
    decreases limit, fs, 0, 0
  {
    match fs
    case NoField => Ok(NoValue, buf)
    case Field(t, rest) =>
      var first := Get(env, t, buf, limit);
      if first.Err? then Err(first.error) else
        var others := GetFields(env, rest, first.rest, limit);
        if others.Err? then Err(others.error) else Ok(Cons(first.value, others.value), others.rest)
  }

  // ---- sizes ----

  predicate HasFixedSize(t: Ty) {
    t.Num? || t.Bool? || t.Opaque? || (t.Array? && HasFixedSize(t.elem))
  }

  function FixedSize(t: Ty): nat
    requires HasFixedSize(t)
  {
    match t
    case Num(w, _) => w.Len()
    case Bool => 4
    case Opaque(n) => Padded(n)
    case Array(e, n) => n * FixedSize(e)
  }

  /** `xdr_size`, with its shortcut for elements of a fixed size. */
  function SerialSize(env: Env, t: Ty, v: XdrValue): nat
    requires HasType(env, t, v)
    decreases v
  {
    match t
    case Num(w, _) => w.Len()
    case Bool => 4
    case Opaque(n) => Padded(n)
    case OpaqueVec(_) => (|v.bytes| + 7) / 4 * 4
    case Array(e, n) => if HasFixedSize(e) then n * FixedSize(e) else SizeAll(env, e, v.elems)
    case Vector(e, _) => 4 + if HasFixedSize(e) then |v.elems| * FixedSize(e) else SizeAll(env, e, v.elems)
    case Pointer(e) => 4 + SizeAll(env, e, v.elems)
    case Struct(name) => SizeFields(env, env(name), v.fields)
  }

  function SizeAll(env: Env, t: Ty, vs: seq<XdrValue>): nat
    requires AllHaveType(env, t, vs)
    decreases vs
  {
    if vs == [] then 0 else SerialSize(env, t, vs[0]) + SizeAll(env, t, vs[1..])
  }

  function SizeFields(env: Env, fs: Fields, vs: Values): nat
    requires FieldsHaveType(env, fs, vs)
    decreases vs
  {
    match fs
    case NoField => 0
    case Field(t, rest) => SerialSize(env, t, vs.first) + SizeFields(env, rest, vs.rest)
  }

  lemma {:induction false} FixedSizeIsSize(env: Env, t: Ty, v: XdrValue)
    requires HasType(env, t, v) && HasFixedSize(t)
    ensures SerialSize(env, t, v) == FixedSize(t)
  {
  }

  lemma {:induction false} FixedSizeAll(env: Env, t: Ty, vs: seq<XdrValue>)
    requires AllHaveType(env, t, vs) && HasFixedSize(t)
    ensures SizeAll(env, t, vs) == |vs| * FixedSize(t)
  {
    if vs != [] {
      FixedSizeIsSize(env, t, vs[0]);
      FixedSizeAll(env, t, vs[1..]);
      Distribute(|vs|, FixedSize(t));
    }
  }

  lemma Distribute(n: nat, k: nat)
    requires n > 0
    ensures n * k == k + (n - 1) * k
  {
  }

  /** The encoder writes exactly `xdr_size` bytes, a multiple of four. */
  lemma {:induction false} PutSize(env: Env, t: Ty, v: XdrValue)
    requires HasType(env, t, v)
    ensures |Put(env, t, v)| == SerialSize(env, t, v)
    ensures |Put(env, t, v)| % 4 == 0
    decreases v
  {
    match t
    case Array(e, _) =>
      PutSizeAll(env, e, v.elems);
      SizeByElement(env, e, v.elems);
    case Vector(e, _) =>
      PutSizeAll(env, e, v.elems);
      SizeByElement(env, e, v.elems);
      CountedSize(|v.elems|, PutAll(env, e, v.elems));
    case Pointer(e) =>
      PutSizeAll(env, e, v.elems);
      CountedSize(|v.elems|, PutAll(env, e, v.elems));
    case Struct(name) =>
      PutSizeFields(env, env(name), v.fields);
    case _ =>
      PutSizeFlat(env, t, v);
  }

  lemma PutSizeFlat(env: Env, t: Ty, v: XdrValue)
    requires HasType(env, t, v) && (t.Num? || t.Bool? || t.Opaque? || t.OpaqueVec?)
    ensures |Put(env, t, v)| == SerialSize(env, t, v)
    ensures |Put(env, t, v)| % 4 == 0
  {
    if t.OpaqueVec? {
      CountedSize(|v.bytes|, PutOpaque(v.bytes));
    }
  }

  lemma CountedSize(n: nat, bytes: seq<Byte>)
    requires |bytes| % 4 == 0
    ensures |PutWord(W32, n) + bytes| == 4 + |bytes| && |PutWord(W32, n) + bytes| % 4 == 0
  {
  }

  lemma JoinedSize(a: seq<Byte>, b: seq<Byte>, c: seq<Byte>)
    requires |a| % 4 == 0 && |b| % 4 == 0 && c == a + b
    ensures |c| == |a| + |b| && |c| % 4 == 0
  {
  }

  lemma SizeByElement(env: Env, t: Ty, vs: seq<XdrValue>)
    requires AllHaveType(env, t, vs)
    ensures HasFixedSize(t) ==> SizeAll(env, t, vs) == |vs| * FixedSize(t)
  {
    if HasFixedSize(t) {
      FixedSizeAll(env, t, vs);
    }
  }

  lemma {:induction false} PutSizeAll(env: Env, t: Ty, vs: seq<XdrValue>)
    requires AllHaveType(env, t, vs)
    ensures |PutAll(env, t, vs)| == SizeAll(env, t, vs)
    ensures |PutAll(env, t, vs)| % 4 == 0
    decreases vs
  {
    if vs != [] {
      PutSize(env, t, vs[0]);
      PutSizeAll(env, t, vs[1..]);
      JoinedSize(Put(env, t, vs[0]), PutAll(env, t, vs[1..]), PutAll(env, t, vs));
    }
  }

  lemma {:induction false} PutSizeFields(env: Env, fs: Fields, vs: Values)
    requires FieldsHaveType(env, fs, vs)
    ensures |PutFields(env, fs, vs)| == SizeFields(env, fs, vs)
    ensures |PutFields(env, fs, vs)| % 4 == 0
    decreases vs
  {
    if fs.Field? {
      PutSize(env, fs.first, vs.first);
      PutSizeFields(env, fs.rest, vs.rest);
      JoinedSize(Put(env, fs.first, vs.first), PutFields(env, fs.rest, vs.rest), PutFields(env, fs, vs));
    }
  }

  // ---- decoding what was encoded ----

  /** No vector or opaque exceeds its declared maximum. */
  predicate Bounded(env: Env, t: Ty, v: XdrValue)
    requires HasType(env, t, v)
    decreases v
  {
    match t
    case OpaqueVec(max) => |v.bytes| <= max
    case Array(e, _) => AllBounded(env, e, v.elems)
    case Vector(e, max) => |v.elems| <= max && AllBounded(env, e, v.elems)
    case Pointer(e) => AllBounded(env, e, v.elems)
    case Struct(name) => FieldsBounded(env, env(name), v.fields)
    case _ => true
  }

  predicate AllBounded(env: Env, t: Ty, vs: seq<XdrValue>)
    requires AllHaveType(env, t, vs)
    decreases vs
  {
    vs == [] || (Bounded(env, t, vs[0]) && AllBounded(env, t, vs[1..]))
  }

  predicate FieldsBounded(env: Env, fs: Fields, vs: Values)
    requires FieldsHaveType(env, fs, vs)
    decreases vs
  {
    fs.NoField? || (Bounded(env, fs.first, vs.first) && FieldsBounded(env, fs.rest, vs.rest))
  }

  function Max(a: nat, b: nat): nat {
    if a < b then b else a
  }

  /** How deeply structs and containers are nested in a value. */
  function Depth(v: XdrValue): nat
    decreases v
  {
    match v
    case Many(vs) => 1 + DepthAll(vs)
    case Record(fs) => 1 + DepthFields(fs)
    case _ => 0
  }

  function DepthAll(vs: seq<XdrValue>): nat
    decreases vs
  {
    if vs == [] then 0 else Max(Depth(vs[0]), DepthAll(vs[1..]))
  }

  function DepthFields(vs: Values): nat
    decreases vs
  {
    if vs.NoValue? then 0 else Max(Depth(vs.first), DepthFields(vs.rest))
  }

  lemma WordRoundTrip(w: Width, u: nat, rest: seq<Byte>)
    requires u < Power256(w.Len()) && |rest| % 4 == 0
    ensures GetWord(w, PutWord(w, u) + rest) == Ok(u, rest)
  {
    ReadWrite(w.Len(), u);
    var b := PutWord(w, u) + rest;
    assert b[..w.Len()] == PutWord(w, u) && b[w.Len()..] == rest;
  }

  lemma OpaqueRoundTrip(s: seq<Byte>, rest: seq<Byte>)
    requires |rest| % 4 == 0
    ensures GetOpaque(|s|, PutOpaque(s) + rest) == Ok(s, rest)
  {
    var b, n := PutOpaque(s) + rest, |s|;
    assert b[..n] == s && b[n..Padded(n)] == Zeros(Padded(n) - n) && b[Padded(n)..] == rest;
  }

  lemma WordRange()
    ensures Power256(W32.Len()) == TWO32
    ensures Power256(W64.Len()) == TWO32 * TWO32
    ensures forall w: Width :: 2 * Half(w) == Power256(w.Len())
  {
    assert Power256(1) == 256;
    assert Power256(2) == 256 * Power256(1);
    assert Power256(3) == 256 * Power256(2);
    assert Power256(4) == 256 * Power256(3);
    assert Power256(5) == 256 * Power256(4);
    assert Power256(6) == 256 * Power256(5);
    assert Power256(7) == 256 * Power256(6);
    assert Power256(8) == 256 * Power256(7);
  }

  lemma NumRoundTrip(w: Width, signed: bool, n: int, rest: seq<Byte>)
    requires InRange(w, signed, n) && |rest| % 4 == 0
    ensures var r := GetWord(w, PutWord(w, ToUint(w, n)) + rest);
      r.Ok? && r.rest == rest && FromUint(w, signed, r.value) == n
  {
    WordRange();
    WordRoundTrip(w, ToUint(w, n), rest);
  }

  /** Decoding a value's encoding returns the value and leaves the rest if no maximum
      and no nesting limit is exceeded; otherwise decoding throws.  (The encoder checks
      the nesting limit only.) */
  lemma {:induction false} RoundTrip(env: Env, t: Ty, v: XdrValue, rest: seq<Byte>, buf: seq<Byte>, limit: nat)
    requires HasType(env, t, v) && buf == Put(env, t, v) + rest && |buf| % 4 == 0 && |rest| % 4 == 0
    ensures var r := Get(env, t, buf, limit);
      if Bounded(env, t, v) && Depth(v) <= limit then r == Ok(v, rest) else r.Err?
    decreases v
  {
    match t
    case Array(e, n) =>
      if limit > 0 {
        RoundTripAll(env, e, v.elems, rest, buf, limit - 1);
      }
    case Vector(e, max) =>
      if limit > 0 {
        RoundTripCounted(env, e, max, v.elems, rest, buf, limit - 1);
      }
    case Pointer(e) =>
      if limit > 0 {
        RoundTripCounted(env, e, 1, v.elems, rest, buf, limit - 1);
      }
    case Struct(name) =>
      if limit > 0 {
        RoundTripFields(env, env(name), v.fields, rest, buf, limit - 1);
      }
    case _ =>
      RoundTripFlat(env, t, v, rest, buf, limit);
  }

  lemma {:induction false} RoundTripCounted(env: Env, t: Ty, max: nat, vs: seq<XdrValue>, rest: seq<Byte>,
                                            buf: seq<Byte>, limit: nat)
    requires AllHaveType(env, t, vs) && |vs| < TWO32 && |buf| % 4 == 0 && |rest| % 4 == 0
    requires buf == PutWord(W32, |vs|) + PutAll(env, t, vs) + rest
    ensures var r := GetCounted(env, t, max, buf, limit);
      if |vs| <= max && AllBounded(env, t, vs) && DepthAll(vs) <= limit then r == Ok(Many(vs), rest) else r.Err?
    decreases vs, 1
  {
    PutSizeAll(env, t, vs);
    CountRoundTrip(|vs|, PutAll(env, t, vs), rest, buf);
    RoundTripAll(env, t, vs, rest, PutAll(env, t, vs) + rest, limit);
  }

  lemma RoundTripFlat(env: Env, t: Ty, v: XdrValue, rest: seq<Byte>, buf: seq<Byte>, limit: nat)
    requires HasType(env, t, v) && buf == Put(env, t, v) + rest && |buf| % 4 == 0 && |rest| % 4 == 0
    requires t.Num? || t.Bool? || t.Opaque? || t.OpaqueVec?
    ensures var r := Get(env, t, buf, limit);
      if Bounded(env, t, v) && Depth(v) <= limit then r == Ok(v, rest) else r.Err?
  {
    match t
    case Num(w, s) =>
      NumRoundTrip(w, s, v.n, rest);
    case Bool =>
      WordRange();
      WordRoundTrip(W32, if v.b then 1 else 0, rest);
    case Opaque(n) =>
      OpaqueRoundTrip(v.bytes, rest);
    case OpaqueVec(_) =>
      CountRoundTrip(|v.bytes|, PutOpaque(v.bytes), rest, buf);
      OpaqueRoundTrip(v.bytes, rest);
  }

  lemma CountRoundTrip(n: nat, bytes: seq<Byte>, rest: seq<Byte>, buf: seq<Byte>)
    requires n < TWO32 && |bytes| % 4 == 0 && |rest| % 4 == 0 && buf == PutWord(W32, n) + bytes + rest
    ensures |buf| % 4 == 0 && GetWord(W32, buf) == Ok(n, bytes + rest)
  {
    WordRange();
    WordRoundTrip(W32, n, bytes + rest);
    assert buf == PutWord(W32, n) + (bytes + rest);
  }

  lemma {:induction false} RoundTripAll(env: Env, t: Ty, vs: seq<XdrValue>, rest: seq<Byte>, buf: seq<Byte>, limit: nat)
    requires AllHaveType(env, t, vs) && buf == PutAll(env, t, vs) + rest && |buf| % 4 == 0 && |rest| % 4 == 0
    ensures var r := GetAll(env, t, |vs|, buf, limit);
      if AllBounded(env, t, vs) && DepthAll(vs) <= limit then r == Ok(vs, rest) else r.Err?
    decreases vs, 0
  {
    if vs != [] {
      var a, b := Put(env, t, vs[0]), PutAll(env, t, vs[1..]);
      PutSizeAll(env, t, vs[1..]);
      Associate(a, b, rest, buf);
      RoundTrip(env, t, vs[0], b + rest, buf, limit);
      RoundTripAll(env, t, vs[1..], rest, b + rest, limit);
      assert vs == [vs[0]] + vs[1..];
    }
  }

  lemma {:induction false} RoundTripFields(env: Env, fs: Fields, vs: Values, rest: seq<Byte>, buf: seq<Byte>,
                                           limit: nat)
    requires FieldsHaveType(env, fs, vs) && buf == PutFields(env, fs, vs) + rest && |buf| % 4 == 0 && |rest| % 4 == 0
    ensures var r := GetFields(env, fs, buf, limit);
      if FieldsBounded(env, fs, vs) && DepthFields(vs) <= limit then r == Ok(vs, rest) else r.Err?
    decreases vs
  {
    if fs.Field? {
      var a, b := Put(env, fs.first, vs.first), PutFields(env, fs.rest, vs.rest);
      PutSizeFields(env, fs.rest, vs.rest);
      Associate(a, b, rest, buf);
      RoundTrip(env, fs.first, vs.first, b + rest, buf, limit);
      RoundTripFields(env, fs.rest, vs.rest, rest, b + rest, limit);
    }
  }

  lemma Associate(a: seq<Byte>, b: seq<Byte>, c: seq<Byte>, buf: seq<Byte>)
    requires buf == a + b + c
    ensures buf == a + (b + c)
  {
  }

  // ---- what is accepted ----

  lemma NumInRange(w: Width, signed: bool, buf: seq<Byte>)
    requires |buf| % 4 == 0 && GetWord(w, buf).Ok?
    ensures var u := GetWord(w, buf).value;
      && u < Power256(w.Len())
      && InRange(w, signed, FromUint(w, signed, u))
      && ToUint(w, FromUint(w, signed, u)) == u
      && buf == PutWord(w, u) + GetWord(w, buf).rest
  {
    WordRange();
    var word := buf[..w.Len()];
    ValueBound(word);
    WriteRead(word);
    assert buf == word + buf[w.Len()..];
  }

  lemma CountInRange(buf: seq<Byte>)
    requires |buf| % 4 == 0 && GetWord(W32, buf).Ok?
    ensures GetWord(W32, buf).value < TWO32
    ensures buf == PutWord(W32, GetWord(W32, buf).value) + GetWord(W32, buf).rest
  {
    NumInRange(W32, false, buf);
    WordRange();
  }

  lemma OpaqueExact(n: nat, buf: seq<Byte>)
    requires |buf| % 4 == 0 && GetOpaque(n, buf).Ok?
    ensures var r := GetOpaque(n, buf); |r.value| == n && buf == PutOpaque(r.value) + r.rest
  {
    assert buf == buf[..n] + buf[n..Padded(n)] + buf[Padded(n)..];
  }

  /** Whatever is accepted is a value of the type within all its limits. */
  lemma {:induction false} DecodedFits(env: Env, t: Ty, buf: seq<Byte>, limit: nat)
    requires |buf| % 4 == 0 && Get(env, t, buf, limit).Ok?
    ensures var v := Get(env, t, buf, limit).value;
      HasType(env, t, v) && Bounded(env, t, v) && Depth(v) <= limit
    decreases limit, t, 0, 0
  {
    match t
    case Array(e, n) =>
      DecodedFitsAll(env, e, n, buf, limit - 1);
    case Vector(e, max) =>
      DecodedFitsCounted(env, e, max, buf, limit - 1);
    case Pointer(e) =>
      DecodedFitsCounted(env, e, 1, buf, limit - 1);
    case Struct(name) =>
      DecodedFitsFields(env, env(name), buf, limit - 1);
    case _ =>
      DecodedFitsFlat(env, t, buf, limit);
  }

  lemma DecodedFitsFlat(env: Env, t: Ty, buf: seq<Byte>, limit: nat)
    requires (t.Num? || t.Bool? || t.Opaque? || t.OpaqueVec?) && |buf| % 4 == 0 && Get(env, t, buf, limit).Ok?
    ensures var v := Get(env, t, buf, limit).value;
      HasType(env, t, v) && Bounded(env, t, v) && Depth(v) <= limit
  {
    match t
    case Num(w, s) =>
      NumInRange(w, s, buf);
    case Bool =>
    case Opaque(n) =>
      OpaqueLength(n, buf);
    case OpaqueVec(_) =>
      CountInRange(buf);
      OpaqueLength(GetWord(W32, buf).value, GetWord(W32, buf).rest);
  }

  lemma OpaqueLength(n: nat, buf: seq<Byte>)
    requires |buf| % 4 == 0 && GetOpaque(n, buf).Ok?
    ensures |GetOpaque(n, buf).value| == n
  {
  }

  lemma {:induction false} DecodedFitsCounted(env: Env, t: Ty, max: nat, buf: seq<Byte>, limit: nat)
    requires |buf| % 4 == 0 && GetCounted(env, t, max, buf, limit).Ok?
    ensures var v := GetCounted(env, t, max, buf, limit).value;
      && v.Many? && |v.elems| <= max && |v.elems| < TWO32
      && AllHaveType(env, t, v.elems) && AllBounded(env, t, v.elems) && DepthAll(v.elems) <= limit
    decreases limit, t, 2, 0
  {
    CountInRange(buf);
    DecodedFitsAll(env, t, GetWord(W32, buf).value, GetWord(W32, buf).rest, limit);
  }

  lemma {:induction false} DecodedFitsAll(env: Env, t: Ty, n: nat, buf: seq<Byte>, limit: nat)
    requires |buf| % 4 == 0 && GetAll(env, t, n, buf, limit).Ok?
    ensures var vs := GetAll(env, t, n, buf, limit).value;
      AllHaveType(env, t, vs) && AllBounded(env, t, vs) && DepthAll(vs) <= limit
    decreases limit, t, 1, n
  {
    if n > 0 {
      var first := Get(env, t, buf, limit);
      DecodedFits(env, t, buf, limit);
      DecodedFitsAll(env, t, n - 1, first.rest, limit);
      FitsCons(env, t, first.value, GetAll(env, t, n - 1, first.rest, limit).value, limit);
    }
  }

  lemma FitsCons(env: Env, t: Ty, v: XdrValue, vs: seq<XdrValue>, limit: nat)
    requires HasType(env, t, v) && Bounded(env, t, v) && Depth(v) <= limit
    requires AllHaveType(env, t, vs) && AllBounded(env, t, vs) && DepthAll(vs) <= limit
    ensures var all := [v] + vs; AllHaveType(env, t, all) && AllBounded(env, t, all) && DepthAll(all) <= limit
  {
    var all := [v] + vs;
    assert all[0] == v && all[1..] == vs;
  }

  lemma {:induction false} DecodedFitsFields(env: Env, fs: Fields, buf: seq<Byte>, limit: nat)
    requires |buf| % 4 == 0 && GetFields(env, fs, buf, limit).Ok?
    ensures var vs := GetFields(env, fs, buf, limit).value;
      FieldsHaveType(env, fs, vs) && FieldsBounded(env, fs, vs) && DepthFields(vs) <= limit
    decreases limit, fs, 0, 0
  {
    if fs.Field? {
      DecodedFits(env, fs.first, buf, limit);
      DecodedFitsFields(env, fs.rest, Get(env, fs.first, buf, limit).rest, limit);
    }
  }

  // ---- whole messages ----

  /** `xdr_from_opaque`: the size must be a multiple of four and nothing may be left. */
  function FromOpaque(env: Env, t: Ty, buf: seq<Byte>, limit: nat): Result<XdrValue> {
    if |buf| % 4 != 0 then Err(BadMessageSize) else
      var r := Get(env, t, buf, limit);
      if r.Ok? && r.rest != [] then Err(BadMessageSize) else r
  }

  /** A message decodes to the value encoded in it exactly when that is within its
      limits. */
  lemma MessageRoundTrip(env: Env, t: Ty, v: XdrValue, limit: nat)
    requires HasType(env, t, v)
    ensures FromOpaque(env, t, Put(env, t, v), limit) == Ok(v, []) <==> Bounded(env, t, v) && Depth(v) <= limit
  {
    PutSize(env, t, v);
    assert Put(env, t, v) + [] == Put(env, t, v);
    RoundTrip(env, t, v, [], Put(env, t, v), limit);
  }
}
