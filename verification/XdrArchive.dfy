/** The two archives: a cursor that moves over a buffer as values are written or read. */
module XdrArchive {
  import opened BigEndian
  import opened Xdr

  /** What a call returns, or the exception it throws. */
  datatype Outcome<T> = Done(value: T) | Threw(error: Error)

  /** A call that behaves as its specification says. */
  ghost predicate Agrees<T>(spec: Result<T>, out: Outcome<T>, rest: seq<Byte>) {
    if spec.Ok? then out == Done(spec.value) && rest == spec.rest else out == Threw(spec.error)
  }

  lemma PaddingDone(n: nat, l: nat)
    requires n <= l <= Padded(n)
    ensures l == Padded(n) <==> l % 4 == 0
  {
  }

  lemma OpaqueCases(n: nat, rest: seq<Byte>, data: seq<Byte>, zero: bool)
    requires |rest| % 4 == 0 && n <= |rest| && Padded(n) <= |rest| && data == rest[..n]
    requires zero <==> forall k | n <= k < Padded(n) :: rest[k] == 0
    ensures GetOpaque(n, rest) == if zero then Ok(data, rest[Padded(n)..]) else Err(ShouldBeZero)
  {
    var pad := rest[n..Padded(n)];
    if zero {
      assert pad == Zeros(Padded(n) - n);
    } else {
      var k :| n <= k < Padded(n) && rest[k] != 0;
      assert pad[k - n] != Zeros(Padded(n) - n)[k - n];
    }
  }

  /** The first `i` elements read, then whatever the rest of the list yields. */
  function Prepend(done: seq<XdrValue>, r: Result<seq<XdrValue>>): Result<seq<XdrValue>> {
    if r.Err? then r else Ok(done + r.value, r.rest)
  }

  lemma PrependNone(r: Result<seq<XdrValue>>)
    ensures Prepend([], r) == r
  {
    if r.Ok? {
      assert [] + r.value == r.value;
    }
  }

  lemma PrependNext(env: Env, t: Ty, n: nat, buf: seq<Byte>, limit: nat, done: seq<XdrValue>,
                    whole: Result<seq<XdrValue>>)
    requires |buf| % 4 == 0 && n > 0 && whole == Prepend(done, GetAll(env, t, n, buf, limit))
    ensures var first := Get(env, t, buf, limit);
      whole == if first.Err? then Err(first.error)
               else Prepend(done + [first.value], GetAll(env, t, n - 1, first.rest, limit))
  {
    var first := Get(env, t, buf, limit);
    if first.Ok? {
      var others := GetAll(env, t, n - 1, first.rest, limit);
      if others.Ok? {
        assert done + ([first.value] + others.value) == (done + [first.value]) + others.value;
      }
    }
  }

  /** The first `i` elements have been read and the rest of `whole` is still to come. */
  ghost predicate Progress(env: Env, t: Ty, n: nat, i: nat, vs: seq<XdrValue>, whole: Result<seq<XdrValue>>,
                           rest: seq<Byte>, limit: nat) {
    && i <= |vs| <= n && |rest| % 4 == 0
    && whole == Prepend(vs[..i], GetAll(env, t, n - i, rest, limit))
  }

  /** `extend_at`. */
  function ExtendAt(vs: seq<XdrValue>, i: nat): (r: seq<XdrValue>)
    requires i <= |vs|
    ensures i < |r| && r[..i] == vs[..i] && |r| == if i == |vs| then i + 1 else |vs|
  {
    if i == |vs| then vs + [Fresh] else vs
  }

  lemma NoneRead(env: Env, t: Ty, n: nat, vs: seq<XdrValue>, buf: seq<Byte>, limit: nat)
    requires |vs| <= n && |buf| % 4 == 0
    ensures Progress(env, t, n, 0, vs, GetAll(env, t, n, buf, limit), buf, limit)
  {
    PrependNone(GetAll(env, t, n, buf, limit));
    assert vs[..0] == [];
  }

  lemma AllRead(env: Env, t: Ty, n: nat, vs: seq<XdrValue>, whole: Result<seq<XdrValue>>, rest: seq<Byte>, limit: nat)
    requires Progress(env, t, n, n, vs, whole, rest, limit)
    ensures whole == Ok(vs, rest)
  {
    assert vs[..n] == vs && vs + [] == vs;
  }

  lemma NextElement(env: Env, t: Ty, n: nat, i: nat, vs: seq<XdrValue>, v: XdrValue, whole: Result<seq<XdrValue>>,
                    buf: seq<Byte>, rest: seq<Byte>, limit: nat)
    requires i < n && Progress(env, t, n, i, vs, whole, buf, limit) && Get(env, t, buf, limit) == Ok(v, rest)
    ensures Progress(env, t, n, i + 1, ExtendAt(vs, i)[i := v], whole, rest, limit)
  {
    PrependNext(env, t, n - i, buf, limit, vs[..i], whole);
    assert ExtendAt(vs, i)[i := v][..i + 1] == vs[..i] + [v];
  }

  /** `xdr_generic_get`. */
  class XdrGet {
    const buf: array<Byte>
    var p: nat
    var stackLimit: nat

    ghost predicate Valid()
      reads this
    {
      p <= buf.Length && p % 4 == 0 && buf.Length % 4 == 0
    }

    ghost function Rest(): (r: seq<Byte>)
      requires Valid()
      reads this, buf
      ensures |r| % 4 == 0
    {
      buf[p..]
    }

    constructor (buf: array<Byte>, stackLimit: nat)
      requires buf.Length % 4 == 0
      ensures Valid() && this.buf == buf && this.stackLimit == stackLimit && Rest() == buf[..]
    {
      this.buf, p, this.stackLimit := buf, 0, stackLimit;
    }

    method GetNumber(w: Width) returns (r: Outcome<nat>)
      requires Valid()
      modifies this`p
      ensures Valid() && Agrees(GetWord(w, old(Rest())), r, Rest())
    {
      var n := w.Len();
      if n > buf.Length - p {
        return Threw(Overflow);
      }
      assert Rest()[..n] == buf[p..p + n];
      var u := ReadUnsigned(buf[p..p + n]);
      p := p + n;
      return Done(u);
    }

    /** `get_bytes` after `check`: the padding read in the loop stays inside the buffer
        although only the unpadded length was checked. */
    method GetBytes(len: nat) returns (r: Outcome<seq<Byte>>)
      requires Valid()
      modifies this`p
      ensures Valid() && Agrees(GetOpaque(len, old(Rest())), r, Rest())
    {
      if len > buf.Length - p {
        return Threw(Overflow);
      }
      PaddedFits(len, buf.Length - p);
      ghost var rest := Rest();
      var data := buf[p..p + len];
      var zero, l := CheckPadding(p + len, len, Padded(len) - len);
      assert forall k | len <= k < Padded(len) :: rest[k] == buf[p + k];
      OpaqueCases(len, rest, data, zero);
      if !zero {
        return Threw(ShouldBeZero);
      }
      p := p + l;
      return Done(data);
    }

    /** The padding loop. */
    method CheckPadding(q: nat, len: nat, ghost pad: nat) returns (zero: bool, l: nat)
      requires pad == Padded(len) - len && q + pad <= buf.Length
      ensures zero <==> forall k | q <= k < q + pad :: buf[k] == 0
      ensures zero ==> l == Padded(len)
    {
      l := len;
      var c := q;
      PaddingDone(len, l);
      while l % 4 != 0
        invariant q <= c <= q + pad && c - q == l - len
        invariant c == q + pad <==> l % 4 == 0
        invariant forall k | q <= k < c :: buf[k] == 0
        decreases q + pad - c
      {
        if buf[c] != 0 {
          return false, l;
        }
        l, c := l + 1, c + 1;
        PaddingDone(len, l);
      }
      return true, l;
    }

    /** Decodes into an object of the type.  The result does not depend on what the
        object held. */
    method Load(env: Env, t: Ty, target: XdrValue) returns (r: Outcome<XdrValue>)
      requires Valid()
      modifies this
      ensures Valid() && Agrees(Get(env, t, old(Rest()), old(stackLimit)), r, Rest())
      ensures r.Done? ==> stackLimit == old(stackLimit)
      decreases stackLimit, t, 1
    {
      match t
      case Num(w, signed) =>
        var u := GetNumber(w);
        return if u.Threw? then Threw(u.error) else Done(Int(FromUint(w, signed, u.value)));
      case Bool =>
        var u := GetNumber(W32);
        return if u.Threw? then Threw(u.error) else Done(Flag(u.value != 0));
      case Opaque(n) =>
        var s := GetBytes(n);
        return if s.Threw? then Threw(s.error) else Done(Raw(s.value));
      case OpaqueVec(max) =>
        r := LoadOpaqueVec(max);
      case _ =>
        if stackLimit == 0 {
          return Threw(StackOverflow);
        }
        stackLimit := stackLimit - 1;
        r := LoadInner(env, t, target);
        if r.Done? {
          stackLimit := stackLimit + 1;
        }
    }

    method LoadOpaqueVec(max: nat) returns (r: Outcome<XdrValue>)
      requires Valid()
      modifies this`p
      ensures Valid()
      ensures forall env: Env, limit: nat :: Agrees(Get(env, OpaqueVec(max), old(Rest()), limit), r, Rest())
    {
      var size := GetNumber(W32);
      if size.Threw? {
        return Threw(size.error);
      }
      if size.value > max {
        return Threw(Overflow);
      }
      var s := GetBytes(size.value);
      return if s.Threw? then Threw(s.error) else Done(Raw(s.value));
    }

    /** The `load` of a struct or container. */
    method LoadInner(env: Env, t: Ty, target: XdrValue) returns (r: Outcome<XdrValue>)
      requires Valid() && (t.Array? || t.Vector? || t.Pointer? || t.Struct?)
      modifies this
      ensures Valid() && Agrees(Get(env, t, old(Rest()), old(stackLimit) + 1), r, Rest())
      ensures r.Done? ==> stackLimit == old(stackLimit)
      decreases stackLimit + 1, t, 0
    {
      match t
      case Array(e, n) =>
        var vs := LoadElements(env, e, n, if target.Many? then target.elems else []);
        return if vs.Threw? then Threw(vs.error) else Done(Many(vs.value));
      case Vector(e, max) =>
        r := LoadCounted(env, e, max, target);
      case Pointer(e) =>
        r := LoadCounted(env, e, 1, target);
      case Struct(name) =>
        var fs := LoadFields(env, env(name), if target.Record? then target.fields else NoValue);
        return if fs.Threw? then Threw(fs.error) else Done(Record(fs.value));
    }

    method LoadCounted(env: Env, t: Ty, max: nat, target: XdrValue) returns (r: Outcome<XdrValue>)
      requires Valid()
      modifies this
      ensures Valid() && Agrees(GetCounted(env, t, max, old(Rest()), old(stackLimit)), r, Rest())
      ensures r.Done? ==> stackLimit == old(stackLimit)
      decreases stackLimit, t, 3
    {
      var n := GetNumber(W32);
      if n.Threw? {
        return Threw(n.error);
      }
      if n.value > max {
        return Threw(Overflow);
      }
      var vs := LoadElements(env, t, n.value, if target.Many? then target.elems else []);
      return if vs.Threw? then Threw(vs.error) else Done(Many(vs.value));
    }

    /** The loop of `load`: the container is cut if too long, elements already there are
        decoded into, and missing ones are added. */
    method LoadElements(env: Env, t: Ty, n: nat, target: seq<XdrValue>) returns (r: Outcome<seq<XdrValue>>)
      requires Valid()
      modifies this
      ensures Valid() && Agrees(GetAll(env, t, n, old(Rest()), old(stackLimit)), r, Rest())
      ensures r.Done? ==> stackLimit == old(stackLimit)
      decreases stackLimit, t, 2
    {
      var vs := if |target| > n then target[..n] else target;
      ghost var whole, limit := GetAll(env, t, n, Rest(), stackLimit), stackLimit;
      NoneRead(env, t, n, vs, Rest(), limit);
      for i := 0 to n
        invariant Valid() && stackLimit == limit
        invariant Progress(env, t, n, i, vs, whole, Rest(), limit)
      {
        ghost var before, had := Rest(), vs;
        PrependNext(env, t, n - i, before, limit, had[..i], whole);
        vs := ExtendAt(vs, i);
        var v := Load(env, t, vs[i]);
        if v.Threw? {
          return Threw(v.error);
        }
        vs := vs[i := v.value];
        NextElement(env, t, n, i, had, v.value, whole, before, Rest(), limit);
      }
      AllRead(env, t, n, vs, whole, Rest(), limit);
      return Done(vs);
    }

    method LoadFields(env: Env, fs: Fields, target: Values) returns (r: Outcome<Values>)
      requires Valid()
      modifies this
      ensures Valid() && Agrees(GetFields(env, fs, old(Rest()), old(stackLimit)), r, Rest())
      ensures r.Done? ==> stackLimit == old(stackLimit)
      decreases stackLimit, fs, 0
    {
      match fs
      case NoField =>
        return Done(NoValue);
      case Field(t, more) =>
        var first := Load(env, t, if target.Cons? then target.first else Fresh);
        if first.Threw? {
          return Threw(first.error);
        }
        var others := LoadFields(env, more, if target.Cons? then target.rest else NoValue);
        return if others.Threw? then Threw(others.error) else Done(Cons(first.value, others.value));
    }
  }

  // ---- writing ----

  datatype Saving = Saved | Failed(error: Error)

  /** The buffer `now` is `was` with `bytes` written at `p`, ending at `p'`. */
  ghost predicate Wrote(was: seq<Byte>, p: nat, now: seq<Byte>, p': nat, bytes: seq<Byte>) {
    p + |bytes| == p' <= |was| && now == was[..p] + bytes + was[p'..]
  }

  lemma WroteNothing(was: seq<Byte>, p: nat)
    requires p <= |was|
    ensures Wrote(was, p, was, p, [])
  {
    assert was == was[..p] + [] + was[p..];
  }

  lemma WroteBoth(was: seq<Byte>, p: nat, mid: seq<Byte>, p': nat, a: seq<Byte>, now: seq<Byte>, p'': nat, b: seq<Byte>)
    requires Wrote(was, p, mid, p', a) && Wrote(mid, p', now, p'', b)
    ensures Wrote(was, p, now, p'', a + b)
  {
    assert mid[..p'] == was[..p] + a;
    assert mid[p''..] == was[p''..];
    assert was[..p] + a + b == was[..p] + (a + b);
  }

  lemma WroteKeeps(was: seq<Byte>, p: nat, now: seq<Byte>, p': nat, bytes: seq<Byte>, k: nat)
    requires Wrote(was, p, now, p', bytes) && k <= p
    ensures |now| == |was| && now[..k] == was[..k]
  {
  }

  /** What is left to write when the first `i` elements are written. */
  ghost predicate Remaining(env: Env, t: Ty, vs: seq<XdrValue>, i: nat, written: seq<Byte>, limit: nat) {
    && i <= |vs| && AllHaveType(env, t, vs) && AllHaveType(env, t, vs[i..])
    && PutAll(env, t, vs) == written + PutAll(env, t, vs[i..])
    && (DepthAll(vs) <= limit <==> DepthAll(vs[i..]) <= limit)
  }

  lemma NoneWritten(env: Env, t: Ty, vs: seq<XdrValue>, limit: nat)
    requires AllHaveType(env, t, vs)
    ensures Remaining(env, t, vs, 0, [], limit)
  {
    assert vs[0..] == vs && [] + PutAll(env, t, vs) == PutAll(env, t, vs);
  }

  lemma AllWritten(env: Env, t: Ty, vs: seq<XdrValue>, written: seq<Byte>, limit: nat)
    requires Remaining(env, t, vs, |vs|, written, limit)
    ensures written == PutAll(env, t, vs) && DepthAll(vs) <= limit
  {
    assert vs[|vs|..] == [] && written + [] == written;
  }

  lemma RemainingNext(env: Env, t: Ty, vs: seq<XdrValue>, i: nat, written: seq<Byte>, limit: nat)
    requires i < |vs| && Remaining(env, t, vs, i, written, limit)
    ensures HasType(env, t, vs[i])
    ensures Depth(vs[i]) > limit ==> DepthAll(vs) > limit
    ensures |PutAll(env, t, vs)| >= |written| + |Put(env, t, vs[i])|
    ensures Depth(vs[i]) <= limit ==> Remaining(env, t, vs, i + 1, written + Put(env, t, vs[i]), limit)
  {
    var s := vs[i..];
    assert s[0] == vs[i] && s[1..] == vs[i + 1..];
    var a, b := Put(env, t, vs[i]), PutAll(env, t, vs[i + 1..]);
    assert PutAll(env, t, s) == a + b;
    assert written + (a + b) == (written + a) + b;
  }

  /** `xdr_generic_put`. */
  class XdrPut {
    const buf: array<Byte>
    const e: nat
    var p: nat
    var stackLimit: nat

    ghost predicate Valid()
      reads this
    {
      p <= e <= buf.Length && p % 4 == 0 && e % 4 == 0
    }

    /** Writes go to the first `e` bytes of the buffer. */
    constructor (buf: array<Byte>, e: nat, stackLimit: nat)
      requires e <= buf.Length && e % 4 == 0
      ensures Valid() && this.buf == buf && this.e == e && p == 0 && this.stackLimit == stackLimit
    {
      this.buf, this.e, p, this.stackLimit := buf, e, 0, stackLimit;
    }

    method PutNumber(w: Width, u: nat) returns (r: Saving)
      requires Valid()
      modifies this`p, buf
      ensures Valid() && (r.Saved? <==> w.Len() <= e - old(p))
      ensures if r.Saved? then Wrote(old(buf[..]), old(p), buf[..], p, PutWord(w, u)) else buf[..] == old(buf[..])
    {
      var n := w.Len();
      if n > e - p {
        return Failed(Overflow);
      }
      WriteUnsigned(buf, n, u, p);
      assert buf[..] == buf[..p] + buf[p..p + n] + buf[p + n..];
      p := p + n;
      return Saved;
    }

    /** `put_bytes` after `check`, with the padding loop. */
    method PutBytes(data: seq<Byte>) returns (r: Saving)
      requires Valid()
      modifies this`p, buf
      ensures Valid() && (r.Saved? <==> |PutOpaque(data)| <= e - old(p))
      ensures if r.Saved? then Wrote(old(buf[..]), old(p), buf[..], p, PutOpaque(data)) else buf[..] == old(buf[..])
    {
      if |data| > e - p {
        return Failed(Overflow);
      }
      PaddedFits(|data|, e - p);
      CopyPadded(data);
      p := p + Padded(|data|);
      return Saved;
    }

    method CopyPadded(data: seq<Byte>)
      requires Valid() && Padded(|data|) <= e - p
      modifies buf
      ensures Wrote(old(buf[..]), p, buf[..], p + Padded(|data|), PutOpaque(data))
    {
      ghost var was := buf[..];
      CopyBytes(data);
      ghost var mid, pad := buf[..], Padded(|data|) - |data|;
      PadZeros(p + |data|, |data|, pad);
      WroteBoth(was, p, mid, p + |data|, data, buf[..], p + |data| + pad, Zeros(pad));
    }

    method PadZeros(q: nat, len: nat, ghost pad: nat)
      requires pad == Padded(len) - len && q + pad <= buf.Length
      modifies buf
      ensures Wrote(old(buf[..]), q, buf[..], q + pad, Zeros(pad))
    {
      var l, c := len, q;
      PaddingDone(len, l);
      while l % 4 != 0
        invariant q <= c <= q + pad && c - q == l - len
        invariant c == q + pad <==> l % 4 == 0
        invariant forall k | 0 <= k < buf.Length :: buf[k] == if q <= k < c then 0 else old(buf[..])[k]
        decreases q + pad - c
      {
        l := l + 1;
        buf[c] := 0;
        c := c + 1;
        PaddingDone(len, l);
      }
    }

    method CopyBytes(data: seq<Byte>)
      requires Valid() && |data| <= e - p
      modifies buf
      ensures Wrote(old(buf[..]), p, buf[..], p + |data|, data)
    {
      forall k | 0 <= k < |data| {
        buf[p + k] := data[k];
      }
    }

    /** Writes a value: exactly its encoding and nothing else, and it succeeds if and only
        if the encoding fits and the nesting limit allows.  A declared maximum is not
        looked at. */
    method Save(env: Env, t: Ty, v: XdrValue) returns (r: Saving)
      requires Valid() && HasType(env, t, v)
      modifies this, buf
      ensures Valid() && buf[..old(p)] == old(buf[..p])
      ensures r.Saved? <==> Depth(v) <= old(stackLimit) && |Put(env, t, v)| <= e - old(p)
      ensures r.Saved? ==> stackLimit == old(stackLimit) && Wrote(old(buf[..]), old(p), buf[..], p, Put(env, t, v))
      ensures |Put(env, t, v)| <= e - old(p) ==> r.Saved? || r == Failed(StackOverflow)
      decreases v, 1
    {
      if t.Num? || t.Bool? || t.Opaque? || t.OpaqueVec? {
        r := SaveFlat(env, t, v);
      } else {
        if stackLimit == 0 {
          return Failed(StackOverflow);
        }
        stackLimit := stackLimit - 1;
        r := SaveInner(env, t, v);
        if r.Saved? {
          stackLimit := stackLimit + 1;
        }
      }
    }

    /** Numbers and byte strings do not count as nesting. */
    method SaveFlat(env: Env, t: Ty, v: XdrValue) returns (r: Saving)
      requires Valid() && HasType(env, t, v) && (t.Num? || t.Bool? || t.Opaque? || t.OpaqueVec?)
      modifies this`p, buf
      ensures Valid() && buf[..old(p)] == old(buf[..p])
      ensures r.Saved? <==> |Put(env, t, v)| <= e - old(p)
      ensures r.Saved? ==> Wrote(old(buf[..]), old(p), buf[..], p, Put(env, t, v))
    {
      match t
      case Num(w, _) =>
        r := PutNumber(w, ToUint(w, v.n));
      case Bool =>
        r := PutNumber(W32, if v.b then 1 else 0);
      case Opaque(_) =>
        r := PutBytes(v.bytes);
      case OpaqueVec(_) =>
        r := SaveOpaqueVec(v.bytes);
    }

    method SaveOpaqueVec(data: seq<Byte>) returns (r: Saving)
      requires Valid()
      modifies this`p, buf
      ensures Valid() && buf[..old(p)] == old(buf[..p])
      ensures r.Saved? <==> |PutWord(W32, |data|) + PutOpaque(data)| <= e - old(p)
      ensures r.Saved? ==> Wrote(old(buf[..]), old(p), buf[..], p, PutWord(W32, |data|) + PutOpaque(data))
    {
      CountedFits(|data|, e - p);
      ghost var word, bytes := PutWord(W32, |data|), PutOpaque(data);
      assert |word + bytes| == 4 + Padded(|data|);
      if 4 + |data| > e - p {
        return Failed(Overflow);
      }
      r := PutNumber(W32, |data|);
      ghost var mid, p' := buf[..], p;
      r := PutBytes(data);
      WroteBoth(old(buf[..]), old(p), mid, p', word, buf[..], p, bytes);
      WroteKeeps(old(buf[..]), old(p), buf[..], p, word + bytes, old(p));
    }

    /** The `save` of a struct or container. */
    method SaveInner(env: Env, t: Ty, v: XdrValue) returns (r: Saving)
      requires Valid() && HasType(env, t, v) && (t.Array? || t.Vector? || t.Pointer? || t.Struct?)
      modifies this, buf
      ensures Valid() && buf[..old(p)] == old(buf[..p])
      ensures r.Saved? <==> Depth(v) <= old(stackLimit) + 1 && |Put(env, t, v)| <= e - old(p)
      ensures r.Saved? ==> stackLimit == old(stackLimit) && Wrote(old(buf[..]), old(p), buf[..], p, Put(env, t, v))
      ensures |Put(env, t, v)| <= e - old(p) ==> r.Saved? || r == Failed(StackOverflow)
      decreases v, 0
    {
      match t
      case Array(e, _) =>
        r := SaveElements(env, e, v.elems);
      case Vector(e, _) =>
        r := SaveCounted(env, e, v.elems);
      case Pointer(e) =>
        r := SaveCounted(env, e, v.elems);
      case Struct(name) =>
        r := SaveFields(env, env(name), v.fields);
    }

    method SaveCounted(env: Env, t: Ty, vs: seq<XdrValue>) returns (r: Saving)
      requires Valid() && AllHaveType(env, t, vs)
      modifies this, buf
      ensures Valid() && buf[..old(p)] == old(buf[..p])
      ensures r.Saved? <==> DepthAll(vs) <= old(stackLimit) && |PutWord(W32, |vs|) + PutAll(env, t, vs)| <= e - old(p)
      ensures r.Saved? ==>
        && stackLimit == old(stackLimit)
        && Wrote(old(buf[..]), old(p), buf[..], p, PutWord(W32, |vs|) + PutAll(env, t, vs))
      ensures |PutWord(W32, |vs|) + PutAll(env, t, vs)| <= e - old(p) ==> r.Saved? || r == Failed(StackOverflow)
      decreases vs, 1
    {
      ghost var word, bytes := PutWord(W32, |vs|), PutAll(env, t, vs);
      r := PutNumber(W32, |vs|);
      if r.Failed? {
        return;
      }
      ghost var mid, p' := buf[..], p;
      WroteKeeps(old(buf[..]), old(p), mid, p', word, old(p));
      r := SaveElements(env, t, vs);
      assert buf[..old(p)] == mid[..p'][..old(p)];
      if r.Saved? {
        WroteBoth(old(buf[..]), old(p), mid, p', word, buf[..], p, bytes);
      }
    }

    /** The loop of `save`. */
    method SaveElements(env: Env, t: Ty, vs: seq<XdrValue>) returns (r: Saving)
      requires Valid() && AllHaveType(env, t, vs)
      modifies this, buf
      ensures Valid() && buf[..old(p)] == old(buf[..p])
      ensures r.Saved? <==> DepthAll(vs) <= old(stackLimit) && |PutAll(env, t, vs)| <= e - old(p)
      ensures r.Saved? ==> stackLimit == old(stackLimit) && Wrote(old(buf[..]), old(p), buf[..], p, PutAll(env, t, vs))
      ensures |PutAll(env, t, vs)| <= e - old(p) ==> r.Saved? || r == Failed(StackOverflow)
      decreases vs, 0
    {
      ghost var was, start, limit, written := buf[..], p, stackLimit, [];
      WroteNothing(was, p);
      NoneWritten(env, t, vs, limit);
      for i := 0 to |vs|
        invariant Valid() && stackLimit == limit
        invariant Wrote(was, start, buf[..], p, written)
        invariant Remaining(env, t, vs, i, written, limit)
      {
        RemainingNext(env, t, vs, i, written, limit);
        ghost var mid, p', bytes := buf[..], p, Put(env, t, vs[i]);
        WroteKeeps(was, start, mid, p', written, start);
        r := Save(env, t, vs[i]);
        assert buf[..start] == mid[..p'][..start];
        if r.Failed? {
          return;
        }
        WroteBoth(was, start, mid, p', written, buf[..], p, bytes);
        written := written + bytes;
      }
      AllWritten(env, t, vs, written, limit);
      WroteKeeps(was, start, buf[..], p, written, start);
      return Saved;
    }

    method SaveFields(env: Env, fs: Fields, vs: Values) returns (r: Saving)
      requires Valid() && FieldsHaveType(env, fs, vs)
      modifies this, buf
      ensures Valid() && buf[..old(p)] == old(buf[..p])
      ensures r.Saved? <==> DepthFields(vs) <= old(stackLimit) && |PutFields(env, fs, vs)| <= e - old(p)
      ensures r.Saved? ==>
        stackLimit == old(stackLimit) && Wrote(old(buf[..]), old(p), buf[..], p, PutFields(env, fs, vs))
      ensures |PutFields(env, fs, vs)| <= e - old(p) ==> r.Saved? || r == Failed(StackOverflow)
      decreases vs
    {
      if fs.NoField? {
        WroteNothing(buf[..], p);
        return Saved;
      }
      ghost var a, b := Put(env, fs.first, vs.first), PutFields(env, fs.rest, vs.rest);
      r := Save(env, fs.first, vs.first);
      if r.Failed? {
        return;
      }
      ghost var mid, p' := buf[..], p;
      WroteKeeps(old(buf[..]), old(p), mid, p', a, old(p));
      r := SaveFields(env, fs.rest, vs.rest);
      assert buf[..old(p)] == mid[..p'][..old(p)];
      if r.Saved? {
        WroteBoth(old(buf[..]), old(p), mid, p', a, buf[..], p, b);
      }
    }
  }

  /** `xdr_to_opaque`: a buffer of the computed size is filled to its end. */
  method ToOpaque(env: Env, t: Ty, v: XdrValue, limit: nat) returns (r: Outcome<seq<Byte>>)
    requires HasType(env, t, v)
    ensures r == if Depth(v) <= limit then Done(Put(env, t, v)) else Threw(StackOverflow)
  {
    PutSize(env, t, v);
    var size := SerialSize(env, t, v);
    var m := new Byte[size];
    var put := new XdrPut(m, size, limit);
    var s := put.Save(env, t, v);
    if s.Failed? {
      return Threw(s.error);
    }
    assert m[..] == Put(env, t, v);
    return Done(m[..]);
  }

  /** `xdr_from_opaque`. */
  method ReadOpaque(env: Env, t: Ty, m: array<Byte>, target: XdrValue, limit: nat) returns (r: Outcome<XdrValue>)
    ensures Agrees(FromOpaque(env, t, m[..], limit), r, [])
  {
    if m.Length % 4 != 0 {
      return Threw(BadMessageSize);
    }
    ghost var g := Get(env, t, m[..], limit);
    var get := new XdrGet(m, limit);
    r := get.Load(env, t, target);
    assert Agrees(g, r, get.Rest());
    Finish(env, t, m[..], limit, g, r, get.Rest());
    if r.Done? && get.p != m.Length {
      return Threw(BadMessageSize);
    }
  }

  lemma Finish(env: Env, t: Ty, buf: seq<Byte>, limit: nat, g: Result<XdrValue>, r: Outcome<XdrValue>, rest: seq<Byte>)
    requires |buf| % 4 == 0 && g == Get(env, t, buf, limit) && Agrees(g, r, rest)
    ensures Agrees(FromOpaque(env, t, buf, limit), if r.Done? && rest != [] then Threw(BadMessageSize) else r, [])
  {
  }
}
