/** When an accepted byte string is the encoding of the value it decodes to. */
module XdrCanonical {
  import opened BigEndian
  import opened Xdr

  // ---- decoding consumes what encoding would write ----

  /** `rest` is what follows the first `size` bytes of `buf`. */
  ghost predicate Leaves(buf: seq<Byte>, size: nat, rest: seq<Byte>) {
    |buf| == size + |rest| && buf[size..] == rest
  }

  lemma LeavesTwo(buf: seq<Byte>, a: seq<Byte>, mid: seq<Byte>, b: seq<Byte>, rest: seq<Byte>, all: seq<Byte>)
    requires Leaves(buf, |a|, mid) && Leaves(mid, |b|, rest) && all == a + b
    ensures Leaves(buf, |all|, rest)
  {
    LeavesBoth(buf, |a|, mid, |b|, rest);
  }

  lemma LeavesBoth(buf: seq<Byte>, size: nat, mid: seq<Byte>, size': nat, rest: seq<Byte>)
    requires Leaves(buf, size, mid) && Leaves(mid, size', rest)
    ensures Leaves(buf, size + size', rest)
  {
  }

  lemma WordLeaves(w: Width, buf: seq<Byte>)
    requires |buf| % 4 == 0 && GetWord(w, buf).Ok?
    ensures Leaves(buf, w.Len(), GetWord(w, buf).rest)
  {
  }

  lemma OpaqueLeaves(n: nat, buf: seq<Byte>)
    requires |buf| % 4 == 0 && GetOpaque(n, buf).Ok?
    ensures Leaves(buf, Padded(n), GetOpaque(n, buf).rest) && |GetOpaque(n, buf).value| == n
  {
    PaddedFits(n, |buf|);
  }

  /** Whatever is decoded takes up exactly the bytes its encoding would. */
  lemma {:induction false} Consumes(env: Env, t: Ty, buf: seq<Byte>, limit: nat)
    requires |buf| % 4 == 0 && Get(env, t, buf, limit).Ok?
    ensures var r := Get(env, t, buf, limit);
      HasType(env, t, r.value) && Leaves(buf, |Put(env, t, r.value)|, r.rest)
    decreases limit, t, 0, 0
  {
    match t
    case Array(e, n) =>
      ConsumesAll(env, e, n, buf, limit - 1);
    case Vector(e, max) =>
      ConsumesCounted(env, e, max, buf, limit - 1);
    case Pointer(e) =>
      ConsumesCounted(env, e, 1, buf, limit - 1);
    case Struct(name) =>
      ConsumesFields(env, env(name), buf, limit - 1);
    case _ =>
      ConsumesFlat(env, t, buf, limit);
  }

  lemma ConsumesFlat(env: Env, t: Ty, buf: seq<Byte>, limit: nat)
    requires (t.Num? || t.Bool? || t.Opaque? || t.OpaqueVec?) && |buf| % 4 == 0 && Get(env, t, buf, limit).Ok?
    ensures var r := Get(env, t, buf, limit);
      HasType(env, t, r.value) && Leaves(buf, |Put(env, t, r.value)|, r.rest)
  {
    match t
    case Num(w, signed) =>
      NumInRange(w, signed, buf);
      WordLeaves(w, buf);
    case Bool =>
      WordLeaves(W32, buf);
    case Opaque(n) =>
      OpaqueLeaves(n, buf);
    case OpaqueVec(_) =>
      CountInRange(buf);
      WordLeaves(W32, buf);
      var n, rest := GetWord(W32, buf).value, GetWord(W32, buf).rest;
      OpaqueLeaves(n, rest);
      var s := GetOpaque(n, rest).value;
      LeavesTwo(buf, PutWord(W32, n), rest, PutOpaque(s), GetOpaque(n, rest).rest, PutWord(W32, n) + PutOpaque(s));
  }

  lemma {:induction false} ConsumesCounted(env: Env, t: Ty, max: nat, buf: seq<Byte>, limit: nat)
    requires |buf| % 4 == 0 && GetCounted(env, t, max, buf, limit).Ok?
    ensures var r := GetCounted(env, t, max, buf, limit);
      && r.value.Many? && |r.value.elems| <= max && |r.value.elems| < TWO32
      && AllHaveType(env, t, r.value.elems)
      && Leaves(buf, |PutWord(W32, |r.value.elems|) + PutAll(env, t, r.value.elems)|, r.rest)
    decreases limit, t, 2, 0
  {
    CountInRange(buf);
    WordLeaves(W32, buf);
    var n, rest := GetWord(W32, buf).value, GetWord(W32, buf).rest;
    ConsumesAll(env, t, n, rest, limit);
    var r := GetAll(env, t, n, rest, limit);
    LeavesTwo(buf, PutWord(W32, n), rest, PutAll(env, t, r.value), r.rest, PutWord(W32, n) + PutAll(env, t, r.value));
  }

  lemma {:induction false} ConsumesAll(env: Env, t: Ty, n: nat, buf: seq<Byte>, limit: nat)
    requires |buf| % 4 == 0 && GetAll(env, t, n, buf, limit).Ok?
    ensures var r := GetAll(env, t, n, buf, limit);
      AllHaveType(env, t, r.value) && Leaves(buf, |PutAll(env, t, r.value)|, r.rest)
    decreases limit, t, 1, n
  {
    if n > 0 {
      var first := Get(env, t, buf, limit);
      var others := GetAll(env, t, n - 1, first.rest, limit);
      Consumes(env, t, buf, limit);
      ConsumesAll(env, t, n - 1, first.rest, limit);
      PutCons(env, t, first.value, others.value);
      LeavesTwo(buf, Put(env, t, first.value), first.rest, PutAll(env, t, others.value), others.rest,
                PutAll(env, t, [first.value] + others.value));
    }
  }

  lemma PutCons(env: Env, t: Ty, v: XdrValue, vs: seq<XdrValue>)
    requires HasType(env, t, v) && AllHaveType(env, t, vs)
    ensures AllHaveType(env, t, [v] + vs) && PutAll(env, t, [v] + vs) == Put(env, t, v) + PutAll(env, t, vs)
  {
    var all := [v] + vs;
    assert all[0] == v && all[1..] == vs;
  }

  lemma {:induction false} ConsumesFields(env: Env, fs: Fields, buf: seq<Byte>, limit: nat)
    requires |buf| % 4 == 0 && GetFields(env, fs, buf, limit).Ok?
    ensures var r := GetFields(env, fs, buf, limit);
      FieldsHaveType(env, fs, r.value) && Leaves(buf, |PutFields(env, fs, r.value)|, r.rest)
    decreases limit, fs, 0, 0
  {
    if fs.Field? {
      var first := Get(env, fs.first, buf, limit);
      var others := GetFields(env, fs.rest, first.rest, limit);
      Consumes(env, fs.first, buf, limit);
      ConsumesFields(env, fs.rest, first.rest, limit);
      LeavesTwo(buf, Put(env, fs.first, first.value), first.rest, PutFields(env, fs.rest, others.value), others.rest,
                PutFields(env, fs, Cons(first.value, others.value)));
    }
  }

  // ---- the exact condition ----

  /** Every word read as a boolean is zero or one. */
  predicate Exact(env: Env, t: Ty, buf: seq<Byte>, limit: nat)
    requires |buf| % 4 == 0
    decreases limit, t, 0, 0
  {
    match t
    case Bool => GetWord(W32, buf).Ok? ==> GetWord(W32, buf).value <= 1
    case Array(e, n) => limit > 0 ==> ExactAll(env, e, n, buf, limit - 1)
    case Vector(e, max) => limit > 0 ==> ExactCounted(env, e, max, buf, limit - 1)
    case Pointer(e) => limit > 0 ==> ExactCounted(env, e, 1, buf, limit - 1)
    case Struct(name) => limit > 0 ==> ExactFields(env, env(name), buf, limit - 1)
    case _ => true
  }

  predicate ExactCounted(env: Env, t: Ty, max: nat, buf: seq<Byte>, limit: nat)
    requires |buf| % 4 == 0
    decreases limit, t, 2, 0
  {
    var n := GetWord(W32, buf);
    n.Ok? && n.value <= max ==> ExactAll(env, t, n.value, n.rest, limit)
  }

  predicate ExactAll(env: Env, t: Ty, n: nat, buf: seq<Byte>, limit: nat)
    requires |buf| % 4 == 0
    decreases limit, t, 1, n
  {
    n > 0 ==>
      && Exact(env, t, buf, limit)
      && (Get(env, t, buf, limit).Ok? ==> ExactAll(env, t, n - 1, Get(env, t, buf, limit).rest, limit))
  }

  predicate ExactFields(env: Env, fs: Fields, buf: seq<Byte>, limit: nat)
    requires |buf| % 4 == 0
    decreases limit, fs, 0, 0
  {
    fs.Field? ==>
      && Exact(env, fs.first, buf, limit)
      && var first := Get(env, fs.first, buf, limit);
         first.Ok? ==> ExactFields(env, fs.rest, first.rest, limit)
  }

  /** Two encodings in a row are the buffer if and only if each is its part of it. */
  lemma SplitIff(buf: seq<Byte>, a: seq<Byte>, mid: seq<Byte>, b: seq<Byte>, rest: seq<Byte>)
    requires Leaves(buf, |a|, mid)
    ensures buf == (a + b) + rest <==> buf == a + mid && mid == b + rest
  {
    assert (a + b) + rest == a + (b + rest);
    if buf == a + (b + rest) {
      assert buf[|a|..] == b + rest;
    }
  }

  /** An accepted byte string is the encoding of the value it decodes to, followed by the
      rest, if and only if every boolean in it is zero or one. */
  lemma {:induction false} CanonicalIff(env: Env, t: Ty, buf: seq<Byte>, limit: nat)
    requires |buf| % 4 == 0 && Get(env, t, buf, limit).Ok?
    ensures var r := Get(env, t, buf, limit);
      HasType(env, t, r.value) && (buf == Put(env, t, r.value) + r.rest <==> Exact(env, t, buf, limit))
    decreases limit, t, 0, 0
  {
    match t
    case Array(e, n) =>
      CanonicalAll(env, e, n, buf, limit - 1);
    case Vector(e, max) =>
      CanonicalCounted(env, e, max, buf, limit - 1);
    case Pointer(e) =>
      CanonicalCounted(env, e, 1, buf, limit - 1);
    case Struct(name) =>
      CanonicalFields(env, env(name), buf, limit - 1);
    case Bool =>
      CanonicalBool(env, buf, limit);
    case _ =>
      CanonicalFlat(env, t, buf, limit);
  }

  lemma CanonicalFlat(env: Env, t: Ty, buf: seq<Byte>, limit: nat)
    requires (t.Num? || t.Opaque? || t.OpaqueVec?) && |buf| % 4 == 0 && Get(env, t, buf, limit).Ok?
    ensures var r := Get(env, t, buf, limit); HasType(env, t, r.value) && buf == Put(env, t, r.value) + r.rest
  {
    match t
    case Num(w, s) =>
      NumInRange(w, s, buf);
    case Opaque(n) =>
      OpaqueExact(n, buf);
    case OpaqueVec(_) =>
      CountInRange(buf);
      var n, rest := GetWord(W32, buf).value, GetWord(W32, buf).rest;
      OpaqueExact(n, rest);
      WordLeaves(W32, buf);
      SplitIff(buf, PutWord(W32, n), rest, PutOpaque(GetOpaque(n, rest).value), GetOpaque(n, rest).rest);
  }

  lemma CanonicalBool(env: Env, buf: seq<Byte>, limit: nat)
    requires |buf| % 4 == 0 && Get(env, Bool, buf, limit).Ok?
    ensures var r := Get(env, Bool, buf, limit);
      HasType(env, Bool, r.value) && (buf == Put(env, Bool, r.value) + r.rest <==> Exact(env, Bool, buf, limit))
  {
    var u, rest := GetWord(W32, buf).value, GetWord(W32, buf).rest;
    NumInRange(W32, false, buf);
    WordRange();
    WordRoundTrip(W32, 1, rest);
    WordRoundTrip(W32, 0, rest);
  }

  lemma {:induction false} CanonicalCounted(env: Env, t: Ty, max: nat, buf: seq<Byte>, limit: nat)
    requires |buf| % 4 == 0 && GetCounted(env, t, max, buf, limit).Ok?
    ensures var r := GetCounted(env, t, max, buf, limit);
      && r.value.Many? && |r.value.elems| <= max && |r.value.elems| < TWO32 && AllHaveType(env, t, r.value.elems)
      && (buf == PutWord(W32, |r.value.elems|) + PutAll(env, t, r.value.elems) + r.rest <==>
          ExactCounted(env, t, max, buf, limit))
    decreases limit, t, 2, 0
  {
    CountInRange(buf);
    WordLeaves(W32, buf);
    var n, rest := GetWord(W32, buf).value, GetWord(W32, buf).rest;
    CanonicalAll(env, t, n, rest, limit);
    var r := GetAll(env, t, n, rest, limit);
    SplitIff(buf, PutWord(W32, n), rest, PutAll(env, t, r.value), r.rest);
  }

  lemma {:induction false} CanonicalAll(env: Env, t: Ty, n: nat, buf: seq<Byte>, limit: nat)
    requires |buf| % 4 == 0 && GetAll(env, t, n, buf, limit).Ok?
    ensures var r := GetAll(env, t, n, buf, limit);
      AllHaveType(env, t, r.value) && (buf == PutAll(env, t, r.value) + r.rest <==> ExactAll(env, t, n, buf, limit))
    decreases limit, t, 1, n
  {
    if n > 0 {
      var first := Get(env, t, buf, limit);
      var others := GetAll(env, t, n - 1, first.rest, limit);
      CanonicalIff(env, t, buf, limit);
      CanonicalAll(env, t, n - 1, first.rest, limit);
      Consumes(env, t, buf, limit);
      PutCons(env, t, first.value, others.value);
      SplitIff(buf, Put(env, t, first.value), first.rest, PutAll(env, t, others.value), others.rest);
    }
  }

  lemma {:induction false} CanonicalFields(env: Env, fs: Fields, buf: seq<Byte>, limit: nat)
    requires |buf| % 4 == 0 && GetFields(env, fs, buf, limit).Ok?
    ensures var r := GetFields(env, fs, buf, limit);
      && FieldsHaveType(env, fs, r.value)
      && (buf == PutFields(env, fs, r.value) + r.rest <==> ExactFields(env, fs, buf, limit))
    decreases limit, fs, 0, 0
  {
    if fs.Field? {
      var first := Get(env, fs.first, buf, limit);
      var others := GetFields(env, fs.rest, first.rest, limit);
      CanonicalIff(env, fs.first, buf, limit);
      CanonicalFields(env, fs.rest, first.rest, limit);
      Consumes(env, fs.first, buf, limit);
      SplitIff(buf, Put(env, fs.first, first.value), first.rest, PutFields(env, fs.rest, others.value), others.rest);
    }
  }

  // ---- types without booleans ----

  /** No boolean in the type, and only structs of `names` in it. */
  predicate BoolFree(names: set<nat>, t: Ty) {
    match t
    case Bool => false
    case Array(e, _) => BoolFree(names, e)
    case Vector(e, _) => BoolFree(names, e)
    case Pointer(e) => BoolFree(names, e)
    case Struct(name) => name in names
    case _ => true
  }

  predicate BoolFreeFields(names: set<nat>, fs: Fields) {
    fs.NoField? || (BoolFree(names, fs.first) && BoolFreeFields(names, fs.rest))
  }

  /** The structs named are bool-free and refer to one another only. */
  ghost predicate BoolFreeStructs(env: Env, names: set<nat>) {
    forall name | name in names :: BoolFreeFields(names, env(name))
  }

  lemma {:induction false} BoolFreeExact(env: Env, names: set<nat>, t: Ty, buf: seq<Byte>, limit: nat)
    requires BoolFreeStructs(env, names) && BoolFree(names, t) && |buf| % 4 == 0
    ensures Exact(env, t, buf, limit)
    decreases limit, t, 0, 0
  {
    if limit > 0 {
      match t
      case Array(e, n) =>
        BoolFreeExactAll(env, names, e, n, buf, limit - 1);
      case Vector(e, max) =>
        BoolFreeExactCounted(env, names, e, max, buf, limit - 1);
      case Pointer(e) =>
        BoolFreeExactCounted(env, names, e, 1, buf, limit - 1);
      case Struct(name) =>
        BoolFreeExactFields(env, names, env(name), buf, limit - 1);
      case _ =>
    }
  }

  lemma {:induction false} BoolFreeExactCounted(env: Env, names: set<nat>, t: Ty, max: nat, buf: seq<Byte>, limit: nat)
    requires BoolFreeStructs(env, names) && BoolFree(names, t) && |buf| % 4 == 0
    ensures ExactCounted(env, t, max, buf, limit)
    decreases limit, t, 2, 0
  {
    var n := GetWord(W32, buf);
    if n.Ok? && n.value <= max {
      BoolFreeExactAll(env, names, t, n.value, n.rest, limit);
    }
  }

  lemma {:induction false} BoolFreeExactAll(env: Env, names: set<nat>, t: Ty, n: nat, buf: seq<Byte>, limit: nat)
    requires BoolFreeStructs(env, names) && BoolFree(names, t) && |buf| % 4 == 0
    ensures ExactAll(env, t, n, buf, limit)
    decreases limit, t, 1, n
  {
    if n > 0 {
      BoolFreeExact(env, names, t, buf, limit);
      if Get(env, t, buf, limit).Ok? {
        BoolFreeExactAll(env, names, t, n - 1, Get(env, t, buf, limit).rest, limit);
      }
    }
  }

  lemma {:induction false} BoolFreeExactFields(env: Env, names: set<nat>, fs: Fields, buf: seq<Byte>, limit: nat)
    requires BoolFreeStructs(env, names) && BoolFreeFields(names, fs) && |buf| % 4 == 0
    ensures ExactFields(env, fs, buf, limit)
    decreases limit, fs, 0, 0
  {
    if fs.Field? {
      BoolFreeExact(env, names, fs.first, buf, limit);
      if Get(env, fs.first, buf, limit).Ok? {
        BoolFreeExactFields(env, names, fs.rest, Get(env, fs.first, buf, limit).rest, limit);
      }
    }
  }

  /** So for a type that reaches no boolean the encoding is unique, whatever other structs
      the program declares. */
  lemma Canonical(env: Env, names: set<nat>, t: Ty, buf: seq<Byte>, limit: nat)
    requires BoolFreeStructs(env, names) && BoolFree(names, t) && |buf| % 4 == 0 && Get(env, t, buf, limit).Ok?
    ensures var r := Get(env, t, buf, limit); HasType(env, t, r.value) && buf == Put(env, t, r.value) + r.rest
  {
    BoolFreeExact(env, names, t, buf, limit);
    CanonicalIff(env, t, buf, limit);
  }

  // ---- whole messages ----

  /** An accepted message re-encodes to itself if and only if its booleans are zero or
      one. */
  lemma MessageCanonicalIff(env: Env, t: Ty, buf: seq<Byte>, limit: nat)
    requires FromOpaque(env, t, buf, limit).Ok?
    ensures var r := FromOpaque(env, t, buf, limit);
      HasType(env, t, r.value) && (Put(env, t, r.value) == buf <==> Exact(env, t, buf, limit))
  {
    CanonicalIff(env, t, buf, limit);
    var p := Put(env, t, Get(env, t, buf, limit).value);
    assert p + [] == p;
  }

  /** A message of a type that reaches no boolean and its value determine each other. */
  lemma MessageCanonical(env: Env, names: set<nat>, t: Ty, buf: seq<Byte>, limit: nat)
    requires BoolFreeStructs(env, names) && BoolFree(names, t) && FromOpaque(env, t, buf, limit).Ok?
    ensures var r := FromOpaque(env, t, buf, limit); HasType(env, t, r.value) && Put(env, t, r.value) == buf
  {
    BoolFreeExact(env, names, t, buf, limit);
    MessageCanonicalIff(env, t, buf, limit);
  }

  /** A word that shows the condition can fail: two is read as true. */
  lemma BoolNotCanonical(env: Env)
    ensures var buf := PutWord(W32, 2); var r := FromOpaque(env, Bool, buf, 0);
      r == Ok(Flag(true), []) && !Exact(env, Bool, buf, 0) && Put(env, Bool, r.value) != buf
  {
    WordRange();
    var buf := PutWord(W32, 2);
    assert buf + [] == buf;
    WordRoundTrip(W32, 2, []);
    MessageCanonicalIff(env, Bool, buf, 0);
  }
}
