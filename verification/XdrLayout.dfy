/** Where everything stands in an encoding. */
module XdrLayout {
  import opened BigEndian
  import opened Xdr

  /** A number is its value in two's complement on 32 or 64 bits, big end first. */
  lemma NumberLayout(env: Env, w: Width, signed: bool, n: int)
    requires InRange(w, signed, n)
    ensures Value(Put(env, Num(w, signed), Int(n))) == n % (if w.W32? then TWO32 else TWO32 * TWO32)
  {
    WordRange();
    ReadWrite(w.Len(), ToUint(w, n));
    Remainder(n, Power256(w.Len()));
  }

  lemma Remainder(n: int, m: nat)
    requires 0 - m <= n < m
    ensures n % m == if n >= 0 then n else n + m
  {
  }

  lemma BooleanLayout(env: Env, b: bool)
    ensures Value(Put(env, Bool, Flag(b))) == if b then 1 else 0
    ensures |Put(env, Bool, Flag(b))| == 4
  {
    WordRange();
    ReadWrite(4, if b then 1 else 0);
  }

  /** Bytes of variable length: their number, the bytes, and zeros up to a multiple of
      four.  Those of fixed length are the same without the number. */
  lemma OpaqueLayout(env: Env, max: nat, bytes: seq<Byte>)
    requires |bytes| < TWO32
    ensures var e, n := Put(env, OpaqueVec(max), Raw(bytes)), |bytes|;
      && |e| % 4 == 0 && 4 + n <= |e| < 8 + n
      && Value(e[..4]) == n && e[4..4 + n] == bytes
      && (forall i | 4 + n <= i < |e| :: e[i] == 0)
      && e[4..] == Put(env, Opaque(n), Raw(bytes))
  {
    WordRange();
    ReadWrite(4, |bytes|);
    var word, opaq := PutWord(W32, |bytes|), PutOpaque(bytes);
    assert (word + opaq)[..4] == word && (word + opaq)[4..] == opaq;
  }

  /** A container of variable length begins with the number of its elements. */
  lemma CountLayout(env: Env, t: Ty, max: nat, vs: seq<XdrValue>)
    requires |vs| < TWO32 && AllHaveType(env, t, vs)
    ensures var e := Put(env, Vector(t, max), Many(vs));
      |e| >= 4 && Value(e[..4]) == |vs| && e[4..] == Put(env, Array(t, |vs|), Many(vs))
    ensures |vs| <= 1 ==> Put(env, Pointer(t), Many(vs)) == Put(env, Vector(t, max), Many(vs))
  {
    WordRange();
    ReadWrite(4, |vs|);
    var word, all := PutWord(W32, |vs|), PutAll(env, t, vs);
    assert (word + all)[..4] == word && (word + all)[4..] == all;
  }

  // ---- elements and fields ----

  /** The size of the first `i` elements. */
  function SizeBefore(env: Env, t: Ty, vs: seq<XdrValue>, i: nat): nat
    requires AllHaveType(env, t, vs) && i <= |vs|
  {
    if i == 0 then 0 else SerialSize(env, t, vs[0]) + SizeBefore(env, t, vs[1..], i - 1)
  }

  /** The `i`th element stands behind the `i` before it. */
  lemma {:induction false} ElementAt(env: Env, t: Ty, vs: seq<XdrValue>, i: nat)
      returns (before: seq<Byte>, after: seq<Byte>)
    requires AllHaveType(env, t, vs) && i < |vs|
    ensures HasType(env, t, vs[i])
    ensures PutAll(env, t, vs) == before + (Put(env, t, vs[i]) + after) && |before| == SizeBefore(env, t, vs, i)
    decreases i
  {
    if i == 0 {
      before, after := [], PutAll(env, t, vs[1..]);
      assert vs[0] == vs[i];
      Nothing(Put(env, t, vs[0]) + after);
    } else {
      before, after := ElementAt(env, t, vs[1..], i - 1);
      PutSize(env, t, vs[0]);
      assert vs[1..][i - 1] == vs[i];
      Behind(Put(env, t, vs[0]), before, Put(env, t, vs[i]) + after);
      before := Put(env, t, vs[0]) + before;
    }
  }

  lemma Nothing(s: seq<Byte>)
    ensures [] + s == s
  {
  }

  lemma Behind(a: seq<Byte>, b: seq<Byte>, c: seq<Byte>)
    ensures a + (b + c) == (a + b) + c
  {
  }

  function Count(fs: Fields): nat {
    if fs.NoField? then 0 else 1 + Count(fs.rest)
  }

  function TypeAt(fs: Fields, i: nat): Ty
    requires i < Count(fs)
  {
    if i == 0 then fs.first else TypeAt(fs.rest, i - 1)
  }

  function ValueAt(vs: Values, i: nat): XdrValue {
    if vs.NoValue? then Fresh else if i == 0 then vs.first else ValueAt(vs.rest, i - 1)
  }

  /** The size of the first `i` fields. */
  function FieldsBefore(env: Env, fs: Fields, vs: Values, i: nat): nat
    requires FieldsHaveType(env, fs, vs) && i <= Count(fs)
  {
    if i == 0 then 0 else SerialSize(env, fs.first, vs.first) + FieldsBefore(env, fs.rest, vs.rest, i - 1)
  }

  /** The fields stand in the order in which they are declared. */
  lemma {:induction false} FieldAt(env: Env, fs: Fields, vs: Values, i: nat)
      returns (before: seq<Byte>, after: seq<Byte>)
    requires FieldsHaveType(env, fs, vs) && i < Count(fs)
    ensures HasType(env, TypeAt(fs, i), ValueAt(vs, i))
    ensures PutFields(env, fs, vs) == before + (Put(env, TypeAt(fs, i), ValueAt(vs, i)) + after)
    ensures |before| == FieldsBefore(env, fs, vs, i)
    decreases i
  {
    if i == 0 {
      before, after := [], PutFields(env, fs.rest, vs.rest);
      Nothing(Put(env, fs.first, vs.first) + after);
    } else {
      before, after := FieldAt(env, fs.rest, vs.rest, i - 1);
      PutSize(env, fs.first, vs.first);
      Behind(Put(env, fs.first, vs.first), before, Put(env, TypeAt(fs, i), ValueAt(vs, i)) + after);
      before := Put(env, fs.first, vs.first) + before;
    }
  }
}
