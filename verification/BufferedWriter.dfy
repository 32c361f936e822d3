/** Saving a list to a file through a fixed buffer that is flushed in blocks of 512
    bytes. */
module BufferedWriter {
  import opened BigEndian
  import opened Xdr
  import opened XdrArchive

  const BLOCK: nat := 512

  /** An open file: its bytes, and where the next write goes. */
  class File {
    var contents: seq<Byte>
    var offset: nat

    ghost predicate Valid()
      reads this
    {
      offset <= |contents|
    }

    /** What has been written since the file was opened. */
    ghost function Written(): seq<Byte>
      requires Valid()
      reads this
    {
      contents[..offset]
    }

    constructor (contents: seq<Byte>)
      ensures Valid() && this.contents == contents && Written() == []
    {
      this.contents, offset := contents, 0;
    }

    /** Overwrites and, at the end, extends. */
    method Write(data: seq<Byte>)
      requires Valid()
      modifies this
      ensures Valid() && Written() == old(Written()) + data && offset == old(offset) + |data|
    {
      var end := offset + |data|;
      contents := contents[..offset] + data + if end <= |contents| then contents[end..] else [];
      offset := end;
    }

    method Truncate(n: nat)
      requires Valid() && n <= |contents|
      modifies this
      ensures contents == old(contents)[..n] && offset == old(offset)
    {
      contents := contents[..n];
    }
  }

  /** `flush_buffer`: however few bytes each write takes, the file receives the first
      `amount` bytes of the buffer.  `grants(k)` is what the k-th write would take. */
  method FlushBuffer(file: File, buffer: array<Byte>, amount: nat, grants: nat -> nat)
    requires file.Valid() && amount <= buffer.Length
    modifies file
    ensures file.Valid() && file.Written() == old(file.Written()) + buffer[..amount]
    ensures file.offset == old(file.offset) + amount
  {
    var idx, k := 0, 0;
    assert file.Written() == file.Written() + buffer[..0];
    while idx < amount
      invariant idx <= amount && file.Valid()
      invariant file.Written() == old(file.Written()) + buffer[..idx] && file.offset == old(file.offset) + idx
      decreases amount - idx
    {
      var written := if grants(k) == 0 then 1 else if grants(k) < amount - idx then grants(k) else amount - idx;
      file.Write(buffer[idx..idx + written]);
      assert buffer[..idx + written] == buffer[..idx] + buffer[idx..idx + written];
      idx, k := idx + written, k + 1;
    }
  }

  /** Where the next element is written. */
  function Start(idx: nat, size: nat, room: nat): nat {
    if idx + size <= room then idx else idx % BLOCK
  }

  /** Whether the elements fit one after the other when the buffer holds `idx` bytes and
      has room for `room`: after a flush less than one block stays behind. */
  predicate Fits(sizes: seq<nat>, idx: nat, room: nat)
    decreases |sizes|
  {
    sizes == [] ||
      var start := Start(idx, sizes[0], room);
      start + sizes[0] <= room && Fits(sizes[1..], start + sizes[0], room)
  }

  /** Elements of at most the room less a block always fit. */
  lemma {:induction false} SmallElementsFit(sizes: seq<nat>, idx: nat, room: nat)
    requires forall i | 0 <= i < |sizes| :: sizes[i] + BLOCK <= room
    ensures Fits(sizes, idx, room)
    decreases |sizes|
  {
    if sizes != [] {
      var start := Start(idx, sizes[0], room);
      SmallElementsFit(sizes[1..], start + sizes[0], room);
    }
  }

  function Sizes(env: Env, t: Ty, vs: seq<XdrValue>): (r: seq<nat>)
    requires AllHaveType(env, t, vs)
    ensures |r| == |vs|
  {
    if vs == [] then [] else [SerialSize(env, t, vs[0])] + Sizes(env, t, vs[1..])
  }

  /** File and buffer together hold what has been saved. */
  ghost predicate Holds(written: seq<Byte>, buffer: seq<Byte>, idx: nat, saved: seq<Byte>) {
    idx <= |buffer| && written + buffer[..idx] == saved
  }

  lemma HoldsMore(written: seq<Byte>, was: seq<Byte>, idx: nat, now: seq<Byte>, idx': nat, saved: seq<Byte>,
                  bytes: seq<Byte>)
    requires Holds(written, was, idx, saved) && Wrote(was, idx, now, idx', bytes)
    ensures Holds(written, now, idx', saved + bytes)
  {
    assert now[..idx'] == was[..idx] + bytes;
    assert written + (was[..idx] + bytes) == (written + was[..idx]) + bytes;
  }

  /** The part of the loop that makes room: whole blocks go to the file, the remainder
      moves to the front. */
  method MakeRoom(file: File, buffer: array<Byte>, bufIdx: nat, grants: nat -> nat, ghost saved: seq<Byte>)
    returns (bufIdx': nat, flushed: nat)
    requires file.Valid() && bufIdx <= buffer.Length && Holds(file.Written(), buffer[..], bufIdx, saved)
    modifies file, buffer
    ensures file.Valid() && bufIdx' == bufIdx % BLOCK && Holds(file.Written(), buffer[..], bufIdx', saved)
    ensures file.offset == old(file.offset) + flushed && flushed % BLOCK == 0
  {
    var amount := bufIdx - bufIdx % BLOCK;
    flushed := amount;
    ghost var was, head := buffer[..], file.Written();
    FlushBuffer(file, buffer, amount, grants);
    bufIdx' := bufIdx % BLOCK;
    MoveFront(buffer, amount, bufIdx);
    HoldsShifted(head, was, amount, bufIdx, buffer[..], saved);
  }

  method MoveFront(buffer: array<Byte>, amount: nat, end: nat)
    requires amount <= end <= buffer.Length
    modifies buffer
    ensures buffer[..end - amount] == old(buffer[amount..end])
  {
    var rest := buffer[amount..end];
    forall k | 0 <= k < end - amount {
      buffer[k] := rest[k];
    }
  }

  lemma HoldsShifted(head: seq<Byte>, was: seq<Byte>, amount: nat, idx: nat, now: seq<Byte>, saved: seq<Byte>)
    requires Holds(head, was, idx, saved) && amount <= idx && |now| == |was|
    requires now[..idx - amount] == was[amount..idx]
    ensures Holds(head + was[..amount], now, idx - amount, saved)
  {
    assert was[..idx] == was[..amount] + was[amount..idx];
    assert head + (was[..amount] + was[amount..idx]) == (head + was[..amount]) + was[amount..idx];
  }

  lemma StartAligned(idx: nat, size: nat, room: nat)
    requires idx % 4 == 0 && idx <= room
    ensures Start(idx, size, room) % 4 == 0 && Start(idx, size, room) <= room
  {
  }

  /** One turn of the loop. */
  method SaveNext(env: Env, t: Ty, v: XdrValue, file: File, buffer: array<Byte>, put: XdrPut, bufIdx: nat,
                  grants: nat -> nat, ghost saved: seq<Byte>) returns (r: Saving, bufIdx': nat, flushed: nat)
    requires HasType(env, t, v) && file.Valid() && put.Valid() && put.buf == buffer && put.p == bufIdx
    requires Holds(file.Written(), buffer[..], bufIdx, saved)
    modifies file, buffer, put
    ensures file.Valid() && put.Valid() && file.offset == old(file.offset) + flushed && flushed % BLOCK == 0
    ensures var start := Start(bufIdx, SerialSize(env, t, v), put.e);
      && (r.Saved? <==> Depth(v) <= old(put.stackLimit) && start + SerialSize(env, t, v) <= put.e)
      && (r.Saved? ==> bufIdx' == start + SerialSize(env, t, v) == put.p && put.stackLimit == old(put.stackLimit))
      && (r.Saved? ==> Holds(file.Written(), buffer[..], bufIdx', saved + Put(env, t, v)))
  {
    var nextSize := SerialSize(env, t, v);
    PutSize(env, t, v);
    StartAligned(bufIdx, nextSize, put.e);
    bufIdx', flushed := bufIdx, 0;
    if put.e - bufIdx < nextSize {
      bufIdx', flushed := MakeRoom(file, buffer, bufIdx, grants, saved);
      put.p := bufIdx';
    }
    ghost var was := buffer[..];
    ghost var at := put.p;
    r := put.Save(env, t, v);
    if r.Saved? {
      HoldsMore(file.Written(), was, at, buffer[..], put.p, saved, Put(env, t, v));
      bufIdx' := bufIdx' + nextSize;
    }
  }

  lemma SizesFrom(env: Env, t: Ty, vs: seq<XdrValue>, i: nat, idx: nat, room: nat)
    requires i < |vs| && AllHaveType(env, t, vs[i..]) && HasType(env, t, vs[i])
    ensures AllHaveType(env, t, vs[i + 1..])
    ensures var size := SerialSize(env, t, vs[i]); var start := Start(idx, size, room);
      Fits(Sizes(env, t, vs[i..]), idx, room) <==>
        start + size <= room && Fits(Sizes(env, t, vs[i + 1..]), start + size, room)
  {
    assert vs[i..][0] == vs[i] && vs[i..][1..] == vs[i + 1..];
    var s := Sizes(env, t, vs[i..]);
    assert s[0] == SerialSize(env, t, vs[i]) && s[1..] == Sizes(env, t, vs[i + 1..]);
  }

  /** `save_xdr_to_file_fast`, on the aligned part of the buffer.  It succeeds if and only
      if every element fits when its turn comes and none is nested too deeply; and then,
      whatever the file held and however the writes were split, the file is the plain
      encoding of the list. */
  method SaveFast(env: Env, t: Ty, max: nat, vs: seq<XdrValue>, file: File, buffer: array<Byte>, limit: nat,
                  grants: nat -> nat -> nat)
    returns (r: Saving)
    requires AllHaveType(env, t, vs) && |vs| < TWO32
    requires file.Valid() && file.offset == 0 && buffer.Length >= BLOCK + 4
    modifies file, buffer
    ensures var room := buffer.Length - buffer.Length % 4 - BLOCK;
      r.Saved? <==> Fits(Sizes(env, t, vs), 4, room) && DepthAll(vs) <= limit
    ensures r.Saved? ==> file.contents == Put(env, Vector(t, max), Many(vs))
  {
    var room := buffer.Length - buffer.Length % 4 - BLOCK;
    var put := new XdrPut(buffer, room, limit);
    ghost var word := PutWord(W32, |vs|);
    SaveCount(|vs|, file, buffer, put);
    var bufIdx, total;
    r, bufIdx, total := SaveElements(env, t, vs, file, buffer, put, grants, word);
    if r.Saved? {
      Finish(file, buffer, bufIdx, total, grants(|vs|), word + PutAll(env, t, vs));
    }
  }

  /** The length word goes to the front of the empty buffer. */
  method SaveCount(n: nat, file: File, buffer: array<Byte>, put: XdrPut)
    requires file.Valid() && file.offset == 0 && put.Valid() && put.buf == buffer && put.p == 0 && put.e >= 4
    modifies buffer, put`p
    ensures put.Valid() && put.p == 4
    ensures Holds(file.Written(), buffer[..], 4, PutWord(W32, n))
  {
    ghost var blank := buffer[..];
    var _ := put.PutNumber(W32, n);
    HoldsMore([], blank, 0, buffer[..], put.p, [], PutWord(W32, n));
    assert [] + PutWord(W32, n) == PutWord(W32, n);
  }

  /** The first `i` elements are saved, `idx` bytes are in the buffer, and the rest
      fits exactly when the whole does. */
  ghost predicate Midway(env: Env, t: Ty, vs: seq<XdrValue>, i: nat, done: seq<Byte>, limit: nat, idx: nat, room: nat) {
    && Remaining(env, t, vs, i, done, limit)
    && (Fits(Sizes(env, t, vs), 4, room) <==> Fits(Sizes(env, t, vs[i..]), idx, room))
  }

  lemma MidwayStart(env: Env, t: Ty, vs: seq<XdrValue>, limit: nat, room: nat)
    requires AllHaveType(env, t, vs)
    ensures Midway(env, t, vs, 0, [], limit, 4, room)
  {
    NoneWritten(env, t, vs, limit);
    assert vs[0..] == vs;
  }

  lemma MidwayEnd(env: Env, t: Ty, vs: seq<XdrValue>, done: seq<Byte>, limit: nat, idx: nat, room: nat)
    requires Midway(env, t, vs, |vs|, done, limit, idx, room)
    ensures Fits(Sizes(env, t, vs), 4, room) && DepthAll(vs) <= limit && done == PutAll(env, t, vs)
  {
    AllWritten(env, t, vs, done, limit);
    assert vs[|vs|..] == [];
  }

  lemma MidwayNext(env: Env, t: Ty, vs: seq<XdrValue>, i: nat, done: seq<Byte>, limit: nat, idx: nat, room: nat)
    requires i < |vs| && Midway(env, t, vs, i, done, limit, idx, room)
    ensures HasType(env, t, vs[i])
    ensures var size := SerialSize(env, t, vs[i]); var start := Start(idx, size, room);
      if Depth(vs[i]) <= limit && start + size <= room then
        Midway(env, t, vs, i + 1, done + Put(env, t, vs[i]), limit, start + size, room)
      else
        !(Fits(Sizes(env, t, vs), 4, room) && DepthAll(vs) <= limit)
  {
    RemainingNext(env, t, vs, i, done, limit);
    SizesFrom(env, t, vs, i, idx, room);
  }

  method SaveElements(env: Env, t: Ty, vs: seq<XdrValue>, file: File, buffer: array<Byte>, put: XdrPut,
                      grants: nat -> nat -> nat, ghost word: seq<Byte>) returns (r: Saving, bufIdx: nat, total: nat)
    requires AllHaveType(env, t, vs) && file.Valid() && file.offset == 0
    requires put.Valid() && put.buf == buffer && put.p == 4
    requires Holds(file.Written(), buffer[..], 4, word)
    modifies file, buffer, put
    ensures file.Valid() && (r.Saved? <==> Fits(Sizes(env, t, vs), 4, put.e) && DepthAll(vs) <= old(put.stackLimit))
    ensures r.Saved? ==>
      file.offset == total && bufIdx <= put.e && Holds(file.Written(), buffer[..], bufIdx, word + PutAll(env, t, vs))
  {
    bufIdx, total := 4, 0;
    ghost var done, limit := [], put.stackLimit;
    MidwayStart(env, t, vs, limit, put.e);
    assert word + [] == word;
    for i := 0 to |vs|
      invariant file.Valid() && file.offset == total
      invariant put.Valid() && put.p == bufIdx && put.stackLimit == limit
      invariant Holds(file.Written(), buffer[..], bufIdx, word + done)
      invariant Midway(env, t, vs, i, done, limit, bufIdx, put.e)
    {
      r, bufIdx, total, done := SaveAt(env, t, vs, i, file, buffer, put, bufIdx, total, grants(i), word, done);
      if r.Failed? {
        return;
      }
    }
    MidwayEnd(env, t, vs, done, limit, bufIdx, put.e);
    r := Saved;
  }

  /** The body of the loop. */
  method SaveAt(env: Env, t: Ty, vs: seq<XdrValue>, i: nat, file: File, buffer: array<Byte>, put: XdrPut, bufIdx: nat,
                total: nat, grants: nat -> nat, ghost word: seq<Byte>, ghost done: seq<Byte>)
    returns (r: Saving, bufIdx': nat, total': nat, ghost done': seq<Byte>)
    requires i < |vs| && file.Valid() && file.offset == total && put.Valid() && put.buf == buffer && put.p == bufIdx
    requires Holds(file.Written(), buffer[..], bufIdx, word + done)
    requires Midway(env, t, vs, i, done, put.stackLimit, bufIdx, put.e)
    modifies file, buffer, put
    ensures file.Valid() && file.offset == total' && put.Valid()
    ensures r.Failed? ==> !(Fits(Sizes(env, t, vs), 4, put.e) && DepthAll(vs) <= old(put.stackLimit))
    ensures r.Saved? ==> put.p == bufIdx' && put.stackLimit == old(put.stackLimit)
    ensures r.Saved? ==> Holds(file.Written(), buffer[..], bufIdx', word + done')
    ensures r.Saved? ==> Midway(env, t, vs, i + 1, done', old(put.stackLimit), bufIdx', put.e)
  {
    MidwayNext(env, t, vs, i, done, put.stackLimit, bufIdx, put.e);
    ghost var bytes := Put(env, t, vs[i]);
    var flushed;
    r, bufIdx', flushed := SaveNext(env, t, vs[i], file, buffer, put, bufIdx, grants, word + done);
    total' := total + flushed;
    Associate(word, done, bytes, word + done + bytes);
    done' := done + bytes;
  }

  /** The last flush writes whole blocks, one of them partly rubbish, which the
      truncation removes; it stays inside the buffer. */
  method Finish(file: File, buffer: array<Byte>, bufIdx: nat, total: nat, grants: nat -> nat, ghost saved: seq<Byte>)
    requires file.Valid() && file.offset == total && bufIdx + BLOCK <= buffer.Length
    requires Holds(file.Written(), buffer[..], bufIdx, saved)
    modifies file
    ensures file.contents == saved
  {
    var amount := bufIdx - bufIdx % BLOCK + BLOCK;
    ghost var head := file.Written();
    FlushBuffer(file, buffer, amount, grants);
    assert buffer[..amount][..bufIdx] == buffer[..bufIdx];
    assert file.Written()[..total + bufIdx] == head + buffer[..bufIdx];
    file.Truncate(total + bufIdx);
  }
}
