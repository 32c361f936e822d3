/** Reloading the decided chain from disk. */
module Recovery {
  import opened Options
  import opened Blocks
  import opened Quorum
  import opened ReplicaSpec
  import opened Network
  import Safety
  import opened Invariant
  import opened Agreement
  import opened BigEndian

  type Key = seq<Byte>

  /** Keys are heights in eight big-endian bytes. */
  const KEY_BYTES: nat := 8

  /** The database holds the index: one entry per height, under a key of that
      value. */
  ghost predicate Encodes(db: map<Key, Block>, index: map<nat, Block>) {
    && (forall k | k in db :: |k| == KEY_BYTES && Value(k) in index && db[k] == index[Value(k)])
    && (forall h {:trigger HasKey(db, h)} | h in index :: HasKey(db, h))
  }

  ghost predicate HasKey(db: map<Key, Block>, h: nat) {
    exists k :: k in db && Value(k) == h
  }

  /** `add_decided_block_` writes the height as a key and keeps the encoding. */
  lemma PutEncodes(db: map<Key, Block>, index: map<nat, Block>, b: Block, key: Key)
    requires Encodes(db, index) && |key| == KEY_BYTES && Value(key) == Height(b)
    ensures Encodes(db[key := b], index[Height(b) := b])
  {
    var db', index' := db[key := b], index[Height(b) := b];
    forall k | k in db'
      ensures |k| == KEY_BYTES && Value(k) in index' && db'[k] == index'[Value(k)]
    {
      if k != key {
        ValueOrder(k, key);
      }
    }
    forall h | h in index'
      ensures HasKey(db', h)
    {
      if h == Height(b) {
        assert key in db';
      } else {
        assert HasKey(db, h);
        var k :| k in db && Value(k) == h;
        assert k in db';
      }
    }
  }

  /** The key that `write_unsigned_big_endian` produces for a 64-bit height. */
  lemma HeightKey(height: nat)
    requires height < Power256(KEY_BYTES)
    ensures |Bytes(KEY_BYTES, height)| == KEY_BYTES && Value(Bytes(KEY_BYTES, height)) == height
  {
    ReadWrite(KEY_BYTES, height);
  }

  /** `add_decided_block_`: the block goes under its height as eight big-endian bytes, and
      a database that held the index goes on holding it. */
  method AddDecidedBlock(db: map<Key, Block>, b: Block, ghost index: map<nat, Block>) returns (db': map<Key, Block>)
    requires Encodes(db, index) && Height(b) < Power256(KEY_BYTES)
    ensures db' == PutPath(db, [b]) && Encodes(db', index[Height(b) := b])
  {
    var key := new Byte[KEY_BYTES];
    WriteUnsigned(key, KEY_BYTES, Height(b), 0);
    assert key[0..KEY_BYTES] == key[..];
    HeightKey(Height(b));
    PutEncodes(db, index, b, key[..]);
    return db[key[..] := b];
  }

  /** The database after a transaction has put the blocks of a path. */
  function PutPath(db: map<Key, Block>, path: seq<Block>): map<Key, Block>
    decreases path
  {
    if path == [] then db else PutPath(db[Bytes(KEY_BYTES, Height(path[0])) := path[0]], path[1..])
  }

  lemma {:induction false} PathEncodes(db: map<Key, Block>, index: map<nat, Block>, path: seq<Block>)
    requires Encodes(db, index) && forall b | b in path :: Height(b) < Power256(KEY_BYTES)
    ensures Encodes(PutPath(db, path), IndexAll(index, path))
    decreases path
  {
    if path != [] {
      HeightKey(Height(path[0]));
      PutEncodes(db, index, path[0], Bytes(KEY_BYTES, Height(path[0])));
      PathEncodes(db[Bytes(KEY_BYTES, Height(path[0])) := path[0]], index[Height(path[0]) := path[0]], path[1..]);
    }
  }

  // ---- the database of a run ----

  /** The database a replica's commits have built: every step puts the blocks between the
      block executed before and the one executed after. */
  ghost function Database(run: Run, i: nat, p: ReplicaId): map<Key, Block>
    requires i < |run.states|
  {
    if i == 0 then map[] else
      var before, after := Executed(run, i - 1, p), Executed(run, i, p);
      PutPath(Database(run, i - 1, p), if IsAncestor(before, after) then Path(before, after) else [])
  }

  lemma IndexUnique(m: map<nat, Block>, n: map<nat, Block>, top: Block)
    requires Indexes(m, top) && Indexes(n, top)
    ensures m == n
  {
    assert m.Keys == n.Keys;
  }

  lemma KeyRoom()
    ensures VHEIGHT_MODULUS <= Power256(KEY_BYTES)
  {
    assert Power256(1) == 256;
    assert Power256(2) == 256 * Power256(1);
    assert Power256(3) == 256 * Power256(2);
    assert Power256(4) == 256 * Power256(3);
    assert Power256(5) == 256 * Power256(4);
    assert Power256(6) == 256 * Power256(5);
    assert Power256(7) == 256 * Power256(6);
    assert Power256(8) == 256 * Power256(7);
  }

  /** Executed blocks have heights that fit a key. */
  lemma ExecutedFits(c: Config, votes: seq<Vote>, s: Replica)
    requires c.Valid() && c.Tolerates() && Safety.VotesOk(c, votes) && ChainOk(c, votes, s)
    ensures Height(s.bExec) < Power256(KEY_BYTES)
  {
    KeyRoom();
    CommittedCertified(c, votes, s.bExec);
    Safety.CertifiedWellFormed(c, votes, s.bExec);
  }

  lemma PathFits(a: Block, b: Block, bound: nat)
    requires IsAncestor(a, b) && Height(b) < bound
    ensures forall x | x in Path(a, b) :: Height(x) < bound
  {
    forall x | x in Path(a, b)
      ensures Height(x) < bound
    {
      PathCovers(a, b, x);
      AncestorHeight(x, b);
    }
  }

  /** What one step puts is what it adds to the index. */
  lemma StepEncodes(db: map<Key, Block>, m: map<nat, Block>, n: map<nat, Block>, a: Block, b: Block)
    requires Encodes(db, m) && Indexes(m, a) && Indexes(n, b) && IsAncestor(a, b) && Height(b) < Power256(KEY_BYTES)
    ensures Encodes(PutPath(db, Path(a, b)), n)
  {
    PathFits(a, b, Power256(KEY_BYTES));
    PathEncodes(db, m, Path(a, b));
    IndexAllIndexes(m, a, b);
    IndexUnique(IndexAll(m, Path(a, b)), n, b);
  }

  /** At every moment the index names the executed chain, whose heights fit a key. */
  lemma IndexedAt(c: Config, run: Run, i: nat, p: ReplicaId)
    requires c.Valid() && c.Tolerates() && DisciplinedRun(c, run) && i < |run.states| && p in c.Honest()
    ensures p in run.states[i].replicas
    ensures var s := run.states[i].replicas[p]; Indexes(s.index, s.bExec) && Height(s.bExec) < Power256(KEY_BYTES)
  {
    RunOk(c, run, i);
    ExecutedFits(c, run.states[i].votes, run.states[i].replicas[p]);
  }

  lemma StepExtends(c: Config, run: Run, i: nat, p: ReplicaId)
    requires c.Valid() && c.Tolerates() && DisciplinedRun(c, run) && 0 < i < |run.states| && p in c.Honest()
    ensures p in run.states[i - 1].replicas && p in run.states[i].replicas
    ensures IsAncestor(run.states[i - 1].replicas[p].bExec, run.states[i].replicas[p].bExec)
  {
    IndexedAt(c, run, i - 1, p);
    IndexedAt(c, run, i, p);
    RunAdvances(c, run, i - 1, i);
  }

  /** In every disciplined run the database holds the decided index at all times. */
  lemma {:induction false} DatabaseEncodes(c: Config, run: Run, i: nat, p: ReplicaId)
    requires c.Valid() && c.Tolerates() && DisciplinedRun(c, run) && i < |run.states| && p in c.Honest()
    ensures p in run.states[i].replicas
    ensures Encodes(Database(run, i, p), run.states[i].replicas[p].index)
  {
    IndexedAt(c, run, i, p);
    if i > 0 {
      DatabaseEncodes(c, run, i - 1, p);
      IndexedAt(c, run, i - 1, p);
      StepExtends(c, run, i, p);
      var s, t := run.states[i - 1].replicas[p], run.states[i].replicas[p];
      StepEncodes(Database(run, i - 1, p), s.index, t.index, s.bExec, t.bExec);
    }
  }

  /** A forward cursor visits every key once, in byte order. */
  ghost predicate CursorOrder(db: map<Key, Block>, keys: seq<Key>) {
    && (forall k :: k in keys <==> k in db)
    && (forall i, j | 0 <= i < j < |keys| :: |keys[i]| == |keys[j]| && LexLess(keys[i], keys[j]))
  }

  /** The heights along the cursor ascend. */
  lemma CursorAscends(keys: seq<Key>, hs: seq<nat>)
    requires forall i, j | 0 <= i < j < |keys| :: |keys[i]| == |keys[j]| && LexLess(keys[i], keys[j])
    requires |hs| == |keys| && forall i | 0 <= i < |hs| :: hs[i] == Value(keys[i])
    ensures forall i, j | 0 <= i < j < |hs| :: hs[i] < hs[j]
  {
    forall i, j | 0 <= i < j < |hs|
      ensures hs[i] < hs[j]
    {
      ValueOrder(keys[i], keys[j]);
    }
  }

  /** The heights along the cursor are the indexed ones. */
  lemma CursorHeights(db: map<Key, Block>, keys: seq<Key>, hs: seq<nat>, index: map<nat, Block>)
    requires Encodes(db, index) && forall k :: k in keys <==> k in db
    requires |hs| == |keys| && forall i | 0 <= i < |hs| :: hs[i] == Value(keys[i])
    ensures forall i | 0 <= i < |keys| :: keys[i] in db && hs[i] in index && db[keys[i]] == index[hs[i]]
    ensures forall h | h in index :: h in hs
  {
    forall i | 0 <= i < |keys|
      ensures keys[i] in db && hs[i] in index && db[keys[i]] == index[hs[i]]
    {
      assert keys[i] in db;
    }
    forall h | h in index
      ensures h in hs
    {
      assert HasKey(db, h);
      var k :| k in db && Value(k) == h;
      assert k in keys;
      var j :| 0 <= j < |keys| && keys[j] == k;
      assert hs[j] == h;
    }
  }

  /** An ascending list of exactly the numbers 1 to `n` counts up. */
  lemma {:induction false} CountsUp(hs: seq<nat>, n: nat, k: nat)
    requires forall i, j | 0 <= i < j < |hs| :: hs[i] < hs[j]
    requires forall i | 0 <= i < |hs| :: 1 <= hs[i] <= n
    requires forall h: nat | 1 <= h <= n :: h in hs
    requires k <= |hs|
    ensures forall i | 0 <= i < k :: hs[i] == i + 1
  {
    if k > 0 {
      CountsUp(hs, n, k - 1);
      if k > 1 {
        assert hs[k - 2] < hs[k - 1];
      }
      assert k in hs;
      var j :| 0 <= j < |hs| && hs[j] == k;
      assert k - 1 <= j ==> hs[k - 1] <= hs[j];
    }
  }

  lemma CountsUpTo(hs: seq<nat>, n: nat)
    requires forall i, j | 0 <= i < j < |hs| :: hs[i] < hs[j]
    requires forall i | 0 <= i < |hs| :: 1 <= hs[i] <= n
    requires forall h: nat | 1 <= h <= n :: h in hs
    ensures |hs| == n && forall i | 0 <= i < n :: hs[i] == i + 1
  {
    CountsUp(hs, n, |hs|);
    assert |hs| > 0 ==> hs[|hs| - 1] == |hs|;
    assert n > 0 ==> n in hs;
  }

  /** The blocks a cursor yields. */
  function Entries(db: map<Key, Block>, keys: seq<Key>): (r: seq<Block>)
    requires forall k | k in keys :: k in db
    ensures |r| == |keys|
  {
    seq(|keys|, i requires 0 <= i < |keys| => db[keys[i]])
  }

  lemma EntriesByHeight(db: map<Key, Block>, keys: seq<Key>, hs: seq<nat>, index: map<nat, Block>, top: Block)
    requires Indexes(index, top) && |hs| == |keys|
    requires forall i | 0 <= i < |keys| :: keys[i] in db && hs[i] in index && db[keys[i]] == index[hs[i]]
    requires forall h | h in index :: h in hs
    requires forall i, j | 0 <= i < j < |hs| :: hs[i] < hs[j]
    ensures |keys| == |Chain(top)| && forall i | 0 <= i < |keys| :: db[keys[i]] == Chain(top)[i]
  {
    CountsUpTo(hs, |Chain(top)|);
    forall i | 0 <= i < |keys|
      ensures db[keys[i]] == Chain(top)[i]
    {
      assert hs[i] == i + 1;
    }
  }

  /** The heights a cursor passes. */
  function Heights(keys: seq<Key>): (r: seq<nat>)
    ensures |r| == |keys| && forall i | 0 <= i < |r| :: r[i] == Value(keys[i])
  {
    seq(|keys|, i requires 0 <= i < |keys| => Value(keys[i]))
  }

  /** Key order is chain order. */
  lemma EntriesAreChain(db: map<Key, Block>, keys: seq<Key>, index: map<nat, Block>, top: Block)
    requires Encodes(db, index) && Indexes(index, top) && CursorOrder(db, keys)
    ensures Entries(db, keys) == Chain(top)
  {
    CursorAscends(keys, Heights(keys));
    CursorHeights(db, keys, Heights(keys), index);
    EntriesByHeight(db, keys, Heights(keys), index, top);
  }

  // ---- reloading ----

  datatype Error = MissingFile | MissingDependency | NoCertificate | UnknownTop

  datatype Result<T> = Ok(value: T) | Err(error: Error)

  datatype Reloaded = Reloaded(store: set<Block>, highest: nat, replica: Replica)

  /** Loads blocks in order into a store; each needs its file, its parent and its
      justify block. */
  function InsertAll(store: set<Block>, highest: nat, entries: seq<Block>, disk: map<Block, bool>)
    : Result<(set<Block>, nat)>
    decreases entries
  {
    if entries == [] then Ok((store, highest))
    else if entries[0] !in disk || entries[0].Genesis? then Err(MissingFile)
    else if entries[0].parent !in store || entries[0].justify !in store then Err(MissingDependency)
    else InsertAll(store + {entries[0]}, Height(entries[0]), entries[1..], disk)
  }

  /** `reload_decided_blocks` followed by `reload_state_from_index`. */
  function Reload(entries: seq<Block>, disk: map<Block, bool>, index: map<nat, Block>,
                  topQc: Option<Certificate>): Result<Reloaded> {
    match InsertAll({Genesis}, 0, entries, disk)
    case Err(e) => Err(e)
    case Ok((store, highest)) =>
      if topQc.None? then Err(NoCertificate)
      else if topQc.value.block !in store then Err(UnknownTop)
      else
        var top := topQc.value.block;
        var s := UpdateHqc(INITIAL, topQc.value);
        Ok(Reloaded(store, highest,
             s.(vheight := Truncated(Height(top)), bExec := top, bLock := top, decided := store, written := store,
                disk := disk, index := index, topQc := topQc)))
  }

  /** The reload loop over the cursor. */
  method ReloadDecidedBlocks(db: map<Key, Block>, keys: seq<Key>, disk: map<Block, bool>,
                             index: map<nat, Block>, topQc: Option<Certificate>) returns (r: Result<Reloaded>)
    requires forall k | k in keys :: k in db
    ensures r == Reload(Entries(db, keys), disk, index, topQc)
  {
    var store, highest: nat := {Genesis}, 0;
    ghost var entries := Entries(db, keys);
    assert entries[0..] == entries;
    for i := 0 to |keys|
      invariant InsertAll({Genesis}, 0, entries, disk) == InsertAll(store, highest, entries[i..], disk)
    {
      var blk := db[keys[i]];
      assert entries[i..][0] == blk && entries[i..][1..] == entries[i + 1..];
      if blk !in disk || blk.Genesis? {
        return Err(MissingFile);
      }
      if blk.parent !in store || blk.justify !in store {
        return Err(MissingDependency);
      }
      store := store + {blk};
      highest := Height(blk);
    }
    if topQc.None? {
      return Err(NoCertificate);
    }
    var top := topQc.value.block;
    if top !in store {
      return Err(UnknownTop);
    }
    var s := UpdateHqc(INITIAL, topQc.value);
    s := s.(vheight := Truncated(Height(top)), bExec := top, bLock := top, decided := store, written := store,
            disk := disk, index := index, topQc := topQc);
    return Ok(Reloaded(store, highest, s));
  }

  /** A chain whose blocks are all on disk loads without a missing dependency. */
  lemma {:induction false} InsertAllChain(top: Block, disk: map<Block, bool>, k: nat)
    requires JustifiesAncestor(top) && k <= |Chain(top)|
    requires forall b | IsAncestor(b, top) && b.Block? :: b in disk
    ensures var below := if k == 0 then Genesis else Chain(top)[k - 1];
      InsertAll({Genesis}, 0, Chain(top), disk) == InsertAll(Ancestors(below), k, Chain(top)[k..], disk)
  {
    if k == 0 {
      assert Chain(top)[0..] == Chain(top) && Ancestors(Genesis) == {Genesis};
    } else {
      InsertAllChain(top, disk, k - 1);
      var b := Chain(top)[k - 1];
      var rest := Chain(top)[k - 1..];
      ChainAt(top, k - 1);
      JustifiesAncestorDown(b, top);
      AncestorsAreAncestors(b.justify, b.parent);
      assert rest[0] == b && rest[1..] == Chain(top)[k..];
      assert Ancestors(b) == Ancestors(b.parent) + {b};
    }
  }

  /** Reloading a chain that is on disk gives the restarted replica. */
  lemma ReloadChain(s: Replica)
    requires JustifiesAncestor(s.bExec) && forall b | IsAncestor(b, s.bExec) && b.Block? :: b in s.disk
    requires s.bExec.Block? ==> s.topQc.Some? && s.topQc.value.block == s.bExec
    requires s.bExec.Genesis? ==> s.topQc.None?
    ensures var r := Reload(Chain(s.bExec), s.disk, s.index, s.topQc);
      if s.bExec.Genesis? then r == Err(NoCertificate)
      else r == Ok(Reloaded(Ancestors(s.bExec), Height(s.bExec), Restart(s)))
  {
    var n := |Chain(s.bExec)|;
    InsertAllChain(s.bExec, s.disk, n);
    ChainLength(s.bExec);
    assert Chain(s.bExec)[n..] == [];
    AncestorsAreAncestors(s.bExec, s.bExec);
  }

  /** Recovery.  At every moment of every run, reloading in key order from the database
      that the commits so far have built reports no missing file, parent or justify block
      and restores the same decided chain, with every body present; before the first
      commit there is no certificate to reload from and the reload throws. */
  lemma RecoversDecidedChain(c: Config, run: Run, i: nat, p: ReplicaId, keys: seq<Key>)
    requires c.Valid() && c.Tolerates() && DisciplinedRun(c, run)
    requires i < |run.states| && p in c.Honest() && CursorOrder(Database(run, i, p), keys)
    ensures p in run.states[i].replicas
    ensures var s, db := run.states[i].replicas[p], Database(run, i, p);
      var r := Reload(Entries(db, keys), s.disk, s.index, s.topQc);
      && (s.applied == [] ==> r == Err(NoCertificate))
      && (s.applied != [] ==> s.topQc.Some? && r == Ok(Reloaded(s.decided, Height(s.bExec), Restart(s))))
      && (s.applied != [] ==> Restart(s).bExec == s.bExec && Restart(s).decided == s.decided)
      && (forall b | b in s.decided && b.Block? :: b in s.disk && s.disk[b])
  {
    RunOk(c, run, i);
    DatabaseEncodes(c, run, i, p);
    ReplicaRecovers(c, run.states[i].votes, run.states[i].replicas[p], Database(run, i, p), keys);
  }

  lemma ReplicaRecovers(c: Config, votes: seq<Vote>, s: Replica, db: map<Key, Block>, keys: seq<Key>)
    requires c.Valid() && c.Tolerates() && Safety.VotesOk(c, votes)
    requires ChainOk(c, votes, s) && DiskOk(s) && IndexOk(c, votes, s)
    requires Encodes(db, s.index) && CursorOrder(db, keys)
    ensures var r := Reload(Entries(db, keys), s.disk, s.index, s.topQc);
      && (s.applied == [] ==> r == Err(NoCertificate))
      && (s.applied != [] ==> s.topQc.Some? && r == Ok(Reloaded(s.decided, Height(s.bExec), Restart(s))))
    ensures s.applied != [] ==> Restart(s).bExec == s.bExec && Restart(s).decided == s.decided
    ensures forall b | b in s.decided && b.Block? :: b in s.disk && s.disk[b]
  {
    EntriesAreChain(db, keys, s.index, s.bExec);
    DecidedOnDisk(s);
    CommittedCertified(c, votes, s.bExec);
    Safety.CertifiedWellFormed(c, votes, s.bExec);
    ReloadChain(s);
  }

  lemma DecidedOnDisk(s: Replica)
    requires DiskOk(s)
    ensures forall b | IsAncestor(b, s.bExec) && b.Block? :: b in s.disk && s.disk[b]
    ensures forall b | b in Ancestors(s.bExec) && b.Block? :: b in s.disk && s.disk[b]
  {
    WrittenClosed(s, s.bExec);
    forall b
      ensures b in Ancestors(s.bExec) <==> IsAncestor(b, s.bExec)
    {
      AncestorsAreAncestors(b, s.bExec);
    }
  }
}
