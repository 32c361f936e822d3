/** The in-memory block store: blocks by hash, linked to their parents. */
module BlockStorage {
  import opened Options

  type Hash = nat

  /** The hash of the genesis block is the zero hash. */
  const GENESIS: Hash := 0

  /** What the store looks at in a block: its hash and the two it refers to. */
  datatype Header = Header(hash: Hash, parent: Hash, justify: Hash)

  /** A stored block has its parent pointer, justify pointer and height set. */
  datatype Stored = Stored(header: Header, height: nat)

  datatype Missing = Missing(parent: Option<Hash>, justify: Option<Hash>) {
    predicate Any() {
      parent.Some? || justify.Some?
    }
  }

  type Cache = map<Hash, Stored>

  const EMPTY: Cache := map[GENESIS := Stored(Header(GENESIS, GENESIS, GENESIS), 0)]

  /** What a block still needs. */
  function Needs(cache: Cache, b: Header): Missing {
    Missing(if b.parent in cache then None else Some(b.parent),
            if b.justify in cache then None else Some(b.justify))
  }

  /** `insert_block`: nothing happens unless parent and justify block are there; a hash
      already stored keeps its block. */
  function Inserted(cache: Cache, b: Header): Cache {
    if Needs(cache, b).Any() || b.hash in cache then cache
    else cache[b.hash := Stored(b, cache[b.parent].height + 1)]
  }

  /** Every stored block other than genesis lies one above its stored parent and has
      its justify block stored. */
  ghost predicate Linked(cache: Cache) {
    && GENESIS in cache && cache[GENESIS] == Stored(Header(GENESIS, GENESIS, GENESIS), 0)
    && forall h | h in cache && h != GENESIS ::
      var s := cache[h];
      && s.header.hash == h
      && s.header.parent in cache && s.header.justify in cache
      && s.height == cache[s.header.parent].height + 1
  }

  lemma InsertKeepsLinks(cache: Cache, b: Header)
    requires Linked(cache)
    ensures Linked(Inserted(cache, b))
    ensures forall h | h in cache :: h in Inserted(cache, b) && Inserted(cache, b)[h] == cache[h]
  {
  }

  /** The blocks of `bs` inserted in turn. */
  function InsertedAll(bs: seq<Header>): Cache {
    if bs == [] then EMPTY else Inserted(InsertedAll(bs[..|bs| - 1]), bs[|bs| - 1])
  }

  /** The block is stored one above its parent. */
  ghost predicate StoredAs(cache: Cache, h: Hash, b: Header) {
    h in cache && b.parent in cache && cache[h] == Stored(b, cache[b.parent].height + 1)
  }

  lemma StaysStored(cache: Cache, h: Hash, b: Header, next: Header)
    requires StoredAs(cache, h, b)
    ensures StoredAs(Inserted(cache, next), h, b)
  {
  }

  /** The `i`th block is the first of its hash that came when both it refers to were there. */
  ghost predicate Enters(bs: seq<Header>, i: nat, h: Hash)
    requires i < |bs|
  {
    var cache := InsertedAll(bs[..i]);
    bs[i].hash == h && h !in cache && bs[i].parent in cache && bs[i].justify in cache
  }

  /** From then on it is what is stored under its hash, unchanged and one above its
      parent; ... */
  lemma {:induction false} EntersStored(bs: seq<Header>, i: nat, h: Hash)
    requires i < |bs| && Enters(bs, i, h)
    ensures StoredAs(InsertedAll(bs), h, bs[i])
  {
    var k := |bs| - 1;
    if i < k {
      assert bs[..k][..i] == bs[..i];
      EntersStored(bs[..k], i, h);
      StaysStored(InsertedAll(bs[..k]), h, bs[i], bs[k]);
    }
  }

  /** ... and nothing else is stored. */
  lemma {:induction false} StoredEntered(bs: seq<Header>, h: Hash) returns (i: nat)
    requires h in InsertedAll(bs) && h != GENESIS
    ensures i < |bs| && Enters(bs, i, h)
  {
    var k := |bs| - 1;
    if h in InsertedAll(bs[..k]) {
      i := StoredEntered(bs[..k], h);
      assert bs[..k][..i] == bs[..i];
    } else {
      i := k;
    }
  }

  /** `k` parent steps up from a stored block. */
  function Ancestor(cache: Cache, h: Hash, k: nat): Hash
    requires Linked(cache) && h in cache
    decreases k
  {
    if k == 0 || h == GENESIS then h else Ancestor(cache, cache[h].header.parent, k - 1)
  }

  /** The parent pointers of a stored block lead to genesis in exactly `height` steps,
      with no block on the way twice. */
  lemma {:induction false} ReachesGenesis(cache: Cache, h: Hash, k: nat)
    requires Linked(cache) && h in cache
    ensures k <= cache[h].height ==>
      Ancestor(cache, h, k) in cache && cache[Ancestor(cache, h, k)].height == cache[h].height - k
    ensures Ancestor(cache, h, k) == GENESIS <==> k >= cache[h].height
    decreases k
  {
    if k > 0 && h != GENESIS {
      ReachesGenesis(cache, cache[h].header.parent, k - 1);
    }
  }

  class BlockStore {
    var blockCache: Cache

    constructor ()
      ensures blockCache == EMPTY && Linked(blockCache)
    {
      blockCache := EMPTY;
    }

    method InsertBlock(b: Header) returns (missing: Missing)
      requires Linked(blockCache)
      modifies this
      ensures Linked(blockCache)
      ensures blockCache == Inserted(old(blockCache), b) && missing == Needs(old(blockCache), b)
      ensures !missing.Any() ==> b.hash in blockCache && b.parent in blockCache && b.justify in blockCache
      ensures blockCache.Keys == old(blockCache).Keys + if missing.Any() then {} else {b.hash}
      ensures forall h | h in old(blockCache) :: blockCache[h] == old(blockCache)[h]
      ensures !missing.Any() && b.hash !in old(blockCache) ==>
        blockCache[b.hash].header == b && blockCache[b.hash].height == blockCache[b.parent].height + 1
    {
      missing := Missing(None, None);
      if b.parent !in blockCache {
        missing := missing.(parent := Some(b.parent));
      }
      if b.justify !in blockCache {
        missing := missing.(justify := Some(b.justify));
      }
      if missing.Any() {
        return;
      }
      InsertKeepsLinks(blockCache, b);
      if b.hash !in blockCache {
        blockCache := blockCache[b.hash := Stored(b, blockCache[b.parent].height + 1)];
      }
    }

    method GetBlock(h: Hash) returns (r: Option<Header>)
      requires Linked(blockCache)
      ensures r == if h in blockCache then Some(blockCache[h].header) else None
      ensures r.Some? ==> r.value.hash == h
    {
      if h !in blockCache {
        return None;
      }
      return Some(blockCache[h].header);
    }
  }
}
