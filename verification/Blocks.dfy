/** The block tree of the replicated log. */
module Blocks {

  type ReplicaId = nat

  /** A block is named by the hash of its header, and the header holds the hash
      of the parent, the quorum certificate (the hash of the justify block and
      the replicas whose signatures it carries) and the hash of the body.  Under
      an injective hash a header determines the whole tree below it, so a block
      is a finite tree.  `rest` stands for whatever else the header fixes (body
      hash, raw signature bytes). */
  datatype Block = Genesis | Block(parent: Block, justify: Block, signers: set<ReplicaId>, rest: nat)

  /** The height that `set_parent` gives a block: its distance from genesis. */
  function Height(b: Block): nat {
    if b.Genesis? then 0 else Height(b.parent) + 1
  }

  /** `a` is `b` or lies below it along parent links. */
  predicate IsAncestor(a: Block, b: Block) {
    a == b || (b.Block? && IsAncestor(a, b.parent))
  }

  /** The blocks of the parent chain that ends in `b`, genesis left out. */
  function Chain(b: Block): seq<Block> {
    if b.Genesis? then [] else Chain(b.parent) + [b]
  }

  /** All blocks of the parent chain of `b`, genesis included. */
  function Ancestors(b: Block): set<Block> {
    {b} + if b.Genesis? then {} else Ancestors(b.parent)
  }

  /** The blocks strictly above `a` up to and including `b`, lowest first. */
  function Path(a: Block, b: Block): seq<Block>
    requires IsAncestor(a, b)
  {
    if a == b then [] else Path(a, b.parent) + [b]
  }

  /** The justify block of a block; genesis has none and stands for itself. */
  function Justify(b: Block): Block {
    if b.Genesis? then Genesis else b.justify
  }

  /** Every certificate inside `b` points at a proper ancestor of the block that
      carries it.  `BlockStore::insert_block` does not test this. */
  predicate JustifiesAncestor(b: Block) {
    b.Genesis? || (
      && IsAncestor(b.justify, b.parent)
      && JustifiesAncestor(b.parent)
      && JustifiesAncestor(b.justify)
    )
  }

  lemma {:induction false} AncestorHeight(a: Block, b: Block)
    requires IsAncestor(a, b)
    ensures Height(a) <= Height(b)
    ensures Height(a) == Height(b) ==> a == b
  {
    if a != b {
      AncestorHeight(a, b.parent);
    }
  }

  lemma {:induction false} AncestorTransitive(a: Block, b: Block, c: Block)
    requires IsAncestor(a, b) && IsAncestor(b, c)
    ensures IsAncestor(a, c)
  {
    if b != c {
      AncestorTransitive(a, b, c.parent);
    }
  }

  /** Two ancestors of one block lie on one chain, ordered by height. */
  lemma {:induction false} AncestorsOrdered(a: Block, b: Block, c: Block)
    requires IsAncestor(a, c) && IsAncestor(b, c)
    requires Height(a) <= Height(b)
    ensures IsAncestor(a, b)
  {
    if b != c {
      if a == c {
        AncestorHeight(b, c);
      } else {
        AncestorsOrdered(a, b, c.parent);
      }
    }
  }

  lemma {:induction false} GenesisIsAncestor(b: Block)
    ensures IsAncestor(Genesis, b)
  {
    if b.Block? {
      GenesisIsAncestor(b.parent);
    }
  }

  lemma {:induction false} AncestorsAreAncestors(a: Block, b: Block)
    ensures a in Ancestors(b) <==> IsAncestor(a, b)
  {
    if b.Block? {
      AncestorsAreAncestors(a, b.parent);
    }
  }

  lemma {:induction false} ChainLength(b: Block)
    ensures |Chain(b)| == Height(b)
  {
    if b.Block? {
      ChainLength(b.parent);
    }
  }

  /** The chain lists exactly the proper-height ancestors, one per height, each
      the parent of the next. */
  lemma {:induction false} ChainAt(b: Block, i: nat)
    requires i < |Chain(b)|
    ensures IsAncestor(Chain(b)[i], b) && Chain(b)[i].Block?
    ensures Height(Chain(b)[i]) == i + 1
    ensures Chain(b)[i].parent == if i == 0 then Genesis else Chain(b)[i - 1]
  {
    ChainLength(b);
    ChainLength(b.parent);
    if i < |Chain(b)| - 1 {
      ChainAt(b.parent, i);
    } else if i > 0 {
      ChainAt(b.parent, i - 1);
      assert Chain(b)[i - 1] == Chain(b.parent)[i - 1];
      var p := b.parent;
      assert Chain(p) == Chain(p.parent) + [p];
      ChainLength(p.parent);
      assert Chain(p)[i - 1] == p;
    }
  }

  /** Lying on one chain is the same as one committed log being a prefix of the
      other. */
  lemma {:induction false} PrefixIffAncestor(a: Block, b: Block)
    ensures Chain(a) <= Chain(b) <==> IsAncestor(a, b)
  {
    ChainLength(a);
    ChainLength(b);
    if Chain(a) <= Chain(b) {
      if a.Block? {
        ChainAt(a, |Chain(a)| - 1);
        ChainAt(b, |Chain(a)| - 1);
        AncestorHeight(Chain(a)[|Chain(a)| - 1], a);
      } else {
        GenesisIsAncestor(b);
      }
    }
    if IsAncestor(a, b) {
      ChainGrows(a, b);
    }
  }

  lemma {:induction false} ChainGrows(a: Block, b: Block)
    requires IsAncestor(a, b)
    ensures Chain(a) <= Chain(b)
    ensures Chain(b) == Chain(a) + Path(a, b)
  {
    if a != b {
      ChainGrows(a, b.parent);
    }
  }

  /** The path covers what the longer chain adds, and no more. */
  lemma {:induction false} PathCovers(a: Block, b: Block, x: Block)
    requires IsAncestor(a, b)
    ensures x in Path(a, b) <==> IsAncestor(x, b) && !IsAncestor(x, a)
  {
    if a == b {
    } else {
      PathCovers(a, b.parent, x);
      if x == b && IsAncestor(x, a) {
        AncestorHeight(x, a);
        AncestorHeight(a, b.parent);
      }
      assert Path(a, b) == Path(a, b.parent) + [b];
    }
  }

  lemma {:induction false} PathHeights(a: Block, b: Block, x: Block)
    requires IsAncestor(a, b) && x in Path(a, b)
    ensures Height(x) > Height(a)
  {
    PathCovers(a, b, x);
    if Height(x) <= Height(a) {
      AncestorsOrdered(x, a, b);
    }
  }

  lemma {:induction false} JustifiesBelow(b: Block)
    requires JustifiesAncestor(b) && b.Block?
    ensures IsAncestor(b.justify, b)
    ensures Height(b.justify) < Height(b)
  {
    AncestorHeight(b.justify, b.parent);
  }

  lemma {:induction false} JustifiesAncestorDown(a: Block, b: Block)
    requires JustifiesAncestor(b) && IsAncestor(a, b)
    ensures JustifiesAncestor(a)
  {
    if a != b {
      JustifiesAncestorDown(a, b.parent);
    }
  }

  /** The walk towards genesis that the vote rule and the commit rule both use:
      comparing its end with a block tests ancestry. */
  method WalkDown(from: Block, to: Block) returns (b: Block)
    ensures b == to <==> IsAncestor(to, from)
    ensures IsAncestor(b, from)
  {
    b := from;
    while Height(b) > Height(to)
      invariant IsAncestor(b, from)
      invariant IsAncestor(to, from) ==> IsAncestor(to, b)
      decreases Height(b)
    {
      AncestorTransitive(b.parent, b, from);
      b := b.parent;
    }
    if IsAncestor(to, b) {
      AncestorHeight(to, b);
    }
  }
}
