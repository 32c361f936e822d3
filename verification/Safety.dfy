/** Agreement: what the vote rule and the lock rule of every honest replica add up
    to. */
module Safety {
  import opened Blocks
  import opened Quorum
  import opened ReplicaSpec
  import opened Network

  // ---- the vote log ----

  /** The lock a replica gets from a block it processes. */
  function LockedBy(b: Block): Block {
    Justify(Justify(b))
  }

  /** `lock` explains why a replica that had voted for `earlier` could later vote
      for `b`. */
  ghost predicate Explains(c: Config, votes: seq<Vote>, lock: Block, earlier: Block, b: Block)
    requires b.Block?
  {
    && Certified(c, votes, lock)
    && Height(lock) >= Height(LockedBy(earlier))
    && (Height(b.justify) > Height(lock) || IsAncestor(lock, b))
  }

  /** Vote number `i`, cast by an honest replica, obeys the vote rule with respect
      to every earlier vote of the same replica. */
  ghost predicate VoteOk(c: Config, votes: seq<Vote>, i: nat)
    requires i < |votes|
  {
    var b := votes[i].block;
    && b.Block? && WellFormed(b) && Stored(c, votes[..i], b)
    && forall j | 0 <= j < i && votes[j].voter == votes[i].voter ::
         && Height(votes[j].block) < Height(b)
         && exists lock :: Explains(c, votes[..i], lock, votes[j].block, b)
  }

  ghost predicate VotesOk(c: Config, votes: seq<Vote>) {
    forall i | 0 <= i < |votes| && votes[i].voter in c.Honest() :: VoteOk(c, votes, i)
  }

  lemma PrefixCertified(c: Config, votes: seq<Vote>, i: nat, b: Block)
    requires i <= |votes| && Certified(c, votes[..i], b)
    ensures Certified(c, votes, b)
  {
    VotersGrow(c, votes[..i], votes, b);
  }

  /** The moment a block first gets its quorum. */
  lemma {:induction false} FirstCertified(c: Config, votes: seq<Vote>, w: Block) returns (k: nat)
    requires w.Block? && Certified(c, votes, w)
    ensures k <= |votes| && Certified(c, votes[..k], w)
    ensures forall i | 0 <= i < k :: !Certified(c, votes[..i], w)
    decreases |votes|
  {
    assert votes[..|votes|] == votes;
    if i: nat :| i < |votes| && Certified(c, votes[..i], w) {
      k := FirstCertified(c, votes[..i], w);
      assert votes[..i][..k] == votes[..k];
      forall m | 0 <= m < k
        ensures !Certified(c, votes[..m], w)
      {
        assert votes[..i][..m] == votes[..m];
      }
    } else {
      k := |votes|;
    }
  }

  lemma VoteIndex(votes: seq<Vote>, v: Vote) returns (i: nat)
    requires v in votes
    ensures i < |votes| && votes[i] == v
  {
    i :| 0 <= i < |votes| && votes[i] == v;
  }

  /** Two certified blocks were both voted for by some honest replica. */
  lemma CommonVoter(c: Config, votes: seq<Vote>, k: nat, a: Block, w: Block) returns (j: nat, i: nat)
    requires c.Valid() && c.Tolerates() && k <= |votes|
    requires a.Block? && Certified(c, votes, a)
    requires w.Block? && Certified(c, votes[..k], w)
    ensures j < |votes| && i < k
    ensures votes[j].block == a && votes[i].block == w
    ensures votes[j].voter == votes[i].voter && votes[i].voter in c.Honest()
  {
    var r := CommonHonest(c, Voters(c, votes, a), Voters(c, votes[..k], w));
    j := VoteIndex(votes, Vote(r, a));
    i := VoteIndex(votes[..k], Vote(r, w));
  }

  /** Certificate uniqueness: two certified blocks never share a height. */
  lemma CertifiedUnique(c: Config, votes: seq<Vote>, a: Block, w: Block)
    requires c.Valid() && c.Tolerates() && VotesOk(c, votes)
    requires Certified(c, votes, a) && Certified(c, votes, w)
    requires Height(a) == Height(w)
    ensures a == w
  {
    if a.Block? {
      assert votes[..|votes|] == votes;
      var j, i := CommonVoter(c, votes, |votes|, a, w);
      assert VoteOk(c, votes, i) && VoteOk(c, votes, j);
    }
  }

  /** Certified blocks were voted for by an honest replica, so they are well formed
      and their own certificates verified. */
  lemma CertifiedWellFormed(c: Config, votes: seq<Vote>, w: Block)
    requires c.Valid() && c.Tolerates() && VotesOk(c, votes)
    requires Certified(c, votes, w)
    ensures WellFormed(w) && Stored(c, votes, w)
  {
    if w.Block? {
      assert votes[..|votes|] == votes;
      var j, i := CommonVoter(c, votes, |votes|, w, w);
      assert VoteOk(c, votes, i);
      StoredGrow(c, votes[..i], votes, w);
    }
  }

  /** `blk` is committed by the direct three-chain that ends in `blk2`. */
  ghost predicate ThreeChain(c: Config, votes: seq<Vote>, blk: Block, blk2: Block) {
    && blk2.Block? && blk2.parent == blk2.justify
    && var blk1 := blk2.justify;
    && blk1.Block? && blk1.parent == blk1.justify == blk
    && Certified(c, votes, blk2) && Certified(c, votes, blk1) && Certified(c, votes, blk)
  }

  ghost predicate Committed(c: Config, votes: seq<Vote>, blk: Block) {
    blk.Genesis? || exists blk2 :: ThreeChain(c, votes, blk, blk2)
  }

  lemma VoteOrder(c: Config, votes: seq<Vote>, j: nat, i: nat) returns (lock: Block)
    requires VotesOk(c, votes) && j < |votes| && i < |votes|
    requires votes[j].voter == votes[i].voter && votes[i].voter in c.Honest()
    requires Height(votes[j].block) < Height(votes[i].block)
    ensures votes[i].block.Block?
    ensures Explains(c, votes[..i], lock, votes[j].block, votes[i].block)
  {
    assert VoteOk(c, votes, i) && VoteOk(c, votes, j);
    lock :| Explains(c, votes[..i], lock, votes[j].block, votes[i].block);
  }

  /** A block certified above a certified `earlier` was voted for, before it had its
      quorum, by a replica that had already voted for `earlier`; the lock that let
      it do so is therefore another block. */
  lemma LaterVote(c: Config, votes: seq<Vote>, earlier: Block, w: Block) returns (lock: Block)
    requires c.Valid() && c.Tolerates() && VotesOk(c, votes)
    requires earlier.Block? && Certified(c, votes, earlier)
    requires w.Block? && Certified(c, votes, w) && Height(w) > Height(earlier)
    ensures Certified(c, votes, lock) && lock != w
    ensures Height(lock) >= Height(LockedBy(earlier))
    ensures Height(w.justify) > Height(lock) || IsAncestor(lock, w)
  {
    var k := FirstCertified(c, votes, w);
    var j, i := CommonVoter(c, votes, k, earlier, w);
    lock := VoteOrder(c, votes, j, i);
    PrefixCertified(c, votes, i, lock);
  }

  /** The heart of agreement: a certified block at or above a committed block
      descends from it. */
  lemma {:induction false} ThreeChainBinds(c: Config, votes: seq<Vote>, blk: Block, blk2: Block, w: Block)
    requires c.Valid() && c.Tolerates() && VotesOk(c, votes)
    requires ThreeChain(c, votes, blk, blk2)
    requires Certified(c, votes, w) && Height(w) >= Height(blk)
    ensures IsAncestor(blk, w)
    decreases Height(w)
  {
    if Height(w) == Height(blk) {
      CertifiedUnique(c, votes, blk, w);
    } else if Height(w) == Height(blk) + 1 {
      CertifiedUnique(c, votes, blk2.justify, w);
    } else if Height(w) == Height(blk2) {
      CertifiedUnique(c, votes, blk2, w);
    } else {
      CertifiedWellFormed(c, votes, w);
      JustifiesBelow(w);
      var lock := LaterVote(c, votes, blk2, w);
      var below := if Height(w.justify) > Height(lock) then w.justify else lock;
      VerifiesCertifies(c, votes, Certificate(w.justify, w.signers));
      AncestorHeight(below, w);
      ThreeChainBinds(c, votes, blk, blk2, below);
      AncestorTransitive(blk, below, w);
    }
  }

  lemma CommittedBinds(c: Config, votes: seq<Vote>, blk: Block, w: Block)
    requires c.Valid() && c.Tolerates() && VotesOk(c, votes)
    requires Committed(c, votes, blk) && Certified(c, votes, w) && Height(w) >= Height(blk)
    ensures IsAncestor(blk, w)
  {
    if blk.Genesis? {
      GenesisIsAncestor(w);
    } else {
      var blk2 :| ThreeChain(c, votes, blk, blk2);
      ThreeChainBinds(c, votes, blk, blk2, w);
    }
  }
}
