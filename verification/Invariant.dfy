/** What every step of a disciplined run keeps. */
module Invariant {
  import opened Blocks
  import opened Quorum
  import opened ReplicaSpec
  import opened Network
  import opened Safety

  /** The voting variables: `bExec` below `bLock` below `hqc`, all certified, the
      executed block committed, and the decided blocks exactly its ancestors. */
  ghost predicate ChainOk(c: Config, votes: seq<Vote>, s: Replica) {
    && Verifies(c, votes, s.hqc)
    && Certified(c, votes, s.bLock)
    && Committed(c, votes, s.bExec)
    && Height(s.bExec) <= Height(s.bLock) <= Height(s.hqc.block)
    && (s.bExec.Block? ==> Height(s.bExec) < Height(s.bLock))
    && s.decided == Ancestors(s.bExec)
    && s.applied == Chain(s.bExec)
    && s.status.Running?
  }

  /** The proposing variables: the leaf extends the block of the highest
      certificate, so a minted block is well formed wherever it arrives. */
  ghost predicate LeafOk(c: Config, votes: seq<Vote>, s: Replica) {
    && IsAncestor(s.hqc.block, s.bLeaf)
    && Stored(c, votes, s.bLeaf)
    && JustifiesAncestor(s.bLeaf)
    && forall b | b in s.selfQc :: s.selfQc[b] <= Voters(c, votes, b) && Nameable(s.selfQc[b])
  }

  /** The disk: saved blocks are closed under ancestors and saved with their
      bodies, and only long-decided blocks have lost theirs. */
  ghost predicate DiskOk(s: Replica) {
    && Genesis in s.written
    && (forall b | b in s.written && b.Block? :: b.parent in s.written && b in s.disk && s.disk[b])
    && s.bLock in s.written
    && s.bExec in s.written
    && (forall b | b in s.flushed && b.Block? :: Height(b) + KEEP_DEPTH < Height(s.bExec))
  }

  /** The decided index names the block of the executed chain at every height. */
  ghost predicate IndexOk(c: Config, votes: seq<Vote>, s: Replica) {
    && (forall h | h in s.index :: 1 <= h <= |Chain(s.bExec)|)
    && (forall h | 1 <= h <= |Chain(s.bExec)| :: h in s.index && s.index[h] == Chain(s.bExec)[h - 1])
    && (if s.bExec.Genesis? then s.topQc.None?
        else s.topQc.Some? && s.topQc.value.block == s.bExec && Verifies(c, votes, s.topQc.value))
  }

  ghost predicate ReplicaOk(c: Config, votes: seq<Vote>, s: Replica) {
    ChainOk(c, votes, s) && LeafOk(c, votes, s) && DiskOk(s) && IndexOk(c, votes, s)
  }

  /** What a replica remembers of the votes it cast. */
  ghost predicate Remembers(votes: seq<Vote>, r: ReplicaId, s: Replica) {
    forall i | 0 <= i < |votes| && votes[i].voter == r ::
      Height(votes[i].block) <= s.vheight && Height(LockedBy(votes[i].block)) <= Height(s.bLock)
  }

  ghost predicate SystemOk(c: Config, s: System) {
    && s.replicas.Keys == c.Honest()
    && VotesOk(c, s.votes)
    && forall r | r in s.replicas :: ReplicaOk(c, s.votes, s.replicas[r]) && Remembers(s.votes, r, s.replicas[r])
  }

  // ---- votes only accumulate ----

  lemma CommittedGrows(c: Config, votes: seq<Vote>, more: seq<Vote>, b: Block)
    requires votes <= more && Committed(c, votes, b)
    ensures Committed(c, more, b)
  {
    if b.Block? {
      var b2 :| ThreeChain(c, votes, b, b2);
      VotersGrow(c, votes, more, b2);
      VotersGrow(c, votes, more, b2.justify);
      VotersGrow(c, votes, more, b);
      assert ThreeChain(c, more, b, b2);
    }
  }

  lemma ReplicaOkGrows(c: Config, votes: seq<Vote>, more: seq<Vote>, s: Replica)
    requires votes <= more && ReplicaOk(c, votes, s)
    ensures ReplicaOk(c, more, s)
  {
    VerifiesGrow(c, votes, more, s.hqc);
    VotersGrow(c, votes, more, s.bLock);
    CommittedGrows(c, votes, more, s.bExec);
    StoredGrow(c, votes, more, s.bLeaf);
    forall b | b in s.selfQc
      ensures s.selfQc[b] <= Voters(c, more, b) && Nameable(s.selfQc[b])
    {
      VotersGrow(c, votes, more, b);
    }
    if s.topQc.Some? && s.bExec.Block? {
      VerifiesGrow(c, votes, more, s.topQc.value);
    }
  }

  lemma VoteOkGrows(c: Config, votes: seq<Vote>, more: seq<Vote>, i: nat)
    requires votes <= more && i < |votes| && VoteOk(c, votes, i)
    ensures VoteOk(c, more, i)
  {
    assert more[..i] == votes[..i];
    forall j | 0 <= j < i && more[j].voter == more[i].voter
      ensures Height(more[j].block) < Height(more[i].block)
      ensures exists lock :: Explains(c, more[..i], lock, more[j].block, more[i].block)
    {
      assert votes[j].voter == votes[i].voter;
      var lock :| Explains(c, votes[..i], lock, votes[j].block, votes[i].block);
      assert Explains(c, more[..i], lock, more[j].block, more[i].block);
    }
  }

  lemma VotesOkAppend(c: Config, votes: seq<Vote>, v: Vote)
    requires VotesOk(c, votes)
    requires v.voter in c.Honest() ==> VoteOk(c, votes + [v], |votes|)
    ensures VotesOk(c, votes + [v])
  {
    var more := votes + [v];
    forall i | 0 <= i < |more| && more[i].voter in c.Honest()
      ensures VoteOk(c, more, i)
    {
      if i < |votes| {
        assert VoteOk(c, votes, i);
        VoteOkGrows(c, votes, more, i);
      }
    }
  }

  /** A vote cast by the rule extends the log correctly: the current lock explains
      it with respect to all earlier votes. */
  lemma CastVoteOk(c: Config, votes: seq<Vote>, r: ReplicaId, s: Replica, b: Block)
    requires VotesOk(c, votes) && ChainOk(c, votes, s) && Remembers(votes, r, s)
    requires b.Block? && WellFormed(b) && Stored(c, votes, b) && WillVote(s, b)
    ensures VotesOk(c, votes + [Vote(r, b)])
  {
    var more := votes + [Vote(r, b)];
    assert more[..|votes|] == votes;
    forall j | 0 <= j < |votes| && more[j].voter == r
      ensures Height(more[j].block) < Height(b)
      ensures exists lock :: Explains(c, votes, lock, more[j].block, b)
    {
      assert votes[j].voter == r;
      assert Explains(c, votes, s.bLock, votes[j].block, b);
    }
    VotesOkAppend(c, votes, Vote(r, b));
  }

  // ---- writing to disk ----

  lemma {:induction false} WrittenClosed(s: Replica, b: Block)
    requires DiskOk(s) && b in s.written
    ensures Ancestors(b) <= s.written
  {
    if b.Block? {
      WrittenClosed(s, b.parent);
    }
  }

  /** Saving the lock keeps the disk correct: everything it newly saves lies above
      the executed block, so no body is missing. */
  lemma SaveLockOk(c: Config, votes: seq<Vote>, s: Replica, lock: Block)
    requires c.Valid() && c.Tolerates() && VotesOk(c, votes) && ReplicaOk(c, votes, s)
    requires Certified(c, votes, lock) && Height(lock) >= Height(s.bExec)
    ensures var t := WriteToDisk(s.(bLock := lock), lock);
      && t == s.(bLock := lock, written := t.written, disk := t.disk)
      && t.written == s.written + Ancestors(lock)
      && DiskOk(t)
  {
    var s0 := s.(bLock := lock);
    forall x | x in s0.written && IsAncestor(x, lock)
      ensures Ancestors(x) <= s0.written
    {
      WrittenClosed(s, x);
    }
    WriteToDiskSaves(s0, lock);
    var t := WriteToDisk(s0, lock);
    CommittedBinds(c, votes, s.bExec, lock);
    WrittenClosed(s, s.bExec);
    forall x | x in t.written && x.Block?
      ensures x.parent in t.written && x in t.disk && t.disk[x]
    {
      if x !in s.written {
        AncestorsAreAncestors(x, lock);
        AncestorTransitive(x.parent, x, lock);
        AncestorsAreAncestors(x.parent, lock);
        if Height(x) <= Height(s.bExec) {
          AncestorsOrdered(x, s.bExec, lock);
          AncestorsAreAncestors(x, s.bExec);
        }
      }
    }
    AncestorsAreAncestors(lock, lock);
  }

  // ---- committing ----

  lemma {:induction false} ApplyAllUnflushed(s: Replica, path: seq<Block>)
    requires forall b | b in path :: b !in s.flushed
    ensures ApplyAll(s, path) == s.(decided := s.decided + (set b | b in path), applied := s.applied + path)
    decreases path
  {
    if path != [] {
      var s1 := s.(decided := s.decided + {path[0]}, applied := s.applied + [path[0]]);
      ApplyAllUnflushed(s1, path[1..]);
      assert {path[0]} + (set b | b in path[1..]) == set b | b in path;
      assert s1.applied + path[1..] == s.applied + path;
      assert s1.decided + (set b | b in path[1..]) == s.decided + (set b | b in path);
    } else {
      assert s.applied + path == s.applied;
      assert s.decided + (set b | b in path) == s.decided;
    }
  }

  lemma DecidedGrows(a: Block, b: Block)
    requires IsAncestor(a, b)
    ensures Ancestors(a) + (set x | x in Path(a, b)) == Ancestors(b)
  {
    forall x
      ensures x in Ancestors(b) <==> x in Ancestors(a) || x in Path(a, b)
    {
      PathCovers(a, b, x);
      AncestorsAreAncestors(x, a);
      AncestorsAreAncestors(x, b);
      if IsAncestor(x, a) {
        AncestorTransitive(x, a, b);
      }
    }
  }

  lemma {:induction false} IndexAllAppend(index: map<nat, Block>, path: seq<Block>, b: Block)
    ensures IndexAll(index, path + [b]) == IndexAll(index, path)[Height(b) := b]
    decreases path
  {
    if path == [] {
      assert path + [b] == [b];
    } else {
      assert (path + [b])[1..] == path[1..] + [b];
      IndexAllAppend(index[Height(path[0]) := path[0]], path[1..], b);
    }
  }

  ghost predicate Indexes(index: map<nat, Block>, b: Block) {
    && (forall h | h in index :: 1 <= h <= |Chain(b)|)
    && (forall h | 1 <= h <= |Chain(b)| :: h in index && index[h] == Chain(b)[h - 1])
  }

  lemma {:induction false} IndexAllIndexes(index: map<nat, Block>, a: Block, b: Block)
    requires IsAncestor(a, b) && Indexes(index, a)
    ensures Indexes(IndexAll(index, Path(a, b)), b)
  {
    if a != b {
      IndexAllIndexes(index, a, b.parent);
      IndexAllAppend(index, Path(a, b.parent), b);
      ChainLength(b.parent);
    }
  }

  /** A commit that the three-chain rule allows never throws: not "safety
      breached", and not for want of a body. */
  lemma CommitOk(c: Config, votes: seq<Vote>, s: Replica, blk: Block, blk2: Block)
    requires c.Valid() && c.Tolerates() && VotesOk(c, votes) && ReplicaOk(c, votes, s)
    requires ThreeChain(c, votes, blk, blk2) && Verifies(c, votes, Certificate(blk, blk2.justify.signers))
    requires blk !in s.decided && Height(blk2.justify) <= Height(s.bLock)
    ensures var t := Commit(s, blk, Certificate(blk, blk2.justify.signers));
      && t.status.Running?
      && IsAncestor(s.bExec, blk)
      && t.hqc == s.hqc && t.bLock == s.bLock && t.bLeaf == s.bLeaf && t.vheight == s.vheight
      && t.bExec == blk
      && ReplicaOk(c, votes, t)
  {
    var qc := Certificate(blk, blk2.justify.signers);
    assert blk.Block? by {
      AncestorsAreAncestors(Genesis, s.bExec);
      GenesisIsAncestor(s.bExec);
    }
    assert Committed(c, votes, blk);
    CommittedCertified(c, votes, s.bExec);
    if Height(s.bExec) >= Height(blk) {
      CommittedBinds(c, votes, blk, s.bExec);
      AncestorsAreAncestors(blk, s.bExec);
      assert false;
    }
    CommittedBinds(c, votes, s.bExec, blk);
    var path := Path(s.bExec, blk);
    forall b | b in path
      ensures b !in s.flushed
    {
      PathHeights(s.bExec, blk, b);
    }
    ApplyAllUnflushed(s, path);
    DecidedGrows(s.bExec, blk);
    ChainGrows(s.bExec, blk);
    IndexAllIndexes(s.index, s.bExec, blk);
    CommittedBinds(c, votes, blk, s.bLock);
    WrittenClosed(s, s.bLock);
    AncestorsAreAncestors(blk, s.bLock);
  }

  lemma CommittedCertified(c: Config, votes: seq<Vote>, b: Block)
    requires Committed(c, votes, b)
    ensures Certified(c, votes, b)
  {
    if b.Block? {
      var b2 :| ThreeChain(c, votes, b, b2);
    }
  }

  // ---- one event ----

  lemma UpdateHqcOk(c: Config, votes: seq<Vote>, s: Replica, qc: Certificate)
    requires ReplicaOk(c, votes, s)
    requires Verifies(c, votes, qc) && Stored(c, votes, qc.block) && JustifiesAncestor(qc.block)
    ensures var t := UpdateHqc(s, qc);
      && ReplicaOk(c, votes, t)
      && Height(t.hqc.block) >= Height(qc.block)
      && t == s.(hqc := t.hqc, bLeaf := t.bLeaf)
  {
  }

  /** Everything `update` keeps, and the lock it leaves behind. */
  lemma UpdateOk(c: Config, votes: seq<Vote>, s: Replica, b: Block)
    requires c.Valid() && c.Tolerates() && VotesOk(c, votes) && ReplicaOk(c, votes, s)
    requires b.Block? && WellFormed(b) && Stored(c, votes, b)
    ensures var t := Update(s, b);
      && ReplicaOk(c, votes, t)
      && t.vheight == s.vheight
      && Height(LockedBy(b)) <= Height(t.bLock)
      && Height(s.bLock) <= Height(t.bLock)
      && Height(s.hqc.block) <= Height(t.hqc.block)
      && IsAncestor(s.bExec, t.bExec)
  {
    var blk2 := b.justify;
    if blk2 in s.decided {
      DecidedLow(s, blk2);
      if blk2.Block? {
        JustifiesBelow(blk2);
      }
    } else {
      assert blk2.Block? by {
        AncestorsAreAncestors(Genesis, s.bExec);
        GenesisIsAncestor(s.bExec);
      }
      var qc := Certificate(blk2, b.signers);
      UpdateHqcOk(c, votes, s, qc);
      VerifiesCertifies(c, votes, qc);
      CertifiedWellFormed(c, votes, blk2);
      LockAndCommitOk(c, votes, UpdateHqc(s, qc), blk2);
    }
  }

  lemma DecidedLow(s: Replica, b: Block)
    requires s.decided == Ancestors(s.bExec) && b in s.decided
    ensures Height(b) <= Height(s.bExec)
  {
    AncestorsAreAncestors(b, s.bExec);
    AncestorHeight(b, s.bExec);
  }

  /** Locking and committing after a certificate on `blk2`. */
  lemma LockAndCommitOk(c: Config, votes: seq<Vote>, s: Replica, blk2: Block)
    requires c.Valid() && c.Tolerates() && VotesOk(c, votes) && ReplicaOk(c, votes, s)
    requires blk2.Block? && WellFormed(blk2) && Stored(c, votes, blk2) && Certified(c, votes, blk2)
    requires Height(s.hqc.block) >= Height(blk2)
    ensures var t := LockAndCommit(s, blk2);
      && ReplicaOk(c, votes, t)
      && t.vheight == s.vheight
      && Height(blk2.justify) <= Height(t.bLock)
      && Height(s.bLock) <= Height(t.bLock)
      && t.hqc == s.hqc
      && IsAncestor(s.bExec, t.bExec)
  {
    var blk1 := blk2.justify;
    JustifiesBelow(blk2);
    if blk1 in s.decided {
      DecidedLow(s, blk1);
    } else {
      VerifiesCertifies(c, votes, Certificate(blk1, blk2.signers));
      LockOk(c, votes, s, blk1);
      if Commits(s, blk2) {
        VerifiesCertifies(c, votes, Certificate(blk1.justify, blk1.signers));
        CommitOk(c, votes, Lock(s, blk1), blk1.justify, blk2);
      }
    }
  }

  lemma LockOk(c: Config, votes: seq<Vote>, s: Replica, blk1: Block)
    requires c.Valid() && c.Tolerates() && VotesOk(c, votes) && ReplicaOk(c, votes, s)
    requires Certified(c, votes, blk1) && Height(blk1) < Height(s.hqc.block)
    ensures var t := Lock(s, blk1);
      && ReplicaOk(c, votes, t)
      && t == s.(bLock := t.bLock, written := t.written, disk := t.disk)
      && Height(t.bLock) >= Height(blk1) && Height(t.bLock) >= Height(s.bLock)
  {
    var lock := if Height(blk1) > Height(s.bLock) then blk1 else s.bLock;
    SaveLockOk(c, votes, s, lock);
  }
}
