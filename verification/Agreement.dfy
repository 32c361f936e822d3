/** The theorems about whole runs. */
module Agreement {
  import opened Blocks
  import opened Quorum
  import opened ReplicaSpec
  import opened Network
  import opened Safety
  import opened Invariant

  /** What a step may do to a replica: heights never fall and the executed chain
      only grows. */
  ghost predicate Advances(s: Replica, t: Replica) {
    && IsAncestor(s.bExec, t.bExec)
    && Height(s.bLock) <= Height(t.bLock)
    && Height(s.hqc.block) <= Height(t.hqc.block)
    && s.vheight <= t.vheight
  }

  ghost predicate SystemAdvances(s: System, t: System) {
    && s.votes <= t.votes
    && t.replicas.Keys == s.replicas.Keys
    && forall r | r in s.replicas :: Advances(s.replicas[r], t.replicas[r])
  }

  lemma InitialOk(c: Config)
    ensures SystemOk(c, Initial(c))
  {
  }

  lemma OtherReplicaOk(c: Config, votes: seq<Vote>, more: seq<Vote>, q: ReplicaId, s: Replica)
    requires votes <= more && ReplicaOk(c, votes, s) && Remembers(votes, q, s)
    requires |more| == |votes| || (|more| == |votes| + 1 && more[|votes|].voter != q)
    ensures ReplicaOk(c, more, s) && Remembers(more, q, s)
  {
    ReplicaOkGrows(c, votes, more, s);
    forall i | 0 <= i < |more| && more[i].voter == q
      ensures Height(more[i].block) <= s.vheight && Height(LockedBy(more[i].block)) <= Height(s.bLock)
    {
      assert i < |votes|;
      assert more[i] == votes[i];
    }
  }

  /** The replica of the event changes, the others only see more votes. */
  lemma OneReplicaStep(c: Config, s: System, votes: seq<Vote>, r: ReplicaId, t: Replica)
    requires SystemOk(c, s) && r in s.replicas && s.votes <= votes && VotesOk(c, votes)
    requires |votes| == |s.votes| || (|votes| == |s.votes| + 1 && votes[|s.votes|].voter == r)
    requires ReplicaOk(c, votes, t) && Remembers(votes, r, t) && Advances(s.replicas[r], t)
    ensures SystemOk(c, System(votes, s.replicas[r := t]))
    ensures SystemAdvances(s, System(votes, s.replicas[r := t]))
  {
    forall q | q in s.replicas && q != r
      ensures ReplicaOk(c, votes, s.replicas[q]) && Remembers(votes, q, s.replicas[q])
    {
      OtherReplicaOk(c, s.votes, votes, q, s.replicas[q]);
    }
  }

  lemma VheightFree(c: Config, votes: seq<Vote>, s: Replica, h: nat)
    requires ReplicaOk(c, votes, s)
    ensures ReplicaOk(c, votes, s.(vheight := h))
  {
  }

  lemma SelfQcOk(c: Config, votes: seq<Vote>, s: Replica, b: Block, signers: set<ReplicaId>)
    requires ReplicaOk(c, votes, s) && signers <= Voters(c, votes, b) && Nameable(signers)
    ensures ReplicaOk(c, votes, s.(selfQc := s.selfQc[b := signers]))
  {
    SelfQcLeafOk(c, votes, s, b, signers);
    SelfQcFrame(c, votes, s, s.(selfQc := s.selfQc[b := signers]));
  }

  lemma SelfQcLeafOk(c: Config, votes: seq<Vote>, s: Replica, b: Block, signers: set<ReplicaId>)
    requires LeafOk(c, votes, s) && signers <= Voters(c, votes, b) && Nameable(signers)
    ensures LeafOk(c, votes, s.(selfQc := s.selfQc[b := signers]))
  {
  }

  lemma SelfQcFrame(c: Config, votes: seq<Vote>, s: Replica, t: Replica)
    requires ChainOk(c, votes, s) && DiskOk(s) && IndexOk(c, votes, s) && t == s.(selfQc := t.selfQc)
    ensures ChainOk(c, votes, t) && DiskOk(t) && IndexOk(c, votes, t)
  {
  }

  /** The effect on a replica of a proposal it votes for: first the vote ... */
  lemma VoteCast(c: Config, votes: seq<Vote>, r: ReplicaId, s: Replica, b: Block)
    requires VotesOk(c, votes) && ReplicaOk(c, votes, s) && Remembers(votes, r, s)
    requires b.Block? && Stored(c, votes, b) && WellFormed(b) && WillVote(s, b)
    ensures var more := votes + [Vote(r, b)];
      VotesOk(c, more) && ReplicaOk(c, more, s.(vheight := Height(b))) && Stored(c, more, b)
  {
    var more := votes + [Vote(r, b)];
    CastVoteOk(c, votes, r, s, b);
    VheightFree(c, votes, s, Height(b));
    ReplicaOkGrows(c, votes, more, s.(vheight := Height(b)));
    StoredGrow(c, votes, more, b);
  }

  /** ... then the update. */
  lemma VotedProposalOk(c: Config, votes: seq<Vote>, r: ReplicaId, s: Replica, b: Block, t: Replica)
    requires c.Valid() && c.Tolerates() && VotesOk(c, votes) && ReplicaOk(c, votes, s) && Remembers(votes, r, s)
    requires b.Block? && Stored(c, votes, b) && WellFormed(b) && WillVote(s, b)
    requires t == OnReceiveProposal(s, b)
    ensures var more := votes + [Vote(r, b)];
      VotesOk(c, more) && ReplicaOk(c, more, t) && Remembers(more, r, t) && Advances(s, t)
  {
    var more := votes + [Vote(r, b)];
    VoteCast(c, votes, r, s, b);
    VheightFits(s, b);
    UpdateOk(c, more, s.(vheight := Height(b)), b);
    RemembersAfter(votes, more, r, s, t, b);
  }

  lemma VheightFits(s: Replica, b: Block)
    requires b.Block? && WellFormed(b) && WillVote(s, b)
    ensures OnReceiveProposal(s, b) == Update(s.(vheight := Height(b)), b)
  {
    TruncatedFits(Height(b));
  }

  lemma VotedProposalStep(c: Config, s: System, r: ReplicaId, b: Block)
    requires c.Valid() && c.Tolerates() && SystemOk(c, s)
    requires Enabled(c, s, Proposal(r, b)) && WellFormed(b) && WillVote(s.replicas[r], b)
    ensures SystemOk(c, Apply(c, s, Proposal(r, b)))
    ensures SystemAdvances(s, Apply(c, s, Proposal(r, b)))
  {
    var t := OnReceiveProposal(s.replicas[r], b);
    VotedProposalOk(c, s.votes, r, s.replicas[r], b, t);
    OneReplicaStep(c, s, s.votes + [Vote(r, b)], r, t);
  }

  lemma ProposalStep(c: Config, s: System, r: ReplicaId, b: Block)
    requires c.Valid() && c.Tolerates() && SystemOk(c, s)
    requires Enabled(c, s, Proposal(r, b)) && WellFormed(b)
    ensures SystemOk(c, Apply(c, s, Proposal(r, b)))
    ensures SystemAdvances(s, Apply(c, s, Proposal(r, b)))
  {
    if WillVote(s.replicas[r], b) {
      VotedProposalStep(c, s, r, b);
    } else {
      UpdateOk(c, s.votes, s.replicas[r], b);
      OneReplicaStep(c, s, s.votes, r, Update(s.replicas[r], b));
    }
  }

  lemma RemembersAfter(votes: seq<Vote>, more: seq<Vote>, r: ReplicaId, s: Replica, t: Replica, b: Block)
    requires more == votes + [Vote(r, b)] && Remembers(votes, r, s)
    requires s.vheight <= t.vheight && Height(s.bLock) <= Height(t.bLock)
    requires Height(b) <= t.vheight && Height(LockedBy(b)) <= Height(t.bLock)
    ensures Remembers(more, r, t)
  {
    forall i | 0 <= i < |more| && more[i].voter == r
      ensures Height(more[i].block) <= t.vheight && Height(LockedBy(more[i].block)) <= Height(t.bLock)
    {
      if i < |votes| {
        assert more[i] == votes[i];
      }
    }
  }

  /** The effect of a vote on the replica that collects it. */
  lemma VoteMessageOk(c: Config, votes: seq<Vote>, s: Replica, b: Block, voter: ReplicaId)
    requires ReplicaOk(c, votes, s)
    requires voter in Voters(c, votes, b) && Stored(c, votes, b) && JustifiesAncestor(b)
    ensures ReplicaOk(c, votes, OnReceiveVote(c, s, b, voter))
  {
    if voter < MAX_REPLICAS {
      var after := SelfQc(s, b) + {voter};
      SelfQcGrows(c, votes, s, b, voter);
      SelfQcOk(c, votes, s, b, after);
      if |after| >= c.NMajority() {
        NewQcOk(c, votes, s.(selfQc := s.selfQc[b := after]), b, after);
      }
      VoteCases(c, s, b, voter, after);
    }
  }

  lemma SelfQcGrows(c: Config, votes: seq<Vote>, s: Replica, b: Block, voter: ReplicaId)
    requires LeafOk(c, votes, s) && voter in Voters(c, votes, b) && voter < MAX_REPLICAS
    ensures var after := SelfQc(s, b) + {voter}; after <= Voters(c, votes, b) && Nameable(after)
  {
  }

  /** A vote changes the block's own certificate, and perhaps the highest one. */
  lemma VoteCases(c: Config, s: Replica, b: Block, voter: ReplicaId, after: set<ReplicaId>)
    requires voter < MAX_REPLICAS && after == SelfQc(s, b) + {voter}
    ensures var s1, t := s.(selfQc := s.selfQc[b := after]), OnReceiveVote(c, s, b, voter);
      t == s1 || (|after| >= c.NMajority() && t == UpdateHqc(s1, Certificate(b, after)))
  {
  }

  lemma NewQcOk(c: Config, votes: seq<Vote>, s: Replica, b: Block, signers: set<ReplicaId>)
    requires ReplicaOk(c, votes, s) && Stored(c, votes, b) && JustifiesAncestor(b)
    requires signers <= Voters(c, votes, b) && Nameable(signers) && |signers| >= c.NMajority()
    ensures ReplicaOk(c, votes, UpdateHqc(s, Certificate(b, signers)))
  {
    assert signers * Voters(c, votes, b) == signers;
    UpdateHqcOk(c, votes, s, Certificate(b, signers));
  }

  lemma VoteMessageFrame(c: Config, s: Replica, b: Block, voter: ReplicaId)
    ensures var t := OnReceiveVote(c, s, b, voter);
      Advances(s, t) && t.vheight == s.vheight && t.bLock == s.bLock
  {
  }

  lemma VoteMessageStep(c: Config, s: System, r: ReplicaId, b: Block, voter: ReplicaId)
    requires c.Valid() && SystemOk(c, s)
    requires Enabled(c, s, VoteMessage(r, b, voter)) && WellFormed(b)
    ensures SystemOk(c, Apply(c, s, VoteMessage(r, b, voter)))
    ensures SystemAdvances(s, Apply(c, s, VoteMessage(r, b, voter)))
  {
    VoteMessageOk(c, s.votes, s.replicas[r], b, voter);
    VoteMessageFrame(c, s.replicas[r], b, voter);
    OneReplicaStep(c, s, s.votes, r, OnReceiveVote(c, s.replicas[r], b, voter));
  }

  /** Everything a replica mints is well formed and verifies at every replica. */
  lemma MintedOk(c: Config, votes: seq<Vote>, s: Replica, rest: nat)
    requires ReplicaOk(c, votes, s)
    ensures var b := Minted(s, rest);
      JustifiesAncestor(b) && Stored(c, votes, b) && Height(b) == Height(s.bLeaf) + 1
    ensures ReplicaOk(c, votes, Propose(s, rest))
  {
    JustifiesAncestorDown(s.hqc.block, s.bLeaf);
    StoredDown(c, votes, s.hqc.block, s.bLeaf);
  }

  lemma {:induction false} StoredDown(c: Config, votes: seq<Vote>, a: Block, b: Block)
    requires Stored(c, votes, b) && IsAncestor(a, b)
    ensures Stored(c, votes, a)
  {
    if a != b {
      StoredDown(c, votes, a, b.parent);
    }
  }

  lemma FaultyVoteStep(c: Config, s: System, v: Vote)
    requires SystemOk(c, s) && v.voter !in c.Honest()
    ensures SystemOk(c, s.(votes := s.votes + [v]))
  {
    VotesOkAppend(c, s.votes, v);
    forall q | q in s.replicas
      ensures ReplicaOk(c, s.votes + [v], s.replicas[q]) && Remembers(s.votes + [v], q, s.replicas[q])
    {
      OtherReplicaOk(c, s.votes, s.votes + [v], q, s.replicas[q]);
    }
  }

  lemma FlushOk(c: Config, votes: seq<Vote>, s: Replica, b: Block)
    requires ReplicaOk(c, votes, s) && MayFlush(s, b)
    ensures ReplicaOk(c, votes, Flush(s, b))
  {
    FlushDiskOk(s, b);
    FlushFrame(c, votes, s, Flush(s, b));
  }

  lemma FlushDiskOk(s: Replica, b: Block)
    requires DiskOk(s) && MayFlush(s, b)
    ensures DiskOk(Flush(s, b))
  {
  }

  lemma FlushFrame(c: Config, votes: seq<Vote>, s: Replica, t: Replica)
    requires ChainOk(c, votes, s) && LeafOk(c, votes, s) && IndexOk(c, votes, s) && t == s.(flushed := t.flushed)
    ensures ChainOk(c, votes, t) && LeafOk(c, votes, t) && IndexOk(c, votes, t)
  {
  }

  /** Every disciplined step keeps the invariant. */
  lemma StepOk(c: Config, s: System, e: Event)
    requires c.Valid() && c.Tolerates() && SystemOk(c, s) && Enabled(c, s, e) && Disciplined(e)
    ensures SystemOk(c, Apply(c, s, e))
    ensures SystemAdvances(s, Apply(c, s, e))
  {
    match e
    case FaultyVote(voter, b) => FaultyVoteStep(c, s, Vote(voter, b));
    case Proposal(r, b) => ProposalStep(c, s, r, b);
    case VoteMessage(r, b, voter) => VoteMessageStep(c, s, r, b, voter);
    case Mint(r, rest) =>
      MintedOk(c, s.votes, s.replicas[r], rest);
      OneReplicaStep(c, s, s.votes, r, Propose(s.replicas[r], rest));
    case Collect(r, b) =>
      FlushOk(c, s.votes, s.replicas[r], b);
      OneReplicaStep(c, s, s.votes, r, Flush(s.replicas[r], b));
  }

  /** Every state of a disciplined run satisfies the invariant. */
  lemma {:induction false} RunOk(c: Config, run: Run, i: nat)
    requires c.Valid() && c.Tolerates() && DisciplinedRun(c, run) && i < |run.states|
    ensures SystemOk(c, run.states[i])
    ensures i > 0 ==> SystemAdvances(run.states[i - 1], run.states[i])
  {
    if i == 0 {
      InitialOk(c);
    } else {
      RunOk(c, run, i - 1);
      assert IsStep(c, run, i - 1);
      StepOk(c, run.states[i - 1], run.events[i - 1]);
    }
  }

  lemma SystemAdvancesTransitive(s: System, t: System, u: System)
    requires SystemAdvances(s, t) && SystemAdvances(t, u)
    ensures SystemAdvances(s, u)
  {
    forall r | r in s.replicas
      ensures Advances(s.replicas[r], u.replicas[r])
    {
      assert Advances(t.replicas[r], u.replicas[r]);
      AncestorTransitive(s.replicas[r].bExec, t.replicas[r].bExec, u.replicas[r].bExec);
    }
  }

  /** Between any two moments of a run heights never fall, executed chains only
      grow and votes only accumulate. */
  lemma {:induction false} RunAdvances(c: Config, run: Run, i: nat, j: nat)
    requires c.Valid() && c.Tolerates() && DisciplinedRun(c, run) && i <= j < |run.states|
    ensures SystemAdvances(run.states[i], run.states[j])
  {
    if i < j {
      RunAdvances(c, run, i, j - 1);
      RunOk(c, run, j);
      SystemAdvancesTransitive(run.states[i], run.states[j - 1], run.states[j]);
    }
  }

  /** Agreement on executed blocks, at one moment. */
  lemma ExecutedAgree(c: Config, s: System, p: ReplicaId, q: ReplicaId)
    requires c.Valid() && c.Tolerates() && SystemOk(c, s) && p in s.replicas && q in s.replicas
    requires Height(s.replicas[p].bExec) <= Height(s.replicas[q].bExec)
    ensures IsAncestor(s.replicas[p].bExec, s.replicas[q].bExec)
  {
    CommittedCertified(c, s.votes, s.replicas[q].bExec);
    CommittedBinds(c, s.votes, s.replicas[p].bExec, s.replicas[q].bExec);
  }

  /** Agreement.  In every disciplined run, the logs that any two honest replicas
      have applied at any two moments are prefixes of one another. */
  lemma LogsAgree(c: Config, run: Run, i: nat, j: nat, p: ReplicaId, q: ReplicaId)
    requires c.Valid() && c.Tolerates() && DisciplinedRun(c, run)
    requires i < |run.states| && j < |run.states| && p in c.Honest() && q in c.Honest()
    ensures p in run.states[i].replicas && q in run.states[j].replicas
    ensures var a, b := run.states[i].replicas[p].applied, run.states[j].replicas[q].applied;
      a <= b || b <= a
  {
    var k := if i <= j then j else i;
    RunOk(c, run, i);
    RunOk(c, run, j);
    RunOk(c, run, k);
    RunAdvances(c, run, i, k);
    RunAdvances(c, run, j, k);
    var a, b := run.states[i].replicas[p].bExec, run.states[j].replicas[q].bExec;
    var top: Block;
    if Height(run.states[k].replicas[p].bExec) <= Height(run.states[k].replicas[q].bExec) {
      ExecutedAgree(c, run.states[k], p, q);
      top := run.states[k].replicas[q].bExec;
      AncestorTransitive(a, run.states[k].replicas[p].bExec, top);
    } else {
      ExecutedAgree(c, run.states[k], q, p);
      top := run.states[k].replicas[p].bExec;
      AncestorTransitive(b, run.states[k].replicas[q].bExec, top);
    }
    PrefixIffAncestor(a, b);
    PrefixIffAncestor(b, a);
    if Height(a) <= Height(b) {
      AncestorsOrdered(a, b, top);
    } else {
      AncestorsOrdered(b, a, top);
    }
  }

  /** Any two blocks decided by honest replicas lie on one ancestor chain. */
  lemma DecisionsAgree(c: Config, run: Run, i: nat, j: nat, p: ReplicaId, q: ReplicaId, x: Block, y: Block)
    requires c.Valid() && c.Tolerates() && DisciplinedRun(c, run)
    requires i < |run.states| && j < |run.states|
    requires p in run.states[i].replicas && x in run.states[i].replicas[p].decided
    requires q in run.states[j].replicas && y in run.states[j].replicas[q].decided
    ensures IsAncestor(x, y) || IsAncestor(y, x)
  {
    RunOk(c, run, i);
    RunOk(c, run, j);
    LogsAgree(c, run, i, j, p, q);
    var a, b := run.states[i].replicas[p].bExec, run.states[j].replicas[q].bExec;
    AncestorsAreAncestors(x, a);
    AncestorsAreAncestors(y, b);
    PrefixIffAncestor(a, b);
    PrefixIffAncestor(b, a);
    var top := if IsAncestor(a, b) then b else a;
    if IsAncestor(a, b) {
      AncestorTransitive(x, a, top);
    } else {
      AncestorTransitive(y, b, top);
    }
    if Height(x) <= Height(y) {
      AncestorsOrdered(x, y, top);
    } else {
      AncestorsOrdered(y, x, top);
    }
  }

  /** Commit soundness.  No honest replica ever throws "safety breached" or asks for
      a dropped body; it applies one block at each height 1, 2, 3, ..., each the
      parent of the next; and it has decided exactly the ancestors of the last
      one. */
  lemma CommitSoundness(c: Config, run: Run, i: nat, p: ReplicaId)
    requires c.Valid() && c.Tolerates() && DisciplinedRun(c, run)
    requires i < |run.states| && p in c.Honest()
    ensures p in run.states[i].replicas
    ensures var s := run.states[i].replicas[p];
      && s.status.Running?
      && (forall b :: b in s.decided <==> IsAncestor(b, s.bExec))
      && (forall k | 0 <= k < |s.applied| ::
            && Height(s.applied[k]) == k + 1 && s.applied[k].Block?
            && s.applied[k].parent == (if k == 0 then Genesis else s.applied[k - 1]))
      && (if s.applied == [] then s.bExec == Genesis else s.bExec == s.applied[|s.applied| - 1])
  {
    RunOk(c, run, i);
    SoundReplica(run.states[i].replicas[p]);
  }

  lemma SoundReplica(s: Replica)
    requires s.decided == Ancestors(s.bExec) && s.applied == Chain(s.bExec)
    ensures forall b :: b in s.decided <==> IsAncestor(b, s.bExec)
    ensures forall k | 0 <= k < |s.applied| ::
      && Height(s.applied[k]) == k + 1 && s.applied[k].Block?
      && s.applied[k].parent == (if k == 0 then Genesis else s.applied[k - 1])
    ensures if s.applied == [] then s.bExec == Genesis else s.bExec == s.applied[|s.applied| - 1]
  {
    forall b
      ensures b in s.decided <==> IsAncestor(b, s.bExec)
    {
      AncestorsAreAncestors(b, s.bExec);
    }
    forall k | 0 <= k < |s.applied|
      ensures Height(s.applied[k]) == k + 1 && s.applied[k].Block?
      ensures s.applied[k].parent == (if k == 0 then Genesis else s.applied[k - 1])
    {
      ChainAt(s.bExec, k);
    }
  }

  /** The replica state invariant, with certificates behind all three blocks. */
  lemma HeightsOrdered(c: Config, run: Run, i: nat, p: ReplicaId)
    requires c.Valid() && c.Tolerates() && DisciplinedRun(c, run)
    requires i < |run.states| && p in c.Honest()
    ensures p in run.states[i].replicas
    ensures var s, votes := run.states[i].replicas[p], run.states[i].votes;
      && Height(s.bExec) <= Height(s.bLock) <= Height(s.hqc.block)
      && (s.applied != [] ==> Height(s.bExec) < Height(s.bLock))
      && Certified(c, votes, s.bExec) && Certified(c, votes, s.bLock) && Certified(c, votes, s.hqc.block)
      && IsAncestor(s.bExec, s.bLock) && IsAncestor(s.bExec, s.hqc.block)
  {
    RunOk(c, run, i);
    var s, votes := run.states[i].replicas[p], run.states[i].votes;
    CommittedCertified(c, votes, s.bExec);
    VerifiesCertifies(c, votes, s.hqc);
    CommittedBinds(c, votes, s.bExec, s.bLock);
    CommittedBinds(c, votes, s.bExec, s.hqc.block);
  }

  /** Certificate uniqueness over runs, and the strict rise of honest votes. */
  lemma OneCertificatePerHeight(c: Config, run: Run, i: nat, a: Block, b: Block)
    requires c.Valid() && c.Tolerates() && DisciplinedRun(c, run) && i < |run.states|
    requires Certified(c, run.states[i].votes, a) && Certified(c, run.states[i].votes, b)
    ensures Height(a) == Height(b) ==> a == b
    ensures var votes := run.states[i].votes;
      forall m, n | 0 <= m < n < |votes| && votes[m].voter == votes[n].voter && votes[n].voter in c.Honest() ::
        Height(votes[m].block) < Height(votes[n].block)
  {
    RunOk(c, run, i);
    var votes := run.states[i].votes;
    if Height(a) == Height(b) {
      CertifiedUnique(c, votes, a, b);
    }
    forall m, n | 0 <= m < n < |votes| && votes[m].voter == votes[n].voter && votes[n].voter in c.Honest()
      ensures Height(votes[m].block) < Height(votes[n].block)
    {
      assert VoteOk(c, votes, n);
    }
  }

  /** Durability.  Every block named by the decided index is on disk with its body,
      the saved blocks are closed under ancestors, and the lock descends from the
      executed block. */
  lemma Durability(c: Config, run: Run, i: nat, p: ReplicaId)
    requires c.Valid() && c.Tolerates() && DisciplinedRun(c, run)
    requires i < |run.states| && p in c.Honest()
    ensures p in run.states[i].replicas
    ensures var s := run.states[i].replicas[p];
      && (forall h | h in s.index :: s.index[h] in s.disk && s.disk[s.index[h]])
      && (forall a, b | b in s.written && IsAncestor(a, b) :: a in s.written)
      && (forall b | b in s.written && b.Block? :: b in s.disk && s.disk[b])
      && IsAncestor(s.bExec, s.bLock)
  {
    RunOk(c, run, i);
    HeightsOrdered(c, run, i, p);
    DurableReplica(c, run.states[i].votes, run.states[i].replicas[p]);
  }

  lemma DurableReplica(c: Config, votes: seq<Vote>, s: Replica)
    requires DiskOk(s) && IndexOk(c, votes, s)
    ensures forall h | h in s.index :: s.index[h] in s.disk && s.disk[s.index[h]]
    ensures forall a, b | b in s.written && IsAncestor(a, b) :: a in s.written
    ensures forall b | b in s.written && b.Block? :: b in s.disk && s.disk[b]
  {
    forall a, b | b in s.written && IsAncestor(a, b)
      ensures a in s.written
    {
      WrittenClosed(s, b);
      AncestorsAreAncestors(a, b);
    }
    forall h | h in s.index
      ensures s.index[h] in s.disk && s.disk[s.index[h]]
    {
      ChainAt(s.bExec, h - 1);
    }
  }

  /** The proposer invariant: at every moment of every run, whatever a replica would
      mint has its justify block as an ancestor and a certificate that verifies. */
  lemma MintedAlwaysWellFormed(c: Config, run: Run, i: nat, p: ReplicaId, rest: nat)
    requires c.Valid() && c.Tolerates() && DisciplinedRun(c, run)
    requires i < |run.states| && p in c.Honest()
    ensures p in run.states[i].replicas
    ensures var s, votes := run.states[i].replicas[p], run.states[i].votes;
      && IsAncestor(s.hqc.block, s.bLeaf)
      && Verifies(c, votes, s.hqc)
      && JustifiesAncestor(Minted(s, rest))
      && Stored(c, votes, Minted(s, rest))
  {
    RunOk(c, run, i);
    MintedOk(c, run.states[i].votes, run.states[i].replicas[p], rest);
  }

  /** `supports_nonempty_child_proposal`: `depth` blocks in a row proposed by this
      replica, each justified by its parent.  `proposer` is the field the replica
      keeps for each block it holds. */
  predicate SupportsNonemptyChild(b: Block, self: ReplicaId, proposer: Block -> ReplicaId, depth: int) {
    if depth <= 0 then true
    else if self != proposer(b) then false
    else if b.Genesis? then false
    else if b.justify != b.parent then false
    else SupportsNonemptyChild(b.parent, self, proposer, depth - 1)
  }

  /** The `k`th block up the parent links. */
  function ParentUp(b: Block, k: nat): Block {
    if k == 0 || b.Genesis? then b else ParentUp(b.parent, k - 1)
  }

  ghost predicate OwnLink(b: Block, self: ReplicaId, proposer: Block -> ReplicaId) {
    b.Block? && b.justify == b.parent && proposer(b) == self
  }

  ghost predicate OwnLinks(b: Block, self: ReplicaId, proposer: Block -> ReplicaId, depth: nat) {
    forall k: nat | k < depth :: OwnLink(ParentUp(b, k), self, proposer)
  }

  /** It holds if and only if the first `depth` blocks from `b` up are the replica's own
      and justified by their parents, whatever lies above them. */
  lemma {:induction false} SupportsIff(b: Block, self: ReplicaId, proposer: Block -> ReplicaId, depth: nat)
    ensures SupportsNonemptyChild(b, self, proposer, depth) <==> OwnLinks(b, self, proposer, depth)
    decreases depth
  {
    if depth > 0 {
      assert ParentUp(b, 0) == b;
      if OwnLinks(b, self, proposer, depth) {
        forall k: nat | k < depth - 1
          ensures OwnLink(ParentUp(b.parent, k), self, proposer)
        {
          assert OwnLink(ParentUp(b, k + 1), self, proposer);
        }
        SupportsIff(b.parent, self, proposer, depth - 1);
      }
      if SupportsNonemptyChild(b, self, proposer, depth) {
        SupportsIff(b.parent, self, proposer, depth - 1);
        forall k: nat | k < depth
          ensures OwnLink(ParentUp(b, k), self, proposer)
        {
          assert k > 0 ==> OwnLink(ParentUp(b.parent, k - 1), self, proposer);
        }
      }
    }
  }

  /** The stable-leader rule: from the moment a replica has processed a leaf that
      supports a non-empty child, the leaf's great-grandparent is decided and every
      undecided ancestor of the leaf is its own proposal. */
  lemma StableLeader(c: Config, run: Run, i: nat, j: nat, p: ReplicaId, leaf: Block, proposer: Block -> ReplicaId)
    requires c.Valid() && c.Tolerates() && DisciplinedRun(c, run)
    requires i < j < |run.states| && run.events[i] == Proposal(p, leaf)
    requires SupportsNonemptyChild(leaf, p, proposer, 3)
    ensures leaf.Block? && leaf.parent.Block? && leaf.parent.parent.Block?
    ensures p in run.states[j].replicas
    ensures leaf.parent.parent.parent in run.states[j].replicas[p].decided
    ensures forall b | IsAncestor(b, leaf) && b !in run.states[j].replicas[p].decided :: proposer(b) == p
  {
    var p1 := leaf.parent;
    assert SupportsNonemptyChild(p1, p, proposer, 2);
    assert SupportsNonemptyChild(p1.parent, p, proposer, 1);
    LeafDecides(c, run, i, p, leaf);
    StillDecided(c, run, i + 1, j, p, p1.parent.parent);
    DecidedIs(c, run, j, p);
    forall b | IsAncestor(b, leaf) && b !in run.states[j].replicas[p].decided
      ensures proposer(b) == p
    {
      OwnAbove(b, leaf, run.states[j].replicas[p].bExec, p, proposer);
    }
  }

  /** A leaf on three blocks, each justified by its parent. */
  ghost predicate OnThree(leaf: Block) {
    && leaf.Block? && leaf.justify == leaf.parent && leaf.parent.Block?
    && leaf.parent.justify == leaf.parent.parent && leaf.parent.parent.Block?
    && leaf.parent.parent.justify == leaf.parent.parent.parent
  }

  lemma DecidedIs(c: Config, run: Run, i: nat, p: ReplicaId)
    requires c.Valid() && c.Tolerates() && DisciplinedRun(c, run) && i < |run.states| && p in c.Honest()
    ensures p in run.states[i].replicas
    ensures var s := run.states[i].replicas[p]; s.status.Running? && s.decided == Ancestors(s.bExec)
  {
    RunOk(c, run, i);
  }

  /** Processing such a leaf decides the block below the three. */
  lemma LeafDecides(c: Config, run: Run, i: nat, p: ReplicaId, leaf: Block)
    requires c.Valid() && c.Tolerates() && DisciplinedRun(c, run)
    requires i + 1 < |run.states| && run.events[i] == Proposal(p, leaf) && OnThree(leaf)
    ensures p in c.Honest() && p in run.states[i + 1].replicas
    ensures leaf.parent.parent.parent in run.states[i + 1].replicas[p].decided
  {
    assert IsStep(c, run, i);
    HonestOnly(c, run, i, p);
    DecidedIs(c, run, i, p);
    DecidedIs(c, run, i + 1, p);
    var s := run.states[i].replicas[p];
    var voted := if WillVote(s, leaf) then s.(vheight := Truncated(Height(leaf))) else s;
    UpdateDecides(voted, leaf);
  }

  lemma HonestOnly(c: Config, run: Run, i: nat, p: ReplicaId)
    requires c.Valid() && c.Tolerates() && DisciplinedRun(c, run)
    requires i < |run.states| && p in run.states[i].replicas
    ensures p in c.Honest()
  {
    RunOk(c, run, i);
  }

  /** What is decided stays decided. */
  lemma StillDecided(c: Config, run: Run, i: nat, j: nat, p: ReplicaId, b: Block)
    requires c.Valid() && c.Tolerates() && DisciplinedRun(c, run) && i <= j < |run.states| && p in c.Honest()
    requires p in run.states[i].replicas && b in run.states[i].replicas[p].decided
    ensures p in run.states[j].replicas && b in run.states[j].replicas[p].decided
  {
    DecidedIs(c, run, i, p);
    DecidedIs(c, run, j, p);
    RunAdvances(c, run, i, j);
    var a, e := run.states[i].replicas[p].bExec, run.states[j].replicas[p].bExec;
    AncestorsAreAncestors(b, a);
    AncestorTransitive(b, a, e);
    AncestorsAreAncestors(b, e);
  }

  /** Above a decided great-grandparent every ancestor of the leaf is its own. */
  lemma OwnAbove(b: Block, leaf: Block, exec: Block, p: ReplicaId, proposer: Block -> ReplicaId)
    requires OnThree(leaf) && IsAncestor(b, leaf) && b !in Ancestors(exec)
    requires leaf.parent.parent.parent in Ancestors(exec)
    requires proposer(leaf) == p && proposer(leaf.parent) == p && proposer(leaf.parent.parent) == p
    ensures proposer(b) == p
  {
    if b != leaf && b != leaf.parent && b != leaf.parent.parent {
      assert IsAncestor(b, leaf.parent) && IsAncestor(b, leaf.parent.parent);
      DecidedBelow(exec, leaf.parent.parent.parent, b);
    }
  }

  lemma UpdateDecides(s: Replica, leaf: Block)
    requires s.decided == Ancestors(s.bExec) && s.status.Running?
    requires leaf.Block? && leaf.justify == leaf.parent && leaf.parent.Block?
    requires leaf.parent.justify == leaf.parent.parent && leaf.parent.parent.Block?
    requires leaf.parent.parent.justify == leaf.parent.parent.parent
    requires Update(s, leaf).status.Running?
    requires Update(s, leaf).decided == Ancestors(Update(s, leaf).bExec)
    ensures leaf.parent.parent.parent in Update(s, leaf).decided
  {
    var p1, p2, p3 := leaf.parent, leaf.parent.parent, leaf.parent.parent.parent;
    if p1 in s.decided {
      DecidedBelow(s.bExec, p1, p3);
    } else {
      LockAndCommitDecides(UpdateHqc(s, Certificate(p1, leaf.signers)), p1);
    }
  }

  lemma DecidedBelow(exec: Block, a: Block, b: Block)
    requires a in Ancestors(exec) && IsAncestor(b, a)
    ensures b in Ancestors(exec)
  {
    AncestorsAreAncestors(a, exec);
    AncestorTransitive(b, a, exec);
    AncestorsAreAncestors(b, exec);
  }

  lemma LockAndCommitDecides(s: Replica, p1: Block)
    requires s.decided == Ancestors(s.bExec) && s.status.Running?
    requires p1.Block? && p1.justify == p1.parent && p1.parent.Block? && p1.parent.justify == p1.parent.parent
    requires var t := LockAndCommit(s, p1); t.status.Running? && t.decided == Ancestors(t.bExec)
    ensures p1.parent.parent in LockAndCommit(s, p1).decided
  {
    var p2 := p1.parent;
    if p2 in s.decided {
      DecidedBelow(s.bExec, p2, p2.parent);
    } else {
      LockKeeps(s, p2);
    }
  }
}
