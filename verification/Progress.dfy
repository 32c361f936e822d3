/** What the events of a run achieve: certificates that arrive are taken up, votes that
    arrive are collected, proposals carry what they were given. */
module Progress {
  import opened Options
  import opened Blocks
  import opened Quorum
  import opened ReplicaSpec
  import opened Network
  import opened Invariant
  import opened Agreement

  /** What a delivered block makes of an honest replica, exactly: the vote, the highest
      certificate and the leaf, the lock, and the block executed. */
  lemma ProposalEffect(c: Config, run: Run, i: nat, p: ReplicaId, b: Block)
    requires c.Valid() && c.Tolerates() && DisciplinedRun(c, run)
    requires i < |run.events| && run.events[i] == Proposal(p, b)
    ensures b.Block? && p in c.Honest() && p in run.states[i].replicas && p in run.states[i + 1].replicas
    ensures var s, t := run.states[i].replicas[p], run.states[i + 1].replicas[p];
      && t.vheight == (if WillVote(s, b) then Height(b) else s.vheight)
      && (t.hqc, t.bLeaf) == (if b.justify !in s.decided && Height(b.justify) > Height(s.hqc.block)
                              then (Certificate(b.justify, b.signers), b.justify) else (s.hqc, s.bLeaf))
      && t.bLock == (if LocksOn(s, b) && Height(b.justify.justify) > Height(s.bLock)
                     then b.justify.justify else s.bLock)
      && t.bExec == (if CompletesThree(s, b) then b.justify.justify.justify else s.bExec)
    ensures run.states[i + 1].votes ==
      run.states[i].votes + if WillVote(run.states[i].replicas[p], b) then [Vote(p, b)] else []
  {
    assert IsStep(c, run, i);
    HonestOnly(c, run, i, p);
    DecidedIs(c, run, i, p);
    DecidedIs(c, run, i + 1, p);
    TruncatedFits(Height(b));
    ReceiveEffect(run.states[i].replicas[p], b);
  }

  lemma DecidedBelowHqc(c: Config, run: Run, i: nat, p: ReplicaId, b: Block)
    requires c.Valid() && c.Tolerates() && DisciplinedRun(c, run) && i < |run.states| && p in c.Honest()
    requires p in run.states[i].replicas && b in run.states[i].replicas[p].decided
    ensures Height(b) <= Height(run.states[i].replicas[p].hqc.block)
  {
    DecidedIs(c, run, i, p);
    HeightsOrdered(c, run, i, p);
    AncestorsAreAncestors(b, run.states[i].replicas[p].bExec);
    AncestorHeight(b, run.states[i].replicas[p].bExec);
  }

  /** From the moment a replica has processed a block on, its highest certificate is at
      least as high as the block's. */
  lemma ProposalRaises(c: Config, run: Run, i: nat, j: nat, p: ReplicaId, b: Block)
    requires c.Valid() && c.Tolerates() && DisciplinedRun(c, run)
    requires i < j < |run.states| && run.events[i] == Proposal(p, b)
    ensures b.Block? && p in run.states[j].replicas
    ensures Height(run.states[j].replicas[p].hqc.block) >= Height(b.justify)
  {
    ProposalEffect(c, run, i, p, b);
    var s := run.states[i].replicas[p];
    if b.justify in s.decided {
      DecidedBelowHqc(c, run, i, p, b.justify);
    }
    DecidedIs(c, run, j, p);
    RunAdvances(c, run, i + 1, j);
  }

  // ---- votes ----

  /** Whether a vote by `v` for `b` has been handed to `p` in the first `i` events. */
  ghost predicate Handed(run: Run, i: nat, p: ReplicaId, b: Block, v: ReplicaId)
    requires i <= |run.events|
  {
    exists j | 0 <= j < i :: run.events[j] == VoteMessage(p, b, v)
  }

  lemma OthersKept(c: Config, run: Run, i: nat, p: ReplicaId, b: Block, v: ReplicaId)
    requires DisciplinedRun(c, run) && i < |run.events| && run.events[i] != VoteMessage(p, b, v)
    requires p in run.states[i].replicas
    ensures p in run.states[i + 1].replicas
    ensures v in SelfQc(run.states[i + 1].replicas[p], b) <==> v in SelfQc(run.states[i].replicas[p], b)
  {
    assert IsStep(c, run, i);
    var e := run.events[i];
    if e.Proposal? && e.replica == p {
      ReceiveEffect(run.states[i].replicas[p], e.block);
    } else if e.VoteMessage? && e.replica == p {
      VoteEffect(c, run.states[i].replicas[p], e.block, e.voter);
    }
  }

  /** A replica's own certificate for a block holds exactly the votes for it that were
      handed to it, of ids that fit the bit map. */
  lemma {:induction false} VotesCollected(c: Config, run: Run, i: nat, p: ReplicaId, b: Block, v: ReplicaId)
    requires DisciplinedRun(c, run) && i < |run.states| && p in c.Honest()
    ensures p in run.states[i].replicas
    ensures v in SelfQc(run.states[i].replicas[p], b) <==> Handed(run, i, p, b, v) && v < MAX_REPLICAS
  {
    if i > 0 {
      VotesCollected(c, run, i - 1, p, b, v);
      assert IsStep(c, run, i - 1);
      HandedNext(run, i - 1, p, b, v);
      if run.events[i - 1] == VoteMessage(p, b, v) {
        VoteEffect(c, run.states[i - 1].replicas[p], b, v);
      } else {
        OthersKept(c, run, i - 1, p, b, v);
      }
    }
  }

  lemma HandedNext(run: Run, i: nat, p: ReplicaId, b: Block, v: ReplicaId)
    requires i < |run.events|
    ensures Handed(run, i + 1, p, b, v) <==> Handed(run, i, p, b, v) || run.events[i] == VoteMessage(p, b, v)
  {
  }

  lemma StepCollects(c: Config, s: System, e: Event, p: ReplicaId)
    requires c.Valid() && Enabled(c, s, e) && !e.Reboot? && p in s.replicas && Collected(c, s.replicas[p])
    ensures p in Apply(c, s, e).replicas && Collected(c, Apply(c, s, e).replicas[p])
  {
    var rep := s.replicas[p];
    match e
    case Proposal(q, b) =>
      if p == q {
        ReceiveEffect(rep, b);
      }
    case VoteMessage(q, b, voter) =>
      if p == q {
        VoteCollects(c, rep, b, voter);
      }
    case _ =>
  }

  /** At every moment the highest certificate of a replica is at least as high as every
      block on which it has collected a quorum of votes. */
  lemma {:induction false} QuorumRaises(c: Config, run: Run, i: nat, p: ReplicaId)
    requires c.Valid() && DisciplinedRun(c, run) && i < |run.states| && p in c.Honest()
    ensures p in run.states[i].replicas && Collected(c, run.states[i].replicas[p])
  {
    if i > 0 {
      QuorumRaises(c, run, i - 1, p);
      assert IsStep(c, run, i - 1);
      StepCollects(c, run.states[i - 1], run.events[i - 1], p);
    }
  }

  // ---- proposals ----

  /** A proposal puts the payload it was given on the leaf, with the highest certificate,
      and makes the new block the leaf; the replica is otherwise unchanged. */
  lemma MintCarries(c: Config, run: Run, i: nat, p: ReplicaId, rest: nat)
    requires IsRun(c, run) && i < |run.events| && run.events[i] == Mint(p, rest)
    ensures p in run.states[i].replicas && p in run.states[i + 1].replicas
    ensures var s, t := run.states[i].replicas[p], run.states[i + 1].replicas[p];
      && t.bLeaf == Block(s.bLeaf, s.hqc.block, s.hqc.signers, rest)
      && t == s.(bLeaf := t.bLeaf)
  {
    assert IsStep(c, run, i);
  }

  /** Two proposals are one block exactly if they put the same payload on the same leaf
      with the same certificate. */
  lemma MintsDiffer(s: Replica, t: Replica, x: nat, y: nat)
    ensures Minted(s, x) == Minted(t, y) <==> x == y && s.bLeaf == t.bLeaf && s.hqc == t.hqc
  {
  }
}
