/** Where the hypotheses of agreement come from: runs of the same code that break
    agreement when one of them fails. */
module Limits {
  import opened Options
  import opened Blocks
  import opened Quorum
  import opened ReplicaSpec
  import opened Network
  import opened Safety
  import opened Invariant
  import opened Agreement
  import opened Lockstep
  import opened Forks

  // ---- too many faulty replicas ----

  /** What a replica has applied at a moment of a run. */
  function AppliedLog(run: Run, i: nat, p: ReplicaId): seq<Block>
    requires i < |run.states|
  {
    if p in run.states[i].replicas then run.states[i].replicas[p].applied else []
  }

  ghost predicate LogsAgreeIn(c: Config, run: Run) {
    forall i, j, p, q | 0 <= i < |run.states| && 0 <= j < |run.states| && p in c.Honest() && q in c.Honest() ::
      AppliedLog(run, i, p) <= AppliedLog(run, j, q) || AppliedLog(run, j, q) <= AppliedLog(run, i, p)
  }

  /** Honest replicas split in two, each half a quorum together with the faulty
      ones. */
  lemma SplitHonest(c: Config) returns (p: ReplicaId, q: ReplicaId, left: set<ReplicaId>, right: set<ReplicaId>)
    requires c.Valid() && !c.Tolerates() && |c.Honest()| >= 2
    ensures left + right == c.Honest() && left !! right && p in left && q in right
    ensures IsQuorum(c, c.faulty + left) && IsQuorum(c, c.faulty + right)
  {
    var k := |c.replicas| / 3;
    var h := |c.Honest()|;
    assert h == |c.replicas| - |c.faulty|;
    var size := if h - k > 1 then h - k else 1;
    left := Subset(c.Honest(), size);
    right := c.Honest() - left;
    assert |right| == h - size;
    assert |c.faulty + left| == |c.faulty| + |left|;
    assert |c.faulty + right| == |c.faulty| + |right|;
    p :| p in left;
    q :| q in right;
  }

  /** A running replica that never restarted has applied its executed chain. */
  lemma {:induction false} Tracks(c: Config, run: Run, i: nat, p: ReplicaId)
    requires DisciplinedRun(c, run) && i < |run.states| && p in c.Honest()
    ensures p in run.states[i].replicas
    ensures var s := run.states[i].replicas[p]; s.status.Running? ==> s.applied == Chain(s.bExec)
  {
    if i > 0 {
      Tracks(c, run, i - 1, p);
      assert IsStep(c, run, i - 1);
      var s, e := run.states[i - 1].replicas[p], run.events[i - 1];
      if e.Proposal? && e.replica == p {
        UpdateTracks(if WillVote(s, e.block) then Voted(s, e.block) else s, e.block);
      }
    }
  }

  lemma UpdateTracks(s: Replica, b: Block)
    requires b.Block? && s.status.Running? && s.applied == Chain(s.bExec)
    ensures var t := Update(s, b); t.status.Running? ==> t.applied == Chain(t.bExec)
  {
    if b.justify !in s.decided && b.justify.Block? && b.justify.justify !in s.decided {
      var entered, blk1 := Entered(s, b), b.justify.justify;
      LockKeeps(entered, blk1);
      if Commits(entered, b.justify) {
        CommitTracks(Lock(entered, blk1), blk1.justify, Certificate(blk1.justify, blk1.signers));
      }
    }
  }

  lemma CommitTracks(s: Replica, blk: Block, qc: Certificate)
    requires s.status.Running? && s.applied == Chain(s.bExec)
    ensures var t := Commit(s, blk, qc); t.status.Running? ==> t.applied == Chain(t.bExec)
  {
    if IsAncestor(s.bExec, blk) {
      ApplyAllRunning(s, Path(s.bExec, blk));
      ChainGrows(s.bExec, blk);
    }
  }

  lemma {:induction false} ApplyAllRunning(s: Replica, path: seq<Block>)
    requires s.status.Running?
    ensures ApplyAll(s, path).status.Running? ==> ApplyAll(s, path).applied == s.applied + path
    decreases path
  {
    if path != [] && path[0] !in s.flushed {
      var s1 := s.(decided := s.decided + {path[0]}, applied := s.applied + [path[0]]);
      ApplyAllRunning(s1, path[1..]);
      assert s.applied + path == s1.applied + path[1..];
    }
  }

  /** A crew on its own executes the first block of its straight chain at one of its
      replicas. */
  lemma Breakaway(c: Config, k: Crew, run: Run, p: ReplicaId, rest: nat) returns (run': Run)
    requires k.Valid(c) && k.rules == ALL_RULES && InStep(c, k, run, INITIAL) && p in k.group
    ensures ObeysRun(c, ALL_RULES, run') && Last(run').replicas.Keys == c.Honest()
    ensures var s := Last(run').replicas[p]; s.status.Running? && s.bExec == Straight(1, k.signers, rest)
    ensures forall r | r in c.Honest() && r !in k.group :: Last(run').replicas[r] == Last(run).replicas[r]
  {
    var run1, s := Climb(c, k, run, 3, rest);
    var b := Straight(4, k.signers, rest);
    StraightShape(4, k.signers, rest);
    StraightStep(s, 4, Truncated(3), k.signers, rest);
    assert Backed(c, k, Last(run1).votes, Straight(3, k.signers, rest));
    BackedStored(c, k, Last(run1).votes, Straight(3, k.signers, rest));
    run' := OneReceives(c, k, run1, p, b);
  }

  /** With one faulty replica too many, two honest replicas execute different
      blocks at height one. */
  lemma TooManyFaulty(c: Config) returns (run: Run)
    requires c.Valid() && Nameable(c.replicas) && !c.Tolerates() && |c.Honest()| >= 2
    ensures DisciplinedRun(c, run) && !LogsAgreeIn(c, run)
  {
    var p, q, left, right := SplitHonest(c);
    var run0 := Start(c, ALL_RULES);
    var run1 := Breakaway(c, Crew(ALL_RULES, left, c.faulty + left), run0, p, 0);
    run := Breakaway(c, Crew(ALL_RULES, right, c.faulty + right), run1, q, 1);
    AllRulesDiscipline(c, run);
    var i := |run.states| - 1;
    Tracks(c, run, i, p);
    Tracks(c, run, i, q);
    StraightShape(1, c.faulty + left, 0);
    StraightShape(1, c.faulty + right, 1);
    assert AppliedLog(run, i, p)[0] != AppliedLog(run, i, q)[0];
    assert !(AppliedLog(run, i, p) <= AppliedLog(run, i, q) || AppliedLog(run, i, q) <= AppliedLog(run, i, p));
  }

  // ---- one honest replica always agrees with itself ----

  lemma {:induction false} ApplyAllGrows(s: Replica, path: seq<Block>)
    ensures s.applied <= ApplyAll(s, path).applied
    decreases path
  {
    if path != [] && path[0] !in s.flushed {
      ApplyAllGrows(s.(decided := s.decided + {path[0]}, applied := s.applied + [path[0]]), path[1..]);
    }
  }

  lemma UpdateGrows(s: Replica, b: Block)
    requires b.Block?
    ensures s.applied <= Update(s, b).applied
  {
    if b.justify !in s.decided && b.justify.Block? {
      LockAndCommitLocks(UpdateHqc(s, Certificate(b.justify, b.signers)), b.justify);
    }
  }

  lemma StepGrows(c: Config, s: System, e: Event, p: ReplicaId)
    requires Enabled(c, s, e) && !e.Reboot? && p in s.replicas
    ensures p in Apply(c, s, e).replicas && s.replicas[p].applied <= Apply(c, s, e).replicas[p].applied
  {
    if e.Proposal? && e.replica == p {
      var rep := s.replicas[p];
      UpdateGrows(if WillVote(rep, e.block) then rep.(vheight := Truncated(Height(e.block))) else rep, e.block);
    }
  }

  lemma {:induction false} RunGrows(c: Config, run: Run, i: nat, j: nat, p: ReplicaId)
    requires DisciplinedRun(c, run) && i <= j < |run.states| && p in c.Honest()
    ensures p in run.states[i].replicas && p in run.states[j].replicas
    ensures run.states[i].replicas[p].applied <= run.states[j].replicas[p].applied
    decreases j
  {
    if i < j {
      RunGrows(c, run, i, j - 1, p);
      assert IsStep(c, run, j - 1);
      StepGrows(c, run.states[j - 1], run.events[j - 1], p);
    } else if j > 0 {
      RunGrows(c, run, j - 1, j - 1, p);
      assert IsStep(c, run, j - 1);
      StepGrows(c, run.states[j - 1], run.events[j - 1], p);
    }
  }

  /** The exact tolerance of the protocol as configured: the logs of honest replicas
      agree in every disciplined run if and only if fewer than n - 2⌊n/3⌋ replicas
      are faulty (or there are no two honest replicas to disagree).  That there are
      fewer suffices for every configuration; the runs that show it necessary carry
      certificates, so there the bit map must have room for all ids. */
  lemma AgreementIsExact(c: Config)
    requires c.Valid() && Nameable(c.replicas)
    ensures (forall run | DisciplinedRun(c, run) :: LogsAgreeIn(c, run)) <==> c.Tolerates() || |c.Honest()| <= 1
  {
    if c.Tolerates() || |c.Honest()| <= 1 {
      forall run | DisciplinedRun(c, run)
        ensures LogsAgreeIn(c, run)
      {
        forall i, j, p, q | 0 <= i < |run.states| && 0 <= j < |run.states| && p in c.Honest() && q in c.Honest()
          ensures AppliedLog(run, i, p) <= AppliedLog(run, j, q) || AppliedLog(run, j, q) <= AppliedLog(run, i, p)
        {
          if c.Tolerates() {
            LogsAgree(c, run, i, j, p, q);
          } else {
            OnlyOne(c.Honest(), p, q);
            if i <= j {
              RunGrows(c, run, i, j, p);
            } else {
              RunGrows(c, run, j, i, p);
            }
          }
        }
      }
    } else {
      var run := TooManyFaulty(c);
    }
  }

  // ---- a replica agrees with itself, whatever happens ----

  /** The stored certificate is the one of the executed block. */
  ghost predicate Anchored(s: Replica) {
    s.topQc.Some? ==> s.topQc.value.block == s.bExec
  }

  lemma CommitAnchored(s: Replica, blk: Block, signers: set<ReplicaId>)
    requires Anchored(s)
    ensures var t := Commit(s, blk, Certificate(blk, signers)); Anchored(t) && IsAncestor(s.bExec, t.bExec)
  {
    if IsAncestor(s.bExec, blk) {
      ApplyAllKeeps(s, Path(s.bExec, blk));
    }
  }

  lemma UpdateAnchored(s: Replica, b: Block)
    requires b.Block? && Anchored(s)
    ensures Anchored(Update(s, b)) && IsAncestor(s.bExec, Update(s, b).bExec)
  {
    if b.justify !in s.decided && b.justify.Block? && b.justify.justify !in s.decided {
      var entered, blk1 := Entered(s, b), b.justify.justify;
      LockKeeps(entered, blk1);
      if Commits(entered, b.justify) {
        CommitAnchored(Lock(entered, blk1), blk1.justify, blk1.signers);
      }
    }
  }

  lemma StepAnchored(c: Config, s: System, e: Event, p: ReplicaId)
    requires Enabled(c, s, e) && p in s.replicas && Anchored(s.replicas[p])
    ensures var t := Apply(c, s, e);
      p in t.replicas && Anchored(t.replicas[p]) && IsAncestor(s.replicas[p].bExec, t.replicas[p].bExec)
  {
    if e.Proposal? && e.replica == p {
      var rep := s.replicas[p];
      UpdateAnchored(if WillVote(rep, e.block) then Voted(rep, e.block) else rep, e.block);
    }
  }

  /** In every run whatsoever a replica's executed chain only grows. */
  lemma {:induction false} ExecutedGrows(c: Config, run: Run, i: nat, j: nat, p: ReplicaId)
    requires IsRun(c, run) && i <= j < |run.states| && p in c.Honest()
    ensures p in run.states[j].replicas && Anchored(run.states[j].replicas[p])
    ensures IsAncestor(Executed(run, i, p), Executed(run, j, p))
    decreases j
  {
    if j > 0 {
      ExecutedGrows(c, run, if i < j then i else j - 1, j - 1, p);
      assert IsStep(c, run, j - 1);
      StepAnchored(c, run.states[j - 1], run.events[j - 1], p);
      if i < j {
        AncestorTransitive(Executed(run, i, p), Executed(run, j - 1, p), Executed(run, j, p));
      }
    }
  }

  lemma AloneAgrees(c: Config, run: Run)
    requires IsRun(c, run) && |c.Honest()| <= 1
    ensures ExecutedAgreeIn(c, run)
  {
    forall i, j, p, q | 0 <= i < |run.states| && 0 <= j < |run.states| && p in c.Honest() && q in c.Honest()
      ensures OneChain(Executed(run, i, p), Executed(run, j, q))
    {
      OnlyOne(c.Honest(), p, q);
      if i <= j {
        ExecutedGrows(c, run, i, j, p);
      } else {
        ExecutedGrows(c, run, j, i, p);
      }
    }
  }

  // ---- each rule on events is needed ----

  /** Restarts may not be allowed: with them, and certificates that point at ancestors and
      heights that fit, honest replicas agree in every run if and only if at most one
      replica is honest. */
  lemma RestartsBreakAgreement(c: Config)
    requires c.Valid() && Nameable(c.replicas)
    ensures (forall run | ObeysRun(c, RESTARTS, run) :: ExecutedAgreeIn(c, run)) <==> |c.Honest()| <= 1
  {
    if |c.Honest()| <= 1 {
      forall run | ObeysRun(c, RESTARTS, run)
        ensures ExecutedAgreeIn(c, run)
      {
        AloneAgrees(c, run);
      }
    } else {
      var run := RestartsFork(c);
    }
  }

  /** Heights may not outgrow 32 bits: if they may, with certificates that point at
      ancestors and no restart, honest replicas agree in every run if and only if at most
      one replica is honest. */
  lemma HeightsBreakAgreement(c: Config)
    requires c.Valid() && Nameable(c.replicas)
    ensures (forall run | ObeysRun(c, TALL, run) :: ExecutedAgreeIn(c, run)) <==> |c.Honest()| <= 1
  {
    if |c.Honest()| <= 1 {
      forall run | ObeysRun(c, TALL, run)
        ensures ExecutedAgreeIn(c, run)
      {
        AloneAgrees(c, run);
      }
    } else {
      var n: nat :| n >= VHEIGHT_MODULUS;
      var run := HeightsFork(c, n);
    }
  }

  /** Certificates must point at ancestors: if they need not, with heights that fit and no
      restart, honest replicas agree in every run if and only if at most one replica is
      honest. */
  lemma UnrelatedJustifyBreaksAgreement(c: Config)
    requires c.Valid() && Nameable(c.replicas)
    ensures (forall run | ObeysRun(c, UNRELATED, run) :: ExecutedAgreeIn(c, run)) <==> |c.Honest()| <= 1
  {
    if |c.Honest()| <= 1 {
      forall run | ObeysRun(c, UNRELATED, run)
        ensures ExecutedAgreeIn(c, run)
      {
        AloneAgrees(c, run);
      }
    } else {
      var run := CrossedFork(c);
    }
  }

  // ---- the width of `vheight` ----

  /** Having voted for a block, a replica refuses every block no higher than it if
      and only if that height fits 32 bits. */
  lemma VotesOnceIffHeightFits(s: Replica, b: Block)
    requires b.Block? && WillVote(s, b) && JustifiesAncestor(b)
    ensures (forall x: Block | x.Block? && Height(x) <= Height(b) :: !WillVote(OnReceiveProposal(s, b), x))
        <==> Height(b) < VHEIGHT_MODULUS
  {
    var t := OnReceiveProposal(s, b);
    var voted := s.(vheight := Truncated(Height(b)));
    UpdateLockMoves(voted, b);
    TruncatedFits(Height(b));
    if Height(b) >= VHEIGHT_MODULUS {
      assert t.vheight < Height(b);
      assert WillVote(t, b);
    }
  }

  /** Processing a block leaves the lock alone or moves it to an ancestor of the
      block. */
  lemma UpdateLockMoves(s: Replica, b: Block)
    requires b.Block? && JustifiesAncestor(b)
    ensures Update(s, b).vheight == s.vheight
    ensures Update(s, b).bLock == s.bLock || IsAncestor(Update(s, b).bLock, b)
  {
    if b.justify !in s.decided && b.justify.Block? {
      JustifiesBelow(b);
      JustifiesBelow(b.justify);
      AncestorTransitive(b.justify.justify, b.justify, b);
      LockAndCommitLocks(UpdateHqc(s, Certificate(b.justify, b.signers)), b.justify);
    }
  }

  lemma LockAndCommitLocks(s: Replica, blk2: Block)
    requires blk2.Block?
    ensures var t := LockAndCommit(s, blk2);
      t.vheight == s.vheight && (t.bLock == s.bLock || t.bLock == blk2.justify) && s.applied <= t.applied
  {
    var blk1 := blk2.justify;
    LockKeeps(s, blk1);
    if Commits(s, blk2) && IsAncestor(s.bExec, blk1.justify) {
      ApplyAllKeeps(Lock(s, blk1), Path(s.bExec, blk1.justify));
      ApplyAllGrows(Lock(s, blk1), Path(s.bExec, blk1.justify));
    }
  }

}
