/** Runs in which a group of honest replicas moves in step, all of them receiving the
    same blocks in the same order. */
module Lockstep {
  import opened Options
  import opened Blocks
  import opened Quorum
  import opened ReplicaSpec
  import opened Network
  import opened Invariant
  import opened Agreement

  // ---- which hypotheses a run obeys ----

  /** The three hypotheses on events: certificates point at ancestors, heights fit 32
      bits, nobody restarts. */
  datatype Rules = Rules(ancestors: bool, heights: bool, lasting: bool)

  const ALL_RULES: Rules := Rules(true, true, true)

  predicate Allowed(rules: Rules, b: Block) {
    (rules.ancestors ==> JustifiesAncestor(b)) && (rules.heights ==> Height(b) < VHEIGHT_MODULUS)
  }

  predicate Obeys(rules: Rules, e: Event) {
    match e
    case Proposal(_, b) => Allowed(rules, b)
    case VoteMessage(_, b, _) => Allowed(rules, b)
    case Reboot(_) => !rules.lasting
    case _ => true
  }

  ghost predicate ObeysRun(c: Config, rules: Rules, run: Run) {
    IsRun(c, run) && forall i | 0 <= i < |run.events| :: Obeys(rules, run.events[i])
  }

  /** The runs of agreement are those that obey all three. */
  lemma AllRulesDiscipline(c: Config, run: Run)
    ensures ObeysRun(c, ALL_RULES, run) <==> DisciplinedRun(c, run)
  {
    assert forall e: Event :: Obeys(ALL_RULES, e) <==> Disciplined(e);
  }

  function Last(run: Run): System
    requires run.states != []
  {
    run.states[|run.states| - 1]
  }

  lemma Start(c: Config, rules: Rules) returns (run: Run)
    ensures ObeysRun(c, rules, run) && Last(run) == Initial(c)
  {
    run := Run([], [Initial(c)]);
  }

  lemma Extend(c: Config, rules: Rules, run: Run, e: Event) returns (run': Run)
    requires ObeysRun(c, rules, run) && Enabled(c, Last(run), e) && Obeys(rules, e)
    ensures ObeysRun(c, rules, run') && Last(run') == Apply(c, Last(run), e)
  {
    run' := Run(run.events + [e], run.states + [Apply(c, Last(run), e)]);
    forall i | 0 <= i < |run'.events|
      ensures IsStep(c, run', i)
    {
      if i < |run.events| {
        assert IsStep(c, run, i);
      }
    }
  }

  // ---- a crew ----

  /** Honest replicas that together with faulty ones can sign as a quorum. */
  datatype Crew = Crew(rules: Rules, group: set<ReplicaId>, signers: set<ReplicaId>) {
    ghost predicate Valid(c: Config) {
      && IsQuorum(c, signers) && Nameable(signers)
      && group <= c.Honest() && signers <= c.faulty + group
    }
  }

  /** All replicas of the crew are in state `s`. */
  ghost predicate InStep(c: Config, k: Crew, run: Run, s: Replica) {
    && ObeysRun(c, k.rules, run)
    && Last(run).replicas.Keys == c.Honest()
    && s.status.Running?
    && forall r | r in k.group :: r in Last(run).replicas && Last(run).replicas[r] == s
  }

  /** All signers of the crew voted for a stored block. */
  ghost predicate Backed(c: Config, k: Crew, votes: seq<Vote>, b: Block) {
    b.Genesis? || (Stored(c, votes, b) && k.signers <= Voters(c, votes, b))
  }

  lemma BackedGrows(c: Config, k: Crew, votes: seq<Vote>, more: seq<Vote>, b: Block)
    requires votes <= more && Backed(c, k, votes, b)
    ensures Backed(c, k, more, b)
  {
    if b.Block? {
      StoredGrow(c, votes, more, b);
      VotersGrow(c, votes, more, b);
    }
  }

  lemma BackedStored(c: Config, k: Crew, votes: seq<Vote>, b: Block)
    requires Backed(c, k, votes, b)
    ensures Stored(c, votes, b)
  {
  }

  /** A block on stored blocks that carries the crew's certificate is stored. */
  lemma StoredOn(c: Config, k: Crew, votes: seq<Vote>, b: Block)
    requires k.Valid(c) && b.Block? && b.signers == k.signers
    requires Stored(c, votes, b.parent) && Backed(c, k, votes, b.justify)
    ensures Stored(c, votes, b)
  {
    if b.justify.Block? {
      assert b.signers * Voters(c, votes, b.justify) == b.signers;
    }
  }

  /** Faulty replicas may vote for anything. */
  lemma {:induction false} FaultyVotes(c: Config, rules: Rules, run: Run, group: set<ReplicaId>, b: Block)
    returns (run': Run)
    requires ObeysRun(c, rules, run) && group <= c.faulty
    ensures ObeysRun(c, rules, run')
    ensures Last(run').replicas == Last(run).replicas && Last(run).votes <= Last(run').votes
    ensures forall r | r in group :: Vote(r, b) in Last(run').votes
    decreases group
  {
    if group == {} {
      run' := run;
    } else {
      var r :| r in group;
      var run1 := FaultyVotes(c, rules, run, group - {r}, b);
      run' := Extend(c, rules, run1, FaultyVote(r, b));
    }
  }

  /** Hands a block to replicas that are all in one state and will vote for it. */
  lemma {:induction false} DeliverAll(c: Config, rules: Rules, run: Run, group: set<ReplicaId>, b: Block, s: Replica)
    returns (run': Run)
    requires ObeysRun(c, rules, run)
    requires forall r | r in group :: r in Last(run).replicas && Last(run).replicas[r] == s
    requires s.status.Running? && b.Block? && Stored(c, Last(run).votes, b) && WillVote(s, b) && Allowed(rules, b)
    ensures ObeysRun(c, rules, run') && Last(run).votes <= Last(run').votes
    ensures Last(run').replicas.Keys == Last(run).replicas.Keys
    ensures forall r | r in group :: Vote(r, b) in Last(run').votes && Last(run').replicas[r] == OnReceiveProposal(s, b)
    ensures forall r | r in Last(run).replicas && r !in group :: Last(run').replicas[r] == Last(run).replicas[r]
    decreases group
  {
    if group == {} {
      run' := run;
    } else {
      var r :| r in group;
      var run1 := DeliverAll(c, rules, run, group - {r}, b, s);
      StoredGrow(c, Last(run).votes, Last(run1).votes, b);
      run' := Extend(c, rules, run1, Proposal(r, b));
    }
  }

  /** The crew votes for one more block, which is thereby backed. */
  lemma CrewVotes(c: Config, k: Crew, run: Run, s: Replica, b: Block) returns (run': Run)
    requires k.Valid(c) && InStep(c, k, run, s) && Allowed(k.rules, b)
    requires b.Block? && b.signers == k.signers && WillVote(s, b) && OnReceiveProposal(s, b).status.Running?
    requires Stored(c, Last(run).votes, b.parent) && Backed(c, k, Last(run).votes, b.justify)
    ensures InStep(c, k, run', OnReceiveProposal(s, b)) && Backed(c, k, Last(run').votes, b)
    ensures Last(run).votes <= Last(run').votes
    ensures forall r | r in c.Honest() && r !in k.group :: Last(run').replicas[r] == Last(run).replicas[r]
  {
    StoredOn(c, k, Last(run).votes, b);
    var run1 := DeliverAll(c, k.rules, run, k.group, b, s);
    run' := FaultyVotes(c, k.rules, run1, k.signers * c.faulty, b);
    StoredGrow(c, Last(run).votes, Last(run').votes, b);
    forall r | r in k.signers
      ensures r in Voters(c, Last(run').votes, b)
    {
      assert r in c.faulty ==> r in k.signers * c.faulty;
    }
  }

  /** One replica of the crew receives a block, whether it votes or not. */
  lemma OneReceives(c: Config, k: Crew, run: Run, p: ReplicaId, b: Block) returns (run': Run)
    requires k.Valid(c) && ObeysRun(c, k.rules, run) && Up(Last(run), p) && Allowed(k.rules, b)
    requires b.Block? && b.signers == k.signers
    requires Stored(c, Last(run).votes, b.parent) && Backed(c, k, Last(run).votes, b.justify)
    ensures ObeysRun(c, k.rules, run') && Last(run).votes <= Last(run').votes
    ensures Last(run').replicas == Last(run).replicas[p := OnReceiveProposal(Last(run).replicas[p], b)]
  {
    StoredOn(c, k, Last(run).votes, b);
    run' := Extend(c, k.rules, run, Proposal(p, b));
  }

  /** Every replica of a group restarts. */
  lemma {:induction false} RestartAll(c: Config, rules: Rules, run: Run, group: set<ReplicaId>, s: Replica)
    returns (run': Run)
    requires ObeysRun(c, rules, run) && !rules.lasting && s.topQc.Some?
    requires forall r | r in group :: r in Last(run).replicas && Last(run).replicas[r] == s
    ensures ObeysRun(c, rules, run') && Last(run').votes == Last(run).votes
    ensures Last(run').replicas.Keys == Last(run).replicas.Keys
    ensures forall r | r in group :: Last(run').replicas[r] == Restart(s)
    ensures forall r | r in Last(run).replicas && r !in group :: Last(run').replicas[r] == Last(run).replicas[r]
    decreases group
  {
    if group == {} {
      run' := run;
    } else {
      var r :| r in group;
      var run1 := RestartAll(c, rules, run, group - {r}, s);
      run' := Extend(c, rules, run1, Reboot(r));
    }
  }

  // ---- what a block does to a replica ----

  /** A running replica that last voted at height `v`, is locked on `lock` and has
      executed up to `exec`. */
  ghost predicate At(s: Replica, v: nat, lock: Block, exec: Block) {
    && s.vheight == v && s.bLock == lock && s.bExec == exec
    && s.decided == Ancestors(exec)
    && s.status.Running? && s.flushed == {Genesis}
    && (exec.Block? ==> s.topQc.Some? && s.topQc.value.block == exec)
  }

  function Higher(a: Block, b: Block): Block {
    if Height(b) > Height(a) then b else a
  }

  lemma NotBelow(b: Block, exec: Block)
    requires Height(b) > Height(exec)
    ensures b !in Ancestors(exec)
  {
    AncestorsAreAncestors(b, exec);
    if b in Ancestors(exec) {
      AncestorHeight(b, exec);
    }
  }

  /** The block's certificate, or the one below it, is on a decided block. */
  lemma UpdateRests(s: Replica, b: Block, v: nat, lock: Block, exec: Block)
    requires At(s, v, lock, exec) && b.Block?
    requires b.justify in Ancestors(exec) || (b.justify.Block? && b.justify.justify in Ancestors(exec))
    ensures At(Update(s, b), v, lock, exec)
  {
  }

  /** The state in which `LockAndCommit` finds a replica that processes `b`. */
  function Entered(s: Replica, b: Block): Replica
    requires b.Block?
  {
    UpdateHqc(s, Certificate(b.justify, b.signers))
  }

  /** The block moves the lock and commits nothing. */
  lemma UpdateLocks(s: Replica, b: Block, v: nat, lock: Block, exec: Block)
    requires At(s, v, lock, exec) && b.Block? && b.justify.Block?
    requires Height(b.justify) > Height(exec) && Height(b.justify.justify) > Height(exec)
    requires !Commits(s, b.justify)
    ensures At(Update(s, b), v, Higher(lock, b.justify.justify), exec)
  {
    NotBelow(b.justify, exec);
    NotBelow(b.justify.justify, exec);
    LockKeeps(Entered(s, b), b.justify.justify);
  }

  /** The block completes a direct three-chain above the executed block. */
  lemma UpdateCommits(s: Replica, b: Block, v: nat, lock: Block, exec: Block)
    requires At(s, v, lock, exec) && b.Block? && b.justify.Block? && b.justify.justify.Block?
    requires b.justify.parent == b.justify.justify && b.justify.justify.parent == b.justify.justify.justify
    requires var blk := b.justify.justify.justify; Height(blk) > Height(exec) && IsAncestor(exec, blk)
    ensures At(Update(s, b), v, Higher(lock, b.justify.justify), b.justify.justify.justify)
  {
    var blk1 := b.justify.justify;
    NotBelow(b.justify, exec);
    NotBelow(blk1, exec);
    NotBelow(blk1.justify, exec);
    LockKeeps(Entered(s, b), blk1);
    CommitAt(Lock(Entered(s, b), blk1), v, Higher(lock, blk1), exec, blk1.justify, blk1.signers);
  }

  lemma CommitAt(s: Replica, v: nat, lock: Block, exec: Block, blk: Block, signers: set<ReplicaId>)
    requires At(s, v, lock, exec) && IsAncestor(exec, blk)
    ensures At(Commit(s, blk, Certificate(blk, signers)), v, lock, blk)
  {
    forall x | x in Path(exec, blk)
      ensures x !in s.flushed
    {
      PathHeights(exec, blk, x);
    }
    ApplyAllUnflushed(s, Path(exec, blk));
    DecidedGrows(exec, blk);
  }

  /** A block that gets the replica's vote, apart from what processing it does. */
  ghost predicate Votes(b: Block, v: nat, lock: Block) {
    b.Block? && v < Height(b) && (Height(b.justify) > Height(lock) || IsAncestor(lock, b))
  }

  function Voted(s: Replica, b: Block): Replica {
    s.(vheight := Truncated(Height(b)))
  }

  lemma VotedAt(s: Replica, b: Block, v: nat, lock: Block, exec: Block)
    requires At(s, v, lock, exec) && Votes(b, v, lock)
    ensures WillVote(s, b) && OnReceiveProposal(s, b) == Update(Voted(s, b), b)
    ensures At(Voted(s, b), Truncated(Height(b)), lock, exec)
  {
  }

  // ---- a straight chain ----

  /** A chain in which every block is justified by its parent. */
  function Straight(k: nat, signers: set<ReplicaId>, rest: nat): Block {
    if k == 0 then Genesis
    else Block(Straight(k - 1, signers, rest), Straight(k - 1, signers, rest), signers, rest)
  }

  lemma {:induction false} StraightShape(k: nat, signers: set<ReplicaId>, rest: nat)
    ensures Height(Straight(k, signers, rest)) == k && JustifiesAncestor(Straight(k, signers, rest))
    ensures k > 0 ==> Straight(k, signers, rest).Block? && Straight(k, signers, rest).rest == rest
  {
    if k > 0 {
      StraightShape(k - 1, signers, rest);
    }
  }

  /** The block `i` places below height `k`, but never below genesis. */
  function Below(k: nat, i: nat, signers: set<ReplicaId>, rest: nat): Block {
    Straight(if k < i then 0 else k - i, signers, rest)
  }

  /** What one more block of a straight chain does. */
  lemma StraightStep(s: Replica, k: nat, v: nat, a: set<ReplicaId>, rest: nat)
    requires k > 0 && v < k && At(s, v, Below(k, 3, a, rest), Below(k, 4, a, rest))
    ensures var b := Straight(k, a, rest);
      WillVote(s, b) && At(OnReceiveProposal(s, b), Truncated(k), Below(k, 2, a, rest), Below(k, 3, a, rest))
  {
    var b, lock, exec := Straight(k, a, rest), Below(k, 3, a, rest), Below(k, 4, a, rest);
    StraightShapes(k, a, rest);
    GenesisIsAncestor(b);
    VotedAt(s, b, v, lock, exec);
    StraightUpdate(Voted(s, b), k, Truncated(k), a, rest);
  }

  lemma StraightShapes(k: nat, a: set<ReplicaId>, rest: nat)
    requires k > 0
    ensures forall i | 0 <= i <= 4 :: Height(Below(k, i, a, rest)) == if k < i then 0 else k - i
    ensures Straight(k, a, rest).Block? && Straight(k, a, rest).justify == Below(k, 1, a, rest)
  {
    forall i | 0 <= i <= 4
      ensures Height(Below(k, i, a, rest)) == if k < i then 0 else k - i
    {
      StraightShape(if k < i then 0 else k - i, a, rest);
    }
  }

  lemma StraightUpdate(s: Replica, k: nat, v: nat, a: set<ReplicaId>, rest: nat)
    requires k > 0 && At(s, v, Below(k, 3, a, rest), Below(k, 4, a, rest))
    ensures At(Update(s, Straight(k, a, rest)), v, Below(k, 2, a, rest), Below(k, 3, a, rest))
  {
    var b, lock, exec := Straight(k, a, rest), Below(k, 3, a, rest), Below(k, 4, a, rest);
    StraightShapes(k, a, rest);
    assert Genesis in Ancestors(exec) by {
      AncestorsAreAncestors(Genesis, exec);
      GenesisIsAncestor(exec);
    }
    if k <= 2 {
      UpdateRests(s, b, v, lock, exec);
    } else {
      StraightShapes(k - 1, a, rest);
      if k == 3 {
        UpdateLocks(s, b, v, lock, exec);
      } else {
        StraightShapes(k - 2, a, rest);
        StraightShapes(k - 3, a, rest);
        UpdateCommits(s, b, v, lock, exec);
      }
    }
  }

  ghost predicate BackedTo(c: Config, k: Crew, votes: seq<Vote>, n: nat, rest: nat) {
    forall m: nat | m <= n :: Backed(c, k, votes, Straight(m, k.signers, rest))
  }

  lemma BackedToGrows(c: Config, k: Crew, votes: seq<Vote>, more: seq<Vote>, n: nat, rest: nat)
    requires votes <= more && BackedTo(c, k, votes, n, rest)
    ensures BackedTo(c, k, more, n, rest)
  {
    forall m: nat | m <= n
      ensures Backed(c, k, more, Straight(m, k.signers, rest))
    {
      BackedGrows(c, k, votes, more, Straight(m, k.signers, rest));
    }
  }

  lemma BackedBelow(c: Config, k: Crew, votes: seq<Vote>, n: nat, rest: nat)
    requires n > 0 && BackedTo(c, k, votes, n - 1, rest)
    ensures var b := Straight(n, k.signers, rest);
      && b.Block? && b.signers == k.signers && b.parent == b.justify
      && Backed(c, k, votes, b.parent) && Stored(c, votes, b.parent)
  {
    assert Backed(c, k, votes, Straight(n - 1, k.signers, rest));
  }

  lemma BackedToNext(c: Config, k: Crew, votes: seq<Vote>, more: seq<Vote>, n: nat, rest: nat)
    requires n > 0 && votes <= more && BackedTo(c, k, votes, n - 1, rest)
    requires Backed(c, k, more, Straight(n, k.signers, rest))
    ensures BackedTo(c, k, more, n, rest)
  {
    BackedToGrows(c, k, votes, more, n - 1, rest);
  }

  /** A crew that has done nothing yet climbs a straight chain of any length. */
  lemma {:induction false} Climb(c: Config, k: Crew, run: Run, n: nat, rest: nat) returns (run': Run, s: Replica)
    requires k.Valid(c) && InStep(c, k, run, INITIAL) && (k.rules.heights ==> n < VHEIGHT_MODULUS)
    ensures InStep(c, k, run', s) && Last(run).votes <= Last(run').votes
    ensures BackedTo(c, k, Last(run').votes, n, rest)
    ensures At(s, Truncated(n), Below(n, 2, k.signers, rest), Below(n, 3, k.signers, rest))
    ensures forall r | r in c.Honest() && r !in k.group :: Last(run').replicas[r] == Last(run).replicas[r]
  {
    if n == 0 {
      run', s := run, INITIAL;
    } else {
      var run1, s1 := Climb(c, k, run, n - 1, rest);
      run', s := ClimbStep(c, k, run1, s1, n, rest);
    }
  }

  lemma ClimbStep(c: Config, k: Crew, run: Run, s: Replica, n: nat, rest: nat) returns (run': Run, s': Replica)
    requires k.Valid(c) && InStep(c, k, run, s) && n > 0 && (k.rules.heights ==> n < VHEIGHT_MODULUS)
    requires BackedTo(c, k, Last(run).votes, n - 1, rest)
    requires At(s, Truncated(n - 1), Below(n, 3, k.signers, rest), Below(n, 4, k.signers, rest))
    ensures InStep(c, k, run', s') && Last(run).votes <= Last(run').votes
    ensures BackedTo(c, k, Last(run').votes, n, rest)
    ensures At(s', Truncated(n), Below(n, 2, k.signers, rest), Below(n, 3, k.signers, rest))
    ensures forall r | r in c.Honest() && r !in k.group :: Last(run').replicas[r] == Last(run).replicas[r]
  {
    var b := Straight(n, k.signers, rest);
    StraightShape(n, k.signers, rest);
    assert Truncated(n - 1) < n;
    StraightStep(s, n, Truncated(n - 1), k.signers, rest);
    s' := OnReceiveProposal(s, b);
    BackedBelow(c, k, Last(run).votes, n, rest);
    run' := CrewVotes(c, k, run, s, b);
    BackedToNext(c, k, Last(run).votes, Last(run').votes, n, rest);
  }

  lemma OnlyOne(s: set<ReplicaId>, p: ReplicaId, q: ReplicaId)
    requires |s| <= 1 && p in s && q in s
    ensures p == q
  {
    if p != q {
      SubsetSize({p, q}, s);
    }
  }
}
