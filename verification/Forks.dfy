/** Runs that fork: give up any one of the three rules on events, keep the other two, and
    in every configuration with two honest replicas some run makes them execute different
    chains.  In these runs faulty replicas, if there are any, vote like the honest ones. */
module Forks {
  import opened Options
  import opened Blocks
  import opened Quorum
  import opened ReplicaSpec
  import opened Network
  import opened Invariant
  import opened Agreement
  import opened Lockstep

  /** Any two executed blocks, of any honest replicas at any moments, are on one chain. */
  ghost predicate ExecutedAgreeIn(c: Config, run: Run) {
    forall i, j, p, q | 0 <= i < |run.states| && 0 <= j < |run.states| && p in c.Honest() && q in c.Honest() ::
      OneChain(Executed(run, i, p), Executed(run, j, q))
  }

  predicate OneChain(a: Block, b: Block) {
    IsAncestor(a, b) || IsAncestor(b, a)
  }

  // ---- forks ----

  /** All honest replicas, signing with everybody. */
  function Everybody(c: Config, rules: Rules): Crew {
    Crew(rules, c.Honest(), c.replicas)
  }

  lemma EverybodyValid(c: Config, rules: Rules)
    requires c.Valid() && Nameable(c.replicas)
    ensures Everybody(c, rules).Valid(c)
  {
  }

  ghost predicate BackedAll(c: Config, k: Crew, votes: seq<Vote>, bs: set<Block>) {
    forall b | b in bs :: Backed(c, k, votes, b)
  }

  /** A block a crew in state `s` votes for. */
  ghost predicate Electable(k: Crew, s: Replica, b: Block) {
    && b.Block? && b.signers == k.signers && Allowed(k.rules, b)
    && WillVote(s, b) && OnReceiveProposal(s, b).status.Running?
  }

  /** The crew votes for a block on backed blocks and carries on with more of them. */
  lemma VoteOn(c: Config, k: Crew, run: Run, s: Replica, bs: set<Block>, b: Block) returns (run': Run)
    requires k.Valid(c) && InStep(c, k, run, s) && BackedAll(c, k, Last(run).votes, bs)
    requires Electable(k, s, b) && b.parent in bs && b.justify in bs
    ensures InStep(c, k, run', OnReceiveProposal(s, b)) && BackedAll(c, k, Last(run').votes, bs + {b})
  {
    BackedStored(c, k, Last(run).votes, b.parent);
    run' := CrewVotes(c, k, run, s, b);
    forall x | x in bs
      ensures Backed(c, k, Last(run').votes, x)
    {
      BackedGrows(c, k, Last(run).votes, Last(run').votes, x);
    }
  }

  /** ... and so for three blocks, each on the ones before. */
  lemma ThreeVotes(c: Config, k: Crew, run: Run, s: Replica, bs: set<Block>, b1: Block, b2: Block, b3: Block)
    returns (run': Run)
    requires k.Valid(c) && InStep(c, k, run, s) && BackedAll(c, k, Last(run).votes, bs)
    requires Electable(k, s, b1) && b1.parent in bs && b1.justify in bs
    requires var s1 := OnReceiveProposal(s, b1);
      && Electable(k, s1, b2) && b2.parent in bs + {b1} && b2.justify in bs + {b1}
      && var s2 := OnReceiveProposal(s1, b2);
         Electable(k, s2, b3) && b3.parent in bs + {b1, b2} && b3.justify in bs + {b1, b2}
    ensures InStep(c, k, run', OnReceiveProposal(OnReceiveProposal(OnReceiveProposal(s, b1), b2), b3))
    ensures BackedAll(c, k, Last(run').votes, bs + {b1, b2, b3})
  {
    var s1 := OnReceiveProposal(s, b1);
    var run1 := VoteOn(c, k, run, s, bs, b1);
    var run2 := VoteOn(c, k, run1, s1, bs + {b1}, b2);
    assert bs + {b1} + {b2} == bs + {b1, b2};
    run' := VoteOn(c, k, run2, OnReceiveProposal(s1, b2), bs + {b1, b2}, b3);
    assert bs + {b1, b2} + {b3} == bs + {b1, b2, b3};
  }

  /** Two replicas in one state, each handed the block that makes it execute the tip of
      another branch. */
  lemma Part(c: Config, k: Crew, run: Run, s: Replica, bs: set<Block>, x: Block, y: Block) returns (run': Run)
    requires k.Valid(c) && k.group == c.Honest() && |c.Honest()| >= 2
    requires InStep(c, k, run, s) && BackedAll(c, k, Last(run).votes, bs) && Allowed(k.rules, x) && Allowed(k.rules, y)
    requires x.Block? && x.signers == k.signers && x.parent in bs && x.justify in bs
    requires y.Block? && y.signers == k.signers && y.parent in bs && y.justify in bs
    requires !OneChain(OnReceiveProposal(s, x).bExec, OnReceiveProposal(s, y).bExec)
    ensures ObeysRun(c, k.rules, run') && !ExecutedAgreeIn(c, run')
  {
    var p, q := TwoOf(c.Honest());
    BackedStored(c, k, Last(run).votes, x.parent);
    var run1 := OneReceives(c, k, run, p, x);
    BackedGrows(c, k, Last(run).votes, Last(run1).votes, y.parent);
    BackedGrows(c, k, Last(run).votes, Last(run1).votes, y.justify);
    BackedStored(c, k, Last(run1).votes, y.parent);
    run' := OneReceives(c, k, run1, q, y);
    var i := |run'.states| - 1;
    assert !OneChain(Executed(run', i, p), Executed(run', i, q));
  }

  lemma TwoOf(h: set<ReplicaId>) returns (p: ReplicaId, q: ReplicaId)
    requires |h| >= 2
    ensures p in h && q in h && p != q
  {
    p :| p in h;
    assert |h - {p}| == |h| - 1;
    q :| q in h - {p};
  }

  /** Different blocks of one height are on different chains. */
  lemma Apart(a: Block, b: Block)
    requires a != b && Height(a) == Height(b)
    ensures !OneChain(a, b)
  {
    if IsAncestor(a, b) {
      AncestorHeight(a, b);
    }
    if IsAncestor(b, a) {
      AncestorHeight(b, a);
    }
  }

  /** A block justified by its parent. */
  function On(b: Block, a: set<ReplicaId>): Block {
    Block(b, b, a, 1)
  }

  lemma OnShape(b: Block, a: set<ReplicaId>)
    ensures Height(On(b, a)) == Height(b) + 1 && IsAncestor(b, On(b, a))
    ensures JustifiesAncestor(b) ==> JustifiesAncestor(On(b, a))
  {
  }

  lemma InAncestors(a: Block, b: Block)
    requires IsAncestor(a, b)
    ensures a in Ancestors(b)
  {
    AncestorsAreAncestors(a, b);
  }

  /** Whether it votes or not, a replica that receives the top of a three-chain executes
      its bottom. */
  lemma ReceiveCommits(s: Replica, b: Block, v: nat, lock: Block, exec: Block)
    requires At(s, v, lock, exec) && b.Block? && b.justify.Block? && b.justify.justify.Block?
    requires b.justify.parent == b.justify.justify && b.justify.justify.parent == b.justify.justify.justify
    requires var blk := b.justify.justify.justify; Height(blk) > Height(exec) && IsAncestor(exec, blk)
    ensures OnReceiveProposal(s, b).bExec == b.justify.justify.justify
  {
    UpdateCommits(s, b, v, lock, exec);
    UpdateCommits(Voted(s, b), b, Truncated(Height(b)), lock, exec);
  }

  /** A block on which the replica votes and that changes nothing else. */
  lemma VoteRests(s: Replica, b: Block, v: nat, lock: Block, exec: Block)
    requires At(s, v, lock, exec) && Votes(b, v, lock)
    requires b.justify in Ancestors(exec) || (b.justify.Block? && b.justify.justify in Ancestors(exec))
    ensures WillVote(s, b) && At(OnReceiveProposal(s, b), Truncated(Height(b)), lock, exec)
  {
    VotedAt(s, b, v, lock, exec);
    UpdateRests(Voted(s, b), b, Truncated(Height(b)), lock, exec);
  }

  /** A block on which the replica votes and that moves its lock. */
  lemma VoteLocks(s: Replica, b: Block, v: nat, lock: Block, exec: Block)
    requires At(s, v, lock, exec) && Votes(b, v, lock) && b.justify.Block?
    requires Height(b.justify) > Height(exec) && Height(b.justify.justify) > Height(exec)
    requires !Commits(s, b.justify)
    ensures WillVote(s, b)
    ensures At(OnReceiveProposal(s, b), Truncated(Height(b)), Higher(lock, b.justify.justify), exec)
  {
    VotedAt(s, b, v, lock, exec);
    UpdateLocks(Voted(s, b), b, Truncated(Height(b)), lock, exec);
  }

  /** A block on which the replica votes and that makes it commit. */
  lemma VoteCommits(s: Replica, b: Block, v: nat, lock: Block, exec: Block)
    requires At(s, v, lock, exec) && Votes(b, v, lock)
    requires b.justify.Block? && b.justify.justify.Block?
    requires b.justify.parent == b.justify.justify && b.justify.justify.parent == b.justify.justify.justify
    requires var blk := b.justify.justify.justify; Height(blk) > Height(exec) && IsAncestor(exec, blk)
    ensures WillVote(s, b)
    ensures At(OnReceiveProposal(s, b), Truncated(Height(b)), Higher(lock, b.justify.justify),
               b.justify.justify.justify)
  {
    VotedAt(s, b, v, lock, exec);
    UpdateCommits(Voted(s, b), b, Truncated(Height(b)), lock, exec);
  }

  /** `x` sits on a direct three-chain with bottom `bottom`. */
  ghost predicate Crowns(x: Block, bottom: Block) {
    && x.Block? && x.justify.Block? && x.justify.justify.Block?
    && x.justify.parent == x.justify.justify && x.justify.justify.parent == x.justify.justify.justify
    && x.justify.justify.justify == bottom
  }

  /** Two three-chains that part right above what was executed. */
  lemma Tops(s: Replica, v: nat, lock: Block, exec: Block, x: Block, xb: Block, y: Block, yb: Block)
    requires At(s, v, lock, exec) && Crowns(x, xb) && Crowns(y, yb)
    requires xb.Block? && yb.Block? && xb.parent == exec && yb.parent == exec && xb != yb
    ensures !OneChain(OnReceiveProposal(s, x).bExec, OnReceiveProposal(s, y).bExec)
  {
    ReceiveCommits(s, x, v, lock, exec);
    ReceiveCommits(s, y, v, lock, exec);
    Apart(xb, yb);
  }

  lemma StraightTop(n: nat, a: set<ReplicaId>, rest: nat)
    requires n >= 4
    ensures var x := Straight(n, a, rest);
      && Height(x) == n && JustifiesAncestor(x) && x.signers == a
      && x.parent == x.justify == Straight(n - 1, a, rest)
      && Crowns(x, Straight(n - 3, a, rest)) && Straight(n - 3, a, rest).parent == Straight(n - 4, a, rest)
      && Straight(n - 3, a, rest).rest == rest
  {
    StraightShape(n, a, rest);
    var x1, x2, x3 := Straight(n - 1, a, rest), Straight(n - 2, a, rest), Straight(n - 3, a, rest);
    assert x1.justify == x2 && x1.parent == x2;
    assert x2.justify == x3 && x2.parent == x3;
  }

  // ---- restarts ----

  const RESTARTS: Rules := Rules(true, true, false)

  /** Everybody votes up to height six of a straight chain and has executed its third
      block; then everybody restarts and has forgotten the lock on the fourth. */
  lemma ForgetLock(c: Config, k: Crew) returns (run: Run, s: Replica)
    requires c.Valid() && k.Valid(c) && k == Everybody(c, RESTARTS)
    ensures InStep(c, k, run, s) && BackedTo(c, k, Last(run).votes, 6, 0)
    ensures At(s, 3, Straight(3, k.signers, 0), Straight(3, k.signers, 0))
  {
    var run0 := Start(c, RESTARTS);
    var run1, s1 := Climb(c, k, run0, 6, 0);
    StraightShape(3, k.signers, 0);
    RestartAt(s1, Truncated(6), Straight(4, k.signers, 0), Straight(3, k.signers, 0));
    run := RestartAll(c, RESTARTS, run1, k.group, s1);
    s := Restart(s1);
  }

  /** A restart puts the lock and the last vote back to the executed block. */
  lemma RestartAt(s: Replica, v: nat, lock: Block, exec: Block)
    requires At(s, v, lock, exec) && exec.Block? && Height(exec) < VHEIGHT_MODULUS
    ensures s.topQc.Some? && At(Restart(s), Height(exec), exec, exec)
  {
    TruncatedFits(Height(exec));
  }

  /** From there everybody votes for a second branch above the third block ... */
  lemma SecondBranch(k: Crew, s: Replica, b: Block, a: set<ReplicaId>) returns (s1: Replica, s2: Replica, s3: Replica)
    requires At(s, Height(b), b, b) && Height(b) + 4 < VHEIGHT_MODULUS && JustifiesAncestor(b) && a == k.signers
    ensures var y1 := On(b, a); var y2 := On(y1, a); var y3 := On(y2, a);
      && Electable(k, s, y1) && s1 == OnReceiveProposal(s, y1)
      && Electable(k, s1, y2) && s2 == OnReceiveProposal(s1, y2)
      && Electable(k, s2, y3) && s3 == OnReceiveProposal(s2, y3)
      && At(s3, Height(y3), y1, b) && Allowed(k.rules, On(y3, a)) && Crowns(On(y3, a), y1)
  {
    var y1, y2, y3 := On(b, a), On(On(b, a), a), On(On(On(b, a), a), a);
    OnShape(b, a);
    OnShape(y1, a);
    OnShape(y2, a);
    OnShape(y3, a);
    s1, s2, s3 := BranchStates(k, s, b, y1, y2, y3);
  }

  lemma BranchStates(k: Crew, s: Replica, b: Block, y1: Block, y2: Block, y3: Block)
    returns (s1: Replica, s2: Replica, s3: Replica)
    requires At(s, Height(b), b, b) && Height(b) + 3 < VHEIGHT_MODULUS
    requires y1.Block? && y1.justify == b && Height(y1) == Height(b) + 1 && IsAncestor(b, y1)
    requires y2.Block? && y2.justify == y1 && Height(y2) == Height(b) + 2
    requires y3.Block? && y3.justify == y2 && Height(y3) == Height(b) + 3
    requires y1.signers == k.signers && y2.signers == k.signers && y3.signers == k.signers
    requires Allowed(k.rules, y1) && Allowed(k.rules, y2) && Allowed(k.rules, y3)
    ensures Electable(k, s, y1) && s1 == OnReceiveProposal(s, y1)
    ensures Electable(k, s1, y2) && s2 == OnReceiveProposal(s1, y2)
    ensures Electable(k, s2, y3) && s3 == OnReceiveProposal(s2, y3)
    ensures At(s3, Height(y3), y1, b)
  {
    InAncestors(b, b);
    TruncatedFits(Height(y1));
    TruncatedFits(Height(y2));
    TruncatedFits(Height(y3));
    VoteRests(s, y1, Height(b), b, b);
    s1 := OnReceiveProposal(s, y1);
    VoteRests(s1, y2, Height(y1), b, b);
    s2 := OnReceiveProposal(s1, y2);
    VoteLocks(s2, y3, Height(y2), b, b);
    s3 := OnReceiveProposal(s2, y3);
  }

  lemma {:induction false} StraightBacked(c: Config, k: Crew, votes: seq<Vote>, n: nat, m: nat, rest: nat)
    requires BackedTo(c, k, votes, n, rest) && m <= n
    ensures Backed(c, k, votes, Straight(m, k.signers, rest))
  {
  }

  /** The straight chain above height `n`. */
  lemma FirstBranch(a: set<ReplicaId>, n: nat)
    requires 0 < n && n + 4 < VHEIGHT_MODULUS
    ensures var b, xb, x := Straight(n, a, 0), Straight(n + 1, a, 0), Straight(n + 4, a, 0);
      && Height(b) == n && JustifiesAncestor(b)
      && Crowns(x, xb) && xb.Block? && xb.parent == b && xb.rest == 0
      && x.parent == x.justify == Straight(n + 3, a, 0) && x.signers == a && Allowed(RESTARTS, x)
  {
    StraightTop(n + 4, a, 0);
    StraightShape(n, a, 0);
    StraightShape(n + 1, a, 0);
  }

  /** ... and one replica commits on each. */
  lemma RestartsFork(c: Config) returns (run: Run)
    requires c.Valid() && Nameable(c.replicas) && |c.Honest()| >= 2
    ensures ObeysRun(c, RESTARTS, run) && !ExecutedAgreeIn(c, run)
  {
    var k, a := Everybody(c, RESTARTS), c.replicas;
    EverybodyValid(c, RESTARTS);
    var run0, s := ForgetLock(c, k);
    StraightBacked(c, k, Last(run0).votes, 6, 3, 0);
    StraightBacked(c, k, Last(run0).votes, 6, 6, 0);
    FirstBranch(a, 3);
    run := ForkAt(c, k, run0, s, Straight(3, a, 0), Straight(6, a, 0), Straight(7, a, 0), Straight(4, a, 0));
  }

  /** A second branch on `b`, beside one whose top `x` executes `xb`. */
  lemma ForkAt(c: Config, k: Crew, run: Run, s: Replica, b: Block, below: Block, x: Block, xb: Block)
    returns (run': Run)
    requires k.Valid(c) && k.group == c.Honest() && |c.Honest()| >= 2 && InStep(c, k, run, s)
    requires Backed(c, k, Last(run).votes, b) && Backed(c, k, Last(run).votes, below)
    requires At(s, Height(b), b, b) && Height(b) + 4 < VHEIGHT_MODULUS && JustifiesAncestor(b)
    requires Crowns(x, xb) && xb.Block? && xb.parent == b && xb.rest == 0
    requires x.parent == below && x.justify == below && x.signers == k.signers && Allowed(k.rules, x)
    ensures ObeysRun(c, k.rules, run') && !ExecutedAgreeIn(c, run')
  {
    var y1, y2, y3 := On(b, k.signers), On(On(b, k.signers), k.signers), On(On(On(b, k.signers), k.signers), k.signers);
    var s1, s2, s3 := SecondBranch(k, s, b, k.signers);
    var run1 := ThreeVotes(c, k, run, s, {b, below}, y1, y2, y3);
    Tops(s3, Height(y3), y1, b, x, xb, On(y3, k.signers), y1);
    run' := Part(c, k, run1, s3, {b, below} + {y1, y2, y3}, x, On(y3, k.signers));
  }

  // ---- heights beyond 32 bits ----

  const TALL: Rules := Rules(true, false, true)

  lemma TruncatedBelow(h: nat, n: nat)
    requires n >= VHEIGHT_MODULUS
    ensures Truncated(h) < n
  {
  }

  /** The two branches around height `n`: the straight one, and one that leaves it at
      height `n - 1`. */
  lemma BranchFacts(n: nat, a: set<ReplicaId>)
    requires n >= VHEIGHT_MODULUS
    ensures var b0, lock, exec, b1 :=
        Straight(n - 1, a, 0), Straight(n - 2, a, 0), Straight(n - 3, a, 0), Straight(n + 1, a, 0);
      && b0.Block? && b0.justify == lock && b0.parent == lock && lock.Block? && lock.justify == exec
      && Height(b0) == n - 1 && Height(lock) == n - 2 && Height(exec) == n - 3
      && Height(On(b0, a)) == n && Height(On(On(b0, a), a)) == n + 1
      && JustifiesAncestor(On(b0, a)) && JustifiesAncestor(On(On(b0, a), a))
      && Height(b1) == n + 1 && JustifiesAncestor(b1) && b1.signers == a
      && Crowns(b1, lock) && b1.justify.justify == b0 && Height(b1.justify) == n && IsAncestor(exec, lock)
  {
    var b0 := Straight(n - 1, a, 0);
    StraightTop(n + 1, a, 0);
    StraightShape(n, a, 0);
    StraightShape(n - 1, a, 0);
    StraightShape(n - 2, a, 0);
    StraightShape(n - 3, a, 0);
    OnShape(b0, a);
    OnShape(On(b0, a), a);
  }

  /** At a height `n` of 2^32 or more nobody remembers having voted, so everybody votes
      for two branches in turn, here up to where the second becomes the lock ... */
  lemma BothBranches(k: Crew, s: Replica, n: nat, a: set<ReplicaId>) returns (s1: Replica, s2: Replica, s3: Replica)
    requires n >= VHEIGHT_MODULUS && k.signers == a && !k.rules.heights
    requires At(s, Truncated(n), Straight(n - 2, a, 0), Straight(n - 3, a, 0))
    ensures var b0, b1 := Straight(n - 1, a, 0), Straight(n + 1, a, 0);
      var y0 := On(b0, a); var y1 := On(y0, a);
      && Electable(k, s, y0) && s1 == OnReceiveProposal(s, y0)
      && Electable(k, s1, b1) && s2 == OnReceiveProposal(s1, b1)
      && Electable(k, s2, y1) && s3 == OnReceiveProposal(s2, y1)
      && At(s3, Truncated(n + 1), b0, Straight(n - 2, a, 0))
  {
    BranchFacts(n, a);
    TruncatedBelow(n, n);
    TruncatedBelow(n + 1, n);
    var b0 := Straight(n - 1, a, 0);
    s1, s2, s3 := BranchVotes(k, s, b0, Straight(n + 1, a, 0), On(b0, a), On(On(b0, a), a),
                              Straight(n - 2, a, 0), Straight(n - 3, a, 0), Truncated(n), Truncated(n + 1));
  }

  lemma BranchVotes(k: Crew, s: Replica, b0: Block, b1: Block, y0: Block, y1: Block, lock: Block, exec: Block,
                    v: nat, v': nat) returns (s1: Replica, s2: Replica, s3: Replica)
    requires At(s, v, lock, exec) && v == Truncated(Height(y0)) && v < Height(y0) && v < Height(b1)
    requires v' == Truncated(Height(b1)) && Height(b1) == Height(y1) && v' < Height(y1)
    requires b0.Block? && b0.justify == lock && lock.Block? && lock.justify == exec && IsAncestor(exec, lock)
    requires Height(exec) < Height(lock) < Height(b0) < Height(y0) && Height(b0) < Height(b1.justify)
    requires y0.Block? && y0.justify == b0 && y0.signers == k.signers && Allowed(k.rules, y0)
    requires y1.Block? && y1.justify == y0 && y1.signers == k.signers && Allowed(k.rules, y1)
    requires Crowns(b1, lock) && b1.justify.justify == b0 && b1.signers == k.signers && Allowed(k.rules, b1)
    ensures Electable(k, s, y0) && s1 == OnReceiveProposal(s, y0)
    ensures Electable(k, s1, b1) && s2 == OnReceiveProposal(s1, b1)
    ensures Electable(k, s2, y1) && s3 == OnReceiveProposal(s2, y1)
    ensures At(s3, v', b0, lock)
  {
    s1 := StayVote(k, s, y0, v, lock, exec);
    s2 := ClimbVote(k, s1, b1, v, b0, lock, exec);
    s3 := StayVote(k, s2, y1, v', b0, lock);
  }

  /** A vote for the next block of the chain that holds the lock: everything moves up. */
  lemma ClimbVote(k: Crew, s: Replica, b: Block, v: nat, up: Block, lock: Block, exec: Block) returns (s': Replica)
    requires At(s, v, lock, exec) && Crowns(b, lock) && b.justify.justify == up && IsAncestor(exec, lock)
    requires Height(exec) < Height(lock) < Height(up) < Height(b.justify)
    requires v < Height(b) && b.signers == k.signers && Allowed(k.rules, b)
    ensures Electable(k, s, b) && s' == OnReceiveProposal(s, b) && At(s', Truncated(Height(b)), up, lock)
  {
    VoteCommits(s, b, v, lock, exec);
    s' := OnReceiveProposal(s, b);
  }

  /** A vote for a block whose grandparent in the chain of certificates is the lock already
      and whose great-grandparent is executed: nothing but the vote changes. */
  lemma StayVote(k: Crew, s: Replica, y: Block, v: nat, lock: Block, exec: Block) returns (s': Replica)
    requires At(s, v, lock, exec) && y.Block? && y.justify.Block? && y.justify.justify == lock
    requires lock.Block? && lock.justify == exec && Height(exec) < Height(lock) < Height(y.justify)
    requires v < Height(y) && y.signers == k.signers && Allowed(k.rules, y)
    ensures Electable(k, s, y) && s' == OnReceiveProposal(s, y) && At(s', Truncated(Height(y)), lock, exec)
  {
    InAncestors(exec, exec);
    VoteLocks(s, y, v, lock, exec);
    s' := OnReceiveProposal(s, y);
  }

  /** ... and then up to where a quorum has certified three blocks on each. */
  lemma BothThreeChains(k: Crew, s: Replica, n: nat, a: set<ReplicaId>) returns (s1: Replica, s2: Replica)
    requires n >= VHEIGHT_MODULUS && k.signers == a && !k.rules.heights
    requires At(s, Truncated(n + 1), Straight(n - 1, a, 0), Straight(n - 2, a, 0))
    ensures var b0, b2 := Straight(n - 1, a, 0), Straight(n + 2, a, 0);
      var y0 := On(b0, a); var y2 := On(On(y0, a), a);
      && Electable(k, s, y2) && s1 == OnReceiveProposal(s, y2)
      && Electable(k, s1, b2) && s2 == OnReceiveProposal(s1, b2)
      && At(s2, Truncated(n + 2), y0, b0)
  {
    var b0, b2, exec := Straight(n - 1, a, 0), Straight(n + 2, a, 0), Straight(n - 2, a, 0);
    var y0, y1, y2 := On(b0, a), On(On(b0, a), a), On(On(On(b0, a), a), a);
    StraightTop(n + 1, a, 0);
    StraightTop(n + 2, a, 0);
    StraightShape(n - 1, a, 0);
    StraightShape(n - 2, a, 0);
    StraightShape(n, a, 0);
    OnShape(b0, a);
    OnShape(y0, a);
    OnShape(y1, a);
    TruncatedBelow(n + 1, n);
    TruncatedBelow(n + 2, n);
    VoteCommits(s, y2, Truncated(n + 1), b0, exec);
    s1 := OnReceiveProposal(s, y2);
    VoteLocks(s1, b2, Truncated(n + 2), y0, b0);
    s2 := OnReceiveProposal(s1, b2);
  }

  lemma HeightsFork(c: Config, n: nat) returns (run: Run)
    requires c.Valid() && Nameable(c.replicas) && |c.Honest()| >= 2 && n >= VHEIGHT_MODULUS
    ensures ObeysRun(c, TALL, run) && !ExecutedAgreeIn(c, run)
  {
    var k, a := Everybody(c, TALL), c.replicas;
    EverybodyValid(c, TALL);
    var run0 := Start(c, TALL);
    var run1, s := Climb(c, k, run0, n, 0);
    var s1, s2, s3 := BothBranches(k, s, n, a);
    var s4, s5 := BothThreeChains(k, s3, n, a);
    var b0 := Straight(n - 1, a, 0);
    StraightBacked(c, k, Last(run1).votes, n, n - 1, 0);
    StraightBacked(c, k, Last(run1).votes, n, n, 0);
    StraightTop(n, a, 0);
    StraightTop(n + 1, a, 0);
    StraightTop(n + 2, a, 0);
    StraightTop(n + 3, a, 0);
    StraightShape(n - 1, a, 0);
    BranchShape(b0, a);
    run := HeightsForkOn(c, k, run1, s, b0, On(b0, a), On(On(b0, a), a), On(On(On(b0, a), a), a),
                         Straight(n, a, 0), Straight(n + 1, a, 0), Straight(n + 2, a, 0), Straight(n + 3, a, 0),
                         s1, s2, s3, s4, s5, Truncated(n + 2));
  }

  lemma BranchShape(b: Block, a: set<ReplicaId>)
    requires JustifiesAncestor(b)
    ensures var y := On(On(On(On(b, a), a), a), a); Crowns(y, On(b, a)) && JustifiesAncestor(y)
  {
    OnShape(b, a);
    OnShape(On(b, a), a);
    OnShape(On(On(b, a), a), a);
    OnShape(On(On(On(b, a), a), a), a);
  }

  /** The votes of the two branches in turn, then one more block of each. */
  lemma HeightsForkOn(c: Config, k: Crew, run: Run, s: Replica, b0: Block, y0: Block, y1: Block, y2: Block,
                      b: Block, b1: Block, b2: Block, b3: Block,
                      s1: Replica, s2: Replica, s3: Replica, s4: Replica, s5: Replica, v: nat) returns (run': Run)
    requires k.Valid(c) && k.group == c.Honest() && |c.Honest()| >= 2 && InStep(c, k, run, s)
    requires Backed(c, k, Last(run).votes, b0) && Backed(c, k, Last(run).votes, b)
    requires y0 == On(b0, k.signers) && y1 == On(y0, k.signers) && y2 == On(y1, k.signers)
    requires b.Block? && b.parent == b0 && b.rest == 0 && Chained(b1, b) && Chained(b2, b1) && Chained(b3, b2)
    requires Electable(k, s, y0) && s1 == OnReceiveProposal(s, y0)
    requires Electable(k, s1, b1) && s2 == OnReceiveProposal(s1, b1)
    requires Electable(k, s2, y1) && s3 == OnReceiveProposal(s2, y1)
    requires Electable(k, s3, y2) && s4 == OnReceiveProposal(s3, y2)
    requires Electable(k, s4, b2) && s5 == OnReceiveProposal(s4, b2)
    requires At(s5, v, y0, b0) && Crowns(b3, b) && Crowns(On(y2, k.signers), y0)
    requires b3.signers == k.signers && Allowed(k.rules, b3) && Allowed(k.rules, On(y2, k.signers))
    ensures ObeysRun(c, k.rules, run') && !ExecutedAgreeIn(c, run')
  {
    var run1 := ThreeVotes(c, k, run, s, {b0, b}, y0, b1, y1);
    var run2 := VoteOn(c, k, run1, s3, {b1, y1}, y2);
    var run3 := VoteOn(c, k, run2, s4, {b1, y1} + {y2}, b2);
    Tops(s5, v, y0, b0, b3, b, On(y2, k.signers), y0);
    run' := Part(c, k, run3, s5, {b1, y1} + {y2} + {b2}, b3, On(y2, k.signers));
  }

  ghost predicate Chained(b: Block, below: Block) {
    b.Block? && b.parent == below && b.justify == below
  }

  // ---- certificates that do not point at ancestors ----

  const UNRELATED: Rules := Rules(false, true, true)

  /** Three blocks that nobody votes for, and a fourth that carries a certificate for the
      second block of the straight chain. */
  function Loose(n: nat, a: set<ReplicaId>): Block {
    if n == 0 then Genesis else Block(Loose(n - 1, a), Genesis, a, 1)
  }

  function Crossed(a: set<ReplicaId>): Block {
    Block(Loose(3, a), Straight(2, a, 0), a, 1)
  }

  lemma LooseStored(c: Config, k: Crew, votes: seq<Vote>, n: nat)
    requires k.Valid(c)
    ensures Height(Loose(n, k.signers)) == n && Stored(c, votes, Loose(n, k.signers))
  {
    if n > 0 {
      LooseStored(c, k, votes, n - 1);
      StoredOn(c, k, votes, Loose(n, k.signers));
    }
  }

  lemma {:induction false} LooseApart(n: nat, a: set<ReplicaId>, b: Block)
    requires b.Block? && b.rest == 0
    ensures !IsAncestor(b, Loose(n, a))
  {
    if n > 0 {
      LooseApart(n - 1, a, b);
    }
  }

  /** Everybody, locked on the first block, votes for the crossed block and two more. */
  lemma CrossOver(k: Crew, s: Replica, a: set<ReplicaId>) returns (s1: Replica, s2: Replica, s3: Replica)
    requires k.signers == a && !k.rules.ancestors
    requires At(s, 3, Straight(1, a, 0), Genesis) && Height(Loose(3, a)) == 3
    ensures var y1 := Crossed(a); var y2 := On(y1, a); var y3 := On(y2, a);
      && Electable(k, s, y1) && s1 == OnReceiveProposal(s, y1)
      && Electable(k, s1, y2) && s2 == OnReceiveProposal(s1, y2)
      && Electable(k, s2, y3) && s3 == OnReceiveProposal(s2, y3)
      && At(s3, 6, y1, Genesis)
  {
    var y1, y2, y3 := Crossed(a), On(Crossed(a), a), On(On(Crossed(a), a), a);
    var b1, b2 := Straight(1, a, 0), Straight(2, a, 0);
    StraightShape(1, a, 0);
    StraightShape(2, a, 0);
    OnShape(y1, a);
    OnShape(y2, a);
    assert Height(y1) == 4;
    VoteLocks(s, y1, 3, b1, Genesis);
    s1 := OnReceiveProposal(s, y1);
    VoteLocks(s1, y2, 4, b1, Genesis);
    s2 := OnReceiveProposal(s1, y2);
    VoteLocks(s2, y3, 5, b2, Genesis);
    s3 := OnReceiveProposal(s2, y3);
  }

  lemma CrossedTops(s: Replica, a: set<ReplicaId>)
    requires At(s, 6, Crossed(a), Genesis) && Height(Loose(3, a)) == 3
    ensures var x, y := Straight(4, a, 0), On(On(On(Crossed(a), a), a), a);
      && Height(x) == 4 && Height(y) == 7
      && !OneChain(OnReceiveProposal(s, x).bExec, OnReceiveProposal(s, y).bExec)
  {
    var y1, b1, x := Crossed(a), Straight(1, a, 0), Straight(4, a, 0);
    var y := On(On(On(y1, a), a), a);
    StraightTop(4, a, 0);
    StraightShape(1, a, 0);
    OnShape(y1, a);
    OnShape(On(y1, a), a);
    OnShape(On(On(y1, a), a), a);
    GenesisIsAncestor(b1);
    GenesisIsAncestor(y1);
    ReceiveCommits(s, x, 6, y1, Genesis);
    ReceiveCommits(s, y, 6, y1, Genesis);
    LooseApart(3, a, b1);
    if IsAncestor(y1, b1) {
      AncestorHeight(y1, b1);
    }
  }

  lemma CrossedFork(c: Config) returns (run: Run)
    requires c.Valid() && Nameable(c.replicas) && |c.Honest()| >= 2
    ensures ObeysRun(c, UNRELATED, run) && !ExecutedAgreeIn(c, run)
  {
    var k, a := Everybody(c, UNRELATED), c.replicas;
    EverybodyValid(c, UNRELATED);
    var run0 := Start(c, UNRELATED);
    var run1, s := Climb(c, k, run0, 3, 0);
    LooseStored(c, k, Last(run1).votes, 3);
    var s1, s2, s3 := CrossOver(k, s, a);
    StraightBacked(c, k, Last(run1).votes, 3, 2, 0);
    StraightBacked(c, k, Last(run1).votes, 3, 3, 0);
    StraightTop(4, a, 0);
    CrossedTops(s3, a);
    var y1, y2, y3 := Crossed(a), On(Crossed(a), a), On(On(Crossed(a), a), a);
    run := CrossedForkOn(c, k, run1, s, Straight(3, a, 0), Straight(4, a, 0), y1, y2, y3, On(y3, a), s1, s2, s3);
  }

  lemma CrossedForkOn(c: Config, k: Crew, run: Run, s: Replica, b3: Block, b4: Block, y1: Block, y2: Block, y3: Block,
                      y4: Block, s1: Replica, s2: Replica, s3: Replica) returns (run': Run)
    requires k.Valid(c) && k.group == c.Honest() && |c.Honest()| >= 2 && InStep(c, k, run, s)
    requires Electable(k, s, y1) && Stored(c, Last(run).votes, y1.parent) && Backed(c, k, Last(run).votes, y1.justify)
    requires Backed(c, k, Last(run).votes, b3) && Chained(b4, b3) && b4.signers == k.signers && Allowed(k.rules, b4)
    requires y2 == On(y1, k.signers) && y3 == On(y2, k.signers) && y4 == On(y3, k.signers)
    requires s1 == OnReceiveProposal(s, y1) && Electable(k, s1, y2)
    requires s2 == OnReceiveProposal(s1, y2) && Electable(k, s2, y3) && s3 == OnReceiveProposal(s2, y3)
    requires Allowed(k.rules, y4) && !OneChain(OnReceiveProposal(s3, b4).bExec, OnReceiveProposal(s3, y4).bExec)
    ensures ObeysRun(c, k.rules, run') && !ExecutedAgreeIn(c, run')
  {
    var run1 := CrewVotes(c, k, run, s, y1);
    BackedGrows(c, k, Last(run).votes, Last(run1).votes, b3);
    var run2 := VoteOn(c, k, run1, s1, {b3, y1}, y2);
    var run3 := VoteOn(c, k, run2, s2, {b3, y1} + {y2}, y3);
    run' := Part(c, k, run3, s3, {b3, y1} + {y2} + {y3}, b4, y4);
  }
}
