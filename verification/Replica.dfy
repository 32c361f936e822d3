/** What one replica does: the state of `HotstuffCore` and its handlers, as
    functions on values. */
module ReplicaSpec {
  import opened Options
  import opened Blocks
  import opened Quorum

  /** `vheight` is a 32-bit field while heights have 64 bits. */
  const VHEIGHT_MODULUS: nat := 0x1_0000_0000

  /** What is left of a height once stored in `vheight`. */
  function Truncated(h: nat): nat {
    h % VHEIGHT_MODULUS
  }

  lemma TruncatedFits(h: nat)
    ensures Truncated(h) == h <==> h < VHEIGHT_MODULUS
  {
  }

  /** Decided blocks more than this far below the last one may lose their body. */
  const KEEP_DEPTH: nat := 100

  /** A certificate: the block it is on and the replicas that signed. */
  datatype Certificate = Certificate(block: Block, signers: set<ReplicaId>)

  /** Whether an exception has left the event loop, and which. */
  datatype Status = Running | SafetyBreached | BodyFlushed

  datatype Replica = Replica(
    hqc: Certificate,
    bLock: Block,
    bExec: Block,
    vheight: nat,
    bLeaf: Block,
    selfQc: map<Block, set<ReplicaId>>,
    decided: set<Block>,              // blocks whose `decided` flag is set
    written: set<Block>,              // blocks whose `written_to_disk` flag is set
    flushed: set<Block>,              // blocks whose body was dropped from memory
    disk: map<Block, bool>,           // saved files; true when saved with the body
    applied: seq<Block>,              // blocks handed to the VM, in order
    index: map<nat, Block>,           // the committed decided index
    topQc: Option<Certificate>,       // the certificate stored beside it
    status: Status)

  const INITIAL: Replica := Replica(
    Certificate(Genesis, {}), Genesis, Genesis, 0, Genesis, map[],
    {Genesis}, {Genesis}, {Genesis}, map[], [], map[], None, Running)

  function UpdateHqc(s: Replica, qc: Certificate): Replica {
    if Height(qc.block) > Height(s.hqc.block) then s.(hqc := qc, bLeaf := qc.block) else s
  }

  /** The vote rule: a block above everything voted for so far that either
      carries a certificate above the lock or extends the lock. */
  predicate WillVote(s: Replica, b: Block)
    requires b.Block?
  {
    && Height(b) > s.vheight
    && (Height(b.justify) > Height(s.bLock) || IsAncestor(s.bLock, b))
  }

  /** Saves `b` and its ancestors, stopping at the first one already saved. */
  function WriteToDisk(s: Replica, b: Block): Replica
    decreases b
  {
    if b in s.written then s
    else
      var s1 := s.(written := s.written + {b}, disk := s.disk[b := b !in s.flushed]);
      if b.Genesis? then s1 else WriteToDisk(s1, b.parent)
  }

  lemma {:induction false} WriteToDiskSaves(s: Replica, b: Block)
    requires Genesis in s.written
    requires forall x | x in s.written && IsAncestor(x, b) :: Ancestors(x) <= s.written
    ensures var t := WriteToDisk(s, b);
      && t == s.(written := t.written, disk := t.disk)
      && t.written == s.written + Ancestors(b)
      && (forall x | x in s.written && x in s.disk :: x in t.disk && t.disk[x] == s.disk[x])
      && (forall x | x in t.written && x !in s.written :: x in t.disk && t.disk[x] == (x !in s.flushed))
    decreases b
  {
    if b in s.written {
      assert IsAncestor(b, b);
    } else {
      var s1 := s.(written := s.written + {b}, disk := s.disk[b := b !in s.flushed]);
      forall x | x in s1.written && IsAncestor(x, b.parent)
        ensures Ancestors(x) <= s1.written
      {
        AncestorHeight(x, b.parent);
      }
      WriteToDiskSaves(s1, b.parent);
    }
  }

  ghost predicate SavedClosed(written: set<Block>) {
    Genesis in written && forall b | b in written && b.Block? :: b.parent in written
  }

  lemma {:induction false} ClosedAncestors(written: set<Block>, b: Block)
    requires SavedClosed(written) && b in written
    ensures Ancestors(b) <= written
  {
    if b.Block? {
      ClosedAncestors(written, b.parent);
    }
  }

  /** Saving a block among saved blocks that are closed under parents. */
  lemma ClosedSaves(s: Replica, b: Block)
    requires SavedClosed(s.written)
    ensures var t := WriteToDisk(s, b);
      && t == s.(written := t.written, disk := t.disk)
      && t.written == s.written + Ancestors(b) && SavedClosed(t.written)
      && (forall x | x in s.written && x in s.disk :: x in t.disk && t.disk[x] == s.disk[x])
      && (forall x | x in t.written && x !in s.written :: x in t.disk && t.disk[x] == (x !in s.flushed))
  {
    forall x | x in s.written && IsAncestor(x, b)
      ensures Ancestors(x) <= s.written
    {
      ClosedAncestors(s.written, x);
    }
    WriteToDiskSaves(s, b);
    forall x | x in Ancestors(b) && x.Block?
      ensures x.parent in Ancestors(b)
    {
      ParentIn(x, b);
    }
  }

  lemma {:induction false} ParentIn(x: Block, b: Block)
    requires x in Ancestors(b) && x.Block?
    ensures x.parent in Ancestors(b)
  {
    if x == b {
      AncestorsAreAncestors(b.parent, b.parent);
    } else {
      ParentIn(x, b.parent);
    }
  }

  function IndexAll(index: map<nat, Block>, path: seq<Block>): map<nat, Block>
    decreases path
  {
    if path == [] then index else IndexAll(index[Height(path[0]) := path[0]], path[1..])
  }

  /** Decides and applies the blocks of a path in order.  Applying needs the
      body, so a flushed block throws. */
  function ApplyAll(s: Replica, path: seq<Block>): Replica
    decreases path
  {
    if path == [] then s
    else
      var s1 := s.(decided := s.decided + {path[0]});
      if path[0] in s.flushed then s1.(status := BodyFlushed)
      else ApplyAll(s1.(applied := s1.applied + [path[0]]), path[1..])
  }

  /** Commits everything above the last executed block up to `blk`. */
  function Commit(s: Replica, blk: Block, qc: Certificate): Replica {
    if !IsAncestor(s.bExec, blk) then s.(status := SafetyBreached)
    else
      var path := Path(s.bExec, blk);
      var s1 := ApplyAll(s, path);
      if s1.status != Running then s1
      else s1.(bExec := blk, topQc := Some(qc), index := IndexAll(s.index, path))
  }

  /** Moves the lock up to `blk1` if that is higher, and saves it. */
  function Lock(s: Replica, blk1: Block): Replica {
    var lock := if Height(blk1) > Height(s.bLock) then blk1 else s.bLock;
    WriteToDisk(s.(bLock := lock), lock)
  }

  /** A direct three-chain below `blk2` whose lowest block is still undecided. */
  predicate Commits(s: Replica, blk2: Block)
    requires blk2.Block?
  {
    var blk1 := blk2.justify;
    && blk1.Block?
    && blk1.justify !in s.decided
    && blk2.parent == blk1 && blk1.parent == blk1.justify
  }

  function LockAndCommit(s: Replica, blk2: Block): Replica
    requires blk2.Block?
  {
    var blk1 := blk2.justify;
    if blk1 in s.decided then s
    else
      var s1 := Lock(s, blk1);
      if Commits(s, blk2) then Commit(s1, blk1.justify, Certificate(blk1.justify, blk1.signers)) else s1
  }

  /** The three-chain rule. */
  function Update(s: Replica, nblk: Block): Replica
    requires nblk.Block?
  {
    var blk2 := nblk.justify;
    if blk2 in s.decided then s
    else
      var s1 := UpdateHqc(s, Certificate(blk2, nblk.signers));
      if blk2.Genesis? then s1 else LockAndCommit(s1, blk2)
  }

  // ---- what processing a block changes ----

  lemma {:induction false} WriteKeeps(s: Replica, b: Block)
    ensures var t := WriteToDisk(s, b); t == s.(written := t.written, disk := t.disk)
    decreases b
  {
    if b !in s.written && b.Block? {
      WriteKeeps(s.(written := s.written + {b}, disk := s.disk[b := b !in s.flushed]), b.parent);
    }
  }

  lemma LockKeeps(s: Replica, blk1: Block)
    ensures var t := Lock(s, blk1); t == s.(bLock := t.bLock, written := t.written, disk := t.disk)
    ensures Lock(s, blk1).bLock == if Height(blk1) > Height(s.bLock) then blk1 else s.bLock
  {
    var lock := if Height(blk1) > Height(s.bLock) then blk1 else s.bLock;
    WriteKeeps(s.(bLock := lock), lock);
  }

  lemma {:induction false} ApplyAllKeeps(s: Replica, path: seq<Block>)
    ensures var t := ApplyAll(s, path); t == s.(decided := t.decided, applied := t.applied, status := t.status)
    decreases path
  {
    if path != [] && path[0] !in s.flushed {
      ApplyAllKeeps(s.(decided := s.decided + {path[0]}, applied := s.applied + [path[0]]), path[1..]);
    }
  }

  /** The block that processing `b` would lock on. */
  ghost predicate LocksOn(s: Replica, b: Block)
    requires b.Block?
  {
    b.justify !in s.decided && b.justify.Block? && b.justify.justify !in s.decided
  }

  /** A direct three-chain below `b`, none of it decided. */
  ghost predicate CompletesThree(s: Replica, b: Block)
    requires b.Block?
  {
    && LocksOn(s, b) && b.justify.justify.Block? && b.justify.justify.justify !in s.decided
    && b.justify.parent == b.justify.justify && b.justify.justify.parent == b.justify.justify.justify
  }

  /** The exact effect of `update`.  Unless its certificate is on a decided block, the
      certificate becomes the highest one, and its block the leaf, if it is higher than
      the highest so far; the lock moves up to the second certificate's block if that is
      undecided and higher; and the bottom of an undecided direct three-chain is executed
      with the certificate on it, unless the commit throws.  Votes are not touched. */
  lemma UpdateEffect(s: Replica, b: Block)
    requires b.Block?
    ensures var t := Update(s, b);
      && (t.hqc, t.bLeaf) == (if b.justify !in s.decided && Height(b.justify) > Height(s.hqc.block)
                              then (Certificate(b.justify, b.signers), b.justify) else (s.hqc, s.bLeaf))
      && t.bLock == (if LocksOn(s, b) && Height(b.justify.justify) > Height(s.bLock)
                     then b.justify.justify else s.bLock)
      && t.vheight == s.vheight && t.selfQc == s.selfQc && t.flushed == s.flushed
      && (s.status.Running? && t.status.Running? ==>
            (t.bExec, t.topQc) == (if CompletesThree(s, b)
                                   then (b.justify.justify.justify,
                                         Some(Certificate(b.justify.justify.justify, b.justify.justify.signers)))
                                   else (s.bExec, s.topQc)))
  {
    if LocksOn(s, b) {
      var blk1 := b.justify.justify;
      var entered := UpdateHqc(s, Certificate(b.justify, b.signers));
      LockKeeps(entered, blk1);
      if CompletesThree(s, b) {
        CommitEffect(Lock(entered, blk1), blk1.justify, Certificate(blk1.justify, blk1.signers));
      }
    }
  }

  lemma CommitEffect(s: Replica, blk: Block, qc: Certificate)
    ensures var t := Commit(s, blk, qc);
      && t.hqc == s.hqc && t.bLeaf == s.bLeaf && t.bLock == s.bLock && t.vheight == s.vheight
      && t.selfQc == s.selfQc && t.flushed == s.flushed
      && (s.status.Running? && t.status.Running? ==> t.bExec == blk && t.topQc == Some(qc))
  {
    if IsAncestor(s.bExec, blk) {
      ApplyAllKeeps(s, Path(s.bExec, blk));
    }
  }

  function OnReceiveProposal(s: Replica, b: Block): Replica
    requires b.Block?
  {
    Update(if WillVote(s, b) then s.(vheight := Truncated(Height(b))) else s, b)
  }

  /** The exact effect of `on_receive_proposal`. */
  lemma ReceiveEffect(s: Replica, b: Block)
    requires b.Block?
    ensures var t := OnReceiveProposal(s, b);
      && t.vheight == (if WillVote(s, b) then Truncated(Height(b)) else s.vheight)
      && (t.hqc, t.bLeaf) == (if b.justify !in s.decided && Height(b.justify) > Height(s.hqc.block)
                              then (Certificate(b.justify, b.signers), b.justify) else (s.hqc, s.bLeaf))
      && t.bLock == (if LocksOn(s, b) && Height(b.justify.justify) > Height(s.bLock)
                     then b.justify.justify else s.bLock)
      && t.selfQc == s.selfQc
      && (s.status.Running? && t.status.Running? ==>
            t.bExec == (if CompletesThree(s, b) then b.justify.justify.justify else s.bExec))
  {
    UpdateEffect(if WillVote(s, b) then s.(vheight := Truncated(Height(b))) else s, b);
  }

  function SelfQc(s: Replica, b: Block): set<ReplicaId> {
    if b in s.selfQc then s.selfQc[b] else {}
  }

  /** Adding a vote by a replica beyond the bit map throws before anything changes. */
  function OnReceiveVote(c: Config, s: Replica, b: Block, voter: ReplicaId): Replica {
    if voter >= MAX_REPLICAS then s else
    var before := SelfQc(s, b);
    var after := before + {voter};
    var s1 := s.(selfQc := s.selfQc[b := after]);
    if |after| >= c.NMajority() && !(|before| >= c.NMajority()) then UpdateHqc(s1, Certificate(b, after))
    else s1
  }

  /** Every block on which a quorum of votes was collected is at most as high as the
      highest certificate. */
  ghost predicate Collected(c: Config, s: Replica) {
    forall b | b in s.selfQc && |s.selfQc[b]| >= c.NMajority() :: Height(b) <= Height(s.hqc.block)
  }

  /** The effect of a vote: it joins the block's own certificate and no other, and the
      highest certificate moves only to a quorum it has just completed. */
  lemma VoteEffect(c: Config, s: Replica, b: Block, voter: ReplicaId)
    ensures var t := OnReceiveVote(c, s, b, voter);
      && (voter >= MAX_REPLICAS ==> t == s)
      && (voter < MAX_REPLICAS ==> SelfQc(t, b) == SelfQc(s, b) + {voter})
      && (forall x | x != b :: SelfQc(t, x) == SelfQc(s, x))
      && Height(t.hqc.block) >= Height(s.hqc.block)
      && (t.hqc != s.hqc ==>
            t.hqc == Certificate(b, SelfQc(t, b)) && |t.hqc.signers| >= c.NMajority() && voter in t.hqc.signers)
      && (IsAncestor(s.hqc.block, s.bLeaf) ==> IsAncestor(t.hqc.block, t.bLeaf))
  {
  }

  /** A vote keeps what was collected at or below the highest certificate. */
  lemma VoteCollects(c: Config, s: Replica, b: Block, voter: ReplicaId)
    requires c.Valid() && Collected(c, s)
    ensures Collected(c, OnReceiveVote(c, s, b, voter))
  {
    var t := OnReceiveVote(c, s, b, voter);
    forall x | x in t.selfQc && |t.selfQc[x]| >= c.NMajority()
      ensures Height(x) <= Height(t.hqc.block)
    {
      if x == b && b in s.selfQc && |s.selfQc[b]| >= c.NMajority() {
        assert Height(b) <= Height(s.hqc.block);
      }
    }
  }

  /** The block `do_propose` and `do_empty_propose` mint. */
  function Minted(s: Replica, rest: nat): Block {
    Block(s.bLeaf, s.hqc.block, s.hqc.signers, rest)
  }

  function Propose(s: Replica, rest: nat): Replica {
    s.(bLeaf := Minted(s, rest))
  }

  /** The collector drops bodies strictly below the prune height. */
  predicate MayFlush(s: Replica, b: Block) {
    Height(b) < (if Height(s.bExec) > KEEP_DEPTH then Height(s.bExec) - KEEP_DEPTH else 0)
  }

  function Flush(s: Replica, b: Block): Replica {
    s.(flushed := s.flushed + {b})
  }

  /** What `reload_state_from_index` leaves of a running replica when it comes
      back: the decided chain, and every voting variable reset to its top. */
  function Restart(s: Replica): Replica
    requires s.topQc.Some?
  {
    var top := s.topQc.value.block;
    INITIAL.(hqc := s.topQc.value, bLeaf := top, bLock := top, bExec := top,
             vheight := Truncated(Height(top)), decided := Ancestors(top),
             written := Ancestors(top), disk := s.disk, index := s.index, topQc := s.topQc)
  }
}

/** `HotstuffCore` as the object it is, each handler proved against the functions
    of `ReplicaSpec`. */
module ReplicaCore {
  import opened Options
  import opened Blocks
  import opened Quorum
  import opened ReplicaSpec

  class HotstuffCore {
    const config: Config
    var hqc: Certificate
    var bLock: Block
    var bExec: Block
    var vheight: nat
    var bLeaf: Block
    var selfQc: map<Block, set<ReplicaId>>
    var decided: set<Block>
    var written: set<Block>
    var flushed: set<Block>
    var disk: map<Block, bool>
    var applied: seq<Block>
    var index: map<nat, Block>
    var topQc: Option<Certificate>
    var status: Status

    ghost function State(): Replica
      reads this
    {
      Replica(hqc, bLock, bExec, vheight, bLeaf, selfQc, decided, written, flushed, disk, applied, index, topQc, status)
    }

    constructor (config: Config)
      ensures this.config == config
      ensures State() == INITIAL
    {
      this.config := config;
      hqc, bLock, bExec, vheight, bLeaf := Certificate(Genesis, {}), Genesis, Genesis, 0, Genesis;
      selfQc, decided, written, flushed, disk := map[], {Genesis}, {Genesis}, {Genesis}, map[];
      applied, index, topQc, status := [], map[], None, Running;
    }

    /** The highest certificate seen so far is kept, and the leaf stays on or above the
        block it certifies. */
    method UpdateHighQc(qc: Certificate)
      modifies this`hqc, this`bLeaf
      ensures State() == UpdateHqc(old(State()), qc)
      ensures hqc == (if Height(qc.block) > old(Height(hqc.block)) then qc else old(hqc))
      ensures bLeaf == if Height(qc.block) > old(Height(hqc.block)) then qc.block else old(bLeaf)
      ensures Height(hqc.block) >= Height(qc.block) && Height(hqc.block) >= old(Height(hqc.block))
      ensures old(IsAncestor(hqc.block, bLeaf)) ==> IsAncestor(hqc.block, bLeaf)
      ensures old(Collected(config, State())) ==> Collected(config, State())
    {
      if Height(qc.block) > Height(hqc.block) {
        hqc := qc;
        bLeaf := qc.block;
      }
    }

    /** Saves a block, then its parent, until one is found already saved.  Among saved
        blocks closed under parents that makes exactly all ancestors saved: the new ones
        with the body they still have, the others as they were. */
    method WriteBlock(b: Block)
      modifies this`written, this`disk
      ensures State() == WriteToDisk(old(State()), b)
      ensures old(SavedClosed(written)) ==> written == old(written) + Ancestors(b) && SavedClosed(written)
      ensures old(SavedClosed(written)) ==>
        && (forall x | x in written && x !in old(written) :: x in disk && disk[x] == (x !in flushed))
        && (forall x | x in old(written) && x in old(disk) :: x in disk && disk[x] == old(disk)[x])
      decreases b
    {
      if SavedClosed(written) {
        ClosedSaves(State(), b);
      }
      if b in written {
        return;
      }
      written := written + {b};
      disk := disk[b := b !in flushed];
      if b.Block? {
        WriteBlock(b.parent);
      }
    }

    /** The commit queue of `update`, collected from the top down. */
    method CommitQueue(blk: Block) returns (queue: seq<Block>, b: Block)
      ensures b == bExec <==> IsAncestor(bExec, blk)
      ensures b == bExec ==> Reversed(queue) == Path(bExec, blk)
    {
      queue, b := [], blk;
      while Height(b) > Height(bExec)
        invariant IsAncestor(bExec, blk) <==> IsAncestor(bExec, b)
        invariant IsAncestor(bExec, b) ==> Path(bExec, blk) == Path(bExec, b) + Reversed(queue)
        decreases Height(b)
      {
        queue := queue + [b];
        assert queue[..|queue| - 1] + [b] == queue;
        b := b.parent;
      }
      if IsAncestor(bExec, b) {
        AncestorHeight(bExec, b);
      }
    }

    /** The three-chain rule.  A certificate higher than the highest so far becomes the
        highest, whatever happens further down the chain. */
    method UpdateChain(nblk: Block)
      requires nblk.Block?
      requires status == Running
      modifies this
      ensures State() == Update(old(State()), nblk)
      ensures old(nblk.justify !in decided) && Height(nblk.justify) > old(Height(hqc.block)) ==>
        hqc == Certificate(nblk.justify, nblk.signers) && bLeaf == nblk.justify
      ensures nblk.justify in old(decided) || Height(nblk.justify) <= old(Height(hqc.block)) ==>
        hqc == old(hqc) && bLeaf == old(bLeaf)
      ensures bLock == if old(LocksOn(State(), nblk)) && Height(nblk.justify.justify) > old(Height(bLock))
                       then nblk.justify.justify else old(bLock)
      ensures status == Running ==>
        bExec == if old(CompletesThree(State(), nblk)) then nblk.justify.justify.justify else old(bExec)
    {
      UpdateEffect(State(), nblk);
      UpdateSteps(nblk);
    }

    /** The steps of the rule, with their early returns. */
    method UpdateSteps(nblk: Block)
      requires nblk.Block?
      requires status == Running
      modifies this
      ensures State() == Update(old(State()), nblk)
    {
      var blk2 := nblk.justify;
      if blk2 in decided { return; }
      UpdateHighQc(Certificate(blk2, nblk.signers));
      if blk2.Genesis? { return; }
      var blk1 := blk2.justify;
      if blk1 in decided { return; }
      if Height(blk1) > Height(bLock) {
        bLock := blk1;
      }
      WriteBlock(bLock);
      if blk1.Genesis? { return; }
      var blk := blk1.justify;
      if blk in decided { return; }
      if blk2.parent != blk1 || blk1.parent != blk { return; }
      CommitUpTo(blk, Certificate(blk, blk1.signers));
    }

    method CommitUpTo(blk: Block, qc: Certificate)
      requires status == Running
      modifies this
      ensures State() == Commit(old(State()), blk, qc)
    {
      var queue, b := CommitQueue(blk);
      if b != bExec {
        status := SafetyBreached;
        return;
      }
      var txn := ApplyQueue(queue);
      if status == Running {
        bExec := blk;
        topQc := Some(qc);
        index := txn;
      }
    }

    /** Applies the commit queue from its back to its front inside one index
        transaction. */
    method ApplyQueue(queue: seq<Block>) returns (txn: map<nat, Block>)
      requires status == Running
      modifies this`decided, this`applied, this`status
      ensures State() == ApplyAll(old(State()), Reversed(queue))
      ensures status == Running ==> txn == IndexAll(index, Reversed(queue))
    {
      txn := index;
      var i := |queue|;
      assert queue[..|queue|] == queue;
      while i > 0
        invariant 0 <= i <= |queue|
        invariant status == Running
        invariant ApplyAll(old(State()), Reversed(queue)) == ApplyAll(State(), Reversed(queue[..i]))
        invariant IndexAll(index, Reversed(queue)) == IndexAll(txn, Reversed(queue[..i]))
      {
        i := i - 1;
        var next := queue[i];
        ReversedTake(queue, i);
        decided := decided + {next};
        if next in flushed {
          status := BodyFlushed;
          return;
        }
        txn := txn[Height(next) := next];
        applied := applied + [next];
      }
    }

    /** Votes exactly on a block above the last vote whose certificate is above the lock or
        which extends it, remembers the height only then, and processes the block in any
        case. */
    method ReceiveProposal(bnew: Block) returns (voted: bool)
      requires bnew.Block?
      requires status == Running
      modifies this
      ensures voted == WillVote(old(State()), bnew)
      ensures State() == OnReceiveProposal(old(State()), bnew)
      ensures voted <==>
        Height(bnew) > old(vheight) && (Height(bnew.justify) > old(Height(bLock)) || IsAncestor(old(bLock), bnew))
      ensures vheight == if voted then Truncated(Height(bnew)) else old(vheight)
      ensures bnew.justify !in old(decided) ==> Height(hqc.block) >= Height(bnew.justify)
    {
      var opinion := false;
      if Height(bnew) > vheight {
        if Height(bnew.justify) > Height(bLock) {
          opinion := true;
        } else {
          var b := WalkDown(bnew, bLock);
          if b == bLock {
            opinion := true;
          }
        }
      }
      if opinion {
        vheight := Truncated(Height(bnew));
      }
      voted := opinion;
      UpdateEffect(State(), bnew);
      UpdateChain(bnew);
    }

    /** Adds exactly this vote to the block's own certificate.  The highest certificate moves only to
        a quorum just completed, never down, and stays at or above every quorum
        collected.  A voter beyond the bit map throws and changes nothing. */
    method ReceiveVote(block: Block, voter: ReplicaId) returns (ok: bool)
      modifies this`hqc, this`bLeaf, this`selfQc
      ensures State() == OnReceiveVote(config, old(State()), block, voter)
      ensures ok == (voter < MAX_REPLICAS) && (!ok ==> State() == old(State()))
      ensures ok ==> SelfQc(State(), block) == old(SelfQc(State(), block)) + {voter}
      ensures forall b | b != block :: SelfQc(State(), b) == old(SelfQc(State(), b))
      ensures Height(hqc.block) >= old(Height(hqc.block))
      ensures hqc != old(hqc) ==>
        hqc == Certificate(block, SelfQc(State(), block)) && |hqc.signers| >= config.NMajority() && voter in hqc.signers
      ensures config.Valid() && old(Collected(config, State())) ==> Collected(config, State())
      ensures old(IsAncestor(hqc.block, bLeaf)) ==> IsAncestor(hqc.block, bLeaf)
    {
      VoteEffect(config, State(), block, voter);
      if config.Valid() && Collected(config, State()) {
        VoteCollects(config, State(), block, voter);
      }
      ok := AddVote(block, voter);
    }

    /** The steps of the handler. */
    method AddVote(block: Block, voter: ReplicaId) returns (ok: bool)
      modifies this`hqc, this`bLeaf, this`selfQc
      ensures State() == OnReceiveVote(config, old(State()), block, voter) && ok == (voter < MAX_REPLICAS)
    {
      if voter >= MAX_REPLICAS {
        return false;
      }
      var qc := if block in selfQc then selfQc[block] else {};
      var hadQuorumBefore := config.NMajority() <= |qc|;
      qc := qc + {voter};
      selfQc := selfQc[block := qc];
      var hasQuorumAfter := config.NMajority() <= |qc|;
      if hasQuorumAfter && !hadQuorumBefore {
        UpdateHighQc(Certificate(block, qc));
      }
      return true;
    }

    /** The minted block carries the payload on the old leaf with the highest certificate,
        and becomes the leaf; nothing else changes.  If the old leaf was on or above the block of
        the highest certificate, the new one refers to an ancestor with its certificate,
        and is again above that block. */
    method DoPropose(rest: nat) returns (minted: Block)
      modifies this`bLeaf
      ensures minted == Minted(old(State()), rest)
      ensures State() == Propose(old(State()), rest)
      ensures minted.Block? && minted.rest == rest && minted.parent == old(bLeaf) && bLeaf == minted
      ensures minted.justify == old(hqc.block) && minted.signers == old(hqc.signers) && hqc == old(hqc)
      ensures Height(minted) == old(Height(bLeaf)) + 1
      ensures old(IsAncestor(hqc.block, bLeaf) && JustifiesAncestor(bLeaf)) ==>
        JustifiesAncestor(minted) && IsAncestor(hqc.block, bLeaf) && Certificate(minted.justify, minted.signers) == hqc
    {
      minted := Block(bLeaf, hqc.block, hqc.signers, rest);
      if IsAncestor(hqc.block, bLeaf) && JustifiesAncestor(bLeaf) {
        JustifiesAncestorDown(hqc.block, bLeaf);
      }
      bLeaf := minted;
    }
  }

  function Reversed(s: seq<Block>): seq<Block> {
    if s == [] then [] else [s[|s| - 1]] + Reversed(s[..|s| - 1])
  }

  lemma ReversedTake(s: seq<Block>, i: nat)
    requires i < |s|
    ensures Reversed(s[..i + 1]) == [s[i]] + Reversed(s[..i])
    ensures Reversed(s[..i + 1])[1..] == Reversed(s[..i])
  {
    assert s[..i + 1][..i] == s[..i];
  }
}
