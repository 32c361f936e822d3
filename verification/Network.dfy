/** All replicas together: a growing log of signed votes, one state per honest
    replica, and the events that change them. */
module Network {
  import opened Blocks
  import opened Quorum
  import opened ReplicaSpec

  datatype Vote = Vote(voter: ReplicaId, block: Block)

  datatype System = System(votes: seq<Vote>, replicas: map<ReplicaId, Replica>)

  datatype Event =
    | FaultyVote(voter: ReplicaId, block: Block)
    | Proposal(replica: ReplicaId, block: Block)
    | VoteMessage(replica: ReplicaId, block: Block, voter: ReplicaId)
    | Mint(replica: ReplicaId, rest: nat)
    | Collect(replica: ReplicaId, block: Block)
    | Reboot(replica: ReplicaId)

  /** The replicas that signed a block: signatures are ideal, so a valid
      signature exists exactly when its owner voted. */
  function Voters(c: Config, votes: seq<Vote>, b: Block): set<ReplicaId> {
    set r | r in c.replicas && Vote(r, b) in votes
  }

  /** Genesis needs no signatures. */
  predicate Certified(c: Config, votes: seq<Vote>, b: Block) {
    b.Genesis? || |Voters(c, votes, b)| >= c.NMajority()
  }

  /** A certificate verifies when it names configured replicas only, all of them within
      the bit map, and enough of them really voted. */
  predicate Verifies(c: Config, votes: seq<Vote>, qc: Certificate) {
    || qc.block.Genesis?
    || (&& qc.signers <= c.replicas && Nameable(qc.signers)
        && |qc.signers * Voters(c, votes, qc.block)| >= c.NMajority())
  }

  /** What every block in a block store satisfies: it and everything it refers to
      was stored first, and its certificate verified. */
  predicate Stored(c: Config, votes: seq<Vote>, b: Block) {
    b.Genesis? || (
      && Stored(c, votes, b.parent)
      && Stored(c, votes, b.justify)
      && Verifies(c, votes, Certificate(b.justify, b.signers))
    )
  }

  function Initial(c: Config): System {
    System([], map r | r in c.Honest() :: INITIAL)
  }

  predicate Up(s: System, r: ReplicaId) {
    r in s.replicas && s.replicas[r].status.Running?
  }

  predicate Enabled(c: Config, s: System, e: Event) {
    match e
    case FaultyVote(voter, _) => voter in c.faulty
    case Proposal(r, b) => Up(s, r) && b.Block? && Stored(c, s.votes, b)
    case VoteMessage(r, b, voter) =>
      Up(s, r) && voter in c.replicas && Vote(voter, b) in s.votes && Stored(c, s.votes, b)
    case Mint(r, _) => Up(s, r)
    case Collect(r, b) => Up(s, r) && MayFlush(s.replicas[r], b)
    case Reboot(r) => r in s.replicas && s.replicas[r].topQc.Some?
  }

  function Apply(c: Config, s: System, e: Event): System
    requires Enabled(c, s, e)
  {
    match e
    case FaultyVote(voter, b) => s.(votes := s.votes + [Vote(voter, b)])
    case Proposal(r, b) =>
      System(if WillVote(s.replicas[r], b) then s.votes + [Vote(r, b)] else s.votes,
             s.replicas[r := OnReceiveProposal(s.replicas[r], b)])
    case VoteMessage(r, b, voter) => s.(replicas := s.replicas[r := OnReceiveVote(c, s.replicas[r], b, voter)])
    case Mint(r, rest) => s.(replicas := s.replicas[r := Propose(s.replicas[r], rest)])
    case Collect(r, b) => s.(replicas := s.replicas[r := Flush(s.replicas[r], b)])
    case Reboot(r) => s.(replicas := s.replicas[r := Restart(s.replicas[r])])
  }

  /** A run: the events and the states between them. */
  datatype Run = Run(events: seq<Event>, states: seq<System>)

  ghost predicate IsRun(c: Config, run: Run) {
    && |run.states| == |run.events| + 1
    && run.states[0] == Initial(c)
    && forall i | 0 <= i < |run.events| :: IsStep(c, run, i)
  }

  ghost predicate IsStep(c: Config, run: Run, i: nat)
    requires |run.states| == |run.events| + 1 && i < |run.events|
  {
    Enabled(c, run.states[i], run.events[i]) && run.states[i + 1] == Apply(c, run.states[i], run.events[i])
  }

  /** The block a replica has executed up to at a moment of a run. */
  function Executed(run: Run, i: nat, p: ReplicaId): Block
    requires i < |run.states|
  {
    if p in run.states[i].replicas then run.states[i].replicas[p].bExec else Genesis
  }

  /** What agreement needs of a block handed to a replica: its certificates point
      at ancestors, and its height fits the 32 bits of `vheight`. */
  predicate WellFormed(b: Block) {
    JustifiesAncestor(b) && Height(b) < VHEIGHT_MODULUS
  }

  /** The hypotheses of agreement, event by event. */
  predicate Disciplined(e: Event) {
    match e
    case Proposal(_, b) => WellFormed(b)
    case VoteMessage(_, b, _) => WellFormed(b)
    case Reboot(_) => false
    case _ => true
  }

  ghost predicate DisciplinedRun(c: Config, run: Run) {
    IsRun(c, run) && forall i | 0 <= i < |run.events| :: Disciplined(run.events[i])
  }

  // ---- more votes never undo a certificate ----

  lemma VotersGrow(c: Config, votes: seq<Vote>, more: seq<Vote>, b: Block)
    requires votes <= more
    ensures Voters(c, votes, b) <= Voters(c, more, b)
    ensures Certified(c, votes, b) ==> Certified(c, more, b)
  {
    assert forall v | v in votes :: v in more;
    SubsetSize(Voters(c, votes, b), Voters(c, more, b));
  }

  lemma VerifiesGrow(c: Config, votes: seq<Vote>, more: seq<Vote>, qc: Certificate)
    requires votes <= more && Verifies(c, votes, qc)
    ensures Verifies(c, more, qc)
  {
    VotersGrow(c, votes, more, qc.block);
    SubsetSize(qc.signers * Voters(c, votes, qc.block), qc.signers * Voters(c, more, qc.block));
  }

  lemma {:induction false} StoredGrow(c: Config, votes: seq<Vote>, more: seq<Vote>, b: Block)
    requires votes <= more && Stored(c, votes, b)
    ensures Stored(c, more, b)
  {
    if b.Block? {
      StoredGrow(c, votes, more, b.parent);
      StoredGrow(c, votes, more, b.justify);
      VerifiesGrow(c, votes, more, Certificate(b.justify, b.signers));
    }
  }

  lemma VerifiesCertifies(c: Config, votes: seq<Vote>, qc: Certificate)
    requires Verifies(c, votes, qc)
    ensures Certified(c, votes, qc.block)
  {
    SubsetSize(qc.signers * Voters(c, votes, qc.block), Voters(c, votes, qc.block));
  }
}
