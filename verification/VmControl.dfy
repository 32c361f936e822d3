/** The asynchronous interface to the state machine: callers and one worker thread
    that take turns under a mutex.  Every locked region is one step. */
module VmControl {
  import opened Options

  const PROPOSAL_BUFFER_TARGET: nat := 3

  // ---- the shared state as a value ----

  /** The fields of the interface, then the calls made to the state machine: blocks
      executed, commitments logged, proposals produced. */
  datatype Control<B, Id> = Control(
    blocks: seq<Option<B>>, buffer: seq<B>, requests: nat, proposer: bool, committed: Option<Id>,
    target: nat, done: bool,
    executed: seq<B>, logged: seq<Id>, produced: seq<B>)

  /** The answer of `get_proposal`, or that it goes to sleep. */
  datatype Reply<B> = Nothing | Proposal(block: B) | Waits

  function Blank<B, Id>(): Control<B, Id> {
    Control([], [], 0, false, None, PROPOSAL_BUFFER_TARGET, false, [], [], [])
  }

  /** Blocks that did not parse are not executed. */
  function Parsed<B>(blocks: seq<Option<B>>): seq<B> {
    if blocks == [] then []
    else (if blocks[0].Some? then [blocks[0].value] else []) + Parsed(blocks[1..])
  }

  function HasWork<B, Id>(c: Control<B, Id>): bool {
    c.blocks != [] || (c.requests > 0 && c.proposer) || c.committed.Some?
  }

  /** Take the oldest buffered proposal and ask for as many as are missing. */
  function Taken<B, Id>(c: Control<B, Id>): Control<B, Id>
    requires c.buffer != []
  {
    var rest := c.buffer[1..];
    c.(buffer := rest, requests := if |rest| > c.target then 0 else c.target - |rest|)
  }

  /** `get_proposal` up to the point where it may wait. */
  function Asked<B, Id>(c: Control<B, Id>): (Control<B, Id>, Reply<B>) {
    if !c.proposer || c.done then (c, Nothing)
    else if c.buffer != [] then (Taken(c), Proposal(c.buffer[0]))
    else
      var c' := c.(requests := if c.requests < c.target then c.target else c.requests);
      (c', if c.target == 0 then Nothing else Waits)
  }

  /** ... and from the point where it wakes up. */
  function Woken<B, Id>(c: Control<B, Id>): (Control<B, Id>, Reply<B>)
    requires c.done || c.buffer != []
  {
    if c.done then (c, Nothing) else (Taken(c), Proposal(c.buffer[0]))
  }

  /** `submit_block_for_exec` leaves proposer mode. */
  function Submitted<B, Id>(c: Control<B, Id>, b: Option<B>): Control<B, Id> {
    c.(proposer := false, buffer := [], requests := 0, blocks := c.blocks + [b])
  }

  /** `log_commitment`: only the latest id is kept, and empty ids are dropped. */
  function CommitNoted<B, Id>(c: Control<B, Id>, id: Option<Id>): Control<B, Id> {
    if id.Some? then c.(committed := id) else c
  }

  /** One turn of the worker; `p` is what the state machine proposes if asked. */
  function Worked<B, Id>(c: Control<B, Id>, p: B): Control<B, Id> {
    c.(blocks := [],
       executed := c.executed + Parsed(c.blocks),
       logged := c.logged + (if c.committed.Some? then [c.committed.value] else []),
       committed := None,
       buffer := c.buffer + (if c.requests > 0 && c.proposer then [p] else []),
       produced := c.produced + (if c.requests > 0 && c.proposer then [p] else []),
       requests := if c.requests > 0 && c.proposer then c.requests - 1 else c.requests)
  }

  /** The worker throws "woke up early". */
  ghost predicate WakesEarly<B, Id>(c: Control<B, Id>) {
    !c.done && HasWork(c) && c.requests > 0 && !c.proposer
  }

  // ---- the interface ----

  class VMControlInterface<B, Id> {
    var blocksToValidate: seq<Option<B>>
    var proposalBuffer: seq<B>
    var additionalProposalRequests: nat
    var isProposer: bool
    var highestCommittedId: Option<Id>
    var proposalBufferTarget: nat
    var doneFlag: bool
    var executed: seq<B>
    var logged: seq<Id>
    var produced: seq<B>

    function View(): Control<B, Id>
      reads this
    {
      Control(blocksToValidate, proposalBuffer, additionalProposalRequests, isProposer, highestCommittedId,
              proposalBufferTarget, doneFlag, executed, logged, produced)
    }

    constructor ()
      ensures View() == Blank() && Valid()
    {
      blocksToValidate, proposalBuffer, additionalProposalRequests := [], [], 0;
      isProposer, highestCommittedId, doneFlag := false, None, false;
      proposalBufferTarget := PROPOSAL_BUFFER_TARGET;
      executed, logged, produced := [], [], [];
    }

    /** What every method keeps: proposals exist or are wanted only in proposer mode, and
        there are at most three of them. */
    ghost predicate Valid()
      reads this
    {
      ProposalsOk(View())
    }

    /** Everything ever handed over for execution, in order. */
    ghost function Accepted(): seq<B>
      reads this
    {
      executed + Parsed(blocksToValidate)
    }

    method SetProposer()
      modifies this
      ensures View() == old(View()).(proposer := true)
      ensures old(Valid()) ==> Valid()
    {
      isProposer := true;
    }

    method StopProposals()
      modifies this
      ensures View() == old(View()).(target := 0)
      ensures old(Valid()) ==> Valid()
    {
      proposalBufferTarget := 0;
    }

    /** `get_proposal` up to its wait.  It hands out the oldest proposal, or leaves work
        for the worker and waits, or has nothing to give: outside proposer mode, when
        done, or once stopped and empty. */
    method AskForProposal() returns (r: Reply<B>)
      modifies this
      ensures (View(), r) == Asked(old(View()))
      ensures old(Valid()) ==> Valid()
      ensures r.Proposal? ==> [r.block] + proposalBuffer == old(proposalBuffer)
      ensures r.Waits? ==> proposalBuffer == [] && additionalProposalRequests > 0 && HasWork(View())
      ensures r.Nothing? <==> !isProposer || doneFlag || (old(proposalBuffer) == [] && proposalBufferTarget == 0)
    {
      if !isProposer || doneFlag {
        return Nothing;
      }
      if proposalBuffer == [] {
        if additionalProposalRequests < proposalBufferTarget {
          additionalProposalRequests := proposalBufferTarget;
        }
        return if proposalBufferTarget == 0 then Nothing else Waits;
      }
      var out := TakeProposal();
      return Proposal(out);
    }

    /** `get_proposal` from its wake-up: the oldest proposal leaves, and as many are
        wanted as are missing. */
    method WakeWithProposal() returns (r: Reply<B>)
      requires doneFlag || proposalBuffer != []
      modifies this
      ensures (View(), r) == Woken(old(View()))
      ensures old(Valid()) ==> Valid()
      ensures !doneFlag ==> r.Proposal? && [r.block] + proposalBuffer == old(proposalBuffer)
      ensures !doneFlag && old(Valid()) && proposalBufferTarget > 0 ==>
        |proposalBuffer| + additionalProposalRequests == PROPOSAL_BUFFER_TARGET
      ensures doneFlag ==> r.Nothing? && View() == old(View())
    {
      if doneFlag {
        return Nothing;
      }
      var out := TakeProposal();
      return Proposal(out);
    }

    method TakeProposal() returns (out: B)
      requires proposalBuffer != []
      modifies this
      ensures View() == Taken(old(View())) && out == old(proposalBuffer[0])
    {
      out := proposalBuffer[0];
      proposalBuffer := proposalBuffer[1..];
      additionalProposalRequests :=
        if |proposalBuffer| > proposalBufferTarget then 0 else proposalBufferTarget - |proposalBuffer|;
    }

    /** The block is accepted behind all others, and no proposal made before it survives. */
    method SubmitBlockForExec(b: Option<B>)
      modifies this
      ensures View() == Submitted(old(View()), b)
      ensures old(Valid()) ==> Valid()
      ensures Accepted() == old(Accepted()) + if b.Some? then [b.value] else []
      ensures !isProposer && proposalBuffer == [] && additionalProposalRequests == 0 && HasWork(View())
    {
      ParsedAppend(blocksToValidate, b);
      isProposer := false;
      proposalBuffer := [];
      additionalProposalRequests := 0;
      blocksToValidate := blocksToValidate + [b];
    }

    method LogCommitment(id: Option<Id>)
      modifies this
      ensures View() == CommitNoted(old(View()), id)
      ensures old(Valid()) ==> Valid()
    {
      if id.Some? {
        highestCommittedId := id;
      }
    }

    /** The inner loop of `run`. */
    method ExecuteBlocks()
      modifies this`blocksToValidate, this`executed
      ensures blocksToValidate == [] && executed == old(executed) + Parsed(old(blocksToValidate))
    {
      while blocksToValidate != []
        invariant executed + Parsed(blocksToValidate) == old(executed) + Parsed(old(blocksToValidate))
        decreases |blocksToValidate|
      {
        var b := blocksToValidate[0];
        blocksToValidate := blocksToValidate[1..];
        if b.Some? {
          executed := executed + [b.value];
        }
      }
    }

    /** One turn of `run`, from waking to `notify_all`; `early` is its throw. */
    method Work(p: B) returns (early: bool)
      requires !doneFlag && HasWork(View())
      modifies this
      ensures early <==> WakesEarly(old(View()))
      ensures View() == Worked(old(View()), p)
      ensures old(Valid()) ==> Valid() && !early
      ensures Accepted() == old(Accepted()) && blocksToValidate == [] && highestCommittedId.None?
      ensures !early ==>
        |proposalBuffer| + additionalProposalRequests == old(|proposalBuffer| + additionalProposalRequests)
      ensures !early && old(additionalProposalRequests) > 0 ==>
        proposalBuffer == old(proposalBuffer) + [p] && additionalProposalRequests == old(additionalProposalRequests) - 1
      ensures old(highestCommittedId).Some? ==> logged == old(logged) + [old(highestCommittedId).value]
      ensures old(highestCommittedId).None? ==> logged == old(logged)
    {
      ExecuteBlocks();
      if highestCommittedId.Some? {
        logged := logged + [highestCommittedId.value];
        highestCommittedId := None;
      }
      if additionalProposalRequests > 0 {
        if !isProposer {
          return true;
        }
        proposalBuffer := proposalBuffer + [p];
        produced := produced + [p];
        additionalProposalRequests := additionalProposalRequests - 1;
      }
      return false;
    }
  }

  // ---- every interleaving ----

  datatype Event<B, Id> =
    | BecomeProposer | Stop | Finish
    | Ask | Wake
    | Submit(b: Option<B>)
    | Log(id: Option<Id>)
    | Turn(p: B)

  /** The shared state with what its callers saw: callers asleep in `get_proposal`,
      blocks submitted, commitments logged, and since proposer mode was last left the
      proposals handed out and the number produced before. */
  datatype World<B, Id> = World(
    control: Control<B, Id>, sleeping: nat, submitted: seq<B>, noted: seq<Id>, handed: seq<B>, mark: nat)

  function Outset<B, Id>(): World<B, Id> {
    World(Blank(), 0, [], [], [], 0)
  }

  function Given<B>(r: Reply<B>): seq<B> {
    if r.Proposal? then [r.block] else []
  }

  /** An event that cannot happen changes nothing. */
  function Next<B, Id>(w: World<B, Id>, e: Event<B, Id>): World<B, Id> {
    var c := w.control;
    match e
    case BecomeProposer => w.(control := c.(proposer := true))
    case Stop => w.(control := c.(target := 0))
    case Finish => w.(control := c.(done := true))
    case Ask =>
      var (c', r) := Asked(c);
      w.(control := c', sleeping := w.sleeping + (if r.Waits? then 1 else 0), handed := w.handed + Given(r))
    case Wake =>
      if w.sleeping == 0 || !(c.done || c.buffer != []) then w else
        var (c', r) := Woken(c);
        w.(control := c', sleeping := w.sleeping - 1, handed := w.handed + Given(r))
    case Submit(b) =>
      w.(control := Submitted(c, b), submitted := w.submitted + (if b.Some? then [b.value] else []),
         handed := [], mark := |c.produced|)
    case Log(id) =>
      w.(control := CommitNoted(c, id), noted := w.noted + (if id.Some? then [id.value] else []))
    case Turn(p) => if c.done || !HasWork(c) then w else w.(control := Worked(c, p))
  }

  function Interleaving<B, Id>(events: seq<Event<B, Id>>): World<B, Id> {
    if events == [] then
      Outset()
    else
      Next(Interleaving(events[..|events| - 1]), events[|events| - 1])
  }

  /** Proposals exist or are wanted only in proposer mode, and there are at most three. */
  ghost predicate ProposalsOk<B, Id>(c: Control<B, Id>) {
    && (c.buffer != [] || c.requests > 0 ==> c.proposer)
    && |c.buffer| + c.requests <= PROPOSAL_BUFFER_TARGET
    && (c.target == 0 || c.target == PROPOSAL_BUFFER_TARGET)
  }

  /** Blocks are executed in the order submitted, and proposals leave in the order
      produced. */
  ghost predicate InOrder<B, Id>(w: World<B, Id>) {
    && w.control.executed + Parsed(w.control.blocks) == w.submitted
    && HandedInOrder(w.control, w.handed, w.mark)
  }

  ghost predicate HandedInOrder<B, Id>(c: Control<B, Id>, handed: seq<B>, mark: nat) {
    mark <= |c.produced| && handed + c.buffer == c.produced[mark..]
  }

  /** The last commitment noted is the last one logged, or is about to be. */
  ghost predicate LatestKept<B, Id>(w: World<B, Id>) {
    w.noted != [] ==>
      var latest := w.noted[|w.noted| - 1];
      if w.control.committed.Some? then
        w.control.committed.value == latest
      else
        w.control.logged != [] && w.control.logged[|w.control.logged| - 1] == latest
  }

  lemma ProposalsStep<B, Id>(w: World<B, Id>, e: Event<B, Id>)
    requires ProposalsOk(w.control)
    ensures ProposalsOk(Next(w, e).control)
  {
  }

  lemma {:induction false} ParsedAppend<B>(blocks: seq<Option<B>>, b: Option<B>)
    ensures Parsed(blocks + [b]) == Parsed(blocks) + if b.Some? then [b.value] else []
  {
    if blocks == [] {
      assert blocks + [b] == [b];
    } else {
      ParsedAppend(blocks[1..], b);
      assert (blocks + [b])[1..] == blocks[1..] + [b];
    }
  }

  lemma TakenInOrder<B, Id>(c: Control<B, Id>, handed: seq<B>, mark: nat)
    requires c.buffer != [] && HandedInOrder(c, handed, mark)
    ensures HandedInOrder(Taken(c), handed + [c.buffer[0]], mark)
  {
    assert handed + c.buffer == (handed + [c.buffer[0]]) + c.buffer[1..];
  }

  lemma WorkedInOrder<B, Id>(c: Control<B, Id>, p: B, handed: seq<B>, mark: nat)
    requires HandedInOrder(c, handed, mark)
    ensures HandedInOrder(Worked(c, p), handed, mark)
  {
    assert handed + (c.buffer + [p]) == (handed + c.buffer) + [p];
    assert (c.produced + [p])[mark..] == c.produced[mark..] + [p];
  }

  lemma OrderStep<B, Id>(w: World<B, Id>, e: Event<B, Id>)
    requires InOrder(w)
    ensures InOrder(Next(w, e))
  {
    var c := w.control;
    assert w.handed + [] == w.handed && c.executed + [] == c.executed;
    match e
    case Ask =>
      if c.buffer != [] {
        TakenInOrder(c, w.handed, w.mark);
      }
    case Wake =>
      if c.buffer != [] {
        TakenInOrder(c, w.handed, w.mark);
      }
    case Submit(b) =>
      ParsedAppend(c.blocks, b);
    case Turn(p) =>
      WorkedInOrder(c, p, w.handed, w.mark);
    case _ =>
  }

  lemma LatestStep<B, Id>(w: World<B, Id>, e: Event<B, Id>)
    requires LatestKept(w) && (w.noted == [] ==> w.control.committed.None?)
    ensures LatestKept(Next(w, e)) && (Next(w, e).noted == [] ==> Next(w, e).control.committed.None?)
  {
  }

  /** In every interleaving of callers and worker: proposals are buffered or wanted only
      in proposer mode, so the worker never wakes up early; there are never more than
      three of them; blocks and proposals keep their order; and no commitment is
      forgotten for good. */
  lemma {:induction false} ControlOk<B, Id>(events: seq<Event<B, Id>>)
    ensures var w := Interleaving(events);
      ProposalsOk(w.control) && InOrder(w) && LatestKept(w) && !WakesEarly(w.control)
    ensures var w := Interleaving(events); w.noted == [] ==> w.control.committed.None?
  {
    if events != [] {
      var front, e := events[..|events| - 1], events[|events| - 1];
      ControlOk(front);
      ProposalsStep(Interleaving(front), e);
      OrderStep(Interleaving(front), e);
      LatestStep(Interleaving(front), e);
    }
  }

  // ---- what the worker owes ----

  /** Turns of the worker in which the state machine proposes `ps`. */
  function Turns<B, Id>(w: World<B, Id>, ps: seq<B>): World<B, Id>
    decreases |ps|
  {
    if ps == [] then w else Turns(Next(w, Turn(ps[0])), ps[1..])
  }

  /** As many turns as proposals are wanted fill the buffer with exactly those, in order. */
  lemma {:induction false} TurnsFill<B, Id>(w: World<B, Id>, ps: seq<B>)
    requires w.control.proposer && !w.control.done && |ps| == w.control.requests
    ensures var w' := Turns(w, ps);
      && w'.control.buffer == w.control.buffer + ps && w'.control.requests == 0
      && w'.control.proposer && !w'.control.done && w'.handed == w.handed
    decreases |ps|
  {
    if ps == [] {
      assert w.control.buffer + ps == w.control.buffer;
    } else {
      TurnsFill(Next(w, Turn(ps[0])), ps[1..]);
      assert (w.control.buffer + [ps[0]]) + ps[1..] == w.control.buffer + ps;
    }
  }

  ghost predicate Subsequence<T>(a: seq<T>, b: seq<T>)
    decreases |b|
  {
    if a == [] || b == [] then a == [] else
      var (i, j) := (|a| - 1, |b| - 1);
      (a[i] == b[j] && Subsequence(a[..i], b[..j])) || Subsequence(a, b[..j])
  }

  lemma SubsequenceNext<T>(a: seq<T>, b: seq<T>, x: T)
    requires Subsequence(a, b)
    ensures Subsequence(a, b + [x]) && Subsequence(a + [x], b + [x])
  {
    assert (a + [x])[..|a|] == a && (b + [x])[..|b|] == b;
  }

  /** The commitments logged and the one about to be. */
  ghost function LoggedSoon<B, Id>(c: Control<B, Id>): seq<Id> {
    c.logged + if c.committed.Some? then [c.committed.value] else []
  }

  ghost predicate LogOk<B, Id>(w: World<B, Id>) {
    Subsequence(w.control.logged, w.noted) && Subsequence(LoggedSoon(w.control), w.noted)
  }

  lemma LogStep<B, Id>(w: World<B, Id>, e: Event<B, Id>)
    requires LogOk(w)
    ensures LogOk(Next(w, e))
  {
    var c := w.control;
    assert w.noted + [] == w.noted && LoggedSoon(c) + [] == LoggedSoon(c);
    match e
    case Log(id) =>
      if id.Some? {
        SubsequenceNext(c.logged, w.noted, id.value);
      }
    case _ =>
  }

  /** The commitments reach the state machine in the order in which they were noted and
      each at most once; some may be skipped. */
  lemma {:induction false} LogsInOrder<B, Id>(events: seq<Event<B, Id>>)
    ensures LogOk(Interleaving(events))
  {
    if events != [] {
      LogsInOrder(events[..|events| - 1]);
      LogStep(Interleaving(events[..|events| - 1]), events[|events| - 1]);
    }
  }

  // ---- who is left asleep ----

  /** A caller sleeps in `get_proposal`, and neither is there a proposal for it nor has the
      worker been asked for one. */
  ghost predicate Stranded<B, Id>(w: World<B, Id>) {
    w.sleeping > 0 && !w.control.done && w.control.buffer == [] && w.control.requests == 0
  }

  /** A sleeper that is not stranded is served: either a proposal is there to wake up
      with, or the worker's next turn makes one. */
  lemma ServedIff<B, Id>(events: seq<Event<B, Id>>, p: B)
    requires var w := Interleaving(events); w.sleeping > 0 && !w.control.done
    ensures var w := Interleaving(events);
      w.control.buffer != [] || Next(w, Turn(p)).control.buffer != [] <==> !Stranded(w)
  {
    ControlOk(events);
  }

  /** The events that strand a sleeper: a submission, which clears all requests, and after
      proposals were stopped the taking of the last proposal while others sleep. */
  ghost predicate Strands<B, Id>(w: World<B, Id>, e: Event<B, Id>) {
    var c := w.control;
    var last := !c.done && c.target == 0 && |c.buffer| == 1;
    match e
    case Submit(_) => w.sleeping > 0 && !c.done
    case Wake => w.sleeping > 1 && last
    case Ask => w.sleeping > 0 && c.proposer && last
    case _ => false
  }

  /** The events that rescue it: another caller who asks in proposer mode while proposals
      are not stopped, and the end. */
  ghost predicate Rescues<B, Id>(w: World<B, Id>, e: Event<B, Id>) {
    e.Finish? || (e.Ask? && w.control.proposer && w.control.target > 0)
  }

  lemma StrandStep<B, Id>(w: World<B, Id>, e: Event<B, Id>)
    requires ProposalsOk(w.control)
    ensures Stranded(Next(w, e)) <==> Strands(w, e) || (Stranded(w) && !Rescues(w, e))
  {
  }

  ghost predicate StrandedAt<B, Id>(events: seq<Event<B, Id>>, i: nat)
    requires i < |events|
  {
    && Strands(Interleaving(events[..i]), events[i])
    && forall j | i < j < |events| :: !RescuedAt(events, j)
  }

  ghost predicate RescuedAt<B, Id>(events: seq<Event<B, Id>>, j: nat)
    requires j < |events|
  {
    Rescues(Interleaving(events[..j]), events[j])
  }

  ghost predicate EverStranded<B, Id>(events: seq<Event<B, Id>>) {
    exists i: nat | i < |events| :: StrandedAt(events, i)
  }

  lemma PrefixRescued<B, Id>(events: seq<Event<B, Id>>, k: nat, j: nat)
    requires j < k <= |events|
    ensures RescuedAt(events[..k], j) <==> RescuedAt(events, j)
  {
    assert events[..k][..j] == events[..j];
  }

  lemma StrandedEarlier<B, Id>(events: seq<Event<B, Id>>, i: nat)
    requires i < |events| - 1
    ensures StrandedAt(events, i) <==> StrandedAt(events[..|events| - 1], i) && !RescuedAt(events, |events| - 1)
  {
    var k := |events| - 1;
    assert events[..k][..i] == events[..i];
    forall j | i < j < k
      ensures RescuedAt(events[..k], j) <==> RescuedAt(events, j)
    {
      PrefixRescued(events, k, j);
    }
  }

  lemma EverStrandedStep<B, Id>(events: seq<Event<B, Id>>)
    requires events != []
    ensures var k := |events| - 1; var w := Interleaving(events[..k]);
      EverStranded(events) <==> Strands(w, events[k]) || (EverStranded(events[..k]) && !Rescues(w, events[k]))
  {
    var k := |events| - 1;
    var front, w := events[..k], Interleaving(events[..k]);
    assert RescuedAt(events, k) <==> Rescues(w, events[k]);
    if Strands(w, events[k]) {
      assert StrandedAt(events, k);
    }
    if EverStranded(front) && !Rescues(w, events[k]) {
      var i: nat :| i < |front| && StrandedAt(front, i);
      StrandedEarlier(events, i);
      assert StrandedAt(events, i);
    }
    if EverStranded(events) && !Strands(w, events[k]) {
      var i: nat :| i < |events| && StrandedAt(events, i);
      StrandedEarlier(events, i);
      assert StrandedAt(front, i);
    }
  }

  /** In every interleaving: a sleeper is stranded if and only if some event stranded one
      and none since has rescued it. */
  lemma {:induction false} StrandedIff<B, Id>(events: seq<Event<B, Id>>)
    ensures Stranded(Interleaving(events)) <==> EverStranded(events)
  {
    if events != [] {
      var front := events[..|events| - 1];
      StrandedIff(front);
      ControlOk(front);
      StrandStep(Interleaving(front), events[|events| - 1]);
      EverStrandedStep(events);
    }
  }
}
