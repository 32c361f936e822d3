/** The speculation list and the bridge that feeds it: which blocks the state machine
    has run ahead of consensus, and what it is told once they commit. */
module Speculation {
  import opened Options

  datatype CommitResult<V> = Committed(value: V) | EmptyMap | GapInLog

  /** A speculation: the height and the state machine's id of the block run there. */
  datatype Entry<V> = Entry(height: nat, value: V)

  // ---- the list as a value ----

  /** The ids run at heights `committed + 1`, `committed + 2`, and so on. */
  datatype Spec<V> = Spec(committed: nat, ids: seq<V>) {
    /** The first height without a speculation. */
    function Head(): nat {
      committed + 1 + |ids|
    }

    function Add(height: nat, id: V): Spec<V> {
      if height == Head() then this.(ids := ids + [id]) else this
    }

    function Clear(): Spec<V> {
      this.(ids := [])
    }

    function Commit(height: nat): CommitResult<V> {
      if ids == [] then EmptyMap
      else if height != committed + 1 then GapInLog
      else Committed(ids[0])
    }

    function AfterCommit(height: nat): Spec<V> {
      if Commit(height).Committed? then Spec(height, ids[1..]) else this
    }
  }

  // ---- the list as the source keeps it ----

  class SpeculativeExecGadget<V> {
    /** A forward list; an iterator is the index of its node, and `None` is the end. */
    var heightMap: seq<Entry<V>>
    var lastElt: Option<nat>
    var speculationHead: nat
    var highestCommitted: nat

    /** The list holds exactly the heights above the committed one and below the head,
        and the tail iterator stands on its last node. */
    ghost predicate Valid()
      reads this
    {
      && (forall i | 0 <= i < |heightMap| :: heightMap[i].height == highestCommitted + 1 + i)
      && speculationHead == highestCommitted + 1 + |heightMap|
      && lastElt == if heightMap == [] then None else Some(|heightMap| - 1)
    }

    ghost function View(): Spec<V>
      reads this
    {
      Spec(highestCommitted, seq(|heightMap|, i requires 0 <= i < |heightMap| reads this => heightMap[i].value))
    }

    constructor ()
      ensures Valid() && View() == Spec(0, [])
    {
      heightMap, lastElt, speculationHead, highestCommitted := [], None, 1, 0;
    }

    predicate Empty()
      reads this
    {
      lastElt.None?
    }

    /** `add_height_pair`: a height other than the head is ignored. */
    method AddHeightPair(height: nat, value: V)
      requires Valid()
      modifies this
      ensures Valid() && View() == old(View()).Add(height, value)
    {
      if speculationHead != height {
        return;
      }
      speculationHead := speculationHead + 1;
      if lastElt.None? {
        heightMap := InsertAfter(heightMap, None, Entry(height, value));
        lastElt := Some(0);
        return;
      }
      heightMap := InsertAfter(heightMap, lastElt, Entry(height, value));
      lastElt := Some(lastElt.value + 1);
    }

    /** `on_commit_hotstuff`. */
    method OnCommit(height: nat) returns (r: CommitResult<V>)
      requires Valid()
      modifies this
      ensures Valid() && View() == old(View()).AfterCommit(height)
      ensures r == old(View()).Commit(height)
    {
      if Empty() {
        return EmptyMap;
      }
      var front := heightMap[0];
      if height != front.height {
        return GapInLog;
      }
      highestCommitted := front.height;
      heightMap := heightMap[1..];
      lastElt := if heightMap == [] then None else Some(lastElt.value - 1);
      return Committed(front.value);
    }

    method Clear()
      requires Valid()
      modifies this
      ensures Valid() && View() == old(View()).Clear()
    {
      Reset();
    }

    /** The body of `clear`, which also makes the list valid after a reload. */
    method Reset()
      modifies this
      ensures Valid() && View() == Spec(old(highestCommitted), [])
    {
      heightMap, lastElt := [], None;
      speculationHead := highestCommitted + 1;
    }

    method InitFromDisk(highestDecided: nat)
      modifies this
      ensures Valid() && View() == Spec(highestDecided, [])
    {
      highestCommitted := highestDecided;
      Reset();
    }
  }

  /** `insert_after` of a forward list; `None` stands before the first node. */
  function InsertAfter<T>(s: seq<T>, at: Option<nat>, x: T): seq<T>
    requires at.Some? ==> at.value < |s|
  {
    var k := if at.Some? then at.value + 1 else 0;
    s[..k] + [x] + s[k..]
  }

  // ---- the bridge ----

  /** What the bridge asks of the state machine: run a block, be it one it proposed or
      one submitted for execution, return to the last committed state, or take note that
      a block has committed. */
  datatype VmCall<V> = Ran(id: V) | Rewound | Logged(id: V)

  /** `broken` records that a commit found no matching speculation. */
  datatype Bridge<V> = Bridge(spec: Spec<V>, calls: seq<VmCall<V>>, broken: bool)

  function LoggedIds<V>(calls: seq<VmCall<V>>): seq<V> {
    if calls == [] then [] else
      var k := |calls| - 1;
      LoggedIds(calls[..k]) + if calls[k].Logged? then [calls[k].id] else []
  }

  function Cut<V>(s: seq<V>, n: nat): seq<V> {
    if n <= |s| then s[..n] else s
  }

  /** The blocks a state machine has run, in order, once its calls are obeyed: a rewind
      undoes what ran after the last logged commitment. */
  function History<V>(calls: seq<VmCall<V>>): seq<V> {
    if calls == [] then [] else
      var k := |calls| - 1;
      match calls[k]
      case Ran(id) => History(calls[..k]) + [id]
      case Rewound => Cut(History(calls[..k]), |LoggedIds(calls[..k])|)
      case Logged(_) => History(calls[..k])
  }

  function Start<V>(committed: nat): Bridge<V> {
    Bridge(Spec(committed, []), [], false)
  }

  /** A proposal, empty or not, is a speculation at its height. */
  function Proposed<V>(b: Bridge<V>, height: nat, id: V): Bridge<V> {
    b.(spec := b.spec.Add(height, id), calls := b.calls + [Ran(id)])
  }

  /** `apply_block`: keep the speculation if its first id is the block's, otherwise
      throw it all away and run the block. */
  function Applied<V(==)>(b: Bridge<V>, height: nat, id: V): Bridge<V> {
    if b.spec.ids != [] && b.spec.ids[0] == id then
      b
    else
      var calls := if b.spec.ids != [] then b.calls + [Rewound] else b.calls;
      b.(spec := b.spec.Clear().Add(height, id), calls := calls + [Ran(id)])
  }

  /** The block is the one speculated first, ... */
  ghost predicate Expected<V>(b: Bridge<V>, id: V) {
    b.spec.ids != [] && b.spec.ids[0] == id
  }

  /** ... or another one was. */
  ghost predicate Mismatch<V>(b: Bridge<V>, id: V) {
    b.spec.ids != [] && b.spec.ids[0] != id
  }

  /** `notify_vm_of_commitment`. */
  function Notified<V>(b: Bridge<V>, height: nat): Bridge<V> {
    match b.spec.Commit(height)
    case Committed(id) => b.(spec := b.spec.AfterCommit(height), calls := b.calls + [Logged(id)])
    case _ => b.(broken := true)
  }

  class HotstuffVMBridge<V(==)> {
    const speculationMap: SpeculativeExecGadget<V>
    const emptyId: V
    var initialized: bool
    var calls: seq<VmCall<V>>
    var broken: bool

    ghost predicate Valid()
      reads this, speculationMap
    {
      speculationMap.Valid()
    }

    ghost function View(): Bridge<V>
      reads this, speculationMap
    {
      Bridge(speculationMap.View(), calls, broken)
    }

    constructor (emptyId: V)
      ensures Valid() && View() == Start(0) && !initialized
      ensures this.emptyId == emptyId && fresh(speculationMap)
    {
      this.emptyId := emptyId;
      speculationMap := new SpeculativeExecGadget();
      initialized, calls, broken := false, [], false;
    }

    method InitClean()
      requires Valid()
      modifies this`initialized
      ensures Valid() && initialized && View() == old(View())
    {
      initialized := true;
    }

    method InitFromDisk(decidedHeight: nat)
      modifies this`initialized, speculationMap
      ensures Valid() && initialized && View() == old(View()).(spec := Spec(decidedHeight, []))
    {
      speculationMap.InitFromDisk(decidedHeight);
      initialized := true;
    }

    /** Every entry point throws before initialisation and changes nothing. */
    method MakeEmptyProposal(height: nat) returns (ok: bool)
      requires Valid()
      modifies this`calls, speculationMap
      ensures Valid() && ok == initialized
      ensures View() == if ok then Proposed(old(View()), height, emptyId) else old(View())
    {
      if initialized {
        speculationMap.AddHeightPair(height, emptyId);
        calls := calls + [Ran(emptyId)];
      }
      return initialized;
    }

    /** The state machine may have no proposal to give. */
    method GetAndApplyNextProposal(height: nat, proposal: Option<V>) returns (ok: bool)
      requires Valid()
      modifies this`calls, speculationMap
      ensures Valid() && ok == initialized
      ensures View() ==
        if ok then Proposed(old(View()), height, if proposal.Some? then proposal.value else emptyId) else old(View())
    {
      if initialized {
        if proposal.None? {
          speculationMap.AddHeightPair(height, emptyId);
          calls := calls + [Ran(emptyId)];
        } else {
          speculationMap.AddHeightPair(height, proposal.value);
          calls := calls + [Ran(proposal.value)];
        }
      }
      return initialized;
    }

    method ApplyBlock(height: nat, id: V) returns (ok: bool)
      requires Valid()
      modifies this`calls, speculationMap
      ensures Valid() && ok == initialized
      ensures View() == if ok then Applied(old(View()), height, id) else old(View())
      ensures ok && Expected(old(View()), id) ==>
        calls == old(calls) && speculationMap.View() == old(speculationMap.View())
      ensures ok && old(speculationMap.heightMap) == [] ==> calls == old(calls) + [Ran(id)]
      ensures ok && Mismatch(old(View()), id) ==> calls == old(calls) + [Rewound, Ran(id)]
    {
      if !initialized {
        return false;
      }
      if !speculationMap.Empty() {
        if id == speculationMap.heightMap[0].value {
          return true;
        }
        speculationMap.Clear();
        calls := calls + [Rewound];
      }
      speculationMap.AddHeightPair(height, id);
      calls := calls + [Ran(id)];
      return true;
    }

    method NotifyOfCommitment(height: nat) returns (ok: bool)
      requires Valid()
      modifies this`calls, this`broken, speculationMap
      ensures Valid() && ok == initialized
      ensures View() == if ok then Notified(old(View()), height) else old(View())
    {
      if !initialized {
        return false;
      }
      var r := speculationMap.OnCommit(height);
      if r.Committed? {
        calls := calls + [Logged(r.value)];
      } else {
        broken := true;
      }
      return true;
    }
  }

  // ---- runs ----

  /** Proposals come at any time; consensus applies a block and later, before it applies
      another, reports its commitment. */
  datatype BridgeEvent<V> = Propose(height: nat, id: V) | Apply(id: V) | Notify

  /** The bridge, the ids consensus has committed, and the block applied but not yet
      reported. */
  datatype Session<V> = Session(base: nat, bridge: Bridge<V>, decided: seq<V>, current: Option<V>)

  function Begin<V>(base: nat): Session<V> {
    Session(base, Start(base), [], None)
  }

  /** Consensus commits at consecutive heights: the block applied is at the height
      after those decided. */
  function Happen<V(==)>(s: Session<V>, e: BridgeEvent<V>): Session<V> {
    var height := s.base + |s.decided| + 1;
    match e
    case Propose(h, id) => s.(bridge := Proposed(s.bridge, h, id))
    case Apply(id) =>
      if s.current.Some? then s else s.(bridge := Applied(s.bridge, height, id), current := Some(id))
    case Notify =>
      if s.current.None? then s
      else s.(bridge := Notified(s.bridge, height), decided := s.decided + [s.current.value], current := None)
  }

  function BridgeRun<V(==)>(base: nat, events: seq<BridgeEvent<V>>): Session<V> {
    if events == [] then
      Begin(base)
    else
      Happen(BridgeRun(base, events[..|events| - 1]), events[|events| - 1])
  }

  ghost predicate SessionOk<V>(s: Session<V>) {
    && !s.bridge.broken
    && LoggedIds(s.bridge.calls) == s.decided
    && s.bridge.spec.committed == s.base + |s.decided|
    && (s.current.Some? ==> s.bridge.spec.ids != [] && s.bridge.spec.ids[0] == s.current.value)
  }

  lemma HistoryNext<V>(calls: seq<VmCall<V>>, c: VmCall<V>)
    ensures LoggedIds(calls + [c]) == LoggedIds(calls) + if c.Logged? then [c.id] else []
    ensures c.Ran? ==> History(calls + [c]) == History(calls) + [c.id]
    ensures c.Rewound? ==> History(calls + [c]) == Cut(History(calls), |LoggedIds(calls)|)
    ensures c.Logged? ==> History(calls + [c]) == History(calls)
  {
    assert (calls + [c])[..|calls|] == calls;
  }

  lemma LoggedNext<V>(calls: seq<VmCall<V>>, c: VmCall<V>)
    ensures LoggedIds(calls + [c]) == if c.Logged? then LoggedIds(calls) + [c.id] else LoggedIds(calls)
  {
    assert (calls + [c])[..|calls|] == calls;
  }

  lemma AppliedOk<V>(s: Session<V>, id: V)
    requires SessionOk(s)
    ensures SessionOk(Happen(s, Apply(id)))
  {
    var calls := s.bridge.calls;
    LoggedNext(calls, Rewound);
    LoggedNext(calls, Ran(id));
    LoggedNext(calls + [Rewound], Ran(id));
  }

  lemma NotifiedOk<V>(s: Session<V>)
    requires SessionOk(s)
    ensures SessionOk(Happen(s, Notify))
  {
    if s.current.Some? {
      LoggedNext(s.bridge.calls, Logged(s.current.value));
    }
  }

  lemma SessionStep<V>(s: Session<V>, e: BridgeEvent<V>)
    requires SessionOk(s)
    ensures SessionOk(Happen(s, e))
  {
    match e
    case Propose(_, id) =>
      LoggedNext(s.bridge.calls, Ran(id));
    case Apply(id) =>
      AppliedOk(s, id);
    case Notify =>
      NotifiedOk(s);
  }

  /** Refinement: in every run neither throw of `on_commit_hotstuff` is reached and the
      ids logged to the state machine are those of the committed blocks, in order. */
  lemma {:induction false} LogsCommitted<V>(base: nat, events: seq<BridgeEvent<V>>)
    ensures SessionOk(BridgeRun(base, events))
  {
    if events != [] {
      LogsCommitted(base, events[..|events| - 1]);
      SessionStep(BridgeRun(base, events[..|events| - 1]), events[|events| - 1]);
    }
  }

  /** The state machine has run the committed blocks, then the speculations listed. */
  ghost predicate InStep<V>(s: Session<V>) {
    History(s.bridge.calls) == s.decided + s.bridge.spec.ids
  }

  lemma ProposeInStep<V>(s: Session<V>, height: nat, id: V)
    requires InStep(s)
    ensures InStep(Happen(s, Propose(height, id))) <==> height == s.bridge.spec.Head()
  {
    var ids := s.bridge.spec.ids;
    HistoryNext(s.bridge.calls, Ran(id));
    assert (s.decided + ids) + [id] == s.decided + (ids + [id]);
    assert |s.decided + ids| < |(s.decided + ids) + [id]|;
  }

  lemma ApplyInStep<V>(s: Session<V>, id: V)
    requires SessionOk(s) && InStep(s)
    ensures InStep(Happen(s, Apply(id)))
  {
    var calls, ids := s.bridge.calls, s.bridge.spec.ids;
    if s.current.None? && (ids == [] || ids[0] != id) {
      HistoryNext(calls, Rewound);
      HistoryNext(if ids == [] then calls else calls + [Rewound], Ran(id));
      assert Cut(s.decided + ids, |s.decided|) == s.decided;
      assert s.decided + [] == s.decided;
      assert Happen(s, Apply(id)).bridge.spec.ids == [id];
    }
  }

  lemma NotifyInStep<V>(s: Session<V>)
    requires SessionOk(s) && InStep(s)
    ensures InStep(Happen(s, Notify))
  {
    if s.current.Some? {
      var ids := s.bridge.spec.ids;
      HistoryNext(s.bridge.calls, Logged(s.current.value));
      assert s.decided + ids == (s.decided + [ids[0]]) + ids[1..];
    }
  }

  /** Only a proposal at a height other than the head puts the state machine out of
      step with the list: it was run and is not listed. */
  lemma InStepIff<V>(s: Session<V>, e: BridgeEvent<V>)
    requires SessionOk(s) && InStep(s)
    ensures InStep(Happen(s, e)) <==> (e.Propose? ==> e.height == s.bridge.spec.Head())
  {
    match e
    case Propose(h, id) =>
      ProposeInStep(s, h, id);
    case Apply(id) =>
      ApplyInStep(s, id);
    case Notify =>
      NotifyInStep(s);
  }

  ghost predicate ProposesAtHead<V>(base: nat, events: seq<BridgeEvent<V>>) {
    forall i | 0 <= i < |events| ::
      events[i].Propose? ==> events[i].height == BridgeRun(base, events[..i]).bridge.spec.Head()
  }

  /** So when every proposal is made at the head, the state machine has at all times run
      exactly the committed blocks in order, followed by the speculations. */
  lemma {:induction false} RunsCommitted<V>(base: nat, events: seq<BridgeEvent<V>>)
    requires ProposesAtHead(base, events)
    ensures InStep(BridgeRun(base, events))
  {
    if events != [] {
      var k := |events| - 1;
      assert forall i | 0 <= i < k :: events[..k][..i] == events[..i];
      RunsCommitted(base, events[..k]);
      LogsCommitted(base, events[..k]);
      InStepIff(BridgeRun(base, events[..k]), events[k]);
    }
  }

  // ---- how often the state machine is rewound ----

  function Rewinds<V>(calls: seq<VmCall<V>>): nat {
    if calls == [] then 0 else
      var k := |calls| - 1;
      Rewinds(calls[..k]) + if calls[k].Rewound? then 1 else 0
  }

  lemma RewindsNext<V>(calls: seq<VmCall<V>>, c: VmCall<V>)
    ensures Rewinds(calls + [c]) == Rewinds(calls) + if c.Rewound? then 1 else 0
  {
    assert (calls + [c])[..|calls|] == calls;
  }

  /** The blocks of a run applied while another one was speculated first. */
  ghost function Mismatches<V>(base: nat, events: seq<BridgeEvent<V>>): nat {
    if events == [] then 0 else
      var k := |events| - 1;
      Mismatches(base, events[..k]) + if Misses(BridgeRun(base, events[..k]), events[k]) then 1 else 0
  }

  ghost predicate Misses<V>(s: Session<V>, e: BridgeEvent<V>) {
    e.Apply? && s.current.None? && Mismatch(s.bridge, e.id)
  }

  lemma RewindsStep<V>(s: Session<V>, e: BridgeEvent<V>)
    ensures Rewinds(Happen(s, e).bridge.calls) == Rewinds(s.bridge.calls) + if Misses(s, e) then 1 else 0
  {
    var calls := s.bridge.calls;
    match e
    case Propose(_, id) =>
      RewindsNext(calls, Ran(id));
    case Apply(id) =>
      RewindsNext(calls, Rewound);
      RewindsNext(calls, Ran(id));
      RewindsNext(calls + [Rewound], Ran(id));
    case Notify =>
      if s.current.Some? && s.bridge.spec.ids != [] {
        RewindsNext(calls, Logged(s.bridge.spec.ids[0]));
      }
  }

  /** In every run the state machine is rewound once for each such block and never
      otherwise; in particular not at all when every block applied was the one
      speculated first. */
  lemma {:induction false} RewoundPerMismatch<V>(base: nat, events: seq<BridgeEvent<V>>)
    ensures Rewinds(BridgeRun(base, events).bridge.calls) == Mismatches(base, events)
  {
    if events != [] {
      var k := |events| - 1;
      RewoundPerMismatch(base, events[..k]);
      RewindsStep(BridgeRun(base, events[..k]), events[k]);
    }
  }
}
