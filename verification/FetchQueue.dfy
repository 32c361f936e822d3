/** The queue of network messages, some of which wait for blocks to be fetched. */
module FetchQueue {
  import Blocks
  import opened BlockStorage

  type ReplicaId = Blocks.ReplicaId

  /** A vote for a block by hash, a proposed block, or a block fetched from a peer. */
  datatype NetEvent =
    | Vote(hash: Hash, from: ReplicaId)
    | Proposal(block: Header, from: ReplicaId)
    | Received(block: Header, from: ReplicaId)

  type Requests = map<Hash, seq<NetEvent>>

  // ---- the fetch manager as a value ----

  /** Outstanding requests with the events that wait for them, the questions sent to
      peers, and the events dropped because the replica to ask is not configured. */
  datatype Fetches = Fetches(requests: Requests, asked: seq<(Hash, ReplicaId)>, dropped: seq<NetEvent>)

  function Waiting(m: Requests, h: Hash): seq<NetEvent> {
    if h in m then m[h] else []
  }

  /** `add_fetch_request`.  The set of replicas already asked is never written, so every
      call asks again. */
  function Fetched(f: Fetches, replicas: set<ReplicaId>, h: Hash, target: ReplicaId, events: seq<NetEvent>): Fetches {
    if target !in replicas then f.(dropped := f.dropped + events)
    else f.(requests := f.requests[h := Waiting(f.requests, h) + events], asked := f.asked + [(h, target)])
  }

  /** The events of both missing blocks wait for the parent if that is missing. */
  function FetchedAll(f: Fetches, replicas: set<ReplicaId>, m: Missing, target: ReplicaId,
                      events: seq<NetEvent>): Fetches
    requires m.Any()
  {
    var f' := if m.parent.Some? then Fetched(f, replicas, m.parent.value, target, events) else f;
    if m.justify.Some? then Fetched(f', replicas, m.justify.value, target, if m.parent.Some? then [] else events)
    else f'
  }

  // ---- counting events ----

  /** All events that wait, with their multiplicities. */
  ghost function Attached(m: Requests): multiset<NetEvent>
    decreases |m|
  {
    if m == map[] then multiset{} else
      var h :| h in m;
      multiset(m[h]) + Attached(m - {h})
  }

  lemma {:induction false} AttachedAt(m: Requests, h: Hash)
    requires h in m
    ensures Attached(m) == multiset(m[h]) + Attached(m - {h})
    decreases |m|
  {
    var g :| g in m && Attached(m) == multiset(m[g]) + Attached(m - {g});
    if g != h {
      AttachedAt(m - {g}, h);
      AttachedAt(m - {h}, g);
      assert m - {g} - {h} == m - {h} - {g};
    }
  }

  lemma AttachedAdd(m: Requests, h: Hash, events: seq<NetEvent>)
    ensures Attached(m[h := Waiting(m, h) + events]) == Attached(m) + multiset(events)
  {
    var m' := m[h := Waiting(m, h) + events];
    AttachedAt(m', h);
    assert m' - {h} == m - {h};
    if h in m {
      AttachedAt(m, h);
    } else {
      assert m - {h} == m;
    }
  }

  lemma AttachedRemove(m: Requests, h: Hash)
    ensures Attached(m) == Attached(m - {h}) + multiset(Waiting(m, h))
  {
    if h in m {
      AttachedAt(m, h);
    } else {
      assert m - {h} == m;
    }
  }

  // ---- the queue as a value ----

  /** The block store, the fetch manager, the queue, and the events that are done with:
      handed to consensus, or fetched blocks that were stored. */
  datatype Net = Net(cache: Cache, fetches: Fetches, queue: seq<NetEvent>, handed: seq<NetEvent>, stored: seq<NetEvent>)

  function Idle(): Net {
    Net(EMPTY, Fetches(map[], [], []), [], [], [])
  }

  /** The event refers to a block that is not stored. */
  predicate NeedsFetch(cache: Cache, e: NetEvent) {
    if e.Vote? then e.hash !in cache else Needs(cache, e.block).Any()
  }

  /** `on_event` for an event just taken off the queue. */
  function Handled(n: Net, replicas: set<ReplicaId>, e: NetEvent): Net {
    var f := n.fetches;
    if e.Vote? then
      if e.hash in n.cache then n.(handed := n.handed + [e])
      else n.(fetches := Fetched(f, replicas, e.hash, e.from, [e]))
    else
      var b := e.block;
      var waiting := Waiting(f.requests, b.hash);
      var f' := f.(requests := f.requests - {b.hash});
      if Needs(n.cache, b).Any() then
        n.(fetches := FetchedAll(f', replicas, Needs(n.cache, b), e.from, waiting + [e]))
      else
        n.(cache := Inserted(n.cache, b), fetches := f', queue := n.queue + waiting,
           handed := if e.Proposal? then n.handed + [e] else n.handed,
           stored := if e.Proposal? then n.stored else n.stored + [e])
  }

  // ---- the objects of the source ----

  class BlockFetchManager {
    const replicas: set<ReplicaId>
    var outstandingReqs: Requests
    var asked: seq<(Hash, ReplicaId)>
    var dropped: seq<NetEvent>

    constructor (replicas: set<ReplicaId>)
      ensures this.replicas == replicas && View() == Fetches(map[], [], [])
    {
      this.replicas := replicas;
      outstandingReqs, asked, dropped := map[], [], [];
    }

    function View(): Fetches
      reads this
    {
      Fetches(outstandingReqs, asked, dropped)
    }

    /** The events go to the end of one request, which a configured replica has then been
        asked for, or are dropped; whatever waited before still waits where it did. */
    method AddFetchRequest(h: Hash, target: ReplicaId, events: seq<NetEvent>)
      modifies this
      ensures View() == Fetched(old(View()), replicas, h, target, events)
      ensures Held(View()) == old(Held(View())) + multiset(events)
      ensures forall g | g in old(outstandingReqs) ::
        g in outstandingReqs && old(outstandingReqs)[g] <= outstandingReqs[g]
      ensures target in replicas ==> h in outstandingReqs && WasAsked(View(), replicas, h) && dropped == old(dropped)
      ensures target !in replicas ==> outstandingReqs == old(outstandingReqs) && dropped == old(dropped) + events
    {
      FetchedHolds(View(), replicas, h, target, events);
      if target !in replicas {
        dropped := dropped + events;
        return;
      }
      var context := if h in outstandingReqs then outstandingReqs[h] else [];
      asked := asked + [(h, target)];
      outstandingReqs := outstandingReqs[h := context + events];
      assert (h, target) in asked;
    }

    /** Ends a request and returns what waited for it. */
    method DeliverBlock(h: Hash) returns (events: seq<NetEvent>)
      modifies this
      ensures events == Waiting(old(outstandingReqs), h)
      ensures View() == old(View()).(requests := old(outstandingReqs) - {h})
    {
      if h !in outstandingReqs {
        assert outstandingReqs - {h} == outstandingReqs;
        return [];
      }
      events := outstandingReqs[h];
      outstandingReqs := outstandingReqs - {h};
    }
  }

  class NetworkEventQueue {
    const store: BlockStore
    const manager: BlockFetchManager
    var queue: seq<NetEvent>
    var handed: seq<NetEvent>
    var stored: seq<NetEvent>

    ghost predicate Valid()
      reads this, store
    {
      Linked(store.blockCache)
    }

    function View(): Net
      reads this, store, manager
    {
      Net(store.blockCache, manager.View(), queue, handed, stored)
    }

    constructor (replicas: set<ReplicaId>)
      ensures Valid() && View() == Idle() && manager.replicas == replicas
      ensures fresh(store) && fresh(manager)
    {
      store := new BlockStore();
      manager := new BlockFetchManager(replicas);
      queue, handed, stored := [], [], [];
    }

    method AddEvent(e: NetEvent)
      requires Valid()
      modifies this
      ensures Valid() && View() == Stepped(old(View()), manager.replicas, Arrive(e))
    {
      queue := queue + [e];
    }

    method ProcessNext()
      requires Valid()
      modifies this, store, manager
      ensures Valid() && View() == Stepped(old(View()), manager.replicas, Process)
    {
      if queue != [] {
        var e := queue[0];
        queue := queue[1..];
        OnEvent(e);
      }
    }

    method OnEvent(e: NetEvent)
      requires Valid()
      modifies this, store, manager
      ensures Valid() && View() == Handled(old(View()), manager.replicas, e)
      ensures NeedsFetch(old(store.blockCache), e) ==>
        && store.blockCache == old(store.blockCache) && queue == old(queue)
        && handed == old(handed) && stored == old(stored)
      ensures !NeedsFetch(old(store.blockCache), e) ==>
        && handed == old(handed) + (if e.Received? then [] else [e])
        && stored == old(stored) + (if e.Received? then [e] else [])
        && queue == old(queue) + (if e.Vote? then [] else Waiting(old(manager.outstandingReqs), e.block.hash))
    {
      match e
      case Vote(hash, voter) =>
        var block := store.GetBlock(hash);
        if block.Some? {
          handed := handed + [e];
        } else {
          manager.AddFetchRequest(hash, voter, [e]);
        }
      case Proposal(b, proposer) =>
        var missing := store.InsertBlock(b);
        var waiting := manager.DeliverBlock(b.hash);
        if !missing.Any() {
          queue := queue + waiting;
          handed := handed + [e];
        } else {
          RequestMissing(missing, proposer, waiting + [e]);
        }
      case Received(b, sender) =>
        var missing := store.InsertBlock(b);
        var waiting := manager.DeliverBlock(b.hash);
        if !missing.Any() {
          queue := queue + waiting;
          stored := stored + [e];
        } else {
          RequestMissing(missing, sender, waiting + [e]);
        }
    }

    method RequestMissing(missing: Missing, target: ReplicaId, events: seq<NetEvent>)
      requires missing.Any()
      modifies manager
      ensures manager.View() == FetchedAll(old(manager.View()), manager.replicas, missing, target, events)
    {
      var rest := events;
      if missing.parent.Some? {
        manager.AddFetchRequest(missing.parent.value, target, rest);
        rest := [];
      }
      if missing.justify.Some? {
        manager.AddFetchRequest(missing.justify.value, target, rest);
      }
    }
  }

  // ---- conservation ----

  ghost function Held(f: Fetches): multiset<NetEvent> {
    Attached(f.requests) + multiset(f.dropped)
  }

  /** Every event the queue has been given, wherever it is. */
  ghost function Everything(n: Net): multiset<NetEvent> {
    multiset(n.queue) + Held(n.fetches) + (multiset(n.handed) + multiset(n.stored))
  }

  lemma FetchedHolds(f: Fetches, replicas: set<ReplicaId>, h: Hash, target: ReplicaId, events: seq<NetEvent>)
    ensures Held(Fetched(f, replicas, h, target, events)) == Held(f) + multiset(events)
  {
    AttachedAdd(f.requests, h, events);
  }

  lemma FetchedAllHolds(f: Fetches, replicas: set<ReplicaId>, m: Missing, target: ReplicaId, events: seq<NetEvent>)
    requires m.Any()
    ensures Held(FetchedAll(f, replicas, m, target, events)) == Held(f) + multiset(events)
  {
    if m.parent.Some? {
      FetchedHolds(f, replicas, m.parent.value, target, events);
      if m.justify.Some? {
        FetchedHolds(Fetched(f, replicas, m.parent.value, target, events), replicas, m.justify.value, target, []);
      }
    } else {
      FetchedHolds(f, replicas, m.justify.value, target, events);
    }
  }

  /** Events that stop waiting join the queue. */
  lemma Moved(q: multiset<NetEvent>, held: multiset<NetEvent>, done: multiset<NetEvent>,
              q': multiset<NetEvent>, held': multiset<NetEvent>, done': multiset<NetEvent>,
              waiting: multiset<NetEvent>, e: multiset<NetEvent>)
    requires held == held' + waiting && q' == q + waiting && done' == done + e
    ensures q' + held' + done' == q + held + done + e
  {
  }

  lemma StoredConserves(n: Net, replicas: set<ReplicaId>, e: NetEvent)
    requires !e.Vote? && !Needs(n.cache, e.block).Any()
    ensures Everything(Handled(n, replicas, e)) == Everything(n) + multiset{e}
  {
    var f, h := n.fetches, e.block.hash;
    var waiting := Waiting(f.requests, h);
    AttachedRemove(f.requests, h);
    var n' := Handled(n, replicas, e);
    var q, held, q', held' := multiset(n.queue), Held(f), multiset(n'.queue), Held(n'.fetches);
    assert held == held' + multiset(waiting);
    assert q' == q + multiset(waiting);
    var done, done' := multiset(n.handed) + multiset(n.stored), multiset(n'.handed) + multiset(n'.stored);
    assert done' == done + multiset{e} by {
      assert multiset(n.handed + [e]) == multiset(n.handed) + multiset{e};
      assert multiset(n.stored + [e]) == multiset(n.stored) + multiset{e};
    }
    Moved(q, held, done, q', held', done', multiset(waiting), multiset{e});
  }

  lemma BlockedConserves(n: Net, replicas: set<ReplicaId>, e: NetEvent)
    requires !e.Vote? && Needs(n.cache, e.block).Any()
    ensures Everything(Handled(n, replicas, e)) == Everything(n) + multiset{e}
  {
    var f, h := n.fetches, e.block.hash;
    var f' := f.(requests := f.requests - {h});
    var waiting := Waiting(f.requests, h);
    AttachedRemove(f.requests, h);
    assert Held(f) == Held(f') + multiset(waiting);
    FetchedAllHolds(f', replicas, Needs(n.cache, e.block), e.from, waiting + [e]);
    assert multiset(waiting + [e]) == multiset(waiting) + multiset{e};
    assert Held(Handled(n, replicas, e).fetches) == Held(f) + multiset{e};
  }

  /** Handling an event moves events about and loses none. */
  lemma HandledConserves(n: Net, replicas: set<ReplicaId>, e: NetEvent)
    ensures Everything(Handled(n, replicas, e)) == Everything(n) + multiset{e}
  {
    if e.Vote? {
      FetchedHolds(n.fetches, replicas, e.hash, e.from, [e]);
      assert multiset(n.handed + [e]) == multiset(n.handed) + multiset{e};
    } else if Needs(n.cache, e.block).Any() {
      BlockedConserves(n, replicas, e);
    } else {
      StoredConserves(n, replicas, e);
    }
  }

  // ---- what waits for what ----

  ghost predicate WasAsked(f: Fetches, replicas: set<ReplicaId>, h: Hash) {
    exists r :: r in replicas && (h, r) in f.asked
  }

  /** No event waits for a block that is stored, and every block waited for has been
      asked of a configured replica. */
  ghost predicate WaitsOk(cache: Cache, f: Fetches, replicas: set<ReplicaId>) {
    forall h | h in f.requests :: h !in cache && WasAsked(f, replicas, h)
  }

  lemma FetchedWaits(cache: Cache, f: Fetches, replicas: set<ReplicaId>, h: Hash, target: ReplicaId,
                     events: seq<NetEvent>)
    requires WaitsOk(cache, f, replicas) && h !in cache
    ensures WaitsOk(cache, Fetched(f, replicas, h, target, events), replicas)
  {
    var f' := Fetched(f, replicas, h, target, events);
    forall g | g in f'.requests
      ensures WasAsked(f', replicas, g)
    {
      if g in f.requests {
        var r :| r in replicas && (g, r) in f.asked;
        assert (g, r) in f'.asked;
      } else {
        assert (g, target) in f'.asked;
      }
    }
  }

  lemma FetchedAllWaits(cache: Cache, f: Fetches, replicas: set<ReplicaId>, b: Header, target: ReplicaId,
                        events: seq<NetEvent>)
    requires WaitsOk(cache, f, replicas) && Needs(cache, b).Any()
    ensures WaitsOk(cache, FetchedAll(f, replicas, Needs(cache, b), target, events), replicas)
  {
    if b.parent !in cache {
      FetchedWaits(cache, f, replicas, b.parent, target, events);
      if b.justify !in cache {
        FetchedWaits(cache, Fetched(f, replicas, b.parent, target, events), replicas, b.justify, target, []);
      }
    } else {
      FetchedWaits(cache, f, replicas, b.justify, target, events);
    }
  }

  lemma RemovedWaits(cache: Cache, cache': Cache, f: Fetches, replicas: set<ReplicaId>, b: Header)
    requires WaitsOk(cache, f, replicas) && (cache' == cache || cache' == Inserted(cache, b))
    ensures WaitsOk(cache', f.(requests := f.requests - {b.hash}), replicas)
  {
    var f' := f.(requests := f.requests - {b.hash});
    forall g | g in f'.requests
      ensures WasAsked(f', replicas, g)
    {
      var r :| r in replicas && (g, r) in f.asked;
      assert (g, r) in f'.asked;
    }
  }

  lemma HandledWaits(n: Net, replicas: set<ReplicaId>, e: NetEvent)
    requires WaitsOk(n.cache, n.fetches, replicas)
    ensures var n' := Handled(n, replicas, e); WaitsOk(n'.cache, n'.fetches, replicas)
  {
    if e.Vote? {
      if e.hash !in n.cache {
        FetchedWaits(n.cache, n.fetches, replicas, e.hash, e.from, [e]);
      }
    } else {
      var b, f := e.block, n.fetches;
      RemovedWaits(n.cache, n.cache, f, replicas, b);
      RemovedWaits(n.cache, Inserted(n.cache, b), f, replicas, b);
      if Needs(n.cache, b).Any() {
        FetchedAllWaits(n.cache, f.(requests := f.requests - {b.hash}), replicas, b, e.from,
                        Waiting(f.requests, b.hash) + [e]);
      }
    }
  }

  /** What consensus is handed has everything it refers to in the store. */
  ghost predicate Resolved(cache: Cache, e: NetEvent) {
    match e
    case Vote(h, _) => h in cache
    case Proposal(b, _) => b.hash in cache && b.parent in cache && b.justify in cache
    case Received(_, _) => false
  }

  ghost predicate HandedOk(n: Net) {
    && Linked(n.cache)
    && (forall i | 0 <= i < |n.handed| :: Resolved(n.cache, n.handed[i]))
    && (forall i | 0 <= i < |n.stored| :: n.stored[i].Received? && n.stored[i].block.hash in n.cache)
  }

  lemma HandledResolved(n: Net, replicas: set<ReplicaId>, e: NetEvent)
    requires HandedOk(n)
    ensures HandedOk(Handled(n, replicas, e))
  {
    if !e.Vote? {
      InsertKeepsLinks(n.cache, e.block);
    }
  }

  /** An event whose replica is not configured and that needs a block is dropped, with
      all that waited for its own block; nothing else ever is. */
  lemma DroppedIff(n: Net, replicas: set<ReplicaId>, e: NetEvent)
    ensures var n' := Handled(n, replicas, e);
      var hangers := if e.Vote? then [] else Waiting(n.fetches.requests, e.block.hash);
      n'.fetches.dropped ==
        n.fetches.dropped + if NeedsFetch(n.cache, e) && e.from !in replicas then hangers + [e] else []
  {
    var d := n.fetches.dropped;
    assert d + [] == d && [] + [e] == [e];
    if !e.Vote? {
      var events := Waiting(n.fetches.requests, e.block.hash) + [e];
      assert (d + events) + [] == d + events;
    }
  }

  /** Every block that a blocked event needs is asked of the replica it names. */
  lemma BlockedAsks(n: Net, replicas: set<ReplicaId>, e: NetEvent, h: Hash)
    requires !e.Vote? && e.from in replicas && (h == e.block.parent || h == e.block.justify) && h !in n.cache
    ensures var f := Handled(n, replicas, e).fetches; h in f.requests && (h, e.from) in f.asked
  {
  }

  /** The event goes to the end of the request for the block it votes for, or else for its
      parent, or for its justify block if only that is missing; everything that waited
      for its own block goes before it. */
  lemma BlockedWaits(n: Net, replicas: set<ReplicaId>, e: NetEvent)
    requires NeedsFetch(n.cache, e) && e.from in replicas
    ensures var was := n.fetches.requests; var waits := Handled(n, replicas, e).fetches.requests;
      if e.Vote? then
        Waiting(waits, e.hash) == Waiting(was, e.hash) + [e]
      else
        var b := e.block;
        var at := if b.parent !in n.cache then b.parent else b.justify;
        Waiting(waits, at) == Waiting(was - {b.hash}, at) + (Waiting(was, b.hash) + [e])
  {
    if !e.Vote? && e.block.parent !in n.cache && e.block.justify !in n.cache {
      var b, f := e.block, n.fetches;
      var f' := f.(requests := f.requests - {b.hash});
      var events := Waiting(f.requests, b.hash) + [e];
      var f1 := Fetched(f', replicas, b.parent, e.from, events);
      assert Handled(n, replicas, e).fetches == Fetched(f1, replicas, b.justify, e.from, []);
      assert Waiting(f1.requests, b.parent) + [] == Waiting(f1.requests, b.parent);
    }
  }

  // ---- runs ----

  /** A message arrives from the network, or the next one in the queue is handled. */
  datatype Step = Arrive(e: NetEvent) | Process

  function Stepped(n: Net, replicas: set<ReplicaId>, s: Step): Net {
    match s
    case Arrive(e) => n.(queue := n.queue + [e])
    case Process => if n.queue == [] then n else Handled(n.(queue := n.queue[1..]), replicas, n.queue[0])
  }

  function After(replicas: set<ReplicaId>, steps: seq<Step>): Net {
    if steps == [] then
      Idle()
    else
      Stepped(After(replicas, steps[..|steps| - 1]), replicas, steps[|steps| - 1])
  }

  function Arrived(steps: seq<Step>): seq<NetEvent> {
    if steps == [] then [] else
      var s := steps[|steps| - 1];
      Arrived(steps[..|steps| - 1]) + if s.Arrive? then [s.e] else []
  }

  lemma FrontOf(q: seq<NetEvent>)
    requires q != []
    ensures multiset(q) == multiset{q[0]} + multiset(q[1..])
  {
    assert q == [q[0]] + q[1..];
  }

  lemma SteppedConserves(n: Net, replicas: set<ReplicaId>, s: Step)
    ensures Everything(Stepped(n, replicas, s)) == Everything(n) + if s.Arrive? then multiset{s.e} else multiset{}
  {
    if s.Process? && n.queue != [] {
      HandledConserves(n.(queue := n.queue[1..]), replicas, n.queue[0]);
      FrontOf(n.queue);
      assert Everything(n) == Everything(n.(queue := n.queue[1..])) + multiset{n.queue[0]};
    } else if s.Arrive? {
      assert multiset(n.queue + [s.e]) == multiset(n.queue) + multiset{s.e};
    }
  }

  /** At all times every event that arrived is queued, waits for exactly one request, has
      been handed to consensus, was a fetched block now stored, or was dropped; what
      waits, waits for a block that is not stored and has been asked for; and what was
      handed over is resolved. */
  lemma {:induction false} QueueOk(replicas: set<ReplicaId>, steps: seq<Step>)
    ensures var n := After(replicas, steps);
      && Everything(n) == multiset(Arrived(steps))
      && WaitsOk(n.cache, n.fetches, replicas)
      && HandedOk(n)
  {
    if steps != [] {
      var front, s := steps[..|steps| - 1], steps[|steps| - 1];
      QueueOk(replicas, front);
      var n := After(replicas, front);
      SteppedConserves(n, replicas, s);
      if s.Process? && n.queue != [] {
        HandledWaits(n.(queue := n.queue[1..]), replicas, n.queue[0]);
        HandledResolved(n.(queue := n.queue[1..]), replicas, n.queue[0]);
      }
    }
  }

  /** When every message names a configured replica, none is dropped: each is queued,
      waiting, or done with. */
  lemma {:induction false} NothingDropped(replicas: set<ReplicaId>, steps: seq<Step>)
    requires forall e | e in Arrived(steps) :: e.from in replicas
    ensures After(replicas, steps).fetches.dropped == []
  {
    if steps != [] {
      var front, s := steps[..|steps| - 1], steps[|steps| - 1];
      NothingDropped(replicas, front);
      QueueOk(replicas, front);
      var n := After(replicas, front);
      if s.Process? && n.queue != [] {
        var e := n.queue[0];
        assert e in Everything(n);
        assert e in Arrived(front);
        DroppedIff(n.(queue := n.queue[1..]), replicas, e);
      }
    }
  }
}
