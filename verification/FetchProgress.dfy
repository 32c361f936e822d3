/** What becomes of the events of the network queue: nothing that can be handed over
    stays behind. */
module FetchProgress {
  import opened BlockStorage
  import opened FetchQueue
  import Blocks

  type ReplicaId = Blocks.ReplicaId

  // ---- one event ----

  /** An event that needs no block is done with: a vote or a proposal is handed to
      consensus, a fetched block is stored, and what waited for the block joins the
      queue.  An event that needs one is not put back in the queue. */
  lemma HandsOver(n: Net, replicas: set<ReplicaId>, e: NetEvent)
    ensures var n', blocked := Handled(n, replicas, e), NeedsFetch(n.cache, e);
      && n'.handed == n.handed + (if blocked || e.Received? then [] else [e])
      && n'.stored == n.stored + (if blocked || !e.Received? then [] else [e])
      && n'.queue == n.queue + (if blocked || e.Vote? then [] else Waiting(n.fetches.requests, e.block.hash))
      && n'.cache.Keys == n.cache.Keys + (if blocked || e.Vote? then {} else {e.block.hash})
  {
  }

  // ---- a round of the queue ----

  /** `k` events are handled and none arrives. */
  function Turned(n: Net, replicas: set<ReplicaId>, k: nat): Net
    decreases k
  {
    if k == 0 then n else Turned(Stepped(n, replicas, Process), replicas, k - 1)
  }

  ghost function IfReady(cache: Cache, e: NetEvent): multiset<NetEvent> {
    if NeedsFetch(cache, e) then multiset{} else multiset{e}
  }

  /** The events of a queue that need no block. */
  ghost function Ready(cache: Cache, q: seq<NetEvent>): multiset<NetEvent> {
    if q == [] then multiset{} else IfReady(cache, q[0]) + Ready(cache, q[1..])
  }

  ghost function Done(n: Net): multiset<NetEvent> {
    multiset(n.handed) + multiset(n.stored)
  }

  lemma {:induction false} ReadyGrows(cache: Cache, cache': Cache, q: seq<NetEvent>)
    requires cache.Keys <= cache'.Keys
    ensures Ready(cache, q) <= Ready(cache', q)
  {
    if q != [] {
      ReadyGrows(cache, cache', q[1..]);
      NeedsLess(cache, cache', q[0]);
      Sums(IfReady(cache, q[0]), IfReady(cache', q[0]), Ready(cache, q[1..]), Ready(cache', q[1..]));
    }
  }

  lemma NeedsLess(cache: Cache, cache': Cache, e: NetEvent)
    requires cache.Keys <= cache'.Keys
    ensures IfReady(cache, e) <= IfReady(cache', e)
  {
    if NeedsFetch(cache', e) {
      assert forall h | h in cache :: h in cache.Keys;
    }
  }

  lemma Sums(a: multiset<NetEvent>, a': multiset<NetEvent>, b: multiset<NetEvent>, b': multiset<NetEvent>)
    requires a <= a' && b <= b'
    ensures a + b <= a' + b'
  {
  }

  lemma Pushed(s: seq<NetEvent>, t: seq<NetEvent>, e: NetEvent, pushed: bool)
    requires t == s + if pushed then [e] else []
    ensures multiset(t) == multiset(s) + if pushed then multiset{e} else multiset{}
  {
    if pushed {
      assert multiset(s + [e]) == multiset(s) + multiset{e};
    } else {
      assert t == s;
    }
  }

  lemma StepDone(n: Net, replicas: set<ReplicaId>)
    requires n.queue != []
    ensures var n' := Stepped(n, replicas, Process);
      && Done(n') == Done(n) + IfReady(n.cache, n.queue[0])
      && n.queue[1..] <= n'.queue && n.cache.Keys <= n'.cache.Keys
  {
    var rest, e := n.(queue := n.queue[1..]), n.queue[0];
    var n', blocked := Stepped(n, replicas, Process), NeedsFetch(n.cache, e);
    HandsOver(rest, replicas, e);
    Pushed(n.handed, n'.handed, e, !blocked && !e.Received?);
    Pushed(n.stored, n'.stored, e, !blocked && e.Received?);
  }

  /** Handling the first `k` events of the queue hands over or stores at least those that
      needed no block when the round began; so |queue| steps do so for all of them. */
  lemma {:induction false} RoundHandsReady(n: Net, replicas: set<ReplicaId>, k: nat)
    requires k <= |n.queue|
    ensures Done(n) + Ready(n.cache, n.queue[..k]) <= Done(Turned(n, replicas, k))
    decreases k
  {
    if k == 0 {
      NoneReady(n);
    } else {
      var n' := Stepped(n, replicas, Process);
      StepDone(n, replicas);
      RoundHandsReady(n', replicas, k - 1);
      RoundGoesOn(n, n', k, Done(Turned(n', replicas, k - 1)));
    }
  }

  lemma NoneReady(n: Net)
    ensures Done(n) + Ready(n.cache, n.queue[..0]) == Done(n)
  {
  }

  lemma RoundGoesOn(n: Net, n': Net, k: nat, all: multiset<NetEvent>)
    requires 0 < k <= |n.queue| && n.queue[1..] <= n'.queue && n.cache.Keys <= n'.cache.Keys
    requires Done(n') == Done(n) + IfReady(n.cache, n.queue[0])
    requires Done(n') + Ready(n'.cache, n'.queue[..k - 1]) <= all
    ensures Done(n) + Ready(n.cache, n.queue[..k]) <= all
  {
    ReadyGrows(n.cache, n'.cache, n'.queue[..k - 1]);
    FrontReady(n.cache, n.queue, n'.queue, k);
    InTurn(Done(n), IfReady(n.cache, n.queue[0]), Ready(n.cache, n'.queue[..k - 1]),
           Ready(n'.cache, n'.queue[..k - 1]), all);
  }

  lemma InTurn(done: multiset<NetEvent>, first: multiset<NetEvent>, rest: multiset<NetEvent>,
               rest': multiset<NetEvent>, all: multiset<NetEvent>)
    requires rest <= rest' && (done + first) + rest' <= all
    ensures done + (first + rest) <= all
  {
  }

  lemma FrontReady(cache: Cache, q: seq<NetEvent>, q': seq<NetEvent>, k: nat)
    requires 0 < k <= |q| && q[1..] <= q'
    ensures Ready(cache, q[..k]) == IfReady(cache, q[0]) + Ready(cache, q'[..k - 1])
  {
    assert q[..k][1..] == q'[..k - 1];
  }

  // ---- the queue runs empty ----

  /** The events not done with. */
  ghost function Load(n: Net): nat {
    |n.queue| + |Attached(n.fetches.requests)|
  }

  lemma Sizes(n: Net)
    ensures |Everything(n)| == Load(n) + |n.fetches.dropped| + |n.handed| + |n.stored|
  {
  }

  /** Each step finishes or drops events, or leaves a shorter queue. */
  lemma LoadFalls(n: Net, replicas: set<ReplicaId>)
    requires n.queue != []
    ensures var n' := Stepped(n, replicas, Process);
      Load(n') < Load(n) || (Load(n') == Load(n) && |n'.queue| < |n.queue|)
  {
    var n', rest, e := Stepped(n, replicas, Process), n.(queue := n.queue[1..]), n.queue[0];
    SteppedConserves(n, replicas, Process);
    HandsOver(rest, replicas, e);
    DroppedIff(rest, replicas, e);
    Sizes(n);
    Sizes(n');
  }

  lemma {:induction false} Drains(n: Net, replicas: set<ReplicaId>) returns (k: nat)
    ensures Turned(n, replicas, k).queue == []
    decreases Load(n), |n.queue|
  {
    if n.queue == [] {
      k := 0;
    } else {
      LoadFalls(n, replicas);
      k := Drains(Stepped(n, replicas, Process), replicas);
      k := k + 1;
    }
  }

  // ---- what waits really needs a block ----

  ghost predicate Refers(e: NetEvent, h: Hash) {
    if e.Vote? then h == e.hash else h == e.block.parent || h == e.block.justify
  }

  /** The event refers to a block that refers to ... a block that refers to `h`. */
  ghost predicate LeadsVia(headers: set<Header>, e: NetEvent, path: seq<Header>, h: Hash) {
    if path == [] then
      Refers(e, h)
    else
      var b := path[|path| - 1];
      b in headers && (h == b.parent || h == b.justify) && LeadsVia(headers, e, path[..|path| - 1], b.hash)
  }

  ghost predicate Leads(headers: set<Header>, e: NetEvent, h: Hash) {
    exists path :: LeadsVia(headers, e, path, h)
  }

  /** Hashes do not collide. */
  ghost predicate Coherent(headers: set<Header>) {
    && (forall a, b | a in headers && b in headers :: a.hash == b.hash ==> a == b)
    && (forall b | b in headers :: b.hash == GENESIS ==> b == Header(GENESIS, GENESIS, GENESIS))
  }

  ghost predicate Known(headers: set<Header>, e: NetEvent) {
    !e.Vote? ==> e.block in headers
  }

  ghost predicate AllLead(headers: set<Header>, events: seq<NetEvent>, h: Hash) {
    forall e | e in events :: Known(headers, e) && Leads(headers, e, h)
  }

  /** Whatever waits for a block leads to it. */
  ghost predicate LeadsOk(headers: set<Header>, n: Net) {
    && (forall e | e in n.queue :: Known(headers, e))
    && (forall h | h in n.cache && h != GENESIS :: n.cache[h].header in headers)
    && (forall h | h in n.fetches.requests :: AllLead(headers, n.fetches.requests[h], h))
  }

  /** A block that is not stored leaves unresolved every event that leads to it. */
  lemma {:induction false} NotStoredBack(headers: set<Header>, cache: Cache, e: NetEvent, path: seq<Header>, h: Hash)
    requires Coherent(headers) && Linked(cache) && LeadsVia(headers, e, path, h) && h !in cache
    requires forall g | g in cache && g != GENESIS :: cache[g].header in headers
    ensures NeedsFetch(cache, e)
    decreases |path|
  {
    if path != [] {
      var b := path[|path| - 1];
      assert b.hash !in cache;
      NotStoredBack(headers, cache, e, path[..|path| - 1], b.hash);
    }
  }

  lemma LeadsOn(headers: set<Header>, events: seq<NetEvent>, b: Header, h: Hash)
    requires AllLead(headers, events, b.hash) && b in headers && (h == b.parent || h == b.justify)
    ensures AllLead(headers, events, h)
  {
    forall e | e in events
      ensures Leads(headers, e, h)
    {
      var path :| LeadsVia(headers, e, path, b.hash);
      assert (path + [b])[..|path|] == path;
      assert LeadsVia(headers, e, path + [b], h);
    }
  }

  lemma LeadsItself(headers: set<Header>, e: NetEvent, h: Hash)
    requires Known(headers, e) && Refers(e, h)
    ensures AllLead(headers, [e], h)
  {
    assert LeadsVia(headers, e, [], h);
  }

  lemma FetchedLeads(headers: set<Header>, f: Fetches, replicas: set<ReplicaId>, h: Hash, target: ReplicaId,
                     events: seq<NetEvent>)
    requires forall g | g in f.requests :: AllLead(headers, f.requests[g], g)
    requires AllLead(headers, events, h)
    ensures var f' := Fetched(f, replicas, h, target, events);
      forall g | g in f'.requests :: AllLead(headers, f'.requests[g], g)
  {
  }

  lemma FetchedAllLeads(headers: set<Header>, f: Fetches, replicas: set<ReplicaId>, cache: Cache, b: Header,
                        target: ReplicaId, events: seq<NetEvent>)
    requires forall g | g in f.requests :: AllLead(headers, f.requests[g], g)
    requires Needs(cache, b).Any() && AllLead(headers, events, b.parent) && AllLead(headers, events, b.justify)
    ensures var f' := FetchedAll(f, replicas, Needs(cache, b), target, events);
      forall g | g in f'.requests :: AllLead(headers, f'.requests[g], g)
  {
    var m := Needs(cache, b);
    if m.parent.Some? {
      FetchedLeads(headers, f, replicas, b.parent, target, events);
      if m.justify.Some? {
        FetchedLeads(headers, Fetched(f, replicas, b.parent, target, events), replicas, b.justify, target, []);
      }
    } else {
      FetchedLeads(headers, f, replicas, b.justify, target, events);
    }
  }

  lemma HandledLeads(headers: set<Header>, n: Net, replicas: set<ReplicaId>, e: NetEvent)
    requires LeadsOk(headers, n) && Known(headers, e)
    ensures LeadsOk(headers, Handled(n, replicas, e))
  {
    var f := n.fetches;
    if e.Vote? {
      LeadsItself(headers, e, e.hash);
      FetchedLeads(headers, f, replicas, e.hash, e.from, [e]);
    } else {
      var b := e.block;
      var waiting, f' := Waiting(f.requests, b.hash), f.(requests := f.requests - {b.hash});
      if Needs(n.cache, b).Any() {
        LeadsOn(headers, waiting, b, b.parent);
        LeadsOn(headers, waiting, b, b.justify);
        LeadsItself(headers, e, b.parent);
        LeadsItself(headers, e, b.justify);
        FetchedAllLeads(headers, f', replicas, n.cache, b, e.from, waiting + [e]);
      }
    }
  }

  lemma {:induction false} RunLeads(headers: set<Header>, replicas: set<ReplicaId>, steps: seq<Step>)
    requires forall e | e in Arrived(steps) :: Known(headers, e)
    ensures LeadsOk(headers, After(replicas, steps))
  {
    if steps != [] {
      var front, s := steps[..|steps| - 1], steps[|steps| - 1];
      RunLeads(headers, replicas, front);
      var n := After(replicas, front);
      if s.Process? && n.queue != [] {
        HandledLeads(headers, n.(queue := n.queue[1..]), replicas, n.queue[0]);
      }
    }
  }

  /** In every run every event that waits does need a block that is not stored: none is
      forgotten that could be handed over. */
  lemma NoneForgotten(headers: set<Header>, replicas: set<ReplicaId>, steps: seq<Step>, h: Hash, e: NetEvent)
    requires Coherent(headers) && forall e | e in Arrived(steps) :: Known(headers, e)
    requires h in After(replicas, steps).fetches.requests && e in After(replicas, steps).fetches.requests[h]
    ensures NeedsFetch(After(replicas, steps).cache, e)
  {
    RunLeads(headers, replicas, steps);
    QueueOk(replicas, steps);
    var path :| LeadsVia(headers, e, path, h);
    NotStoredBack(headers, After(replicas, steps).cache, e, path, h);
  }

  // ---- whole runs ----

  function Turns(k: nat): seq<Step> {
    if k == 0 then [] else [Process] + Turns(k - 1)
  }

  lemma OneMore(replicas: set<ReplicaId>, steps: seq<Step>, more: seq<Step>)
    ensures After(replicas, steps + [Process]) == Stepped(After(replicas, steps), replicas, Process)
    ensures Arrived(steps + [Process]) == Arrived(steps)
    ensures steps + ([Process] + more) == (steps + [Process]) + more
  {
    assert (steps + [Process])[..|steps|] == steps;
    assert Arrived(steps) + [] == Arrived(steps);
  }

  /** The run `all` is `steps` and `k` turns more. */
  ghost predicate Continues(replicas: set<ReplicaId>, steps: seq<Step>, k: nat, all: seq<Step>) {
    && After(replicas, all) == Turned(After(replicas, steps), replicas, k)
    && Arrived(all) == Arrived(steps)
  }

  lemma {:induction false} AfterTurns(replicas: set<ReplicaId>, steps: seq<Step>, k: nat)
    ensures Continues(replicas, steps, k, steps + Turns(k))
    decreases k
  {
    if k == 0 {
      assert steps + [] == steps;
    } else {
      OneMore(replicas, steps, Turns(k - 1));
      AfterTurns(replicas, steps + [Process], k - 1);
      assert steps + Turns(k) == (steps + [Process]) + Turns(k - 1);
    }
  }

  /** After any run, handling what is queued, and nothing more arriving, empties the queue
      in finitely many steps.  Then every event that arrived is done with, was dropped,
      or waits, needing a block that is not stored. */
  lemma AllHandled(headers: set<Header>, replicas: set<ReplicaId>, steps: seq<Step>) returns (k: nat)
    requires Coherent(headers) && forall e | e in Arrived(steps) :: Known(headers, e)
    ensures var n := After(replicas, steps + Turns(k));
      && n.queue == []
      && Done(n) + Held(n.fetches) == multiset(Arrived(steps))
      && forall h, e | h in n.fetches.requests && e in n.fetches.requests[h] :: NeedsFetch(n.cache, e)
  {
    k := Drains(After(replicas, steps), replicas);
    var all := steps + Turns(k);
    AfterTurns(replicas, steps, k);
    QueueOk(replicas, all);
    var n := After(replicas, all);
    forall h, e | h in n.fetches.requests && e in n.fetches.requests[h]
      ensures NeedsFetch(n.cache, e)
    {
      NoneForgotten(headers, replicas, all, h, e);
    }
  }
}
