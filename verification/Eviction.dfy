/**
 * Routing table updates with ping-based eviction (kademlia/routingtable.go:43-211) as an
 * interleaving of atomic steps. Each critical section of the two locks is one step: the
 * first and second part of `UpdateWithPing`, and the parts of the asynchronous probe.
 * `arrived` is a history variable: per bucket, the contacts queued so far, in order.
 */
module Eviction {
  import opened Common
  import opened KademliaIds
  import opened Buckets

  const REPLACEMENT_CACHE_SIZE := 10

  type Table = t: seq<Peers> | |t| == ID_BITS witness seq(ID_BITS, _ => [])

  type BucketNo = n: nat | n < ID_BITS

  /**
   * The local identifier and the bucket every identifier belongs to. The proofs hold for
   * any assignment of identifiers to buckets; `NodeOf` is the one of the source.
   */
  datatype Node = Node(me: KademliaId, home: KademliaId -> BucketNo)

  function NodeOf(me: KademliaId): Node {
    Node(me, (id: KademliaId) => BucketIndex(me, id) as BucketNo)
  }

  /** Where an update or its probe stands between two critical sections. */
  datatype Worker =
    | Queueing(bucket: BucketNo, candidate: Peer, oldest: Peer)
    | Probing(bucket: BucketNo, target: Peer)
    | Popping(bucket: BucketNo)
    | Refilling(bucket: BucketNo, replacement: Peer)
    | Clearing(bucket: BucketNo)
    | Leaving(bucket: BucketNo)
  {
    /** Counted by the wait group. */
    predicate Counted() {
      !Queueing?
    }
    /** Between launch and the clearing of the in-flight flag. */
    predicate Flagged() {
      Probing? || Popping? || Refilling? || Clearing?
    }
  }

  datatype State = State(
    table: Table,
    inFlight: set<BucketNo>,
    queues: map<BucketNo, Peers>,
    wait: int,
    workers: map<nat, Worker>,
    arrived: map<BucketNo, Peers>)

  datatype Step =
    | Add(contact: Option<Peer>)
    | Remove(contact: Option<Peer>)
    | Update(id: nat, contact: Option<Peer>, hasPinger: bool)
    | Queue(id: nat)
    | Answered(id: nat)
    | Failed(id: nat)
    | Pop(id: nat)
    | Refill(id: nat)
    | Clear(id: nat)
    | Leave(id: nat)

  // ---------------------------------------------------------------- the steps

  function TableAdd(node: Node, t: Table, p: Peer): Table {
    t[node.home(p.id) := Added(t[node.home(p.id)], p)]
  }

  function TableRemove(node: Node, t: Table, p: Peer): Table {
    t[node.home(p.id) := Removed(t[node.home(p.id)], p.id)]
  }

  function QueueOf(queues: map<BucketNo, Peers>, b: BucketNo): Peers {
    if b in queues then queues[b] else []
  }

  /** The replacement cache after a candidate is offered: FIFO, bounded, without repetition. */
  function Offered(q: Peers, p: Peer): Peers {
    if Find(q, p.id) < |q| then q
    else if |q| >= REPLACEMENT_CACHE_SIZE then q[1..] + [p]
    else q + [p]
  }

  predicate Enabled(s: State, a: Step) {
    match a
    case Add(_) => true
    case Remove(_) => true
    case Update(id, _, _) => id !in s.workers
    case Queue(id) => id in s.workers && s.workers[id].Queueing?
    case Answered(id) => id in s.workers && s.workers[id].Probing?
    case Failed(id) => id in s.workers && s.workers[id].Probing?
    case Pop(id) => id in s.workers && s.workers[id].Popping?
    case Refill(id) => id in s.workers && s.workers[id].Refilling?
    case Clear(id) => id in s.workers && s.workers[id].Clearing?
    case Leave(id) => id in s.workers && s.workers[id].Leaving?
  }

  /** The first part of `UpdateWithPing`, under the table lock: the table afterwards. */
  function TableAfterUpdate(node: Node, t: Table, contact: Option<Peer>): Table {
    if contact.None? || contact.value.id == node.me || !Accepts(t[node.home(contact.value.id)], contact.value) then t
    else TableAdd(node, t, contact.value)
  }

  /** What is left to do for a candidate that met a full bucket. */
  function PendingUpdate(node: Node, t: Table, contact: Option<Peer>, hasPinger: bool): Option<Worker> {
    if contact.None? || contact.value.id == node.me then None
    else
      var b := node.home(contact.value.id);
      if Accepts(t[b], contact.value) || t[b] == [] || !hasPinger then None
      else Some(Queueing(b, contact.value, t[b][|t[b]| - 1]))
  }

  function AfterUpdate(node: Node, s: State, id: nat, contact: Option<Peer>, hasPinger: bool): State {
    var pending := PendingUpdate(node, s.table, contact, hasPinger);
    s.(table := TableAfterUpdate(node, s.table, contact),
       workers := if pending.Some? then s.workers[id := pending.value] else s.workers)
  }

  /** The cache with the candidate offered, and the arrival recorded if it was not cached already. */
  function AfterOffer(s: State, b: BucketNo, candidate: Peer): State {
    var q := QueueOf(s.queues, b);
    if Find(q, candidate.id) < |q| then s
    else s.(queues := QueuesAfterOffer(s.queues, b, candidate),
            arrived := s.arrived[b := QueueOf(s.arrived, b) + [candidate]])
  }

  function QueuesAfterOffer(queues: map<BucketNo, Peers>, b: BucketNo, candidate: Peer): map<BucketNo, Peers> {
    var q := QueueOf(queues, b);
    if Find(q, candidate.id) < |q| then queues else queues[b := Offered(q, candidate)]
  }

  /** A probe of the oldest contact is launched unless one is in flight for the bucket. */
  function AfterLaunch(s: State, id: nat, b: BucketNo, oldest: Peer): State {
    if b in s.inFlight then s.(workers := s.workers - {id})
    else s.(inFlight := s.inFlight + {b}, wait := s.wait + 1, workers := s.workers[id := Probing(b, oldest)])
  }

  /** The second part, under the eviction lock. */
  function AfterQueue(s: State, id: nat): State
    requires id in s.workers && s.workers[id].Queueing?
  {
    var w := s.workers[id];
    AfterLaunch(AfterOffer(s, w.bucket, w.candidate), id, w.bucket, w.oldest)
  }

  function AfterPop(s: State, id: nat): State
    requires id in s.workers && s.workers[id].Popping?
  {
    var b := s.workers[id].bucket;
    var q := QueueOf(s.queues, b);
    if q == [] then s.(workers := s.workers[id := Clearing(b)])
    else s.(queues := s.queues[b := q[1..]], workers := s.workers[id := Refilling(b, q[0])])
  }

  function Do(node: Node, s: State, a: Step): State
    requires Enabled(s, a)
  {
    match a
    case Add(contact) => if contact.None? then s else s.(table := TableAdd(node, s.table, contact.value))
    case Remove(contact) => if contact.None? then s else s.(table := TableRemove(node, s.table, contact.value))
    case Update(id, contact, hasPinger) => AfterUpdate(node, s, id, contact, hasPinger)
    case Queue(id) => AfterQueue(s, id)
    case Answered(id) =>
      var w := s.workers[id];
      s.(table := s.table[w.bucket := Added(s.table[w.bucket], w.target)], workers := s.workers[id := Clearing(w.bucket)])
    case Failed(id) =>
      s.(table := TableRemove(node, s.table, s.workers[id].target), workers := s.workers[id := Popping(s.workers[id].bucket)])
    case Pop(id) => AfterPop(s, id)
    case Refill(id) =>
      s.(table := TableAdd(node, s.table, s.workers[id].replacement), workers := s.workers[id := Clearing(s.workers[id].bucket)])
    case Clear(id) =>
      s.(inFlight := s.inFlight - {s.workers[id].bucket}, workers := s.workers[id := Leaving(s.workers[id].bucket)])
    case Leave(id) => s.(wait := s.wait - 1, workers := s.workers - {id})
  }

  // ---------------------------------------------------------------- an update nobody interferes with

  /** A failed probe: removal, pop of the oldest queued contact, refill if there was one. */
  function AfterEviction(node: Node, s: State, id: nat): State
    requires id in s.workers && s.workers[id].Probing?
  {
    var popped := Do(node, Do(node, s, Failed(id)), Pop(id));
    if popped.workers[id].Refilling? then Do(node, popped, Refill(id)) else popped
  }

  /** A probe from its launch to its end. */
  function AfterProbe(node: Node, s: State, id: nat, answered: bool): State
    requires id in s.workers && s.workers[id].Probing?
  {
    var told := if answered then Do(node, s, Answered(id)) else AfterEviction(node, s, id);
    Do(node, Do(node, told, Clear(id)), Leave(id))
  }

  /** The table after a probe of `target` in bucket `b`, given the replacement queue at its end. */
  function TableAfterProbe(node: Node, t: Table, q: Peers, b: BucketNo, target: Peer, answered: bool): Table {
    if answered then t[b := Added(t[b], target)]
    else if q == [] then TableRemove(node, t, target)
    else TableAdd(node, TableRemove(node, t, target), q[0])
  }

  function QueuesAfterProbe(queues: map<BucketNo, Peers>, b: BucketNo, answered: bool): map<BucketNo, Peers> {
    if answered || QueueOf(queues, b) == [] then queues else queues[b := QueueOf(queues, b)[1..]]
  }

  lemma EvictionShape(node: Node, s: State, id: nat)
    requires id in s.workers && s.workers[id].Probing?
    ensures var w, end := s.workers[id], AfterEviction(node, s, id);
            && end.workers == s.workers[id := Clearing(w.bucket)]
            && end.table == TableAfterProbe(node, s.table, QueueOf(s.queues, w.bucket), w.bucket, w.target, false)
            && end.queues == QueuesAfterProbe(s.queues, w.bucket, false)
            && end.inFlight == s.inFlight && end.wait == s.wait
  {
  }

  /** A probe changes the bucket and the queue, lowers the flag and leaves the wait group. */
  lemma ProbeShape(node: Node, s: State, id: nat, answered: bool)
    requires id in s.workers && s.workers[id].Probing?
    ensures var w, end := s.workers[id], AfterProbe(node, s, id, answered);
            && end.table == TableAfterProbe(node, s.table, QueueOf(s.queues, w.bucket), w.bucket, w.target, answered)
            && end.queues == QueuesAfterProbe(s.queues, w.bucket, answered)
            && end.inFlight == s.inFlight - {w.bucket} && end.wait == s.wait - 1
            && end.workers == s.workers - {id}
  {
    if answered {
      AnswerShape(node, s, id);
    } else {
      EvictionShape(node, s, id);
    }
    var told := if answered then Do(node, s, Answered(id)) else AfterEviction(node, s, id);
    EndShape(node, told, id);
    assert told.workers - {id} == s.workers - {id};
  }

  lemma AnswerShape(node: Node, s: State, id: nat)
    requires id in s.workers && s.workers[id].Probing?
    ensures var w, told := s.workers[id], Do(node, s, Answered(id));
            && told.table == TableAfterProbe(node, s.table, QueueOf(s.queues, w.bucket), w.bucket, w.target, true)
            && told.queues == s.queues && told.inFlight == s.inFlight && told.wait == s.wait
            && told.workers == s.workers[id := Clearing(w.bucket)]
  {
  }

  lemma EndShape(node: Node, s: State, id: nat)
    requires id in s.workers && s.workers[id].Clearing?
    ensures var b, end := s.workers[id].bucket, Do(node, Do(node, s, Clear(id)), Leave(id));
            && end.table == s.table && end.queues == s.queues
            && end.inFlight == s.inFlight - {b} && end.wait == s.wait - 1 && end.workers == s.workers - {id}
  {
  }

  /** `UpdateWithPing` together with the probe it may launch. */
  function AfterWholeUpdate(node: Node, s: State, id: nat, contact: Option<Peer>, hasPinger: bool, answers: Peer -> bool): State
    requires id !in s.workers
  {
    var updated := Do(node, s, Update(id, contact, hasPinger));
    if id !in updated.workers then updated
    else
      var queued := Do(node, updated, Queue(id));
      if id !in queued.workers then queued
      else AfterProbe(node, queued, id, answers(queued.workers[id].target))
  }

  // ---------------------------------------------------------------- runs

  ghost function Fresh(): State {
    State(seq(ID_BITS, _ => []), {}, map[], 0, map[], map[])
  }

  ghost predicate IsRun(node: Node, run: seq<State>, steps: seq<Step>) {
    |run| == |steps| + 1 && run[0] == Fresh() && forall i :: 0 <= i < |steps| ==> Follows(node, run, steps, i)
  }

  ghost predicate Follows(node: Node, run: seq<State>, steps: seq<Step>, i: nat)
    requires |run| == |steps| + 1 && i < |steps|
  {
    Enabled(run[i], steps[i]) && run[i + 1] == Do(node, run[i], steps[i])
  }

  // ---------------------------------------------------------------- the invariant

  /** Every peer of a list belongs to bucket `b`. */
  ghost predicate AllIn(node: Node, peers: Peers, b: BucketNo) {
    forall i :: 0 <= i < |peers| ==> node.home(peers[i].id) == b
  }

  /** Each bucket holds at most 10 contacts with distinct identifiers, each in its computed bucket. */
  ghost predicate TableOk(node: Node, t: Table) {
    forall b: BucketNo :: BucketOk(t[b]) && AllIn(node, t[b], b)
  }

  /** `q` is the end part of `log`. */
  ghost predicate IsTail(q: Peers, log: Peers) {
    |q| <= |log| && log[|log| - |q|..] == q
  }

  /** A replacement queue: at most 10 distinct contacts of the bucket, the latest arrivals in arrival order. */
  ghost predicate QueueOk(node: Node, q: Peers, log: Peers, b: BucketNo) {
    |q| <= REPLACEMENT_CACHE_SIZE && DistinctPeers(q) && AllIn(node, q, b) && IsTail(q, log)
  }

  ghost predicate QueuesOk(node: Node, queues: map<BucketNo, Peers>, arrived: map<BucketNo, Peers>) {
    forall b :: b in queues ==> QueueOk(node, queues[b], QueueOf(arrived, b), b)
  }

  ghost predicate WorkerOk(node: Node, w: Worker) {
    match w
    case Queueing(b, candidate, oldest) => node.home(candidate.id) == b && node.home(oldest.id) == b
    case Probing(b, target) => node.home(target.id) == b
    case Refilling(b, replacement) => node.home(replacement.id) == b
    case _ => true
  }

  function Counted(workers: map<nat, Worker>): set<nat> {
    set id | id in workers && workers[id].Counted()
  }

  predicate SameProbe(v: Worker, w: Worker) {
    v.Flagged() && w.Flagged() && v.bucket == w.bucket
  }

  /** The flags are exactly those of the running probes, one probe per bucket. */
  ghost predicate FlagsOk(inFlight: set<BucketNo>, workers: map<nat, Worker>) {
    && (forall id :: id in workers && workers[id].Flagged() ==> workers[id].bucket in inFlight)
    && (forall b :: b in inFlight ==> exists id :: id in workers && workers[id].Flagged() && workers[id].bucket == b)
    && (forall i, j :: i in workers && j in workers && SameProbe(workers[i], workers[j]) ==> i == j)
  }

  ghost predicate Inv(node: Node, s: State) {
    && TableOk(node, s.table)
    && QueuesOk(node, s.queues, s.arrived)
    && (forall id :: id in s.workers ==> WorkerOk(node, s.workers[id]))
    && s.wait == |Counted(s.workers)|
    && FlagsOk(s.inFlight, s.workers)
  }

  // ---------------------------------------------------------------- tables and queues

  lemma AddedIn(node: Node, b: Peers, p: Peer, n: BucketNo)
    requires BucketOk(b) && AllIn(node, b, n) && node.home(p.id) == n
    ensures BucketOk(Added(b, p)) && AllIn(node, Added(b, p), n)
  {
    AddedFacts(b, p);
    var r := Added(b, p);
    forall i | 0 <= i < |r| ensures node.home(r[i].id) == n {
      assert r[i] in r;
    }
  }

  lemma TableAddOk(node: Node, t: Table, p: Peer)
    requires TableOk(node, t)
    ensures TableOk(node, TableAdd(node, t, p))
  {
    AddedIn(node, t[node.home(p.id)], p, node.home(p.id));
  }

  lemma TableRemoveOk(node: Node, t: Table, p: Peer)
    requires TableOk(node, t)
    ensures TableOk(node, TableRemove(node, t, p))
  {
  }

  lemma OfferedOk(node: Node, q: Peers, log: Peers, p: Peer, b: BucketNo)
    requires QueueOk(node, q, log, b) && node.home(p.id) == b && Find(q, p.id) == |q|
    ensures QueueOk(node, Offered(q, p), log + [p], b)
  {
    var kept := if |q| >= REPLACEMENT_CACHE_SIZE then q[1..] else q;
    assert IsTail(kept, log) by {
    }
    TailSnoc(kept, log, p);
    FindAbsent(kept, q, p);
    assert Offered(q, p) == kept + [p];
  }

  lemma TailSnoc(q: Peers, log: Peers, p: Peer)
    requires IsTail(q, log)
    ensures IsTail(q + [p], log + [p])
  {
    var n := |log| - |q|;
    assert log == log[..n] + q;
    assert (log + [p])[n..] == q + [p];
  }

  lemma FindAbsent(kept: Peers, q: Peers, p: Peer)
    requires DistinctPeers(q) && Find(q, p.id) == |q| && (kept == q || (q != [] && kept == q[1..]))
    ensures DistinctPeers(kept + [p])
  {
  }

  lemma PoppedOk(node: Node, q: Peers, log: Peers, b: BucketNo)
    requires QueueOk(node, q, log, b) && q != []
    ensures QueueOk(node, q[1..], log, b) && node.home(q[0].id) == b
  {
  }

  // ---------------------------------------------------------------- flags and the wait group

  lemma WorkerReplaced(workers: map<nat, Worker>, id: nat, w: Worker)
    ensures Counted(workers[id := w]) == if w.Counted() then Counted(workers) + {id} else Counted(workers) - {id}
  {
  }

  lemma WorkerDropped(workers: map<nat, Worker>, id: nat)
    ensures Counted(workers - {id}) == Counted(workers) - {id}
  {
  }

  /** A flagged worker moving on to another flagged stage of the same bucket. */
  lemma FlagsStay(inFlight: set<BucketNo>, workers: map<nat, Worker>, id: nat, w: Worker)
    requires FlagsOk(inFlight, workers) && id in workers && workers[id].Flagged() && w.Flagged() && w.bucket == workers[id].bucket
    ensures FlagsOk(inFlight, workers[id := w])
  {
    var now := workers[id := w];
    forall b | b in inFlight ensures exists i :: i in now && now[i].Flagged() && now[i].bucket == b {
      var i :| i in workers && workers[i].Flagged() && workers[i].bucket == b;
      assert i in now && now[i].Flagged() && now[i].bucket == b;
    }
  }

  /** A worker that holds no flag may come or go or change among unflagged stages. */
  lemma FlagsIgnore(inFlight: set<BucketNo>, workers: map<nat, Worker>, now: map<nat, Worker>, id: nat)
    requires FlagsOk(inFlight, workers)
    requires id in workers ==> !workers[id].Flagged()
    requires id in now ==> !now[id].Flagged()
    requires forall i :: i != id ==> (i in now <==> i in workers) && (i in now ==> now[i] == workers[i])
    ensures FlagsOk(inFlight, now)
  {
    forall b | b in inFlight ensures exists i :: i in now && now[i].Flagged() && now[i].bucket == b {
      var i :| i in workers && workers[i].Flagged() && workers[i].bucket == b;
      assert i in now && now[i].Flagged() && now[i].bucket == b;
    }
  }

  lemma FlagRaised(inFlight: set<BucketNo>, workers: map<nat, Worker>, id: nat, w: Worker)
    requires FlagsOk(inFlight, workers) && w.Flagged() && w.bucket !in inFlight
    requires id in workers ==> !workers[id].Flagged()
    ensures FlagsOk(inFlight + {w.bucket}, workers[id := w])
  {
    var now := workers[id := w];
    forall b | b in inFlight + {w.bucket} ensures exists i :: i in now && now[i].Flagged() && now[i].bucket == b {
      if b == w.bucket {
        assert id in now && now[id].Flagged() && now[id].bucket == b;
      } else {
        var i :| i in workers && workers[i].Flagged() && workers[i].bucket == b;
        assert i in now && now[i].Flagged() && now[i].bucket == b;
      }
    }
  }

  lemma FlagCleared(inFlight: set<BucketNo>, workers: map<nat, Worker>, now: map<nat, Worker>, id: nat)
    requires FlagsOk(inFlight, workers) && id in workers && workers[id].Flagged()
    requires id in now ==> !now[id].Flagged()
    requires forall i :: i != id ==> (i in now <==> i in workers) && (i in now ==> now[i] == workers[i])
    ensures FlagsOk(inFlight - {workers[id].bucket}, now)
  {
    forall b | b in inFlight - {workers[id].bucket} ensures exists i :: i in now && now[i].Flagged() && now[i].bucket == b {
      var i :| i in workers && workers[i].Flagged() && workers[i].bucket == b;
      assert i in now && now[i].Flagged() && now[i].bucket == b;
    }
  }

  // ---------------------------------------------------------------- every step keeps the invariant

  lemma TableReplaced(node: Node, s: State, t: Table)
    requires Inv(node, s) && TableOk(node, t)
    ensures Inv(node, s.(table := t))
  {
  }

  lemma Enters(node: Node, s: State, id: nat, w: Worker)
    requires Inv(node, s) && id !in s.workers && w.Queueing? && WorkerOk(node, w)
    ensures Inv(node, s.(workers := s.workers[id := w]))
  {
    WorkerReplaced(s.workers, id, w);
    assert Counted(s.workers) - {id} == Counted(s.workers);
    FlagsIgnore(s.inFlight, s.workers, s.workers[id := w], id);
  }

  lemma UpdateKeeps(node: Node, s: State, id: nat, contact: Option<Peer>, hasPinger: bool)
    requires Inv(node, s) && id !in s.workers
    ensures Inv(node, AfterUpdate(node, s, id, contact, hasPinger))
  {
    var t, pending := TableAfterUpdate(node, s.table, contact), PendingUpdate(node, s.table, contact, hasPinger);
    TableReplaced(node, s, t);
    if pending.Some? {
      PendingOk(node, s.table, contact, hasPinger);
      Enters(node, s.(table := t), id, pending.value);
    }
  }

  lemma PendingOk(node: Node, t: Table, contact: Option<Peer>, hasPinger: bool)
    requires TableOk(node, t) && PendingUpdate(node, t, contact, hasPinger).Some?
    ensures var w := PendingUpdate(node, t, contact, hasPinger).value;
            w.Queueing? && WorkerOk(node, w)
  {
    assert AllIn(node, t[node.home(contact.value.id)], node.home(contact.value.id));
  }

  lemma OfferKeeps(node: Node, s: State, b: BucketNo, p: Peer)
    requires Inv(node, s) && node.home(p.id) == b
    ensures Inv(node, AfterOffer(s, b, p))
  {
    var q := QueueOf(s.queues, b);
    if Find(q, p.id) == |q| {
      QueueStepOk(node, s.queues, s.arrived, b, p);
      QueuesReplaced(node, s, s.queues[b := Offered(q, p)], s.arrived[b := QueueOf(s.arrived, b) + [p]]);
    }
  }

  lemma QueuesReplaced(node: Node, s: State, queues: map<BucketNo, Peers>, arrived: map<BucketNo, Peers>)
    requires Inv(node, s) && QueuesOk(node, queues, arrived)
    ensures Inv(node, s.(queues := queues, arrived := arrived))
  {
  }

  lemma LaunchKeeps(node: Node, s: State, id: nat, b: BucketNo, oldest: Peer)
    requires Inv(node, s) && id in s.workers && s.workers[id].Queueing? && node.home(oldest.id) == b
    ensures Inv(node, AfterLaunch(s, id, b, oldest))
  {
    if b in s.inFlight {
      QueuedLeaves(node, s, id);
    } else {
      QueuedLaunches(node, s, id, b, oldest);
    }
  }

  lemma QueuedLeaves(node: Node, s: State, id: nat)
    requires Inv(node, s) && id in s.workers && s.workers[id].Queueing?
    ensures Inv(node, s.(workers := s.workers - {id}))
  {
    WorkerDropped(s.workers, id);
    assert Counted(s.workers) - {id} == Counted(s.workers);
    FlagsIgnore(s.inFlight, s.workers, s.workers - {id}, id);
  }

  lemma QueuedLaunches(node: Node, s: State, id: nat, b: BucketNo, oldest: Peer)
    requires Inv(node, s) && id in s.workers && s.workers[id].Queueing? && node.home(oldest.id) == b && b !in s.inFlight
    ensures Inv(node, s.(inFlight := s.inFlight + {b}, wait := s.wait + 1, workers := s.workers[id := Probing(b, oldest)]))
  {
    assert id !in Counted(s.workers);
    WorkerReplaced(s.workers, id, Probing(b, oldest));
    FlagRaised(s.inFlight, s.workers, id, Probing(b, oldest));
  }

  lemma QueueKeeps(node: Node, s: State, id: nat)
    requires Inv(node, s) && id in s.workers && s.workers[id].Queueing?
    ensures Inv(node, AfterQueue(s, id))
  {
    var w := s.workers[id];
    assert WorkerOk(node, w);
    OfferKeeps(node, s, w.bucket, w.candidate);
    LaunchKeeps(node, AfterOffer(s, w.bucket, w.candidate), id, w.bucket, w.oldest);
  }

  lemma QueueReplaced(node: Node, queues: map<BucketNo, Peers>, arrived: map<BucketNo, Peers>, b: BucketNo, q: Peers, log: Peers)
    requires QueuesOk(node, queues, arrived) && QueueOk(node, q, log, b)
    ensures QueuesOk(node, queues[b := q], arrived[b := log])
  {
    var queues', arrived' := queues[b := q], arrived[b := log];
    forall k | k in queues' ensures QueueOk(node, queues'[k], QueueOf(arrived', k), k) {
      assert k != b ==> queues'[k] == queues[k] && QueueOf(arrived', k) == QueueOf(arrived, k);
    }
  }

  lemma QueueStepOk(node: Node, queues: map<BucketNo, Peers>, arrived: map<BucketNo, Peers>, b: BucketNo, p: Peer)
    requires QueuesOk(node, queues, arrived) && node.home(p.id) == b
    requires Find(QueueOf(queues, b), p.id) == |QueueOf(queues, b)|
    ensures QueuesOk(node, queues[b := Offered(QueueOf(queues, b), p)], arrived[b := QueueOf(arrived, b) + [p]])
  {
    var q, log := QueueOf(queues, b), QueueOf(arrived, b);
    assert QueueOk(node, q, log, b);
    OfferedOk(node, q, log, p, b);
    QueueReplaced(node, queues, arrived, b, Offered(q, p), log + [p]);
  }

  lemma PopKeeps(node: Node, s: State, id: nat)
    requires Inv(node, s) && id in s.workers && s.workers[id].Popping?
    ensures Inv(node, AfterPop(s, id))
  {
    var b := s.workers[id].bucket;
    var q := QueueOf(s.queues, b);
    if q != [] {
      PoppedOk(node, q, QueueOf(s.arrived, b), b);
      MovesOn(node, s, id, Refilling(b, q[0]));
    } else {
      MovesOn(node, s, id, Clearing(b));
    }
  }

  /** A probe moving from one flagged stage to the next leaves count and flags in order. */
  lemma MovesOn(node: Node, s: State, id: nat, w: Worker)
    requires Inv(node, s) && id in s.workers && s.workers[id].Flagged()
    requires w.Flagged() && w.bucket == s.workers[id].bucket && WorkerOk(node, w)
    ensures Inv(node, s.(workers := s.workers[id := w]))
  {
    WorkerReplaced(s.workers, id, w);
    assert Counted(s.workers) + {id} == Counted(s.workers);
    FlagsStay(s.inFlight, s.workers, id, w);
  }

  lemma ProbeKeeps(node: Node, s: State, a: Step)
    requires Inv(node, s) && Enabled(s, a) && (a.Answered? || a.Failed? || a.Refill?)
    ensures Inv(node, Do(node, s, a))
  {
    var w := s.workers[a.id];
    if a.Answered? {
      AddedIn(node, s.table[w.bucket], w.target, w.bucket);
      MovesOn(node, s, a.id, Clearing(w.bucket));
    } else if a.Failed? {
      TableRemoveOk(node, s.table, w.target);
      MovesOn(node, s, a.id, Popping(w.bucket));
    } else {
      TableAddOk(node, s.table, w.replacement);
      MovesOn(node, s, a.id, Clearing(w.bucket));
    }
  }

  lemma ExitKeeps(node: Node, s: State, a: Step)
    requires Inv(node, s) && Enabled(s, a) && (a.Clear? || a.Leave?)
    ensures Inv(node, Do(node, s, a))
  {
    var w := s.workers[a.id];
    if a.Clear? {
      WorkerReplaced(s.workers, a.id, Leaving(w.bucket));
      assert Counted(s.workers) + {a.id} == Counted(s.workers);
      FlagCleared(s.inFlight, s.workers, s.workers[a.id := Leaving(w.bucket)], a.id);
    } else {
      WorkerDropped(s.workers, a.id);
      assert a.id in Counted(s.workers);
      FlagsIgnore(s.inFlight, s.workers, s.workers - {a.id}, a.id);
    }
  }

  lemma StepKeepsInv(node: Node, s: State, a: Step)
    requires Inv(node, s) && Enabled(s, a)
    ensures Inv(node, Do(node, s, a))
  {
    match a
    case Add(contact) => if contact.Some? { TableAddOk(node, s.table, contact.value); }
    case Remove(contact) => if contact.Some? { TableRemoveOk(node, s.table, contact.value); }
    case Update(id, contact, hasPinger) => UpdateKeeps(node, s, id, contact, hasPinger);
    case Queue(id) => QueueKeeps(node, s, id);
    case Pop(id) => PopKeeps(node, s, id);
    case Clear(id) => ExitKeeps(node, s, a);
    case Leave(id) => ExitKeeps(node, s, a);
    case _ => ProbeKeeps(node, s, a);
  }

  // ---------------------------------------------------------------- the theorems on runs

  /** In every interleaving of updates, removals and probes the table, the queues, the flags and the count are in order. */
  lemma {:induction false} RunKeepsInv(node: Node, run: seq<State>, steps: seq<Step>, i: nat)
    requires IsRun(node, run, steps) && i < |run|
    ensures Inv(node, run[i])
  {
    if i > 0 {
      RunKeepsInv(node, run, steps, i - 1);
      assert Follows(node, run, steps, i - 1);
      StepKeepsInv(node, run[i - 1], steps[i - 1]);
    }
  }

  lemma ProbeDropped(inFlight: set<BucketNo>, workers: map<nat, Worker>, id: nat)
    requires FlagsOk(inFlight, workers) && id in workers && workers[id].Flagged()
    ensures FlagsOk(inFlight - {workers[id].bucket}, workers - {id})
    ensures |Counted(workers - {id})| == |Counted(workers)| - 1
  {
    FlagCleared(inFlight, workers, workers - {id}, id);
    WorkerDropped(workers, id);
    assert id in Counted(workers);
  }

  lemma {:induction false} FlagsBelowCount(inFlight: set<BucketNo>, workers: map<nat, Worker>)
    requires FlagsOk(inFlight, workers)
    ensures |inFlight| <= |Counted(workers)|
    decreases |inFlight|
  {
    if inFlight != {} {
      var b :| b in inFlight;
      var id :| id in workers && workers[id].Flagged() && workers[id].bucket == b;
      ProbeDropped(inFlight, workers, id);
      FlagsBelowCount(inFlight - {b}, workers - {id});
    }
  }

  /** The wait group counts at least the probes in flight: when it is zero, none is. */
  lemma WaitCoversProbes(node: Node, run: seq<State>, steps: seq<Step>, i: nat)
    requires IsRun(node, run, steps) && i < |run|
    ensures |run[i].inFlight| <= run[i].wait
    ensures run[i].wait == 0 ==> run[i].inFlight == {} && forall id :: id in run[i].workers ==> run[i].workers[id].Queueing?
  {
    RunKeepsInv(node, run, steps, i);
    FlagsBelowCount(run[i].inFlight, run[i].workers);
    if run[i].wait == 0 {
      var workers := run[i].workers;
      assert Counted(workers) == {};
      forall id | id in workers ensures workers[id].Queueing? {
        assert id !in Counted(workers);
      }
    }
  }

  /** At most one probe of a bucket lies between its launch and the clearing of the flag. */
  lemma OneProbePerBucket(node: Node, run: seq<State>, steps: seq<Step>, i: nat, x: nat, y: nat)
    requires IsRun(node, run, steps) && i < |run|
    requires x in run[i].workers && y in run[i].workers
    requires SameProbe(run[i].workers[x], run[i].workers[y])
    ensures x == y
  {
    RunKeepsInv(node, run, steps, i);
  }

  /** Popping yields the earliest of the queued arrivals and keeps the later ones. */
  ghost predicate PopsOldest(s: State, id: nat)
    requires id in s.workers && s.workers[id].Popping?
  {
    var b := s.workers[id].bucket;
    var q, log := QueueOf(s.queues, b), QueueOf(s.arrived, b);
    q != [] ==>
      && |q| <= |log| && AfterPop(s, id).workers[id] == Refilling(b, log[|log| - |q|])
      && QueueOf(AfterPop(s, id).queues, b) == log[|log| - |q| + 1..]
  }

  /** In every run a failed probe of a bucket takes the earliest still queued arrival of that bucket. */
  lemma PopTakesOldest(node: Node, run: seq<State>, steps: seq<Step>, i: nat, id: nat)
    requires IsRun(node, run, steps) && i < |run| && id in run[i].workers && run[i].workers[id].Popping?
    ensures PopsOldest(run[i], id)
  {
    var b := run[i].workers[id].bucket;
    QueueIsTail(node, run, steps, i, b);
  }

  /** In every state a replacement queue is the latest part of its bucket's arrivals. */
  lemma QueueIsTail(node: Node, run: seq<State>, steps: seq<Step>, i: nat, b: BucketNo)
    requires IsRun(node, run, steps) && i < |run|
    ensures IsTail(QueueOf(run[i].queues, b), QueueOf(run[i].arrived, b))
  {
    RunKeepsInv(node, run, steps, i);
    if b in run[i].queues {
      assert QueueOk(node, run[i].queues[b], QueueOf(run[i].arrived, b), b);
    }
  }

  // ---------------------------------------------------------------- an update that finds its place at once

  /** The contact is known and moves to the front as it was stored, or is new and enters in front. */
  ghost predicate PutInFront(was: Peers, p: Peer, now: Peers) {
    || (exists i :: 0 <= i < |was| && was[i].id == p.id && now == [was[i]] + (was[..i] + was[i + 1..]))
    || ((forall i :: 0 <= i < |was| ==> was[i].id != p.id) && now == [p] + was)
  }

  lemma FindMeans(b: Peers, id: KademliaId)
    ensures Find(b, id) < |b| <==> exists i :: 0 <= i < |b| && b[i].id == id
  {
    if Find(b, id) < |b| {
      assert b[Find(b, id)].id == id;
    }
  }

  lemma AddedInFront(b: Peers, p: Peer)
    requires Holds(b, p.id) || |b| < 10
    ensures Accepts(b, p) && PutInFront(b, p, Added(b, p))
  {
    FindMeans(b, p.id);
    var i := Find(b, p.id);
    if i < |b| {
      assert b[i].id == p.id && Added(b, p) == [b[i]] + (b[..i] + b[i + 1..]);
    }
  }

  /**
   * An update of a contact that is known, or whose bucket has room, puts it in front of its
   * bucket and does nothing else: no other bucket, queue, flag or count changes, and no
   * probe is launched.
   */
  lemma UpdateEnters(node: Node, s: State, id: nat, p: Peer, hasPinger: bool)
    requires id !in s.workers && p.id != node.me && (Holds(s.table[node.home(p.id)], p.id) || |s.table[node.home(p.id)]| < 10)
    ensures var b, end := node.home(p.id), Do(node, s, Update(id, Some(p), hasPinger));
            && PutInFront(s.table[b], p, end.table[b])
            && end == s.(table := s.table[b := end.table[b]])
  {
    AddedInFront(s.table[node.home(p.id)], p);
  }

  /** Adding puts a known contact, or a new one with room, in front of its bucket and changes nothing else. */
  lemma AddMeans(node: Node, s: State, p: Peer)
    ensures var b, added := node.home(p.id), Do(node, s, Add(Some(p)));
            && added == s.(table := s.table[b := added.table[b]])
            && if Holds(s.table[b], p.id) || |s.table[b]| < 10 then PutInFront(s.table[b], p, added.table[b]) else added.table[b] == s.table[b]
  {
    FindMeans(s.table[node.home(p.id)], p.id);
    if Holds(s.table[node.home(p.id)], p.id) || |s.table[node.home(p.id)]| < 10 {
      AddedInFront(s.table[node.home(p.id)], p);
    }
  }

  /** Removing takes the identifier out of its bucket and changes nothing else. */
  lemma RemoveMeans(node: Node, s: State, p: Peer)
    requires BucketOk(s.table[node.home(p.id)])
    ensures var b, removed := node.home(p.id), Do(node, s, Remove(Some(p)));
            && removed == s.(table := s.table[b := removed.table[b]])
            && forall x :: Holds(removed.table[b], x) <==> Holds(s.table[b], x) && x != p.id
  {
    RemovedFacts(s.table[node.home(p.id)], p.id);
  }

  /** An update without identifier or of the local node changes nothing; nor does one that meets a full bucket and has no pinger. */
  lemma UpdateIsIgnored(node: Node, s: State, id: nat, contact: Option<Peer>, hasPinger: bool)
    requires id !in s.workers
    requires contact.None? || contact.value.id == node.me ||
             (!hasPinger && |s.table[node.home(contact.value.id)]| >= 10 && !Holds(s.table[node.home(contact.value.id)], contact.value.id))
    ensures Do(node, s, Update(id, contact, hasPinger)) == s
  {
    if contact.Some? {
      FindMeans(s.table[node.home(contact.value.id)], contact.value.id);
    }
  }

  /** A candidate not yet queued comes last; the queue loses its oldest contact only if it held ten. */
  lemma OfferedMeans(q: Peers, p: Peer)
    ensures Holds(q, p.id) ==> Offered(q, p) == q
    ensures !Holds(q, p.id) && |q| < 10 ==> Offered(q, p) == q + [p]
    ensures !Holds(q, p.id) && |q| >= 10 ==> Offered(q, p) == q[1..] + [p]
  {
    FindMeans(q, p.id);
  }

  /** An unknown contact meets a full bucket. */
  ghost predicate MeetsFullBucket(node: Node, s: State, id: nat, p: Peer) {
    id !in s.workers && p.id != node.me && |s.table[node.home(p.id)]| == 10 && !Holds(s.table[node.home(p.id)], p.id)
  }

  /** Its update has to queue it; nothing has changed yet. */
  lemma FullBucketPending(node: Node, s: State, id: nat, p: Peer)
    requires MeetsFullBucket(node, s, id, p)
    ensures var b := node.home(p.id);
            Do(node, s, Update(id, Some(p), true)) == s.(workers := s.workers[id := Queueing(b, p, s.table[b][9])])
  {
    FindMeans(s.table[node.home(p.id)], p.id);
  }

  lemma OfferMeans(s: State, b: BucketNo, p: Peer)
    ensures var end := AfterOffer(s, b, p);
            && end == s.(queues := end.queues, arrived := end.arrived)
            && QueueOf(end.queues, b) == Offered(QueueOf(s.queues, b), p)
            && forall k :: k != b ==> QueueOf(end.queues, k) == QueueOf(s.queues, k)
  {
    FindMeans(QueueOf(s.queues, b), p.id);
  }

  /** Nobody interferes, and a probe of the bucket is in flight: the contact is queued, that is all. */
  lemma FullBucketUpdateQueues(node: Node, s: State, id: nat, p: Peer, answers: Peer -> bool)
    requires MeetsFullBucket(node, s, id, p) && node.home(p.id) in s.inFlight
    ensures var b, end := node.home(p.id), AfterWholeUpdate(node, s, id, Some(p), true, answers);
            && end.table == s.table && end.workers == s.workers && end.inFlight == s.inFlight && end.wait == s.wait
            && QueueOf(end.queues, b) == Offered(QueueOf(s.queues, b), p)
  {
    FullBucketPending(node, s, id, p);
    var updated := Do(node, s, Update(id, Some(p), true));
    OfferMeans(updated, node.home(p.id), p);
    assert updated.workers - {id} == s.workers;
  }

  /**
   * Nobody interferes, and no probe of the bucket is in flight: the contact is queued and the
   * oldest contact probed. If that answers, it moves to the front; otherwise it is removed
   * and the head of the queue enters in its place.
   */
  lemma FullBucketUpdateProbes(node: Node, s: State, id: nat, p: Peer, answers: Peer -> bool)
    requires Inv(node, s) && MeetsFullBucket(node, s, id, p) && node.home(p.id) !in s.inFlight
    ensures var b, end := node.home(p.id), AfterWholeUpdate(node, s, id, Some(p), true, answers);
            var rest, oldest, q := s.table[b][..9], s.table[b][9], Offered(QueueOf(s.queues, b), p);
            && end.workers == s.workers && end.inFlight == s.inFlight && end.wait == s.wait
            && q != [] && end.table == s.table[b := end.table[b]]
            && (if answers(oldest) then end.table[b] == [oldest] + rest else PutInFront(rest, q[0], end.table[b]))
            && QueueOf(end.queues, b) == if answers(oldest) then q else q[1..]
  {
    var b := node.home(p.id);
    var oldest, q := s.table[b][9], Offered(QueueOf(s.queues, b), p);
    var launched := FullBucketLaunches(node, s, id, p, answers);
    LaunchedEnds(node, s, launched, id, b, oldest, answers(oldest));
    OfferedIsOfBucket(node, QueueOf(s.queues, b), b, p);
    assert BucketOk(s.table[b]) && AllIn(node, s.table[b], b);
    ProbedBucket(node, s.table, b, q, answers(oldest));
  }

  lemma LaunchedEnds(node: Node, s: State, launched: State, id: nat, b: BucketNo, oldest: Peer, answered: bool)
    requires id !in s.workers && b !in s.inFlight && launched.table == s.table
    requires launched.inFlight == s.inFlight + {b} && launched.wait == s.wait + 1
    requires launched.workers == s.workers[id := Probing(b, oldest)]
    ensures var end, q := AfterProbe(node, launched, id, answered), QueueOf(launched.queues, b);
            && end.workers == s.workers && end.inFlight == s.inFlight && end.wait == s.wait
            && end.table == TableAfterProbe(node, s.table, q, b, oldest, answered)
            && QueueOf(end.queues, b) == if answered || q == [] then q else q[1..]
  {
    ProbeShape(node, launched, id, answered);
    assert launched.workers - {id} == s.workers && s.inFlight + {b} - {b} == s.inFlight;
  }

  lemma FullBucketLaunches(node: Node, s: State, id: nat, p: Peer, answers: Peer -> bool) returns (launched: State)
    requires MeetsFullBucket(node, s, id, p) && node.home(p.id) !in s.inFlight
    ensures var b := node.home(p.id);
            && launched.table == s.table && launched.inFlight == s.inFlight + {b} && launched.wait == s.wait + 1
            && launched.workers == s.workers[id := Probing(b, s.table[b][9])]
            && QueueOf(launched.queues, b) == Offered(QueueOf(s.queues, b), p)
            && AfterWholeUpdate(node, s, id, Some(p), true, answers) == AfterProbe(node, launched, id, answers(s.table[b][9]))
  {
    FullBucketPending(node, s, id, p);
    var updated := Do(node, s, Update(id, Some(p), true));
    OfferMeans(updated, node.home(p.id), p);
    launched := Do(node, updated, Queue(id));
    assert launched.workers == s.workers[id := Probing(node.home(p.id), s.table[node.home(p.id)][9])];
  }

  lemma OfferedIsOfBucket(node: Node, q: Peers, b: BucketNo, p: Peer)
    requires AllIn(node, q, b) && node.home(p.id) == b
    ensures Offered(q, p) != [] && node.home(Offered(q, p)[0].id) == b
  {
    OfferedMeans(q, p);
    if q != [] {
      assert node.home(q[0].id) == b && (|q| > 1 ==> node.home(q[1].id) == b);
    }
  }

  /** A full bucket after a probe of its oldest contact. */
  lemma ProbedBucket(node: Node, t: Table, b: BucketNo, q: Peers, answered: bool)
    requires DistinctPeers(t[b]) && AllIn(node, t[b], b) && |t[b]| == BUCKET_SIZE
    requires q != [] ==> node.home(q[0].id) == b
    ensures var now := TableAfterProbe(node, t, q, b, t[b][9], answered);
            && now == t[b := now[b]]
            && (answered ==> now[b] == [t[b][9]] + t[b][..9])
            && (!answered && q != [] ==> PutInFront(t[b][..9], q[0], now[b]))
  {
    RefilledMeans(t[b][..9], q);
    if answered {
      assert DropAt(t[b], 9) == t[b][..9];
    } else {
      LastGivesWay(node, t, q, b);
    }
  }

  // ---------------------------------------------------------------- an undisturbed eviction

  /** A newcomer meets a full bucket with an empty replacement queue and no probe in flight. */
  ghost predicate Newcomer(node: Node, s: State, id: nat, p: Peer) {
    var b := node.home(p.id);
    && id !in s.workers && p.id != node.me
    && |s.table[b]| == BUCKET_SIZE && Find(s.table[b], p.id) == BUCKET_SIZE
    && QueueOf(s.queues, b) == [] && b !in s.inFlight
  }

  /** Its update queues it and launches a probe of the least recently seen contact. */
  lemma NewcomerLaunchesProbe(node: Node, s: State, id: nat, p: Peer)
    requires Newcomer(node, s, id, p)
    ensures var b := node.home(p.id);
            var updated := AfterUpdate(node, s, id, Some(p), true);
            && id in updated.workers && updated.workers[id].Queueing?
            && var launched := AfterQueue(updated, id);
            && launched.table == s.table && launched.queues == s.queues[b := [p]] && b in launched.inFlight
            && launched.workers == s.workers[id := Probing(b, s.table[b][BUCKET_SIZE - 1])]
  {
    var none: Peers := [];
    assert none + [p] == [p];
    var b := node.home(p.id);
    var w := Queueing(b, p, s.table[b][BUCKET_SIZE - 1]);
    assert AfterUpdate(node, s, id, Some(p), true) == s.(workers := s.workers[id := w]);
  }

  /** If that contact answers, it moves to the front and the newcomer stays queued. */
  lemma AnsweringContactStays(node: Node, s: State, id: nat, b: BucketNo)
    requires DistinctPeers(s.table[b]) && |s.table[b]| == BUCKET_SIZE
    requires id in s.workers && s.workers[id] == Probing(b, s.table[b][BUCKET_SIZE - 1])
    ensures var was := s.table[b];
            Do(node, s, Answered(id)).table == s.table[b := [was[BUCKET_SIZE - 1]] + was[..BUCKET_SIZE - 1]] &&
            Do(node, s, Answered(id)).queues == s.queues
  {
    assert DropAt(s.table[b], BUCKET_SIZE - 1) == s.table[b][..BUCKET_SIZE - 1];
  }

  /** What becomes of the other contacts of a bucket and the head of its replacement queue. */
  function Refilled(rest: Peers, q: Peers): Peers {
    if q == [] then rest
    else
      var i := Find(rest, q[0].id);
      if i < |rest| then [rest[i]] + DropAt(rest, i) else [q[0]] + rest
  }

  lemma RefilledMeans(rest: Peers, q: Peers)
    ensures if q == [] then Refilled(rest, q) == rest else PutInFront(rest, q[0], Refilled(rest, q))
  {
    if q != [] {
      FindMeans(rest, q[0].id);
      var i := Find(rest, q[0].id);
      if i < |rest| {
        assert rest[i].id == q[0].id && Refilled(rest, q) == [rest[i]] + (rest[..i] + rest[i + 1..]);
      }
    }
  }

  /**
   * If it fails, it is removed and the head of the replacement queue takes its place, in
   * front. That is the newcomer only if nobody was queued before it. A head that has meanwhile
   * been added to the bucket directly is promoted instead, and the bucket loses a contact; so
   * it does when the queue is empty.
   */
  lemma DeadContactIsReplaced(node: Node, s: State, id: nat, b: BucketNo)
    requires Inv(node, s) && |s.table[b]| == BUCKET_SIZE
    requires id in s.workers && s.workers[id] == Probing(b, s.table[b][BUCKET_SIZE - 1])
    ensures var end := AfterEviction(node, s, id);
            var rest, q := s.table[b][..9], QueueOf(s.queues, b);
            && end.queues == QueuesAfterProbe(s.queues, b, false) && end.table == s.table[b := end.table[b]]
            && if q == [] then end.table[b] == rest else PutInFront(rest, q[0], end.table[b])
  {
    RefilledMeans(s.table[b][..9], QueueOf(s.queues, b));
    EvictionShape(node, s, id);
    if QueueOf(s.queues, b) != [] {
      HeadIsOfBucket(node, s.queues, s.arrived, b);
    }
    assert BucketOk(s.table[b]) && AllIn(node, s.table[b], b);
    LastGivesWay(node, s.table, QueueOf(s.queues, b), b);
  }

  lemma HeadIsOfBucket(node: Node, queues: map<BucketNo, Peers>, arrived: map<BucketNo, Peers>, b: BucketNo)
    requires QueuesOk(node, queues, arrived) && QueueOf(queues, b) != []
    ensures node.home(QueueOf(queues, b)[0].id) == b
  {
    assert QueueOk(node, queues[b], QueueOf(arrived, b), b);
  }

  lemma LastGivesWay(node: Node, t: Table, q: Peers, b: BucketNo)
    requires DistinctPeers(t[b]) && AllIn(node, t[b], b) && |t[b]| == BUCKET_SIZE
    requires q != [] ==> node.home(q[0].id) == b
    ensures TableAfterProbe(node, t, q, b, t[b][BUCKET_SIZE - 1], false) == t[b := Refilled(t[b][..BUCKET_SIZE - 1], q)]
  {
    LastIsRemoved(node, t, b);
    if q != [] {
      HeadEnters(node, t, b, t[b][..BUCKET_SIZE - 1], q[0]);
    }
  }

  lemma HeadEnters(node: Node, t: Table, b: BucketNo, rest: Peers, p: Peer)
    requires node.home(p.id) == b && |rest| < BUCKET_SIZE
    ensures var i := Find(rest, p.id);
            TableAdd(node, t[b := rest], p) == t[b := if i < |rest| then [rest[i]] + DropAt(rest, i) else [p] + rest]
  {
  }

  lemma LastIsRemoved(node: Node, t: Table, b: BucketNo)
    requires DistinctPeers(t[b]) && AllIn(node, t[b], b) && |t[b]| == BUCKET_SIZE
    ensures TableRemove(node, t, t[b][BUCKET_SIZE - 1]) == t[b := t[b][..BUCKET_SIZE - 1]]
  {
    assert DropAt(t[b], BUCKET_SIZE - 1) == t[b][..BUCKET_SIZE - 1];
  }

}
