/**
 * The lookup loops (kademlia/kademlia.go:80-183 and 397-555) over the shortlist and the
 * routing table. Their contracts say which run of `LookupRuns` they go through.
 */
module Lookup {
  import opened Common
  import opened Text
  import opened KademliaIds
  import opened Ranking
  import opened Contacts
  import opened Shortlists
  import opened Rounds
  import opened LookupRuns
  import opened Discovery
  import opened RoutingTables
  import Buckets
  import Eviction

  // ---------------------------------------------------------------- contacts of the local routing table

  function AsContacts(peers: seq<Buckets.Peer>): seq<Contact> {
    seq(|peers|, i requires 0 <= i < |peers| => Contact(Some(peers[i].id), peers[i].address))
  }

  /** The contacts are the table's own answer to the query, as it stores them. */
  ghost predicate IsLocalAnswer(me: KademliaId, table: Eviction.Table, target: KademliaId, contacts: seq<Contact>) {
    exists peers :: AreClosest(me, table, target, peers) && AreContactsOf(contacts, peers)
  }

  ghost predicate AreContactsOf(contacts: seq<Contact>, peers: seq<Buckets.Peer>) {
    |contacts| == |peers| && forall i :: 0 <= i < |peers| ==> contacts[i] == Contact(Some(peers[i].id), peers[i].address)
  }

  ghost predicate AreClosest(me: KademliaId, table: Eviction.Table, target: KademliaId, peers: seq<Buckets.Peer>) {
    && PeerIds(peers) == ScanAnswer(me, table, target, Buckets.BUCKET_SIZE)
    && forall p :: p in peers ==> p in table[BucketIndex(me, p.id)]
  }

  method LocalContacts(routes: RoutingTable, target: KademliaId) returns (contacts: seq<Contact>)
    requires routes.Valid()
    ensures IsLocalAnswer(routes.me, routes.Contents(), target, contacts)
  {
    var peers := routes.FindClosestContacts(target, Buckets.BUCKET_SIZE);
    contacts := AsContacts(peers);
    assert AreClosest(routes.me, routes.Contents(), target, peers) && AreContactsOf(contacts, peers);
  }

  lemma LocalAnswerWithin(me: KademliaId, table: Eviction.Table, target: KademliaId, contacts: seq<Contact>, local: Option<KademliaId>)
    requires IsLocalAnswer(me, table, target, contacts)
    ensures Usable(local, contacts) <= AllIds(table)
  {
    var peers :| AreClosest(me, table, target, peers) && AreContactsOf(contacts, peers);
    AnswerIsStored(me, table, target, Buckets.BUCKET_SIZE);
    forall x | x in Usable(local, contacts) ensures x in AllIds(table) {
      var i :| 0 <= i < |contacts| && contacts[i].id == Some(x);
      assert PeerIds(peers)[i] == x;
    }
  }

  lemma WithinMore(net: Network, universe: set<KademliaId>, more: set<KademliaId>)
    requires net.Within(universe)
    ensures net.Within(universe + more)
  {
  }

  // ---------------------------------------------------------------- replies

  /** Handles one reply; `address` is that of the probed contact. */
  method Receive(shortlist: Shortlist, routes: RoutingTable, address: string, a: Arrival)
    requires routes.Valid()
    modifies shortlist`candidates, routes.buckets
    ensures routes.Valid()
    ensures shortlist.candidates == Deliver(old(shortlist.candidates), shortlist.me, a)
    ensures routes.Contents() == if a.reply.Failed? then old(routes.Contents())
                                 else Eviction.TableAdd(Eviction.NodeOf(routes.me), old(routes.Contents()), Buckets.Peer(a.id, address))
  {
    if a.reply.Failed? {
      shortlist.MarkUnresponsive(Some(a.id));
    } else {
      shortlist.MarkQueried(Some(a.id));
      routes.AddContact(Contact(Some(a.id), address));
      shortlist.Add(a.reply.contacts);
    }
  }

  /** The effect of the first `n` replies on the candidates and on the table. */
  ghost predicate Received(node: Eviction.Node, me: Option<KademliaId>, start: Candidates, table: Eviction.Table,
                           arrivals: seq<Arrival>, n: nat, cs: Candidates, now: Eviction.Table) {
    && n <= |arrivals|
    && cs == DeliverAll(start, me, arrivals[..n]) && now == TableHears(node, table, start, arrivals[..n])
  }

  lemma NothingReceived(node: Eviction.Node, me: Option<KademliaId>, start: Candidates, table: Eviction.Table, arrivals: seq<Arrival>)
    ensures Received(node, me, start, table, arrivals, 0, start, table)
  {
  }

  lemma ReceivedNext(node: Eviction.Node, me: Option<KademliaId>, start: Candidates, table: Eviction.Table,
                     arrivals: seq<Arrival>, n: nat, cs: Candidates, now: Eviction.Table)
    requires n < |arrivals| && Received(node, me, start, table, arrivals, n, cs, now)
    ensures var a := arrivals[n];
            var next := if a.reply.Failed? then now else Eviction.TableAdd(node, now, Buckets.Peer(a.id, AddressOf(start, a.id)));
            Received(node, me, start, table, arrivals, n + 1, Deliver(cs, me, a), next)
  {
    assert arrivals[..n + 1][..n] == arrivals[..n];
  }

  /** Handles the next reply of a round that began with the candidates `start`. */
  method ReceiveNext(shortlist: Shortlist, routes: RoutingTable, start: Candidates, ghost table: Eviction.Table,
                     arrivals: seq<Arrival>, n: nat)
    requires routes.Valid() && n < |arrivals|
    requires Received(Eviction.NodeOf(routes.me), shortlist.me, start, table, arrivals, n, shortlist.candidates, routes.Contents())
    modifies shortlist`candidates, routes.buckets
    ensures routes.Valid()
    ensures Received(Eviction.NodeOf(routes.me), shortlist.me, start, table, arrivals, n + 1, shortlist.candidates, routes.Contents())
  {
    ReceivedNext(Eviction.NodeOf(routes.me), shortlist.me, start, table, arrivals, n, shortlist.candidates, routes.Contents());
    Receive(shortlist, routes, AddressOf(start, arrivals[n].id), arrivals[n]);
  }

  /** Collects the replies of one round in their order of arrival. */
  method Collect(shortlist: Shortlist, routes: RoutingTable, arrivals: seq<Arrival>)
    requires routes.Valid()
    modifies shortlist`candidates, routes.buckets
    ensures routes.Valid()
    ensures shortlist.candidates == DeliverAll(old(shortlist.candidates), shortlist.me, arrivals)
    ensures routes.Contents() ==
            TableHears(Eviction.NodeOf(routes.me), old(routes.Contents()), old(shortlist.candidates), arrivals)
  {
    var probed := shortlist.candidates;
    ghost var node, table := Eviction.NodeOf(routes.me), routes.Contents();
    for i := 0 to |arrivals|
      invariant routes.Valid()
      invariant Received(node, shortlist.me, probed, table, arrivals, i, shortlist.candidates, routes.Contents())
    {
      ReceiveNext(shortlist, routes, probed, table, arrivals, i);
    }
    assert arrivals[..|arrivals|] == arrivals;
  }

  // ---------------------------------------------------------------- node lookup

  ghost function QueryOf(shortlist: Shortlist, routes: RoutingTable, alpha: int): Query {
    Query(shortlist.me, Eviction.NodeOf(routes.me), shortlist.target, Buckets.BUCKET_SIZE, Alpha(alpha))
  }

  /** A shortlist filled from the local routing table; it is empty if and only if nothing there is usable. */
  method Begin(me: Option<KademliaId>, routes: RoutingTable, target: KademliaId) returns (shortlist: Shortlist, local: seq<Contact>)
    requires routes.Valid()
    ensures fresh(shortlist) && shortlist.me == me && shortlist.target == target
    ensures shortlist.candidates == AddAll(map[], me, local) && IsLocalAnswer(routes.me, routes.Contents(), target, local)
    ensures |shortlist.candidates| == 0 <==> Usable(me, local) == {}
  {
    shortlist := new Shortlist(target, me);
    local := LocalContacts(routes, target);
    shortlist.Add(local);
    AddAllEffect(map[], me, local);
    assert shortlist.candidates.Keys == Usable(me, local);
  }

  lemma SaneFrom(q: Query, net: Network, universe: set<KademliaId>, me: KademliaId, table: Eviction.Table, initial: seq<Contact>)
    requires net.Within(universe) && IsLocalAnswer(me, table, q.target, initial) && q.alpha >= 1
    ensures Sane(q, net, universe + AllIds(table), initial)
  {
    WithinMore(net, universe, AllIds(table));
    LocalAnswerWithin(me, table, q.target, initial, q.me);
  }

  /** The lookup has gone through `run` and stands at its last stage. */
  ghost predicate Going(q: Query, net: Network, initial: seq<Contact>, run: seq<Stage>, cs: Candidates, table: Eviction.Table) {
    IsRun(q, net, initial, run) && Last(run).cs == cs && Last(run).table == table
  }

  method NextProbes(shortlist: Shortlist, alpha: int, ghost q: Query) returns (probes: seq<KademliaId>)
    requires q.target == shortlist.target && q.k == Buckets.BUCKET_SIZE && q.alpha == Alpha(alpha)
    ensures probes == Probes(q, shortlist.candidates)
  {
    probes := shortlist.GetClosestUnqueried(Alpha(alpha), Buckets.BUCKET_SIZE);
  }

  /** One round of the node lookup. */
  method Round(shortlist: Shortlist, routes: RoutingTable, net: Network, round: nat, probes: seq<KademliaId>,
               ghost q: Query, ghost initial: seq<Contact>, ghost run: seq<Stage>) returns (ghost longer: seq<Stage>)
    requires routes.Valid() && q.node == Eviction.NodeOf(routes.me) && q.me == shortlist.me
    requires Going(q, net, initial, run, shortlist.candidates, routes.Contents()) && |run| == round + 1
    requires More(q, shortlist.candidates) && probes == Probes(q, shortlist.candidates)
    modifies shortlist`candidates, routes.buckets
    ensures routes.Valid() && |longer| == |run| + 1 && longer[0] == run[0]
    ensures Going(q, net, initial, longer, shortlist.candidates, routes.Contents())
  {
    RunSnoc(q, net, initial, run);
    longer := run + [AfterRound(q, net, round, Last(run))];
    Collect(shortlist, routes, RoundOf(net, round, probes));
  }

  /** The lookup loop: probe the closest unqueried candidates until the closest `k` have all been queried. */
  method Iterate(shortlist: Shortlist, routes: RoutingTable, alpha: int, net: Network,
                 ghost universe: set<KademliaId>, ghost initial: seq<Contact>)
    returns (ghost run: seq<Stage>)
    requires routes.Valid() && shortlist.candidates == AddAll(map[], shortlist.me, initial)
    requires Sane(QueryOf(shortlist, routes, alpha), net, universe, initial)
    modifies shortlist`candidates, routes.buckets
    ensures routes.Valid()
    ensures Going(QueryOf(shortlist, routes, alpha), net, initial, run, shortlist.candidates, routes.Contents())
    ensures !More(QueryOf(shortlist, routes, alpha), shortlist.candidates) && run[0].table == old(routes.Contents())
  {
    ghost var q := QueryOf(shortlist, routes, alpha);
    var round := 0;
    run := [Stage(shortlist.candidates, Trace(map[], []), routes.Contents())];
    while true
      invariant routes.Valid() && |run| == round + 1 && run[0].table == old(routes.Contents())
      invariant Going(q, net, initial, run, shortlist.candidates, routes.Contents())
      decreases |universe| + 1 - |run|
    {
      var more := shortlist.HasUnqueriedInTopK(Buckets.BUCKET_SIZE);
      if !more {
        break;
      }
      RunGoesOn(q, net, universe, initial, run);
      var probes := NextProbes(shortlist, alpha, q);
      if |probes| == 0 {
        break;
      }
      run := Round(shortlist, routes, net, round, probes, q, initial, run);
      round := round + 1;
    }
  }

  /** The contacts are those of the nodes that the lookup found, closest first. */
  ghost predicate Returned(q: Query, run: seq<Stage>, closest: seq<Contact>) {
    && run != [] && (forall x :: x in Found(q, run) ==> x in Last(run).cs)
    && closest == ContactsOf(Last(run).cs, Found(q, run))
  }

  method ClosestQueried(shortlist: Shortlist, ghost q: Query, ghost run: seq<Stage>) returns (closest: seq<Contact>)
    requires run != [] && shortlist.candidates == Last(run).cs
    requires q.target == shortlist.target && q.k == Buckets.BUCKET_SIZE
    ensures Returned(q, run, closest)
  {
    var ids := shortlist.GetClosestQueried(Buckets.BUCKET_SIZE);
    TopKMembers(shortlist.target, QueriedIds(shortlist.candidates), Buckets.BUCKET_SIZE);
    closest := ContactsOf(shortlist.candidates, ids);
  }

  /** A whole lookup went through `run`, returned its result and left the routing table behind. */
  ghost predicate LookedUp(q: Query, net: Network, universe: set<KademliaId>, initial: seq<Contact>, run: seq<Stage>,
                           before: Eviction.Table, after: Eviction.Table, closest: seq<Contact>) {
    && Sane(q, net, universe, initial) && IsWhole(q, net, initial, run)
    && run[0].table == before && Last(run).table == after && Returned(q, run, closest)
  }

  method IterateAndReturn(shortlist: Shortlist, routes: RoutingTable, alpha: int, net: Network,
                          ghost universe: set<KademliaId>, ghost initial: seq<Contact>)
    returns (closest: seq<Contact>, ghost run: seq<Stage>)
    requires routes.Valid() && shortlist.candidates == AddAll(map[], shortlist.me, initial)
    requires Sane(QueryOf(shortlist, routes, alpha), net, universe, initial)
    modifies shortlist`candidates, routes.buckets
    ensures routes.Valid()
    ensures LookedUp(QueryOf(shortlist, routes, alpha), net, universe, initial, run, old(routes.Contents()), routes.Contents(), closest)
  {
    run := Iterate(shortlist, routes, alpha, net, universe, initial);
    closest := ClosestQueried(shortlist, QueryOf(shortlist, routes, alpha), run);
  }

  /** Every peer of the table after the lookup was there before, or is an answering node as it was first named. */
  ghost predicate TableGrew(q: Query, net: Network, initial: seq<Contact>, run: seq<Stage>, before: Eviction.Table, after: Eviction.Table)
    requires run != []
  {
    forall b: Eviction.BucketNo, p: Buckets.Peer :: p in after[b] ==> p in before[b] || IsNewPeer(q, net, initial, run, |run| - 1, p)
  }

  /** Contacts are returned, and enter the routing table, as they were first named. */
  lemma LookupKeepsContacts(q: Query, net: Network, universe: set<KademliaId>, initial: seq<Contact>, run: seq<Stage>,
                            before: Eviction.Table, after: Eviction.Table, closest: seq<Contact>)
    requires LookedUp(q, net, universe, initial, run, before, after, closest)
    ensures |closest| == |Found(q, run)|
    ensures forall i :: 0 <= i < |closest| ==> closest[i].id == Some(Found(q, run)[i]) && AsNamed(q, net, initial, run, closest[i])
    ensures TableGrew(q, net, initial, run, before, after)
  {
    forall i | 0 <= i < |closest| ensures closest[i].id == Some(Found(q, run)[i]) && AsNamed(q, net, initial, run, closest[i]) {
      assert Found(q, run)[i] in Found(q, run);
      CandidatesAreAsNamed(q, net, universe, initial, run, Found(q, run)[i]);
    }
    forall b: Eviction.BucketNo, p: Buckets.Peer | p in after[b]
      ensures p in before[b] || IsNewPeer(q, net, initial, run, |run| - 1, p)
    {
      TablePeers(q, net, universe, initial, run, |run| - 1, b, p);
    }
  }

  /**
   * `LookupContactByID`: without a network or without usable local contacts the local answer;
   * otherwise the result of the whole lookup that starts from it, which terminates for every
   * network over a finite universe of identifiers.
   */
  method LookupContact(me: Option<KademliaId>, routes: RoutingTable, target: KademliaId, online: bool, alpha: int,
                       net: Network, ghost universe: set<KademliaId>)
    returns (closest: seq<Contact>, ghost initial: seq<Contact>, ghost run: seq<Stage>)
    requires routes.Valid() && net.Within(universe)
    modifies routes.buckets
    ensures routes.Valid() && IsLocalAnswer(routes.me, old(routes.Contents()), target, initial)
    ensures !online || Usable(me, initial) == {} ==>
              IsLocalAnswer(routes.me, old(routes.Contents()), target, closest) && routes.Contents() == old(routes.Contents())
    ensures online && Usable(me, initial) != {} ==>
              var q := Query(me, Eviction.NodeOf(routes.me), target, Buckets.BUCKET_SIZE, Alpha(alpha));
              && LookedUp(q, net, universe + AllIds(old(routes.Contents())), initial, run, old(routes.Contents()), routes.Contents(), closest)
              && |closest| == |Found(q, run)|
              && (forall i :: 0 <= i < |closest| ==> closest[i].id == Some(Found(q, run)[i]) && AsNamed(q, net, initial, run, closest[i]))
              && TableGrew(q, net, initial, run, old(routes.Contents()), routes.Contents())
  {
    run := [];
    var shortlist, local := Begin(me, routes, target);
    initial := local;
    if !online || |shortlist.candidates| == 0 {
      closest := LocalContacts(routes, target);
      return;
    }
    SaneFrom(QueryOf(shortlist, routes, alpha), net, universe, routes.me, routes.Contents(), initial);
    ghost var known, before := universe + AllIds(routes.Contents()), routes.Contents();
    closest, run := IterateAndReturn(shortlist, routes, alpha, net, known, initial);
    LookupKeepsContacts(QueryOf(shortlist, routes, alpha), net, known, initial, run, before, routes.Contents(), closest);
  }

  // ---------------------------------------------------------------- value lookup

  /** None of the first `n` replies of a round carries an acceptable value. */
  ghost predicate Barren(net: DataNetwork, accept: Bytes -> bool, round: nat, ids: seq<KademliaId>, n: nat) {
    n <= |ids| && forall i :: 0 <= i < n ==> !Good(accept, net.reply(round, ids[i]))
  }

  /** After `seen` replies: the last one is the first acceptable one, or there was none yet. */
  ghost predicate Stopping(net: DataNetwork, accept: Bytes -> bool, round: nat, ids: seq<KademliaId>, hit: bool, seen: nat) {
    && seen <= |ids|
    && if hit then seen > 0 && Good(accept, net.reply(round, ids[seen - 1])) && Barren(net, accept, round, ids, seen - 1)
       else Barren(net, accept, round, ids, seen)
  }

  lemma StoppingNext(net: DataNetwork, accept: Bytes -> bool, round: nat, ids: seq<KademliaId>, seen: nat)
    requires seen < |ids| && Stopping(net, accept, round, ids, false, seen)
    ensures Stopping(net, accept, round, ids, Good(accept, net.reply(round, ids[seen])), seen + 1)
  {
  }

  /** How many replies of a round are received: those before the first acceptable value and that one, or all. */
  ghost predicate StopsAt(net: DataNetwork, accept: Bytes -> bool, round: nat, ids: seq<KademliaId>, hit: bool, seen: nat) {
    Stopping(net, accept, round, ids, hit, seen) && (hit || seen == |ids|)
  }

  /** The replies of one round, up to and including the first one with an acceptable value; `arrivals` is how they act on the shortlist. */
  method CollectData(shortlist: Shortlist, routes: RoutingTable, net: DataNetwork, round: nat, ids: seq<KademliaId>, arrivals: seq<Arrival>,
                     accept: Bytes -> bool)
    returns (hit: bool, seen: nat)
    requires routes.Valid() && |arrivals| == |ids|
    modifies shortlist`candidates, routes.buckets
    ensures routes.Valid() && StopsAt(net, accept, round, ids, hit, seen)
    ensures hit ==> seen > 0 && var r := net.reply(round, ids[seen - 1]); r.DataReply? && r.data != "" && accept(r.data)
    ensures forall i :: 0 <= i < (if hit then seen - 1 else |ids|) ==>
              var r := net.reply(round, ids[i]); r.DataReply? && r.data != "" ==> !accept(r.data)
    ensures Received(Eviction.NodeOf(routes.me), shortlist.me, old(shortlist.candidates), old(routes.Contents()),
                     arrivals, seen, shortlist.candidates, routes.Contents())
  {
    var probed := shortlist.candidates;
    ghost var node, table := Eviction.NodeOf(routes.me), routes.Contents();
    seen, hit := 0, false;
    NothingReceived(node, shortlist.me, probed, table, arrivals);
    while seen < |ids| && !hit
      invariant routes.Valid() && seen <= |ids|
      invariant Received(node, shortlist.me, probed, table, arrivals, seen, shortlist.candidates, routes.Contents())
      invariant Stopping(net, accept, round, ids, hit, seen)
      decreases |ids| - seen
    {
      ReceiveNext(shortlist, routes, probed, table, arrivals, seen);
      StoppingNext(net, accept, round, ids, seen);
      hit := Good(accept, net.reply(round, ids[seen]));
      seen := seen + 1;
    }
  }

  /** The value lookup has gone through `run` without an acceptable value and stands at its last stage. */
  ghost predicate Searching(q: Query, net: DataNetwork, accept: Bytes -> bool, initial: seq<Contact>, run: seq<Stage>,
                            cs: Candidates, table: Eviction.Table) {
    IsSearch(q, net, accept, initial, run) && Last(run).cs == cs && Last(run).table == table
  }

  /** The search ended with the reply at position `j` of its last round, the first acceptable one. */
  ghost predicate HitEnds(q: Query, net: DataNetwork, accept: Bytes -> bool, run: seq<Stage>, j: nat,
                          value: Bytes, from: KademliaId, table: Eviction.Table) {
    && IsHit(q, net, accept, run, j)
    && from == Arriving(q, net, run)[j] && value == net.reply(|run| - 1, from).data
    && table == TableHears(q.node, Last(run).table, Last(run).cs,
                           Arrivals(AsNetwork(net), |run| - 1, Arriving(q, net, run))[..j + 1])
  }

  /** A whole round without an acceptable value extends the search. */
  lemma RoundSearched(q: Query, net: DataNetwork, accept: Bytes -> bool, universe: set<KademliaId>, initial: seq<Contact>,
                      run: seq<Stage>, cs: Candidates, table: Eviction.Table)
    requires Sane(q, AsNetwork(net), universe, initial) && IsSearch(q, net, accept, initial, run) && More(q, Last(run).cs)
    requires var ids := Arriving(q, net, run);
             && StopsAt(net, accept, |run| - 1, ids, false, |ids|)
             && Received(q.node, q.me, Last(run).cs, Last(run).table, Arrivals(AsNetwork(net), |run| - 1, ids), |ids|, cs, table)
    ensures var longer := run + [AfterRound(q, AsNetwork(net), |run| - 1, Last(run))];
            Searching(q, net, accept, initial, longer, cs, table)
  {
    SomethingToProbe(q, AsNetwork(net), universe, initial, run);
    var probes, ids := Probes(q, Last(run).cs), Arriving(q, net, run);
    assert IsOrderOf(probes, AsNetwork(net).order(|run| - 1, probes));
    SearchSnoc(q, net, accept, initial, run);
    var arrivals := Arrivals(AsNetwork(net), |run| - 1, ids);
    assert arrivals[..|ids|] == arrivals == RoundOf(AsNetwork(net), |run| - 1, probes);
  }

  /** One round of the value lookup. */
  method DataRound(shortlist: Shortlist, routes: RoutingTable, net: DataNetwork, accept: Bytes -> bool, round: nat,
                   probes: seq<KademliaId>, ghost q: Query, ghost universe: set<KademliaId>, ghost initial: seq<Contact>,
                   ghost run: seq<Stage>)
    returns (found: Option<Bytes>, from: KademliaId, ghost longer: seq<Stage>, ghost j: nat)
    requires routes.Valid() && q.node == Eviction.NodeOf(routes.me) && q.me == shortlist.me
    requires Sane(q, AsNetwork(net), universe, initial)
    requires Searching(q, net, accept, initial, run, shortlist.candidates, routes.Contents()) && |run| == round + 1
    requires More(q, shortlist.candidates) && probes == Probes(q, shortlist.candidates)
    modifies shortlist`candidates, routes.buckets
    ensures routes.Valid()
    ensures found.None? ==> |longer| == |run| + 1 && longer[0] == run[0] &&
                            Searching(q, net, accept, initial, longer, shortlist.candidates, routes.Contents())
    ensures found.Some? ==> longer == run && HitEnds(q, net, accept, run, j, found.value, from, routes.Contents())
  {
    var ids := net.order(round, probes);
    var hit, seen := CollectData(shortlist, routes, net, round, ids, Arrivals(AsNetwork(net), round, ids), accept);
    if hit {
      from := ids[seen - 1];
      return Some(net.reply(round, from).data), from, run, seen - 1;
    }
    RoundSearched(q, net, accept, universe, initial, run, shortlist.candidates, routes.Contents());
    return None, shortlist.target, run + [AfterRound(q, AsNetwork(net), round, Last(run))], 0;
  }

  /** The value lookup loop. */
  method IterateData(shortlist: Shortlist, routes: RoutingTable, alpha: int, net: DataNetwork, accept: Bytes -> bool,
                     ghost universe: set<KademliaId>, ghost initial: seq<Contact>)
    returns (found: Option<Bytes>, from: KademliaId, ghost run: seq<Stage>, ghost j: nat)
    requires routes.Valid() && shortlist.candidates == AddAll(map[], shortlist.me, initial)
    requires Sane(QueryOf(shortlist, routes, alpha), AsNetwork(net), universe, initial)
    modifies shortlist`candidates, routes.buckets
    ensures routes.Valid()
    ensures IsSearch(QueryOf(shortlist, routes, alpha), net, accept, initial, run) && run[0].table == old(routes.Contents())
    ensures found.None? ==> !More(QueryOf(shortlist, routes, alpha), Last(run).cs) && routes.Contents() == Last(run).table
    ensures found.Some? ==> HitEnds(QueryOf(shortlist, routes, alpha), net, accept, run, j, found.value, from, routes.Contents())
  {
    ghost var q := QueryOf(shortlist, routes, alpha);
    var round := 0;
    from, j := shortlist.target, 0;
    run := [Stage(shortlist.candidates, Trace(map[], []), routes.Contents())];
    while true
      invariant routes.Valid() && |run| == round + 1 && run[0].table == old(routes.Contents())
      invariant Searching(q, net, accept, initial, run, shortlist.candidates, routes.Contents())
      decreases |universe| + 1 - |run|
    {
      var more := shortlist.HasUnqueriedInTopK(Buckets.BUCKET_SIZE);
      if !more {
        break;
      }
      RunGoesOn(q, AsNetwork(net), universe, initial, run);
      var probes := NextProbes(shortlist, alpha, q);
      if |probes| == 0 {
        break;
      }
      found, from, run, j := DataRound(shortlist, routes, net, accept, round, probes, q, universe, initial, run);
      if found.Some? {
        return;
      }
      round := round + 1;
    }
    return None, from, run, j;
  }

  /** The reply failed, was without a value, or carried one that is refused. */
  ghost predicate Useless(accept: Bytes -> bool, r: DataReply) {
    r.NoReply? || r.data == "" || !accept(r.data)
  }

  /** Every node probed in a complete round of a search was of no use. */
  lemma SearchMeans(q: Query, net: DataNetwork, accept: Bytes -> bool, initial: seq<Contact>, run: seq<Stage>)
    requires IsSearch(q, net, accept, initial, run)
    ensures forall n: nat, x: KademliaId :: ProbedIn(q, run, n, x) ==> Useless(accept, net.reply(n, x))
  {
    forall n: nat, x: KademliaId | ProbedIn(q, run, n, x) ensures Useless(accept, net.reply(n, x)) {
      assert Fruitless(q, net, accept, n, run[n]);
    }
  }

  /** The value of a hit is acceptable, and nobody whose reply arrived before it was of use. */
  lemma HitMeans(q: Query, net: DataNetwork, accept: Bytes -> bool, run: seq<Stage>, j: nat, value: Bytes, from: KademliaId, table: Eviction.Table)
    requires HitEnds(q, net, accept, run, j, value, from, table)
    ensures value != "" && accept(value) && from in Arriving(q, net, run)
    ensures net.reply(|run| - 1, from).DataReply? && net.reply(|run| - 1, from).data == value
    ensures forall i :: 0 <= i < j ==> Useless(accept, net.reply(|run| - 1, Arriving(q, net, run)[i]))
  {
  }

  /** The routing table after a hit: old peers, and nodes that answered, as they were first named. */
  lemma HitKeepsContacts(q: Query, net: DataNetwork, accept: Bytes -> bool, universe: set<KademliaId>, initial: seq<Contact>, run: seq<Stage>,
                         j: nat, value: Bytes, from: KademliaId, table: Eviction.Table, b: Eviction.BucketNo, p: Buckets.Peer)
    requires Sane(q, AsNetwork(net), universe, initial) && IsSearch(q, net, accept, initial, run)
    requires HitEnds(q, net, accept, run, j, value, from, table) && p in table[b]
    ensures p in run[0].table[b] ||
            (First(NamedBefore(q, AsNetwork(net), initial, run, |run| - 1), p.id) == Some(Contact(Some(p.id), p.address)) &&
             ((exists n: nat :: AnsweredIn(q, AsNetwork(net), run, n, p.id)) ||
              (p.id in Probes(q, Last(run).cs) && net.reply(|run| - 1, p.id).DataReply?)))
  {
    var n, ids := |run| - 1, Arriving(q, net, run);
    if p in Last(run).table[b] {
      TablePeers(q, AsNetwork(net), universe, initial, run, n, b, p);
    } else {
      var arrivals := Arrivals(AsNetwork(net), n, ids)[..j + 1];
      TableHearsAdds(q.node, Last(run).table, Last(run).cs, arrivals, b, p);
      var i :| 0 <= i < |arrivals| && arrivals[i].reply.Answered? && p == Buckets.Peer(arrivals[i].id, AddressOf(Last(run).cs, arrivals[i].id));
      LastProbeIsAsNamed(q, AsNetwork(net), universe, initial, run, i);
    }
  }

  /**
   * A search went through `run`. No node probed in its rounds was of use. If it found a value,
   * that is acceptable, came from `from` in the round after the last stage, and no reply that
   * arrived earlier in that round was of use; otherwise the closest `k` active candidates are
   * all queried.
   */
  ghost predicate Searched(q: Query, net: DataNetwork, accept: Bytes -> bool, initial: seq<Contact>, run: seq<Stage>, j: nat,
                           before: Eviction.Table, after: Eviction.Table, found: Option<Bytes>, from: Option<KademliaId>) {
    && IsSearch(q, net, accept, initial, run) && run[0].table == before
    && (forall n: nat, x: KademliaId :: ProbedIn(q, run, n, x) ==> Useless(accept, net.reply(n, x)))
    && match found
       case None => from.None? && !More(q, Last(run).cs) && after == Last(run).table
       case Some(value) =>
         && from.Some? && HitEnds(q, net, accept, run, j, value, from.value, after)
         && value != "" && accept(value)
         && net.reply(|run| - 1, from.value).DataReply? && net.reply(|run| - 1, from.value).data == value
         && forall i :: 0 <= i < j ==> Useless(accept, net.reply(|run| - 1, Arriving(q, net, run)[i]))
  }

  method Search(shortlist: Shortlist, routes: RoutingTable, alpha: int, net: DataNetwork, accept: Bytes -> bool,
                ghost universe: set<KademliaId>, ghost initial: seq<Contact>)
    returns (found: Option<Bytes>, from: Option<KademliaId>, ghost run: seq<Stage>, ghost j: nat)
    requires routes.Valid() && shortlist.candidates == AddAll(map[], shortlist.me, initial)
    requires Sane(QueryOf(shortlist, routes, alpha), AsNetwork(net), universe, initial)
    modifies shortlist`candidates, routes.buckets
    ensures routes.Valid()
    ensures Searched(QueryOf(shortlist, routes, alpha), net, accept, initial, run, j,
                     old(routes.Contents()), routes.Contents(), found, from)
  {
    var sender;
    found, sender, run, j := IterateData(shortlist, routes, alpha, net, accept, universe, initial);
    from := if found.Some? then Some(sender) else None;
    SearchMeans(QueryOf(shortlist, routes, alpha), net, accept, initial, run);
    if found.Some? {
      HitMeans(QueryOf(shortlist, routes, alpha), net, accept, run, j, found.value, sender, routes.Contents());
    }
  }

  /**
   * `LookupDataByID`: a local value wins. Otherwise every round of the search before the last
   * brought no acceptable value, and the search either ends with the first acceptable value
   * to arrive in its last round, or without one once the closest `k` active candidates have
   * all been queried.
   */
  method LookupData(me: Option<KademliaId>, routes: RoutingTable, target: KademliaId, local: Option<Bytes>, online: bool,
                    alpha: int, net: DataNetwork, accept: Bytes -> bool, ghost universe: set<KademliaId>)
    returns (found: Option<Bytes>, from: Option<KademliaId>, ghost initial: seq<Contact>, ghost run: seq<Stage>, ghost j: nat)
    requires routes.Valid() && AsNetwork(net).Within(universe)
    modifies routes.buckets
    ensures routes.Valid()
    ensures local.Some? ==> found == local && from == me && routes.Contents() == old(routes.Contents())
    ensures found.None? ==> from.None?
    ensures local.None? && !online ==> found.None? && routes.Contents() == old(routes.Contents())
    ensures local.None? && online ==>
              && IsLocalAnswer(routes.me, old(routes.Contents()), target, initial)
              && (Usable(me, initial) == {} ==> found.None? && routes.Contents() == old(routes.Contents()))
    ensures local.None? && online && Usable(me, initial) != {} ==>
              var q := Query(me, Eviction.NodeOf(routes.me), target, Buckets.BUCKET_SIZE, Alpha(alpha));
              && Sane(q, AsNetwork(net), universe + AllIds(old(routes.Contents())), initial)
              && Searched(q, net, accept, initial, run, j, old(routes.Contents()), routes.Contents(), found, from)
  {
    initial, run, j := [], [], 0;
    if local.Some? {
      return local, me, initial, run, j;
    }
    if !online {
      return None, None, initial, run, j;
    }
    var shortlist, contacts := Begin(me, routes, target);
    initial := contacts;
    if |shortlist.candidates| == 0 {
      return None, None, initial, run, j;
    }
    SaneFrom(QueryOf(shortlist, routes, alpha), AsNetwork(net), universe, routes.me, routes.Contents(), initial);
    found, from, run, j := Search(shortlist, routes, alpha, net, accept, universe + AllIds(routes.Contents()), initial);
  }
}
