/**
 * Which contact a lookup keeps for a node: the first one named for its identifier, in the
 * order in which the routing table and the replies named contacts. The shortlist, the result
 * and the routing table hold it as it was received, identifier and address together
 * (kademlia/shortlist.go:44-65 and 142-164, kademlia/kademlia.go:147-160).
 */
module Discovery {
  import opened Common
  import opened KademliaIds
  import opened Contacts
  import opened Shortlists
  import opened Rounds
  import opened LookupRuns
  import opened Buckets
  import opened Eviction

  /** The first contact named for an identifier. */
  ghost function First(named: seq<Contact>, x: KademliaId): (c: Option<Contact>)
    ensures c.Some? <==> exists i :: 0 <= i < |named| && named[i].id == Some(x)
    ensures c.Some? ==> exists i :: 0 <= i < |named| && named[i] == c.value && IsFirstAt(named, x, i)
    decreases |named|
  {
    if named == [] then None
    else
      var n := |named| - 1;
      var before := First(named[..n], x);
      if before.Some? then
        var i :| 0 <= i < n && named[..n][i] == before.value && IsFirstAt(named[..n], x, i);
        assert IsFirstAt(named, x, i) && named[i] == before.value;
        before
      else if named[n].id == Some(x) then
        assert IsFirstAt(named, x, n);
        Some(named[n])
      else None
  }

  ghost predicate IsFirstAt(named: seq<Contact>, x: KademliaId, i: nat)
    requires i < |named|
  {
    named[i].id == Some(x) && forall k :: 0 <= k < i ==> named[k].id != Some(x)
  }

  lemma {:induction false} FirstOfConcat(a: seq<Contact>, b: seq<Contact>, x: KademliaId)
    ensures First(a + b, x) == if First(a, x).Some? then First(a, x) else First(b, x)
    decreases |b|
  {
    if b == [] {
      assert a + b == a;
    } else {
      var n := |b| - 1;
      assert (a + b)[..|a + b| - 1] == a + b[..n];
      FirstOfConcat(a, b[..n], x);
    }
  }

  // ---------------------------------------------------------------- candidates

  /** The candidates are the nodes named, without the local one, each with the contact first named for it. */
  ghost predicate Knows(cs: Candidates, me: Option<KademliaId>, named: seq<Contact>) {
    forall x :: KnowsOne(cs, me, named, x)
  }

  ghost predicate KnowsOne(cs: Candidates, me: Option<KademliaId>, named: seq<Contact>, x: KademliaId) {
    if x in cs then me != Some(x) && First(named, x) == Some(cs[x].contact)
    else me == Some(x) || First(named, x) == None
  }

  lemma AddOneKnows(cs: Candidates, me: Option<KademliaId>, named: seq<Contact>, c: Contact)
    requires Knows(cs, me, named)
    ensures Knows(AddOne(cs, me, c), me, named + [c])
  {
    assert (named + [c])[..|named|] == named;
    forall x ensures KnowsOne(AddOne(cs, me, c), me, named + [c], x) {
      assert KnowsOne(cs, me, named, x);
    }
  }

  lemma {:induction false} AddAllKnows(cs: Candidates, me: Option<KademliaId>, named: seq<Contact>, contacts: seq<Contact>)
    requires Knows(cs, me, named)
    ensures Knows(AddAll(cs, me, contacts), me, named + contacts)
    decreases |contacts|
  {
    if contacts == [] {
      assert named + contacts == named;
    } else {
      var n := |contacts| - 1;
      AddAllKnows(cs, me, named, contacts[..n]);
      AddOneKnows(AddAll(cs, me, contacts[..n]), me, named + contacts[..n], contacts[n]);
      assert named + contacts[..n] + [contacts[n]] == named + contacts;
    }
  }

  lemma MarkKnows(cs: Candidates, me: Option<KademliaId>, named: seq<Contact>, id: Option<KademliaId>, status: Status)
    requires Knows(cs, me, named)
    ensures Knows(Mark(cs, id, status), me, named)
  {
    forall x ensures KnowsOne(Mark(cs, id, status), me, named, x) {
      assert KnowsOne(cs, me, named, x);
    }
  }

  /** The contacts that replies name, in order of arrival. */
  ghost function NamedBy(arrivals: seq<Arrival>): seq<Contact>
    decreases |arrivals|
  {
    if arrivals == [] then []
    else
      var n := |arrivals| - 1;
      NamedBy(arrivals[..n]) + if arrivals[n].reply.Answered? then arrivals[n].reply.contacts else []
  }

  lemma {:induction false} DeliverAllKnows(cs: Candidates, me: Option<KademliaId>, named: seq<Contact>, arrivals: seq<Arrival>)
    requires Knows(cs, me, named)
    ensures Knows(DeliverAll(cs, me, arrivals), me, named + NamedBy(arrivals))
    decreases |arrivals|
  {
    if arrivals == [] {
      assert named + NamedBy(arrivals) == named;
    } else {
      var n := |arrivals| - 1;
      var before, a := DeliverAll(cs, me, arrivals[..n]), arrivals[n];
      DeliverAllKnows(cs, me, named, arrivals[..n]);
      MarkKnows(before, me, named + NamedBy(arrivals[..n]), Some(a.id), Verdict(a.reply));
      if a.reply.Answered? {
        AddAllKnows(Mark(before, Some(a.id), Queried), me, named + NamedBy(arrivals[..n]), a.reply.contacts);
        assert named + NamedBy(arrivals[..n]) + a.reply.contacts == named + NamedBy(arrivals);
      } else {
        assert named + NamedBy(arrivals[..n]) == named + NamedBy(arrivals);
      }
    }
  }

  // ---------------------------------------------------------------- runs

  /** The contacts named before stage `n` of a run, in order. */
  ghost function NamedBefore(q: Query, net: Network, initial: seq<Contact>, run: seq<Stage>, n: nat): seq<Contact>
    requires n < |run|
  {
    if n == 0 then initial
    else NamedBefore(q, net, initial, run, n - 1) + NamedBy(RoundOf(net, n - 1, Probes(q, run[n - 1].cs)))
  }

  ghost predicate StageKnows(q: Query, net: Network, initial: seq<Contact>, run: seq<Stage>, n: nat) {
    n < |run| && Knows(run[n].cs, q.me, NamedBefore(q, net, initial, run, n))
  }

  /** In every stage each candidate is kept as it was first named. */
  lemma StagesKnow(q: Query, net: Network, initial: seq<Contact>, run: seq<Stage>, n: nat)
    requires LookupRuns.IsRun(q, net, initial, run) && n < |run|
    ensures StageKnows(q, net, initial, run, n)
  {
    FirstStageKnows(q, net, initial, run);
    forall k: nat | k < n ensures Keeps(Knowing(q, net, initial, run), k) {
      KnowingIsKept(q, net, initial, run, k);
    }
    Persists(Knowing(q, net, initial, run), 0, n);
  }

  ghost function Knowing(q: Query, net: Network, initial: seq<Contact>, run: seq<Stage>): nat -> bool {
    (k: nat) => StageKnows(q, net, initial, run, k)
  }

  lemma KnowingIsKept(q: Query, net: Network, initial: seq<Contact>, run: seq<Stage>, n: nat)
    requires LookupRuns.IsRun(q, net, initial, run) && n + 1 < |run|
    ensures Keeps(Knowing(q, net, initial, run), n)
  {
    if StageKnows(q, net, initial, run, n) {
      NextKnows(q, net, initial, run, n);
    }
  }

  lemma FirstStageKnows(q: Query, net: Network, initial: seq<Contact>, run: seq<Stage>)
    requires LookupRuns.IsRun(q, net, initial, run)
    ensures StageKnows(q, net, initial, run, 0)
  {
    AddAllKnows(map[], q.me, [], initial);
    assert [] + initial == initial;
  }

  lemma NextKnows(q: Query, net: Network, initial: seq<Contact>, run: seq<Stage>, n: nat)
    requires LookupRuns.IsRun(q, net, initial, run) && n + 1 < |run| && StageKnows(q, net, initial, run, n)
    ensures StageKnows(q, net, initial, run, n + 1)
  {
    assert Advances(q, net, run, n);
    DeliverAllKnows(run[n].cs, q.me, NamedBefore(q, net, initial, run, n), RoundOf(net, n, Probes(q, run[n].cs)));
  }

  /** What a stage names stays named, and first. */
  lemma FirstStays(q: Query, net: Network, initial: seq<Contact>, run: seq<Stage>, n: nat, x: KademliaId, c: Contact)
    requires n + 1 < |run| && First(NamedBefore(q, net, initial, run, n), x) == Some(c)
    ensures First(NamedBefore(q, net, initial, run, n + 1), x) == Some(c)
  {
    FirstOfConcat(NamedBefore(q, net, initial, run, n), NamedBy(RoundOf(net, n, Probes(q, run[n].cs))), x);
  }

  lemma {:induction false} NamedByReply(arrivals: seq<Arrival>, c: Contact) returns (i: nat)
    requires c in NamedBy(arrivals)
    ensures i < |arrivals| && arrivals[i].reply.Answered? && c in arrivals[i].reply.contacts
    decreases |arrivals|
  {
    var n := |arrivals| - 1;
    i := n;
    if c in NamedBy(arrivals[..n]) {
      i := NamedByReply(arrivals[..n], c);
    }
  }

  /** The node answered a probe of the run and named the contact. */
  ghost predicate NamedIn(q: Query, net: Network, run: seq<Stage>, n: nat, y: KademliaId, c: Contact) {
    AnsweredIn(q, net, run, n, y) && c in net.reply(n, y).contacts
  }

  ghost predicate NamedInSome(q: Query, net: Network, run: seq<Stage>, n: nat, c: Contact) {
    exists y: KademliaId :: NamedIn(q, net, run, n, y, c)
  }

  ghost predicate IsNamedBefore(q: Query, net: Network, initial: seq<Contact>, run: seq<Stage>, n: nat, c: Contact) {
    n < |run| && c in NamedBefore(q, net, initial, run, n)
  }

  lemma NamedNext(q: Query, net: Network, universe: set<KademliaId>, initial: seq<Contact>, run: seq<Stage>, n: nat, c: Contact)
    requires Sane(q, net, universe, initial) && LookupRuns.IsRun(q, net, initial, run)
    requires IsNamedBefore(q, net, initial, run, n + 1, c) && !IsNamedBefore(q, net, initial, run, n, c)
    ensures NamedInSome(q, net, run, n, c)
  {
    var y := NamedInRound(q, net, universe, initial, run, n, c);
  }

  /** Whatever was named came from the routing table or from an answering node's reply. */
  lemma NamedSource(q: Query, net: Network, universe: set<KademliaId>, initial: seq<Contact>, run: seq<Stage>, n: nat, c: Contact)
    requires Sane(q, net, universe, initial) && LookupRuns.IsRun(q, net, initial, run) && n < |run|
    requires IsNamedBefore(q, net, initial, run, n, c)
    ensures c in initial || exists m: nat, y: KademliaId :: NamedIn(q, net, run, m, y, c)
  {
    if c !in initial {
      forall k: nat | k < n ensures Caused(NamedUntil(q, net, initial, run, c), NamedAt(q, net, run, c), k) {
        NamingIsCaused(q, net, universe, initial, run, k, c);
      }
      NotNamedAtFirst(q, net, initial, run, c);
      var m := HasCause(NamedUntil(q, net, initial, run, c), NamedAt(q, net, run, c), n);
      NamedAtMeans(q, net, run, m, c);
    }
  }

  ghost function NamedUntil(q: Query, net: Network, initial: seq<Contact>, run: seq<Stage>, c: Contact): nat -> bool {
    (k: nat) => IsNamedBefore(q, net, initial, run, k, c)
  }

  ghost function NamedAt(q: Query, net: Network, run: seq<Stage>, c: Contact): nat -> bool {
    (k: nat) => NamedInSome(q, net, run, k, c)
  }

  lemma NamedAtMeans(q: Query, net: Network, run: seq<Stage>, n: nat, c: Contact)
    requires NamedAt(q, net, run, c)(n)
    ensures exists m: nat, y: KademliaId :: NamedIn(q, net, run, m, y, c)
  {
    var y: KademliaId :| NamedIn(q, net, run, n, y, c);
  }

  lemma NotNamedAtFirst(q: Query, net: Network, initial: seq<Contact>, run: seq<Stage>, c: Contact)
    requires c !in initial
    ensures !NamedUntil(q, net, initial, run, c)(0)
  {
  }

  lemma NamingIsCaused(q: Query, net: Network, universe: set<KademliaId>, initial: seq<Contact>, run: seq<Stage>, n: nat, c: Contact)
    requires Sane(q, net, universe, initial) && LookupRuns.IsRun(q, net, initial, run)
    ensures Caused(NamedUntil(q, net, initial, run, c), NamedAt(q, net, run, c), n)
  {
    if IsNamedBefore(q, net, initial, run, n + 1, c) && !IsNamedBefore(q, net, initial, run, n, c) {
      NamedNext(q, net, universe, initial, run, n, c);
    }
  }

  lemma NamedInRound(q: Query, net: Network, universe: set<KademliaId>, initial: seq<Contact>, run: seq<Stage>, n: nat, c: Contact)
    returns (y: KademliaId)
    requires Sane(q, net, universe, initial) && LookupRuns.IsRun(q, net, initial, run) && n + 1 < |run|
    requires c in NamedBy(RoundOf(net, n, Probes(q, run[n].cs)))
    ensures NamedIn(q, net, run, n, y, c)
  {
    var i := NamedByReply(RoundOf(net, n, Probes(q, run[n].cs)), c);
    y := net.order(n, Probes(q, run[n].cs))[i];
    RoundProbes(q, net, universe, initial, run, n, i);
  }

  lemma RoundProbes(q: Query, net: Network, universe: set<KademliaId>, initial: seq<Contact>, run: seq<Stage>, n: nat, i: nat)
    requires Sane(q, net, universe, initial) && LookupRuns.IsRun(q, net, initial, run) && n + 1 < |run|
    requires i < |net.order(n, Probes(q, run[n].cs))|
    ensures net.order(n, Probes(q, run[n].cs))[i] in Probes(q, run[n].cs)
  {
    StagesOk(q, net, universe, initial, run, n);
    assert Advances(q, net, run, n);
    RoundOk(q, net, universe, initial, n, run[n]);
    assert IsOrderOf(Probes(q, run[n].cs), net.order(n, Probes(q, run[n].cs)));
    assert net.order(n, Probes(q, run[n].cs))[i] in net.order(n, Probes(q, run[n].cs));
  }

  /** The contact of the node was named first for it, by the routing table or by an answering node. */
  ghost predicate AsNamed(q: Query, net: Network, initial: seq<Contact>, run: seq<Stage>, c: Contact) {
    && run != [] && c.id.Some? && First(NamedBefore(q, net, initial, run, |run| - 1), c.id.value) == Some(c)
    && (c in initial || exists n: nat, y: KademliaId :: NamedIn(q, net, run, n, y, c))
  }

  lemma FirstIsNamed(named: seq<Contact>, x: KademliaId)
    ensures First(named, x).Some? ==> First(named, x).value in named && First(named, x).value.id == Some(x)
  {
  }

  /** Every candidate of a run, and so every contact it returns, is kept as it was first named. */
  lemma CandidatesAreAsNamed(q: Query, net: Network, universe: set<KademliaId>, initial: seq<Contact>, run: seq<Stage>, x: KademliaId)
    requires Sane(q, net, universe, initial) && LookupRuns.IsRun(q, net, initial, run) && x in Last(run).cs
    ensures Last(run).cs[x].contact.id == Some(x) && AsNamed(q, net, initial, run, Last(run).cs[x].contact)
  {
    var m := |run| - 1;
    StagesKnow(q, net, initial, run, m);
    assert KnowsOne(run[m].cs, q.me, NamedBefore(q, net, initial, run, m), x);
    FirstIsNamed(NamedBefore(q, net, initial, run, m), x);
    NamedSource(q, net, universe, initial, run, m, run[m].cs[x].contact);
  }

  lemma AddedNeverShrinks(b: Peers, p: Peer, x: KademliaId)
    ensures |b| <= |Added(b, p)|
    ensures Holds(b, x) ==> Holds(Added(b, p), x)
    ensures Holds(Added(b, p), p.id) || |b| >= BUCKET_SIZE
  {
    var i, r := Find(b, p.id), Added(b, p);
    if Holds(b, x) {
      var k :| 0 <= k < |b| && b[k].id == x;
      if i < |b| {
        assert k == i || r[if k < i then k + 1 else k].id == x;
        assert r[0] == b[i];
      } else if |b| < BUCKET_SIZE {
        assert r[k + 1].id == x;
      }
    }
    assert Accepts(b, p) ==> r[0].id == p.id;
  }

  /** The peers a round adds are answering nodes, with the addresses known for them. */
  lemma {:induction false} TableHearsAdds(node: Node, table: Table, cs: Candidates, arrivals: seq<Arrival>, b: BucketNo, p: Peer)
    requires p in TableHears(node, table, cs, arrivals)[b]
    ensures p in table[b] ||
            exists i :: 0 <= i < |arrivals| && arrivals[i].reply.Answered? && p == Peer(arrivals[i].id, AddressOf(cs, arrivals[i].id))
    decreases |arrivals|
  {
    if arrivals != [] {
      var n := |arrivals| - 1;
      var before := TableHears(node, table, cs, arrivals[..n]);
      if p in before[b] {
        TableHearsAdds(node, table, cs, arrivals[..n], b, p);
        if p !in table[b] {
          var i :| 0 <= i < n && arrivals[..n][i].reply.Answered? && p == Peer(arrivals[..n][i].id, AddressOf(cs, arrivals[..n][i].id));
          assert arrivals[i] == arrivals[..n][i];
        }
      }
    }
  }

  /** Nobody leaves a bucket, and an answering node is in its bucket unless that is full. */
  lemma {:induction false} TableHearsStores(node: Node, table: Table, cs: Candidates, arrivals: seq<Arrival>, x: KademliaId)
    ensures var was, now := table[node.home(x)], TableHears(node, table, cs, arrivals)[node.home(x)];
            && |was| <= |now| && (Holds(was, x) ==> Holds(now, x))
            && ((exists i :: 0 <= i < |arrivals| && arrivals[i].reply.Answered? && arrivals[i].id == x) ==>
                  Holds(now, x) || |now| >= BUCKET_SIZE)
    decreases |arrivals|
  {
    if arrivals != [] {
      var n := |arrivals| - 1;
      var before, a := TableHears(node, table, cs, arrivals[..n]), arrivals[n];
      TableHearsStores(node, table, cs, arrivals[..n], x);
      assert forall i :: 0 <= i < n ==> arrivals[..n][i] == arrivals[i];
      if a.reply.Answered? && node.home(a.id) == node.home(x) {
        AddedNeverShrinks(before[node.home(x)], Peer(a.id, AddressOf(cs, a.id)), x);
      }
    }
  }

  /** A peer that a lookup put into the routing table: an answering node, as it was first named. */
  ghost predicate IsNewPeer(q: Query, net: Network, initial: seq<Contact>, run: seq<Stage>, n: nat, p: Peer)
    requires n < |run|
  {
    && First(NamedBefore(q, net, initial, run, n), p.id) == Some(Contact(Some(p.id), p.address))
    && exists m: nat :: m < n && AnsweredIn(q, net, run, m, p.id)
  }

  /** Every peer of the routing table was there before the lookup or is an answering node, as it was first named. */
  lemma {:induction false} TablePeers(q: Query, net: Network, universe: set<KademliaId>, initial: seq<Contact>, run: seq<Stage>,
                                      n: nat, b: BucketNo, p: Peer)
    requires Sane(q, net, universe, initial) && LookupRuns.IsRun(q, net, initial, run) && n < |run| && p in run[n].table[b]
    ensures p in run[0].table[b] || IsNewPeer(q, net, initial, run, n, p)
  {
    if n > 0 {
      if p in run[n - 1].table[b] {
        TablePeers(q, net, universe, initial, run, n - 1, b, p);
        if p !in run[0].table[b] {
          FirstStays(q, net, initial, run, n - 1, p.id, Contact(Some(p.id), p.address));
        }
      } else {
        assert Advances(q, net, run, n - 1);
        NewInRound(q, net, universe, initial, run, n - 1, b, p);
        FirstStays(q, net, initial, run, n - 1, p.id, Contact(Some(p.id), p.address));
      }
    }
  }

  lemma NewInRound(q: Query, net: Network, universe: set<KademliaId>, initial: seq<Contact>, run: seq<Stage>,
                   n: nat, b: BucketNo, p: Peer)
    requires Sane(q, net, universe, initial) && LookupRuns.IsRun(q, net, initial, run) && n + 1 < |run|
    requires p in TableHears(q.node, run[n].table, run[n].cs, RoundOf(net, n, Probes(q, run[n].cs)))[b] && p !in run[n].table[b]
    ensures AnsweredIn(q, net, run, n, p.id)
    ensures First(NamedBefore(q, net, initial, run, n), p.id) == Some(Contact(Some(p.id), p.address))
  {
    var arrivals := RoundOf(net, n, Probes(q, run[n].cs));
    TableHearsAdds(q.node, run[n].table, run[n].cs, arrivals, b, p);
    var i :| 0 <= i < |arrivals| && arrivals[i].reply.Answered? && p == Peer(arrivals[i].id, AddressOf(run[n].cs, arrivals[i].id));
    RoundProbes(q, net, universe, initial, run, n, i);
    ProbeIsAsNamed(q, net, universe, initial, run, n, p.id);
  }

  lemma ProbeIsAsNamed(q: Query, net: Network, universe: set<KademliaId>, initial: seq<Contact>, run: seq<Stage>, n: nat, x: KademliaId)
    requires Sane(q, net, universe, initial) && LookupRuns.IsRun(q, net, initial, run) && ProbedIn(q, run, n, x)
    ensures x in run[n].cs
    ensures First(NamedBefore(q, net, initial, run, n), x) == Some(Contact(Some(x), AddressOf(run[n].cs, x)))
  {
    StagesOk(q, net, universe, initial, run, n);
    assert Advances(q, net, run, n);
    RoundOk(q, net, universe, initial, n, run[n]);
    StagesKnow(q, net, initial, run, n);
    assert KnowsOne(run[n].cs, q.me, NamedBefore(q, net, initial, run, n), x);
    FirstIsNamed(NamedBefore(q, net, initial, run, n), x);
  }

  /** The node is in its bucket, or that is full. */
  ghost predicate StoredOrFull(q: Query, table: Table, x: KademliaId) {
    Holds(table[q.node.home(x)], x) || |table[q.node.home(x)]| >= BUCKET_SIZE
  }

  lemma StoredStays(q: Query, net: Network, initial: seq<Contact>, run: seq<Stage>, n: nat, x: KademliaId)
    requires LookupRuns.IsRun(q, net, initial, run) && n + 1 < |run| && StoredOrFull(q, run[n].table, x)
    ensures StoredOrFull(q, run[n + 1].table, x)
  {
    assert Advances(q, net, run, n);
    TableHearsStores(q.node, run[n].table, run[n].cs, RoundOf(net, n, Probes(q, run[n].cs)), x);
  }

  lemma AnsweringIsStored(q: Query, net: Network, universe: set<KademliaId>, initial: seq<Contact>, run: seq<Stage>, n: nat, x: KademliaId)
    requires Sane(q, net, universe, initial) && LookupRuns.IsRun(q, net, initial, run) && AnsweredIn(q, net, run, n, x)
    ensures StoredOrFull(q, run[n + 1].table, x)
  {
    assert Advances(q, net, run, n);
    SomeArrival(q, net, universe, initial, run, n, x);
    TableHearsStores(q.node, run[n].table, run[n].cs, RoundOf(net, n, Probes(q, run[n].cs)), x);
  }

  /** The probes of the round after the last stage are known as they were first named, too. */
  lemma LastProbeIsAsNamed(q: Query, net: Network, universe: set<KademliaId>, initial: seq<Contact>, run: seq<Stage>, i: nat)
    requires Sane(q, net, universe, initial) && LookupRuns.IsRun(q, net, initial, run) && More(q, Last(run).cs)
    requires i < |net.order(|run| - 1, Probes(q, Last(run).cs))|
    ensures var x := net.order(|run| - 1, Probes(q, Last(run).cs))[i];
            && x in Probes(q, Last(run).cs) && x in Last(run).cs
            && First(NamedBefore(q, net, initial, run, |run| - 1), x) == Some(Contact(Some(x), AddressOf(Last(run).cs, x)))
  {
    var n, probes := |run| - 1, Probes(q, Last(run).cs);
    StagesOk(q, net, universe, initial, run, n);
    RoundOk(q, net, universe, initial, n, run[n]);
    assert IsOrderOf(probes, net.order(n, probes));
    var x := net.order(n, probes)[i];
    assert x in net.order(n, probes);
    StagesKnow(q, net, initial, run, n);
    assert KnowsOne(run[n].cs, q.me, NamedBefore(q, net, initial, run, n), x);
    FirstIsNamed(NamedBefore(q, net, initial, run, n), x);
  }

  /** Every node that answered is in the routing table from then on, unless its bucket is full. */
  lemma {:induction false} AnsweringNodeIsStored(q: Query, net: Network, universe: set<KademliaId>, initial: seq<Contact>, run: seq<Stage>,
                                                 n: nat, m: nat, x: KademliaId)
    requires Sane(q, net, universe, initial) && LookupRuns.IsRun(q, net, initial, run)
    requires AnsweredIn(q, net, run, n, x) && n < m < |run|
    ensures StoredOrFull(q, run[m].table, x)
    decreases m
  {
    if m == n + 1 {
      AnsweringIsStored(q, net, universe, initial, run, n, x);
    } else {
      AnsweringNodeIsStored(q, net, universe, initial, run, n, m - 1, x);
      StoredStays(q, net, initial, run, m - 1, x);
    }
  }

  lemma SomeArrival(q: Query, net: Network, universe: set<KademliaId>, initial: seq<Contact>, run: seq<Stage>, n: nat, x: KademliaId)
    requires Sane(q, net, universe, initial) && LookupRuns.IsRun(q, net, initial, run) && AnsweredIn(q, net, run, n, x)
    ensures var arrivals := RoundOf(net, n, Probes(q, run[n].cs));
            exists i :: 0 <= i < |arrivals| && arrivals[i].reply.Answered? && arrivals[i].id == x
  {
    StagesOk(q, net, universe, initial, run, n);
    assert Advances(q, net, run, n);
    RoundOk(q, net, universe, initial, n, run[n]);
    var i := ArrivalOf(net, universe, n, Probes(q, run[n].cs), x);
  }
}
