/**
 * One round of an iterative lookup (kademlia/kademlia.go:99-163): the replies to a round's
 * probes, what they make of the candidates in whatever order they arrive, and what every
 * round keeps.
 */
module Rounds {
  import opened Common
  import opened KademliaIds
  import opened Ranking
  import opened Contacts
  import opened Shortlists

  const DEFAULT_ALPHA := 3

  datatype Reply = Failed | Answered(contacts: seq<Contact>)

  /** A reply together with the probed node it belongs to. */
  datatype Arrival = Arrival(id: KademliaId, reply: Reply)

  // ---------------------------------------------------------------- one round of replies

  function Deliver(cs: Candidates, me: Option<KademliaId>, a: Arrival): Candidates {
    match a.reply
    case Failed => Mark(cs, Some(a.id), Unresponsive)
    case Answered(contacts) => AddAll(Mark(cs, Some(a.id), Queried), me, contacts)
  }

  function DeliverAll(cs: Candidates, me: Option<KademliaId>, arrivals: seq<Arrival>): Candidates
    decreases |arrivals|
  {
    if arrivals == [] then cs
    else Deliver(DeliverAll(cs, me, arrivals[..|arrivals| - 1]), me, arrivals[|arrivals| - 1])
  }

  ghost predicate DistinctIds(arrivals: seq<Arrival>) {
    forall i, j :: 0 <= i < j < |arrivals| ==> arrivals[i].id != arrivals[j].id
  }

  /** The identifiers that a set of replies contributes. */
  ghost predicate Contributed(me: Option<KademliaId>, arrivals: seq<Arrival>, x: KademliaId) {
    exists i :: 0 <= i < |arrivals| && arrivals[i].reply.Answered? && x in Usable(me, arrivals[i].reply.contacts)
  }

  function Verdict(reply: Reply): Status {
    if reply.Failed? then Unresponsive else Queried
  }

  lemma DeliverEffect(cs: Candidates, me: Option<KademliaId>, a: Arrival)
    requires WellKeyed(cs, me) && a.id in cs
    ensures var r := Deliver(cs, me, a);
            && WellKeyed(r, me)
            && r.Keys == cs.Keys + (if a.reply.Answered? then Usable(me, a.reply.contacts) else {})
            && r[a.id].status == Verdict(a.reply)
            && (forall x :: x in cs && x != a.id ==> r[x] == cs[x])
            && (forall x :: x in r && x !in cs ==> r[x].status == Unqueried)
  {
    var marked := Mark(cs, Some(a.id), Verdict(a.reply));
    assert WellKeyed(marked, me) && marked.Keys == cs.Keys;
    if a.reply.Answered? {
      AddAllEffect(marked, me, a.reply.contacts);
    }
  }

  /** What a round makes of the candidates, without reference to the order of its replies. */
  ghost predicate RoundResult(cs: Candidates, me: Option<KademliaId>, arrivals: seq<Arrival>, r: Candidates) {
    && (forall x :: x in r <==> x in cs || Contributed(me, arrivals, x))
    && (forall i :: 0 <= i < |arrivals| ==> arrivals[i].id in r && r[arrivals[i].id].status == Verdict(arrivals[i].reply))
    && (forall x :: x in cs && !Replied(arrivals, x) ==> r[x] == cs[x])
    && (forall x :: x in r && x !in cs ==> r[x].status == Unqueried)
  }

  ghost predicate Replied(arrivals: seq<Arrival>, x: KademliaId) {
    exists i :: 0 <= i < |arrivals| && arrivals[i].id == x
  }

  lemma {:induction false} DeliverAllEffect(cs: Candidates, me: Option<KademliaId>, arrivals: seq<Arrival>)
    requires WellKeyed(cs, me) && DistinctIds(arrivals)
    requires forall i :: 0 <= i < |arrivals| ==> arrivals[i].id in cs
    ensures WellKeyed(DeliverAll(cs, me, arrivals), me)
    ensures RoundResult(cs, me, arrivals, DeliverAll(cs, me, arrivals))
    decreases |arrivals|
  {
    if arrivals != [] {
      var n := |arrivals| - 1;
      var before, a := arrivals[..n], arrivals[n];
      assert forall i :: 0 <= i < n ==> before[i] == arrivals[i];
      DeliverAllEffect(cs, me, before);
      assert a.id in cs;
      DeliverEffect(DeliverAll(cs, me, before), me, a);
      RoundSnoc(cs, me, arrivals, DeliverAll(cs, me, before), DeliverAll(cs, me, arrivals));
    }
  }

  lemma RoundSnoc(cs: Candidates, me: Option<KademliaId>, arrivals: seq<Arrival>, mid: Candidates, r: Candidates)
    requires arrivals != [] && DistinctIds(arrivals) && forall i :: 0 <= i < |arrivals| ==> arrivals[i].id in cs
    requires var a := arrivals[|arrivals| - 1];
             && RoundResult(cs, me, arrivals[..|arrivals| - 1], mid)
             && a.id in mid
             && r.Keys == mid.Keys + (if a.reply.Answered? then Usable(me, a.reply.contacts) else {})
             && r[a.id].status == Verdict(a.reply)
             && (forall x :: x in mid && x != a.id ==> r[x] == mid[x])
             && (forall x :: x in r && x !in mid ==> r[x].status == Unqueried)
    ensures RoundResult(cs, me, arrivals, r)
  {
    ContributedSnoc(me, arrivals);
    RepliesSnoc(arrivals, mid, r);
    OthersSnoc(cs, arrivals, mid, r);
  }

  lemma RepliesSnoc(arrivals: seq<Arrival>, mid: Candidates, r: Candidates)
    requires arrivals != [] && DistinctIds(arrivals)
    requires var a, before := arrivals[|arrivals| - 1], arrivals[..|arrivals| - 1];
             && (forall i :: 0 <= i < |before| ==> before[i].id in mid && mid[before[i].id].status == Verdict(before[i].reply))
             && mid.Keys <= r.Keys && a.id in r && r[a.id].status == Verdict(a.reply)
             && (forall x :: x in mid && x != a.id ==> r[x] == mid[x])
    ensures forall i :: 0 <= i < |arrivals| ==> arrivals[i].id in r && r[arrivals[i].id].status == Verdict(arrivals[i].reply)
  {
    var n := |arrivals| - 1;
    forall i | 0 <= i < |arrivals| ensures arrivals[i].id in r && r[arrivals[i].id].status == Verdict(arrivals[i].reply) {
      if i < n {
        assert arrivals[..n][i] == arrivals[i];
      }
    }
  }

  lemma OthersSnoc(cs: Candidates, arrivals: seq<Arrival>, mid: Candidates, r: Candidates)
    requires arrivals != []
    requires var a, before := arrivals[|arrivals| - 1], arrivals[..|arrivals| - 1];
             && cs.Keys <= mid.Keys <= r.Keys
             && (forall x :: x in cs && !Replied(before, x) ==> mid[x] == cs[x])
             && (forall x :: x in mid && x != a.id ==> r[x] == mid[x])
    ensures forall x :: x in cs && !Replied(arrivals, x) ==> r[x] == cs[x]
  {
    var n := |arrivals| - 1;
    var before := arrivals[..n];
    assert forall i :: 0 <= i < n ==> before[i] == arrivals[i];
    forall x | x in cs && !Replied(arrivals, x) ensures r[x] == cs[x] {
      assert x != arrivals[n].id;
    }
  }

  lemma ContributedSnoc(me: Option<KademliaId>, arrivals: seq<Arrival>)
    requires arrivals != []
    ensures var n := |arrivals| - 1;
            forall x :: Contributed(me, arrivals, x) <==>
              Contributed(me, arrivals[..n], x) ||
              (arrivals[n].reply.Answered? && x in Usable(me, arrivals[n].reply.contacts))
  {
    var n := |arrivals| - 1;
    var before := arrivals[..n];
    assert forall i :: 0 <= i < n ==> before[i] == arrivals[i];
    forall x | Contributed(me, arrivals, x)
      ensures Contributed(me, before, x) || (arrivals[n].reply.Answered? && x in Usable(me, arrivals[n].reply.contacts))
    {
      var i :| 0 <= i < |arrivals| && arrivals[i].reply.Answered? && x in Usable(me, arrivals[i].reply.contacts);
      if i < n {
        assert before[i].reply.Answered? && x in Usable(me, before[i].reply.contacts);
      }
    }
    forall x | Contributed(me, before, x) ensures Contributed(me, arrivals, x) {
      var i :| 0 <= i < |before| && before[i].reply.Answered? && x in Usable(me, before[i].reply.contacts);
      assert arrivals[i].reply.Answered? && x in Usable(me, arrivals[i].reply.contacts);
    }
  }

  function Statuses(cs: Candidates): map<KademliaId, Status> {
    map x | x in cs :: cs[x].status
  }

  /** Two arrival orders of the same replies. */
  ghost predicate SameReplies(a: seq<Arrival>, b: seq<Arrival>) {
    (forall i :: 0 <= i < |a| ==> a[i] in b) && (forall i :: 0 <= i < |b| ==> b[i] in a)
  }

  /**
   * Confluence: the statuses after a round depend only on the statuses before it and on its
   * replies, not on the order in which they arrived.
   */
  lemma RoundIsConfluent(cs: Candidates, cs': Candidates, me: Option<KademliaId>, a: seq<Arrival>, b: seq<Arrival>)
    requires WellKeyed(cs, me) && WellKeyed(cs', me) && Statuses(cs) == Statuses(cs')
    requires DistinctIds(a) && DistinctIds(b) && SameReplies(a, b)
    requires forall i :: 0 <= i < |a| ==> a[i].id in cs
    ensures Statuses(DeliverAll(cs, me, a)) == Statuses(DeliverAll(cs', me, b))
  {
    StatusKeys(cs, cs');
    forall i | 0 <= i < |b| ensures b[i].id in cs' {
      assert b[i] in a;
    }
    DeliverAllEffect(cs, me, a);
    DeliverAllEffect(cs', me, b);
    StatusesAlike(cs, cs', me, a, b, DeliverAll(cs, me, a), DeliverAll(cs', me, b));
  }

  lemma StatusKeys(cs: Candidates, cs': Candidates)
    requires Statuses(cs) == Statuses(cs')
    ensures cs.Keys == cs'.Keys && forall x :: x in cs ==> cs[x].status == cs'[x].status
  {
    assert cs.Keys == Statuses(cs).Keys && cs'.Keys == Statuses(cs').Keys;
    forall x | x in cs ensures cs[x].status == cs'[x].status {
      assert Statuses(cs)[x] == Statuses(cs')[x];
    }
  }

  lemma StatusesAlike(cs: Candidates, cs': Candidates, me: Option<KademliaId>, a: seq<Arrival>, b: seq<Arrival>,
                      ra: Candidates, rb: Candidates)
    requires Statuses(cs) == Statuses(cs') && SameReplies(a, b)
    requires RoundResult(cs, me, a, ra) && RoundResult(cs', me, b, rb)
    ensures Statuses(ra) == Statuses(rb)
  {
    StatusKeys(cs, cs');
    RoundKeysAlike(cs, cs', me, a, b, ra, rb);
    forall x | x in ra ensures ra[x].status == rb[x].status {
      RoundStatusAlike(cs, cs', me, a, b, ra, rb, x);
    }
    assert Statuses(ra).Keys == Statuses(rb).Keys;
  }

  lemma RoundKeysAlike(cs: Candidates, cs': Candidates, me: Option<KademliaId>, a: seq<Arrival>, b: seq<Arrival>,
                       ra: Candidates, rb: Candidates)
    requires cs.Keys == cs'.Keys && SameReplies(a, b) && RoundResult(cs, me, a, ra) && RoundResult(cs', me, b, rb)
    ensures ra.Keys == rb.Keys
  {
    forall x ensures x in ra <==> x in rb {}
  }

  lemma RoundStatusAlike(cs: Candidates, cs': Candidates, me: Option<KademliaId>, a: seq<Arrival>, b: seq<Arrival>,
                         ra: Candidates, rb: Candidates, x: KademliaId)
    requires cs.Keys == cs'.Keys && (forall y :: y in cs ==> cs[y].status == cs'[y].status)
    requires SameReplies(a, b) && RoundResult(cs, me, a, ra) && RoundResult(cs', me, b, rb)
    requires x in ra && x in rb
    ensures ra[x].status == rb[x].status
  {
    if Replied(a, x) {
      var i :| 0 <= i < |a| && a[i].id == x;
      var j :| 0 <= j < |b| && b[j] == a[i];
      assert b[j].id == x;
    } else {
      assert !Replied(b, x);
    }
  }

  // ---------------------------------------------------------------- what every reply keeps

  /** What the network may do: reply anything to any probe, and deliver a round in any order. */
  datatype Network = Network(
    reply: (nat, KademliaId) -> Reply,
    order: (nat, seq<KademliaId>) -> seq<KademliaId>)
  {
    /** Replies name only identifiers of a finite universe, and a round delivers exactly its probes. */
    ghost predicate Within(universe: set<KademliaId>) {
      && (forall n: nat, x: KademliaId, c: Contact :: reply(n, x).Answered? && c in reply(n, x).contacts && c.id.Some? ==> c.id.value in universe)
      && (forall n: nat, s: seq<KademliaId> :: Distinct(s) ==> IsOrderOf(s, order(n, s)))
    }
  }

  ghost predicate IsOrderOf(s: seq<KademliaId>, t: seq<KademliaId>) {
    Distinct(t) && |t| == |s| && forall x :: x in t <==> x in s
  }

  /**
   * The history of a lookup: `heard` holds the contacts each answering node returned,
   * `probed` the nodes probed, in order.
   */
  datatype Trace = Trace(heard: map<KademliaId, seq<Contact>>, probed: seq<KademliaId>)

  /** A candidate came from the routing table or from some reply. */
  ghost predicate Discovered(me: Option<KademliaId>, initial: seq<Contact>, heard: map<KademliaId, seq<Contact>>, x: KademliaId) {
    x in Usable(me, initial) || exists q :: q in heard && x in Usable(me, heard[q])
  }

  ghost predicate Consistent(me: Option<KademliaId>, universe: set<KademliaId>, initial: seq<Contact>, cs: Candidates, t: Trace) {
    && WellKeyed(cs, me) && cs.Keys <= universe
    && (forall x :: x in cs <==> Discovered(me, initial, t.heard, x))
    && t.heard.Keys == QueriedIds(cs)
    && Distinct(t.probed)
    && (forall x :: x in t.probed <==> x in cs && cs[x].status != Unqueried)
  }

  function Heard(t: Trace, a: Arrival): Trace {
    Trace(if a.reply.Answered? then t.heard[a.id := a.reply.contacts] else t.heard, t.probed + [a.id])
  }

  lemma InitiallyConsistent(me: Option<KademliaId>, universe: set<KademliaId>, initial: seq<Contact>)
    requires Usable(me, initial) <= universe
    ensures Consistent(me, universe, initial, AddAll(map[], me, initial), Trace(map[], []))
  {
    AddAllEffect(map[], me, initial);
    var cs := AddAll(map[], me, initial);
    assert forall x :: x in cs ==> cs[x].status == Unqueried;
    assert QueriedIds(cs) == {};
  }

  lemma DiscoveredAfter(me: Option<KademliaId>, initial: seq<Contact>, t: Trace, a: Arrival)
    requires a.id !in t.heard
    ensures forall x :: Discovered(me, initial, Heard(t, a).heard, x) <==>
              Discovered(me, initial, t.heard, x) || (a.reply.Answered? && x in Usable(me, a.reply.contacts))
  {
    var now := Heard(t, a).heard;
    forall x | Discovered(me, initial, t.heard, x) ensures Discovered(me, initial, now, x) {
      if x !in Usable(me, initial) {
        var q :| q in t.heard && x in Usable(me, t.heard[q]);
        assert q in now && x in Usable(me, now[q]);
      }
    }
    forall x | a.reply.Answered? && x in Usable(me, a.reply.contacts) ensures Discovered(me, initial, now, x) {
      assert x in Usable(me, now[a.id]);
    }
  }

  /** Each reply to an unqueried candidate keeps the lookup consistent. */
  lemma DeliverKeeps(me: Option<KademliaId>, universe: set<KademliaId>, initial: seq<Contact>, cs: Candidates, t: Trace, a: Arrival)
    requires Consistent(me, universe, initial, cs, t)
    requires a.id in cs && cs[a.id].status == Unqueried
    requires a.reply.Answered? ==> Usable(me, a.reply.contacts) <= universe
    ensures Consistent(me, universe, initial, Deliver(cs, me, a), Heard(t, a))
  {
    DeliverEffect(cs, me, a);
    DiscoveredAfter(me, initial, t, a);
    QueriedAfter(cs, a, Deliver(cs, me, a));
    ProbedAfter(cs, t, a, Deliver(cs, me, a));
  }

  lemma QueriedAfter(cs: Candidates, a: Arrival, r: Candidates)
    requires a.id in cs && a.id in r && r[a.id].status == Verdict(a.reply) && cs.Keys <= r.Keys
    requires cs[a.id].status == Unqueried
    requires forall x :: x in cs && x != a.id ==> r[x] == cs[x]
    requires forall x :: x in r && x !in cs ==> r[x].status == Unqueried
    ensures QueriedIds(r) == if a.reply.Answered? then QueriedIds(cs) + {a.id} else QueriedIds(cs)
  {
  }

  lemma ProbedAfter(cs: Candidates, t: Trace, a: Arrival, r: Candidates)
    requires a.id in cs && a.id in r && r[a.id].status == Verdict(a.reply) && cs.Keys <= r.Keys
    requires cs[a.id].status == Unqueried
    requires forall x :: x in cs && x != a.id ==> r[x] == cs[x]
    requires forall x :: x in r && x !in cs ==> r[x].status == Unqueried
    requires Distinct(t.probed) && forall x :: x in t.probed <==> x in cs && cs[x].status != Unqueried
    ensures Distinct(Heard(t, a).probed)
    ensures forall x :: x in Heard(t, a).probed <==> x in r && r[x].status != Unqueried
  {
    assert a.id !in t.probed;
  }

  // ---------------------------------------------------------------- whole rounds

  /** The alpha default of `NewKademlia`. */
  function Alpha(alpha: int): (a: nat)
    ensures a >= 1 && (alpha > 0 ==> a == alpha)
  {
    if alpha > 0 then alpha else DEFAULT_ALPHA
  }

  /** The probes of a round: unqueried, distinct, and at least one while the loop runs. */
  lemma ProbesFacts(cs: Candidates, target: KademliaId, k: nat, alpha: nat)
    requires alpha >= 1 && UnqueriedInTop(cs, target, k)
    ensures forall x :: x in TopK(target, ActiveIds(cs), k) ==> x in cs
    ensures var probes := TakeUnqueried(cs, TopK(target, ActiveIds(cs), k), alpha);
            probes != [] && Distinct(probes) && |probes| <= alpha &&
            forall x :: x in probes ==> x in cs && cs[x].status == Unqueried
  {
    TopKMembers(target, ActiveIds(cs), k);
    TakeUnqueriedFacts(cs, TopK(target, ActiveIds(cs), k), alpha);
  }

  ghost function HeardAll(t: Trace, arrivals: seq<Arrival>): Trace
    decreases |arrivals|
  {
    if arrivals == [] then t else Heard(HeardAll(t, arrivals[..|arrivals| - 1]), arrivals[|arrivals| - 1])
  }

  /** The replies of a round: to distinct unqueried candidates, naming only known identifiers. */
  ghost predicate Awaited(cs: Candidates, me: Option<KademliaId>, universe: set<KademliaId>, arrivals: seq<Arrival>) {
    DistinctIds(arrivals) &&
    forall i :: 0 <= i < |arrivals| ==>
      && arrivals[i].id in cs && cs[arrivals[i].id].status == Unqueried
      && (arrivals[i].reply.Answered? ==> Usable(me, arrivals[i].reply.contacts) <= universe)
  }

  /** A whole round keeps the lookup consistent and probes each of its nodes for the first time. */
  lemma {:induction false} RoundKeeps(me: Option<KademliaId>, universe: set<KademliaId>, initial: seq<Contact>,
                                      cs: Candidates, t: Trace, arrivals: seq<Arrival>)
    requires Consistent(me, universe, initial, cs, t) && Awaited(cs, me, universe, arrivals)
    ensures Consistent(me, universe, initial, DeliverAll(cs, me, arrivals), HeardAll(t, arrivals))
    ensures |HeardAll(t, arrivals).probed| == |t.probed| + |arrivals|
    decreases |arrivals|
  {
    if arrivals != [] {
      var n := |arrivals| - 1;
      var before := arrivals[..n];
      assert forall i :: 0 <= i < n ==> before[i] == arrivals[i];
      RoundKeeps(me, universe, initial, cs, t, before);
      DeliverAllEffect(cs, me, before);
      assert !Replied(before, arrivals[n].id);
      DeliverKeeps(me, universe, initial, DeliverAll(cs, me, before), HeardAll(t, before), arrivals[n]);
    }
  }

  /** The replies of the round that probes `probes`, in the network's order. */
  function RoundOf(net: Network, round: nat, probes: seq<KademliaId>): seq<Arrival> {
    Arrivals(net, round, net.order(round, probes))
  }

  lemma RoundIsAwaited(me: Option<KademliaId>, universe: set<KademliaId>, cs: Candidates, net: Network, round: nat, probes: seq<KademliaId>)
    requires net.Within(universe) && Distinct(probes)
    requires forall x :: x in probes ==> x in cs && cs[x].status == Unqueried
    ensures Awaited(cs, me, universe, RoundOf(net, round, probes)) && |RoundOf(net, round, probes)| == |probes|
  {
    var ids := net.order(round, probes);
    assert IsOrderOf(probes, ids);
    forall i | 0 <= i < |ids|
      ensures ids[i] in cs && cs[ids[i]].status == Unqueried
      ensures net.reply(round, ids[i]).Answered? ==> Usable(me, net.reply(round, ids[i]).contacts) <= universe
    {
      assert ids[i] in ids;
    }
  }

  /** One iteration of the lookup loop makes progress and keeps the lookup consistent. */
  lemma IterationKeeps(me: Option<KademliaId>, universe: set<KademliaId>, target: KademliaId, initial: seq<Contact>,
                       cs: Candidates, t: Trace, net: Network, round: nat, k: nat, alpha: nat)
    requires net.Within(universe) && Consistent(me, universe, initial, cs, t)
    requires alpha >= 1 && UnqueriedInTop(cs, target, k)
    ensures forall x :: x in TopK(target, ActiveIds(cs), k) ==> x in cs
    ensures var probes := TakeUnqueried(cs, TopK(target, ActiveIds(cs), k), alpha);
            var arrivals := RoundOf(net, round, probes);
            && probes != []
            && Awaited(cs, me, universe, arrivals)
            && Consistent(me, universe, initial, DeliverAll(cs, me, arrivals), HeardAll(t, arrivals))
            && |t.probed| < |HeardAll(t, arrivals).probed| <= |universe|
  {
    ProbesFacts(cs, target, k, alpha);
    var probes := TakeUnqueried(cs, TopK(target, ActiveIds(cs), k), alpha);
    RoundIsAwaited(me, universe, cs, net, round, probes);
    var arrivals := RoundOf(net, round, probes);
    RoundKeeps(me, universe, initial, cs, t, arrivals);
    ProbedBound(me, universe, initial, DeliverAll(cs, me, arrivals), HeardAll(t, arrivals));
  }

  lemma ProbedBound(me: Option<KademliaId>, universe: set<KademliaId>, initial: seq<Contact>, cs: Candidates, t: Trace)
    requires Consistent(me, universe, initial, cs, t)
    ensures |t.probed| <= |universe|
  {
    DistinctBound(t.probed, universe);
  }

  function Arrivals(net: Network, round: nat, ids: seq<KademliaId>): seq<Arrival> {
    seq(|ids|, i requires 0 <= i < |ids| => Arrival(ids[i], net.reply(round, ids[i])))
  }

  /** A decided candidate is never undecided or decided differently by a later round. */
  lemma DecidedStaysDecided(cs: Candidates, me: Option<KademliaId>, universe: set<KademliaId>, arrivals: seq<Arrival>, x: KademliaId)
    requires WellKeyed(cs, me) && Awaited(cs, me, universe, arrivals)
    requires x in cs && cs[x].status != Unqueried
    ensures x in DeliverAll(cs, me, arrivals) && DeliverAll(cs, me, arrivals)[x] == cs[x]
  {
    DeliverAllEffect(cs, me, arrivals);
    assert !Replied(arrivals, x);
  }
}
