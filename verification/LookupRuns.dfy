/**
 * Whole lookups as runs (kademlia/kademlia.go:99-167 and 447-547). A run is the sequence of
 * stages an iterative lookup goes through; each stage follows from the one before by probing
 * the closest unqueried candidates and delivering what the network replied. The network is
 * adversarial: it may reply anything to any probe and deliver a round in any order. The
 * lookup follows section 2.3 of the Kademlia paper (Maymounkov and Mazieres, 2002).
 */
module LookupRuns {
  import opened Common
  import opened Text
  import opened KademliaIds
  import opened Ranking
  import opened Contacts
  import opened Shortlists
  import opened Rounds
  import Buckets
  import Eviction

  /** Who looks up what: the local identifier, the target, how many to find and to probe at once. */
  datatype Query = Query(me: Option<KademliaId>, node: Eviction.Node, target: KademliaId, k: nat, alpha: nat)

  /** The candidates, the history so far, and the routing table, which learns of answering nodes. */
  datatype Stage = Stage(cs: Candidates, t: Trace, table: Eviction.Table)

  // ---------------------------------------------------------------- runs

  ghost predicate More(q: Query, cs: Candidates) {
    UnqueriedInTop(cs, q.target, q.k)
  }

  /** The nodes probed from a stage: the closest `alpha` unqueried of the closest `k` active candidates. */
  ghost function Probes(q: Query, cs: Candidates): seq<KademliaId> {
    TopKMembers(q.target, ActiveIds(cs), q.k);
    TakeUnqueried(cs, TopK(q.target, ActiveIds(cs), q.k), q.alpha)
  }

  function AddressOf(cs: Candidates, id: KademliaId): string {
    if id in cs then cs[id].contact.address else ""
  }

  /** The routing table after the replies of a round: every answering node is added. */
  function TableHears(node: Eviction.Node, table: Eviction.Table, cs: Candidates, arrivals: seq<Arrival>): Eviction.Table
    decreases |arrivals|
  {
    if arrivals == [] then table
    else
      var n := |arrivals| - 1;
      var before := TableHears(node, table, cs, arrivals[..n]);
      if arrivals[n].reply.Failed? then before
      else Eviction.TableAdd(node, before, Buckets.Peer(arrivals[n].id, AddressOf(cs, arrivals[n].id)))
  }

  /** Round `n` of a lookup, from stage `s`. */
  ghost function AfterRound(q: Query, net: Network, n: nat, s: Stage): Stage {
    var arrivals := RoundOf(net, n, Probes(q, s.cs));
    Stage(DeliverAll(s.cs, q.me, arrivals), HeardAll(s.t, arrivals), TableHears(q.node, s.table, s.cs, arrivals))
  }

  ghost predicate Advances(q: Query, net: Network, run: seq<Stage>, n: nat)
    requires n + 1 < |run|
  {
    More(q, run[n].cs) && run[n + 1] == AfterRound(q, net, n, run[n])
  }

  /** The stages of a lookup that starts with the contacts `initial`. */
  ghost predicate IsRun(q: Query, net: Network, initial: seq<Contact>, run: seq<Stage>) {
    && run != [] && run[0].cs == AddAll(map[], q.me, initial) && run[0].t == Trace(map[], [])
    && forall n: nat :: n + 1 < |run| ==> Advances(q, net, run, n)
  }

  ghost function Last(run: seq<Stage>): Stage
    requires run != []
  {
    run[|run| - 1]
  }

  /** A run whose loop condition has become false. */
  ghost predicate IsWhole(q: Query, net: Network, initial: seq<Contact>, run: seq<Stage>) {
    IsRun(q, net, initial, run) && !More(q, Last(run).cs)
  }

  lemma RunSnoc(q: Query, net: Network, initial: seq<Contact>, run: seq<Stage>)
    requires IsRun(q, net, initial, run) && More(q, Last(run).cs)
    ensures IsRun(q, net, initial, run + [AfterRound(q, net, |run| - 1, Last(run))])
  {
    var next := AfterRound(q, net, |run| - 1, Last(run));
    forall n: nat | n + 1 < |run| ensures Advances(q, net, run + [next], n) {
      AdvancesStill(q, net, run, next, n);
    }
    AdvancesLast(q, net, run, next);
  }

  lemma AdvancesLast(q: Query, net: Network, run: seq<Stage>, next: Stage)
    requires run != [] && More(q, Last(run).cs) && next == AfterRound(q, net, |run| - 1, Last(run))
    ensures Advances(q, net, run + [next], |run| - 1)
  {
    assert (run + [next])[|run| - 1] == Last(run) && (run + [next])[|run|] == next;
  }

  lemma AdvancesStill(q: Query, net: Network, run: seq<Stage>, s: Stage, n: nat)
    requires n + 1 < |run| && Advances(q, net, run, n)
    ensures Advances(q, net, run + [s], n)
  {
    assert (run + [s])[n] == run[n] && (run + [s])[n + 1] == run[n + 1];
  }

  /** The hypotheses on a lookup: a finite universe of identifiers, and at least one probe at a time. */
  ghost predicate Sane(q: Query, net: Network, universe: set<KademliaId>, initial: seq<Contact>) {
    net.Within(universe) && Usable(q.me, initial) <= universe && q.alpha >= 1
  }

  ghost predicate StageOk(q: Query, universe: set<KademliaId>, initial: seq<Contact>, s: Stage) {
    Consistent(q.me, universe, initial, s.cs, s.t)
  }

  /** A round probes at least one node, each for the first time, and keeps the stage in order. */
  lemma RoundOk(q: Query, net: Network, universe: set<KademliaId>, initial: seq<Contact>, n: nat, s: Stage)
    requires Sane(q, net, universe, initial) && StageOk(q, universe, initial, s) && More(q, s.cs)
    ensures Probes(q, s.cs) != [] && Distinct(Probes(q, s.cs))
    ensures forall x :: x in Probes(q, s.cs) ==> x in s.cs && s.cs[x].status == Unqueried
    ensures Awaited(s.cs, q.me, universe, RoundOf(net, n, Probes(q, s.cs)))
    ensures StageOk(q, universe, initial, AfterRound(q, net, n, s))
    ensures |s.t.probed| < |AfterRound(q, net, n, s).t.probed| <= |universe|
  {
    IterationKeeps(q.me, universe, q.target, initial, s.cs, s.t, net, n, q.k, q.alpha);
    ProbesFacts(s.cs, q.target, q.k, q.alpha);
  }

  /** In every stage of every run the candidates are exactly those discovered so far. */
  lemma {:induction false} StagesOk(q: Query, net: Network, universe: set<KademliaId>, initial: seq<Contact>, run: seq<Stage>, n: nat)
    requires Sane(q, net, universe, initial) && IsRun(q, net, initial, run) && n < |run|
    ensures StageOk(q, universe, initial, run[n])
    ensures n <= |run[n].t.probed| <= |universe|
  {
    if n == 0 {
      InitiallyConsistent(q.me, universe, initial);
    } else {
      StagesOk(q, net, universe, initial, run, n - 1);
      assert Advances(q, net, run, n - 1);
      RoundOk(q, net, universe, initial, n - 1, run[n - 1]);
    }
  }

  /** Both lookup loops terminate: a run has no more rounds than there are identifiers. */
  lemma RunsAreBounded(q: Query, net: Network, universe: set<KademliaId>, initial: seq<Contact>, run: seq<Stage>)
    requires Sane(q, net, universe, initial) && IsRun(q, net, initial, run)
    ensures |run| <= |universe| + 1
  {
    StagesOk(q, net, universe, initial, run, |run| - 1);
  }

  /** While the loop condition holds there is a node to probe: the loops never break on an empty round. */
  lemma SomethingToProbe(q: Query, net: Network, universe: set<KademliaId>, initial: seq<Contact>, run: seq<Stage>)
    requires Sane(q, net, universe, initial) && IsRun(q, net, initial, run) && More(q, Last(run).cs)
    ensures Probes(q, Last(run).cs) != [] && Distinct(Probes(q, Last(run).cs))
  {
    StagesOk(q, net, universe, initial, run, |run| - 1);
    RoundOk(q, net, universe, initial, |run| - 1, Last(run));
  }

  /** Then the run is also still shorter than the bound. */
  lemma RunGoesOn(q: Query, net: Network, universe: set<KademliaId>, initial: seq<Contact>, run: seq<Stage>)
    requires Sane(q, net, universe, initial) && IsRun(q, net, initial, run) && More(q, Last(run).cs)
    ensures Probes(q, Last(run).cs) != [] && |run| <= |universe|
  {
    SomethingToProbe(q, net, universe, initial, run);
    RunSnoc(q, net, initial, run);
    RunsAreBounded(q, net, universe, initial, run + [AfterRound(q, net, |run| - 1, Last(run))]);
  }

  // ---------------------------------------------------------------- statuses are what the network replied

  /** The node is probed in round `n` of the run. */
  ghost predicate ProbedIn(q: Query, run: seq<Stage>, n: nat, x: KademliaId) {
    n + 1 < |run| && x in Probes(q, run[n].cs)
  }

  ghost predicate FailedIn(q: Query, net: Network, run: seq<Stage>, n: nat, x: KademliaId) {
    ProbedIn(q, run, n, x) && net.reply(n, x).Failed?
  }

  ghost predicate AnsweredIn(q: Query, net: Network, run: seq<Stage>, n: nat, x: KademliaId) {
    ProbedIn(q, run, n, x) && net.reply(n, x).Answered?
  }

  /** The candidates and history know the node's reply. */
  ghost predicate Knows(s: Stage, x: KademliaId, reply: Reply) {
    && x in s.cs && s.cs[x].status == Verdict(reply)
    && (reply.Answered? ==> x in s.t.heard && s.t.heard[x] == reply.contacts)
  }

  lemma {:induction false} HeardAllGives(t: Trace, arrivals: seq<Arrival>, i: nat)
    requires DistinctIds(arrivals) && i < |arrivals| && arrivals[i].reply.Answered?
    ensures var heard := HeardAll(t, arrivals).heard;
            arrivals[i].id in heard && heard[arrivals[i].id] == arrivals[i].reply.contacts
    decreases |arrivals|
  {
    var n := |arrivals| - 1;
    if i < n {
      assert arrivals[..n][i] == arrivals[i];
      HeardAllGives(t, arrivals[..n], i);
    }
  }

  lemma {:induction false} HeardAllKeeps(t: Trace, arrivals: seq<Arrival>, x: KademliaId)
    requires x in t.heard && !Replied(arrivals, x)
    ensures x in HeardAll(t, arrivals).heard && HeardAll(t, arrivals).heard[x] == t.heard[x]
    decreases |arrivals|
  {
    if arrivals != [] {
      var n := |arrivals| - 1;
      assert forall i :: 0 <= i < n ==> arrivals[..n][i] == arrivals[i];
      HeardAllKeeps(t, arrivals[..n], x);
    }
  }

  lemma ArrivalOf(net: Network, universe: set<KademliaId>, n: nat, probes: seq<KademliaId>, x: KademliaId) returns (i: nat)
    requires net.Within(universe) && Distinct(probes) && x in probes
    ensures i < |RoundOf(net, n, probes)| && RoundOf(net, n, probes)[i] == Arrival(x, net.reply(n, x))
  {
    assert IsOrderOf(probes, net.order(n, probes));
    assert x in net.order(n, probes);
    i :| 0 <= i < |net.order(n, probes)| && net.order(n, probes)[i] == x;
  }

  lemma RepliedIsProbe(net: Network, universe: set<KademliaId>, n: nat, probes: seq<KademliaId>, x: KademliaId)
    requires net.Within(universe) && Distinct(probes)
    ensures Replied(RoundOf(net, n, probes), x) <==> x in probes
  {
    var ids := net.order(n, probes);
    assert IsOrderOf(probes, ids);
    if Replied(RoundOf(net, n, probes), x) {
      var i :| 0 <= i < |ids| && RoundOf(net, n, probes)[i].id == x;
      assert ids[i] in ids;
    }
    if x in probes {
      var i := ArrivalOf(net, universe, n, probes, x);
    }
  }

  lemma RoundLearns(q: Query, net: Network, universe: set<KademliaId>, initial: seq<Contact>, n: nat, s: Stage, x: KademliaId)
    requires Sane(q, net, universe, initial) && StageOk(q, universe, initial, s) && More(q, s.cs)
    requires x in Probes(q, s.cs)
    ensures Knows(AfterRound(q, net, n, s), x, net.reply(n, x))
  {
    RoundOk(q, net, universe, initial, n, s);
    var arrivals := RoundOf(net, n, Probes(q, s.cs));
    var i := ArrivalOf(net, universe, n, Probes(q, s.cs), x);
    DeliverAllEffect(s.cs, q.me, arrivals);
    assert arrivals[i].id == x;
    if arrivals[i].reply.Answered? {
      HeardAllGives(s.t, arrivals, i);
    }
  }

  lemma RoundRemembers(q: Query, net: Network, universe: set<KademliaId>, initial: seq<Contact>, n: nat, s: Stage,
                       x: KademliaId, reply: Reply)
    requires Sane(q, net, universe, initial) && StageOk(q, universe, initial, s) && More(q, s.cs)
    requires Knows(s, x, reply)
    ensures x !in Probes(q, s.cs) && Knows(AfterRound(q, net, n, s), x, reply)
  {
    RoundOk(q, net, universe, initial, n, s);
    assert x !in Probes(q, s.cs);
    var arrivals := RoundOf(net, n, Probes(q, s.cs));
    RepliedIsProbe(net, universe, n, Probes(q, s.cs), x);
    DecidedStaysDecided(s.cs, q.me, universe, arrivals, x);
    if reply.Answered? {
      HeardAllKeeps(s.t, arrivals, x);
    }
  }

  lemma StepLearns(q: Query, net: Network, universe: set<KademliaId>, initial: seq<Contact>, run: seq<Stage>, n: nat, x: KademliaId)
    requires Sane(q, net, universe, initial) && IsRun(q, net, initial, run) && ProbedIn(q, run, n, x)
    ensures Knows(run[n + 1], x, net.reply(n, x))
  {
    StagesOk(q, net, universe, initial, run, n);
    assert Advances(q, net, run, n);
    RoundLearns(q, net, universe, initial, n, run[n], x);
  }

  lemma StepRemembers(q: Query, net: Network, universe: set<KademliaId>, initial: seq<Contact>, run: seq<Stage>, n: nat,
                      x: KademliaId, reply: Reply)
    requires Sane(q, net, universe, initial) && IsRun(q, net, initial, run) && n + 1 < |run| && Knows(run[n], x, reply)
    ensures !ProbedIn(q, run, n, x) && Knows(run[n + 1], x, reply)
  {
    StagesOk(q, net, universe, initial, run, n);
    assert Advances(q, net, run, n);
    RoundRemembers(q, net, universe, initial, n, run[n], x, reply);
  }

  lemma StepDecides(q: Query, net: Network, universe: set<KademliaId>, initial: seq<Contact>, run: seq<Stage>, n: nat, x: KademliaId)
    requires Sane(q, net, universe, initial) && IsRun(q, net, initial, run) && n + 1 < |run|
    requires IsDecided(run[n + 1].cs, x)
    ensures ProbedIn(q, run, n, x) || IsDecided(run[n].cs, x)
  {
    StagesOk(q, net, universe, initial, run, n);
    assert Advances(q, net, run, n);
    if x !in Probes(q, run[n].cs) {
      UnprobedIsKept(q, net, universe, initial, n, run[n], x);
    }
  }

  ghost predicate Keeps(p: nat -> bool, n: nat) {
    p(n) ==> p(n + 1)
  }

  lemma {:induction false} Persists(p: nat -> bool, n: nat, m: nat)
    requires n <= m && p(n) && forall k: nat :: n <= k < m ==> Keeps(p, k)
    ensures p(m)
    decreases m
  {
    if n < m {
      Persists(p, n, m - 1);
      assert Keeps(p, m - 1);
    }
  }

  /** From the round of its probe on, a node's status and recorded contacts are what the network replied, for good. */
  lemma ReplyIsKnown(q: Query, net: Network, universe: set<KademliaId>, initial: seq<Contact>, run: seq<Stage>,
                     n: nat, m: nat, x: KademliaId)
    requires Sane(q, net, universe, initial) && IsRun(q, net, initial, run)
    requires ProbedIn(q, run, n, x) && n < m < |run|
    ensures Knows(run[m], x, net.reply(n, x))
  {
    var reply := net.reply(n, x);
    StepLearns(q, net, universe, initial, run, n, x);
    forall k: nat | n + 1 <= k < m ensures Keeps(KnownIn(run, x, reply), k) {
      KnowingIsKept(q, net, universe, initial, run, k, x, reply);
    }
    Persists(KnownIn(run, x, reply), n + 1, m);
  }

  /** The stages that know the node's reply. */
  ghost function KnownIn(run: seq<Stage>, x: KademliaId, reply: Reply): nat -> bool {
    (k: nat) => k < |run| && Knows(run[k], x, reply)
  }

  lemma KnowingIsKept(q: Query, net: Network, universe: set<KademliaId>, initial: seq<Contact>, run: seq<Stage>, k: nat,
                      x: KademliaId, reply: Reply)
    requires Sane(q, net, universe, initial) && IsRun(q, net, initial, run) && k + 1 < |run|
    ensures Keeps(KnownIn(run, x, reply), k)
  {
    if Knows(run[k], x, reply) {
      StepRemembers(q, net, universe, initial, run, k, x, reply);
    }
  }

  /** No node is probed twice. */
  lemma ProbedOnce(q: Query, net: Network, universe: set<KademliaId>, initial: seq<Contact>, run: seq<Stage>,
                   n: nat, m: nat, x: KademliaId)
    requires Sane(q, net, universe, initial) && IsRun(q, net, initial, run)
    requires ProbedIn(q, run, n, x) && ProbedIn(q, run, m, x)
    ensures n == m
  {
    if n < m {
      ProbedAgain(q, net, universe, initial, run, n, m, x);
    } else if m < n {
      ProbedAgain(q, net, universe, initial, run, m, n, x);
    }
  }

  /** The local node is never probed. */
  lemma LocalIsNeverProbed(q: Query, net: Network, universe: set<KademliaId>, initial: seq<Contact>, run: seq<Stage>,
                           n: nat, x: KademliaId)
    requires Sane(q, net, universe, initial) && IsRun(q, net, initial, run) && ProbedIn(q, run, n, x)
    ensures q.me != Some(x)
  {
    StagesOk(q, net, universe, initial, run, n);
    assert Advances(q, net, run, n);
    RoundOk(q, net, universe, initial, n, run[n]);
  }

  lemma ProbedAgain(q: Query, net: Network, universe: set<KademliaId>, initial: seq<Contact>, run: seq<Stage>,
                    n: nat, m: nat, x: KademliaId)
    requires Sane(q, net, universe, initial) && IsRun(q, net, initial, run)
    requires ProbedIn(q, run, n, x) && n < m && m + 1 < |run|
    ensures !ProbedIn(q, run, m, x)
  {
    ReplyIsKnown(q, net, universe, initial, run, n, m, x);
    StepRemembers(q, net, universe, initial, run, m, x, net.reply(n, x));
  }

  ghost predicate IsDecided(cs: Candidates, x: KademliaId) {
    x in cs && cs[x].status != Unqueried
  }

  lemma NothingDecidedAtFirst(q: Query, net: Network, initial: seq<Contact>, run: seq<Stage>, x: KademliaId)
    requires IsRun(q, net, initial, run)
    ensures !IsDecided(run[0].cs, x)
  {
    AddAllEffect(map[], q.me, initial);
  }

  ghost predicate Caused(d: nat -> bool, p: nat -> bool, n: nat) {
    d(n + 1) ==> p(n) || d(n)
  }

  lemma {:induction false} HasCause(d: nat -> bool, p: nat -> bool, m: nat) returns (n: nat)
    requires !d(0) && d(m) && forall k: nat :: k < m ==> Caused(d, p, k)
    ensures n < m && p(n)
  {
    assert Caused(d, p, m - 1);
    n := m - 1;
    if !p(n) {
      n := HasCause(d, p, m - 1);
    }
  }

  /** Every decided candidate was probed in an earlier round. */
  lemma DecidedWasProbed(q: Query, net: Network, universe: set<KademliaId>, initial: seq<Contact>, run: seq<Stage>,
                         m: nat, x: KademliaId) returns (n: nat)
    requires Sane(q, net, universe, initial) && IsRun(q, net, initial, run) && m < |run|
    requires IsDecided(run[m].cs, x)
    ensures n < m && ProbedIn(q, run, n, x)
  {
    var decided, probed := (k: nat) => k < |run| && IsDecided(run[k].cs, x), (k: nat) => ProbedIn(q, run, k, x);
    NothingDecidedAtFirst(q, net, initial, run, x);
    forall k: nat | k < m ensures Caused(decided, probed, k) {
      if decided(k + 1) {
        StepDecides(q, net, universe, initial, run, k, x);
      }
    }
    n := HasCause(decided, probed, m);
  }

  lemma UnprobedIsKept(q: Query, net: Network, universe: set<KademliaId>, initial: seq<Contact>, n: nat, s: Stage, x: KademliaId)
    requires Sane(q, net, universe, initial) && StageOk(q, universe, initial, s) && More(q, s.cs)
    requires x !in Probes(q, s.cs)
    requires IsDecided(AfterRound(q, net, n, s).cs, x)
    ensures IsDecided(s.cs, x)
  {
    RoundOk(q, net, universe, initial, n, s);
    RepliedIsProbe(net, universe, n, Probes(q, s.cs), x);
    DeliverAllEffect(s.cs, q.me, RoundOf(net, n, Probes(q, s.cs)));
  }

  // ---------------------------------------------------------------- what a whole lookup returns

  /** The lookup got to know the node: from the routing table, or from a reply. */
  ghost predicate Met(q: Query, net: Network, initial: seq<Contact>, run: seq<Stage>, x: KademliaId) {
    x in Usable(q.me, initial) ||
    exists n: nat, y: KademliaId :: AnsweredIn(q, net, run, n, y) && x in Usable(q.me, net.reply(n, y).contacts)
  }

  ghost predicate Dead(q: Query, net: Network, run: seq<Stage>, x: KademliaId) {
    exists n: nat :: FailedIn(q, net, run, n, x)
  }

  /** Where a candidate comes from, by the history of a stage. */
  lemma CandidateSource(q: Query, universe: set<KademliaId>, initial: seq<Contact>, s: Stage, x: KademliaId)
    requires StageOk(q, universe, initial, s)
    ensures x in s.cs <==> x in Usable(q.me, initial) || exists y :: y in s.t.heard && x in Usable(q.me, s.t.heard[y])
    ensures forall y :: y in s.t.heard ==> IsDecided(s.cs, y) && s.cs[y].status == Queried
  {
    assert x in s.cs <==> Discovered(q.me, initial, s.t.heard, x);
    forall y | y in s.t.heard ensures IsDecided(s.cs, y) && s.cs[y].status == Queried {
      assert y in QueriedIds(s.cs);
    }
  }

  lemma MetIsCandidate(q: Query, net: Network, universe: set<KademliaId>, initial: seq<Contact>, run: seq<Stage>, x: KademliaId,
                       n: nat, y: KademliaId)
    requires Sane(q, net, universe, initial) && IsRun(q, net, initial, run)
    requires AnsweredIn(q, net, run, n, y) && x in Usable(q.me, net.reply(n, y).contacts)
    ensures x in Last(run).cs
  {
    ReplyIsKnownAtEnd(q, net, universe, initial, run, n, y);
    StagesOk(q, net, universe, initial, run, |run| - 1);
    CandidateSource(q, universe, initial, Last(run), x);
    assert y in Last(run).t.heard && x in Usable(q.me, Last(run).t.heard[y]);
  }

  lemma CandidateIsMet(q: Query, net: Network, universe: set<KademliaId>, initial: seq<Contact>, run: seq<Stage>, x: KademliaId,
                       y: KademliaId)
    requires Sane(q, net, universe, initial) && IsRun(q, net, initial, run)
    requires y in Last(run).t.heard && x in Usable(q.me, Last(run).t.heard[y])
    requires IsDecided(Last(run).cs, y) && Last(run).cs[y].status == Queried
    ensures Met(q, net, initial, run, x)
  {
    var n := WasReplied(q, net, universe, initial, run, y);
    assert AnsweredIn(q, net, run, n, y) && x in Usable(q.me, net.reply(n, y).contacts);
  }

  lemma MetIffCandidate(q: Query, net: Network, universe: set<KademliaId>, initial: seq<Contact>, run: seq<Stage>, x: KademliaId)
    requires Sane(q, net, universe, initial) && IsRun(q, net, initial, run)
    ensures Met(q, net, initial, run, x) <==> x in Last(run).cs
  {
    StagesOk(q, net, universe, initial, run, |run| - 1);
    CandidateSource(q, universe, initial, Last(run), x);
    if x in Usable(q.me, initial) {
    } else if x in Last(run).cs {
      var y :| y in Last(run).t.heard && x in Usable(q.me, Last(run).t.heard[y]);
      CandidateIsMet(q, net, universe, initial, run, x, y);
    } else if Met(q, net, initial, run, x) {
      var n: nat, y: KademliaId :| AnsweredIn(q, net, run, n, y) && x in Usable(q.me, net.reply(n, y).contacts);
      MetIsCandidate(q, net, universe, initial, run, x, n, y);
    }
  }

  lemma DeadIffUnresponsive(q: Query, net: Network, universe: set<KademliaId>, initial: seq<Contact>, run: seq<Stage>, x: KademliaId)
    requires Sane(q, net, universe, initial) && IsRun(q, net, initial, run)
    ensures Dead(q, net, run, x) <==> x in Last(run).cs && Last(run).cs[x].status == Unresponsive
  {
    if Dead(q, net, run, x) {
      var n: nat :| FailedIn(q, net, run, n, x);
      ReplyIsKnownAtEnd(q, net, universe, initial, run, n, x);
    }
    if IsDecided(Last(run).cs, x) {
      var n := WasReplied(q, net, universe, initial, run, x);
      assert net.reply(n, x).Failed? ==> FailedIn(q, net, run, n, x);
    }
  }

  lemma ReplyIsKnownAtEnd(q: Query, net: Network, universe: set<KademliaId>, initial: seq<Contact>, run: seq<Stage>, n: nat, x: KademliaId)
    requires Sane(q, net, universe, initial) && IsRun(q, net, initial, run) && ProbedIn(q, run, n, x)
    ensures Knows(Last(run), x, net.reply(n, x))
  {
    ReplyIsKnown(q, net, universe, initial, run, n, |run| - 1, x);
  }

  /** The status of a decided candidate is the reply to its probe. */
  lemma WasReplied(q: Query, net: Network, universe: set<KademliaId>, initial: seq<Contact>, run: seq<Stage>, x: KademliaId)
    returns (n: nat)
    requires Sane(q, net, universe, initial) && IsRun(q, net, initial, run) && IsDecided(Last(run).cs, x)
    ensures ProbedIn(q, run, n, x) && Knows(Last(run), x, net.reply(n, x))
  {
    n := DecidedWasProbed(q, net, universe, initial, run, |run| - 1, x);
    ReplyIsKnownAtEnd(q, net, universe, initial, run, n, x);
  }

  /** What the lookup returns, by the status of the candidates. */
  ghost function Found(q: Query, run: seq<Stage>): seq<KademliaId>
    requires run != []
  {
    TopK(q.target, QueriedIds(Last(run).cs), q.k)
  }

  /**
   * A whole lookup returns exactly the min(k, n) closest of the n nodes that it met and that
   * did not fail, although it filters by queried status; each of them answered a probe.
   */
  lemma ResultIsClosest(q: Query, net: Network, universe: set<KademliaId>, initial: seq<Contact>, run: seq<Stage>)
    returns (alive: set<KademliaId>)
    requires Sane(q, net, universe, initial) && IsWhole(q, net, initial, run)
    ensures forall x :: x in alive <==> Met(q, net, initial, run, x) && !Dead(q, net, run, x)
    ensures Found(q, run) == TopK(q.target, alive, q.k)
    ensures forall x :: x in Found(q, run) ==> exists n: nat :: AnsweredIn(q, net, run, n, x)
  {
    var cs := Last(run).cs;
    alive := ActiveIds(cs);
    forall x ensures x in alive <==> Met(q, net, initial, run, x) && !Dead(q, net, run, x) {
      MetIffCandidate(q, net, universe, initial, run, x);
      DeadIffUnresponsive(q, net, universe, initial, run, x);
    }
    QueriedTopIsActiveTop(cs, q.target, q.k);
    TopKMembers(q.target, QueriedIds(cs), q.k);
    forall x | x in Found(q, run) ensures exists n: nat :: AnsweredIn(q, net, run, n, x) {
      var n := WasReplied(q, net, universe, initial, run, x);
      assert AnsweredIn(q, net, run, n, x);
    }
  }

  ghost predicate Names(contacts: seq<Contact>, x: KademliaId) {
    exists i :: 0 <= i < |contacts| && contacts[i].id == Some(x)
  }

  /**
   * The result is a fixed point of the network: whatever node `x` other than the local one a
   * queried node's reply named is itself in the result, unless its own probe failed or the
   * result holds `k` nodes, all closer than `x`.
   */
  lemma ResultIsFixedPoint(q: Query, net: Network, universe: set<KademliaId>, initial: seq<Contact>, run: seq<Stage>,
                           n: nat, y: KademliaId, x: KademliaId)
    requires Sane(q, net, universe, initial) && IsWhole(q, net, initial, run) && q.k > 0
    requires AnsweredIn(q, net, run, n, y) && Names(net.reply(n, y).contacts, x) && q.me != Some(x)
    ensures var r := Found(q, run);
            x in r || Dead(q, net, run, x) || (|r| == q.k && Dist(r[q.k - 1], q.target) < Dist(x, q.target))
  {
    MetIsCandidate(q, net, universe, initial, run, x, n, y);
    DeadIffUnresponsive(q, net, universe, initial, run, x);
    if !Dead(q, net, run, x) {
      ActiveIsFound(q, Last(run).cs, x);
    }
  }

  lemma ActiveIsFound(q: Query, cs: Candidates, x: KademliaId)
    requires !More(q, cs) && x in ActiveIds(cs) && q.k > 0
    ensures var r := TopK(q.target, QueriedIds(cs), q.k);
            x in r || (|r| == q.k && Dist(r[q.k - 1], q.target) < Dist(x, q.target))
  {
    QueriedTopIsActiveTop(cs, q.target, q.k);
    InTopOrBeyond(q.target, ActiveIds(cs), q.k, x);
  }

  lemma InTopOrBeyond(target: KademliaId, all: set<KademliaId>, k: nat, x: KademliaId)
    requires x in all && k > 0
    ensures var r := TopK(target, all, k);
            x in r || (|r| == k && Dist(r[k - 1], target) < Dist(x, target))
  {
    DistToInjective(target);
    RankedIsRanking(DistTo(target), all);
  }

  // ---------------------------------------------------------------- runs are determined, up to nothing that matters

  /** The network, the query and the initial contacts determine the whole run. */
  lemma {:induction false} RunIsUnique(q: Query, net: Network, initial: seq<Contact>, run: seq<Stage>, run': seq<Stage>, n: nat)
    requires IsWhole(q, net, initial, run) && IsRun(q, net, initial, run') && run[0] == run'[0] && n < |run'|
    ensures n < |run| && run'[n] == run[n]
  {
    if n > 0 {
      RunIsUnique(q, net, initial, run, run', n - 1);
      NextIsUnique(q, net, initial, run, run', n - 1);
    }
  }

  lemma NextIsUnique(q: Query, net: Network, initial: seq<Contact>, run: seq<Stage>, run': seq<Stage>, n: nat)
    requires IsWhole(q, net, initial, run) && IsRun(q, net, initial, run')
    requires n < |run| && n + 1 < |run'| && run[n] == run'[n]
    ensures n + 1 < |run| && run[n + 1] == run'[n + 1]
  {
    assert Advances(q, net, run', n);
    assert n + 1 < |run|;
    assert Advances(q, net, run, n);
  }

  /** The two networks give the same replies, but may deliver them in different orders. */
  ghost predicate SameAnswers(net: Network, net': Network) {
    forall n: nat, x: KademliaId :: net.reply(n, x) == net'.reply(n, x)
  }

  lemma TakeUnqueriedAlike(cs: Candidates, cs': Candidates, ids: seq<KademliaId>, count: nat)
    requires Statuses(cs) == Statuses(cs') && (forall x :: x in ids ==> x in cs) && (forall x :: x in ids ==> x in cs')
    ensures TakeUnqueried(cs, ids, count) == TakeUnqueried(cs', ids, count)
    decreases |ids|
  {
    StatusKeys(cs, cs');
    if ids != [] {
      TakeUnqueriedAlike(cs, cs', ids[..|ids| - 1], count);
    }
  }

  lemma ProbesAlike(q: Query, cs: Candidates, cs': Candidates)
    requires Statuses(cs) == Statuses(cs')
    ensures ActiveIds(cs) == ActiveIds(cs') && QueriedIds(cs) == QueriedIds(cs')
    ensures Probes(q, cs) == Probes(q, cs')
    ensures More(q, cs) <==> More(q, cs')
  {
    StatusKeys(cs, cs');
    assert ActiveIds(cs) == ActiveIds(cs') && QueriedIds(cs) == QueriedIds(cs');
    TopKMembers(q.target, ActiveIds(cs), q.k);
    TakeUnqueriedAlike(cs, cs', TopK(q.target, ActiveIds(cs), q.k), q.alpha);
  }

  lemma SameRoundReplies(net: Network, net': Network, universe: set<KademliaId>, n: nat, probes: seq<KademliaId>)
    requires net.Within(universe) && net'.Within(universe) && SameAnswers(net, net') && Distinct(probes)
    ensures SameReplies(RoundOf(net, n, probes), RoundOf(net', n, probes))
  {
    RepliesFoundIn(net, net', universe, n, probes);
    RepliesFoundIn(net', net, universe, n, probes);
  }

  lemma RepliesFoundIn(net: Network, net': Network, universe: set<KademliaId>, n: nat, probes: seq<KademliaId>)
    requires net.Within(universe) && net'.Within(universe) && SameAnswers(net, net') && Distinct(probes)
    ensures var a, b := RoundOf(net, n, probes), RoundOf(net', n, probes);
            forall i :: 0 <= i < |a| ==> a[i] in b
  {
    var a, b, ids := RoundOf(net, n, probes), RoundOf(net', n, probes), net.order(n, probes);
    assert IsOrderOf(probes, ids);
    forall i | 0 <= i < |a| ensures a[i] in b {
      assert ids[i] in ids;
      var j := ArrivalOf(net', universe, n, probes, ids[i]);
      assert net.reply(n, ids[i]) == net'.reply(n, ids[i]);
      assert b[j] == a[i];
    }
  }

  lemma RoundAlike(q: Query, net: Network, net': Network, universe: set<KademliaId>, initial: seq<Contact>, n: nat, s: Stage, s': Stage)
    requires Sane(q, net, universe, initial) && Sane(q, net', universe, initial) && SameAnswers(net, net')
    requires StageOk(q, universe, initial, s) && StageOk(q, universe, initial, s') && More(q, s.cs)
    requires Statuses(s.cs) == Statuses(s'.cs)
    ensures Statuses(AfterRound(q, net, n, s).cs) == Statuses(AfterRound(q, net', n, s').cs)
  {
    ProbesAlike(q, s.cs, s'.cs);
    RoundOk(q, net, universe, initial, n, s);
    RoundOk(q, net', universe, initial, n, s');
    var probes := Probes(q, s.cs);
    SameRoundReplies(net, net', universe, n, probes);
    RoundIsConfluent(s.cs, s'.cs, q.me, RoundOf(net, n, probes), RoundOf(net', n, probes));
  }

  /**
   * Confluence of whole lookups: networks that give the same replies in different orders lead
   * through the same statuses, round by round.
   */
  lemma {:induction false} RunsAreConfluent(q: Query, net: Network, net': Network, universe: set<KademliaId>, initial: seq<Contact>,
                                            run: seq<Stage>, run': seq<Stage>, n: nat)
    requires Sane(q, net, universe, initial) && Sane(q, net', universe, initial) && SameAnswers(net, net')
    requires IsWhole(q, net, initial, run) && IsRun(q, net', initial, run') && n < |run'|
    ensures n < |run| && Statuses(run[n].cs) == Statuses(run'[n].cs)
  {
    if n > 0 {
      RunsAreConfluent(q, net, net', universe, initial, run, run', n - 1);
      NextIsAlike(q, net, net', universe, initial, run, run', n - 1);
    }
  }

  lemma NextIsAlike(q: Query, net: Network, net': Network, universe: set<KademliaId>, initial: seq<Contact>,
                    run: seq<Stage>, run': seq<Stage>, n: nat)
    requires Sane(q, net, universe, initial) && Sane(q, net', universe, initial) && SameAnswers(net, net')
    requires IsWhole(q, net, initial, run) && IsRun(q, net', initial, run')
    requires n < |run| && n + 1 < |run'| && Statuses(run[n].cs) == Statuses(run'[n].cs)
    ensures n + 1 < |run| && Statuses(run[n + 1].cs) == Statuses(run'[n + 1].cs)
  {
    ProbesAlike(q, run[n].cs, run'[n].cs);
    assert Advances(q, net', run', n);
    assert n + 1 < |run|;
    assert Advances(q, net, run, n);
    StagesOk(q, net, universe, initial, run, n);
    StagesOk(q, net', universe, initial, run', n);
    RoundAlike(q, net, net', universe, initial, n, run[n], run'[n]);
  }

  /** The nodes a whole lookup returns do not depend on the order in which replies arrive, in any round. */
  lemma ResultIsConfluent(q: Query, net: Network, net': Network, universe: set<KademliaId>, initial: seq<Contact>,
                          run: seq<Stage>, run': seq<Stage>)
    requires Sane(q, net, universe, initial) && Sane(q, net', universe, initial) && SameAnswers(net, net')
    requires IsWhole(q, net, initial, run) && IsWhole(q, net', initial, run')
    ensures |run| == |run'| && Found(q, run) == Found(q, run')
  {
    RunsAreConfluent(q, net, net', universe, initial, run, run', |run'| - 1);
    RunsAreConfluent(q, net', net, universe, initial, run', run, |run| - 1);
    ProbesAlike(q, Last(run).cs, Last(run').cs);
  }

  // ---------------------------------------------------------------- value lookup

  datatype DataReply = NoReply | DataReply(data: Bytes, contacts: seq<Contact>)

  datatype DataNetwork = DataNetwork(
    reply: (nat, KademliaId) -> DataReply,
    order: (nat, seq<KademliaId>) -> seq<KademliaId>)

  /** How a reply acts on the shortlist: a node that sends a value contributes no contacts. */
  function Effective(r: DataReply): Reply {
    match r
    case NoReply => Failed
    case DataReply(data, contacts) => if data != "" then Answered([]) else Answered(contacts)
  }

  function AsNetwork(net: DataNetwork): Network {
    Network((n: nat, x: KademliaId) => Effective(net.reply(n, x)), net.order)
  }

  /** The reply carries a value that hashes to the target or passes validation (`accept`). */
  predicate Good(accept: Bytes -> bool, r: DataReply) {
    r.DataReply? && r.data != "" && accept(r.data)
  }

  /** Round `n` brought no acceptable value. */
  ghost predicate Fruitless(q: Query, net: DataNetwork, accept: Bytes -> bool, n: nat, s: Stage) {
    forall x :: x in Probes(q, s.cs) ==> !Good(accept, net.reply(n, x))
  }

  /** The rounds of a run of the value lookup, all without an acceptable value. */
  ghost predicate IsSearch(q: Query, net: DataNetwork, accept: Bytes -> bool, initial: seq<Contact>, run: seq<Stage>) {
    IsRun(q, AsNetwork(net), initial, run) && forall n: nat :: n + 1 < |run| ==> Fruitless(q, net, accept, n, run[n])
  }

  /** The nodes of the round after the last stage, in their order of arrival. */
  ghost function Arriving(q: Query, net: DataNetwork, run: seq<Stage>): seq<KademliaId>
    requires run != []
  {
    net.order(|run| - 1, Probes(q, Last(run).cs))
  }

  /** In the round after the last stage, the reply at position `j` is the first acceptable one. */
  ghost predicate IsHit(q: Query, net: DataNetwork, accept: Bytes -> bool, run: seq<Stage>, j: nat) {
    && run != [] && More(q, Last(run).cs) && j < |Arriving(q, net, run)|
    && Good(accept, net.reply(|run| - 1, Arriving(q, net, run)[j]))
    && forall i :: 0 <= i < j ==> !Good(accept, net.reply(|run| - 1, Arriving(q, net, run)[i]))
  }

  lemma SearchSnoc(q: Query, net: DataNetwork, accept: Bytes -> bool, initial: seq<Contact>, run: seq<Stage>)
    requires IsSearch(q, net, accept, initial, run) && More(q, Last(run).cs)
    requires Fruitless(q, net, accept, |run| - 1, Last(run))
    ensures IsSearch(q, net, accept, initial, run + [AfterRound(q, AsNetwork(net), |run| - 1, Last(run))])
  {
    RunSnoc(q, AsNetwork(net), initial, run);
    var longer := run + [AfterRound(q, AsNetwork(net), |run| - 1, Last(run))];
    forall n: nat | n + 1 < |longer| ensures Fruitless(q, net, accept, n, longer[n]) {
      if n + 1 < |run| {
        assert Fruitless(q, net, accept, n, run[n]);
      }
    }
  }

  /**
   * A value lookup that ends without a value has asked everybody who counts: each of the
   * closest `k` nodes met and not failed answered a probe, and not with an acceptable value.
   */
  lemma SearchIsExhaustive(q: Query, net: DataNetwork, accept: Bytes -> bool, universe: set<KademliaId>, initial: seq<Contact>,
                           run: seq<Stage>) returns (alive: set<KademliaId>)
    requires Sane(q, AsNetwork(net), universe, initial)
    requires IsSearch(q, net, accept, initial, run) && !More(q, Last(run).cs)
    ensures forall x :: x in alive <==> Met(q, AsNetwork(net), initial, run, x) && !Dead(q, AsNetwork(net), run, x)
    ensures forall x :: x in TopK(q.target, alive, q.k) ==>
              exists n: nat :: AnsweredIn(q, AsNetwork(net), run, n, x) && !Good(accept, net.reply(n, x))
  {
    alive := ResultIsClosest(q, AsNetwork(net), universe, initial, run);
    forall x | x in TopK(q.target, alive, q.k)
      ensures exists n: nat :: AnsweredIn(q, AsNetwork(net), run, n, x) && !Good(accept, net.reply(n, x))
    {
      var n: nat :| AnsweredIn(q, AsNetwork(net), run, n, x);
      assert Fruitless(q, net, accept, n, run[n]);
    }
  }
}
