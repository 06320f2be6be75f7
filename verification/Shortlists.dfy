/**
 * The candidate shortlist of an iterative lookup (kademlia/shortlist.go). Candidates are
 * keyed by identifier (the source keys them by its hexadecimal text, which is injective,
 * `Hex.EncodeInjective`); queries return identifiers or contacts, closest first.
 */
module Shortlists {
  import opened Common
  import opened KademliaIds
  import opened Ranking
  import opened Contacts

  datatype Status = Unqueried | Queried | Unresponsive

  datatype Candidate = Candidate(contact: Contact, status: Status)

  type Candidates = map<KademliaId, Candidate>

  /** Every candidate is keyed by its contact's identifier, and the local node is none. */
  ghost predicate WellKeyed(cs: Candidates, me: Option<KademliaId>) {
    forall x :: x in cs ==> cs[x].contact.id == Some(x) && me != Some(x)
  }

  // ---------------------------------------------------------------- updates

  function AddOne(cs: Candidates, me: Option<KademliaId>, c: Contact): Candidates {
    if c.id.None? || c.id == me || c.id.value in cs then cs
    else cs[c.id.value := Candidate(c, Unqueried)]
  }

  function AddAll(cs: Candidates, me: Option<KademliaId>, contacts: seq<Contact>): Candidates
    decreases |contacts|
  {
    if contacts == [] then cs
    else AddOne(AddAll(cs, me, contacts[..|contacts| - 1]), me, contacts[|contacts| - 1])
  }

  function Mark(cs: Candidates, id: Option<KademliaId>, status: Status): Candidates {
    if id.Some? && id.value in cs then cs[id.value := cs[id.value].(status := status)] else cs
  }

  /** The identifiers a list of contacts can contribute. */
  ghost function Usable(me: Option<KademliaId>, contacts: seq<Contact>): set<KademliaId> {
    set i | 0 <= i < |contacts| && contacts[i].id.Some? && contacts[i].id != me :: contacts[i].id.value
  }

  /** Adding contributes exactly the usable new identifiers as unqueried and changes nothing else. */
  lemma {:induction false} AddAllEffect(cs: Candidates, me: Option<KademliaId>, contacts: seq<Contact>)
    requires WellKeyed(cs, me)
    ensures WellKeyed(AddAll(cs, me, contacts), me)
    ensures AddAll(cs, me, contacts).Keys == cs.Keys + Usable(me, contacts)
    ensures forall x :: x in cs ==> AddAll(cs, me, contacts)[x] == cs[x]
    ensures forall x :: x in AddAll(cs, me, contacts) && x !in cs ==> AddAll(cs, me, contacts)[x].status == Unqueried
    decreases |contacts|
  {
    if contacts != [] {
      var n := |contacts| - 1;
      AddAllEffect(cs, me, contacts[..n]);
      UsableSnoc(me, contacts);
    }
  }

  lemma UsableSnoc(me: Option<KademliaId>, contacts: seq<Contact>)
    requires contacts != []
    ensures var n := |contacts| - 1;
            var c := contacts[n];
            Usable(me, contacts) == Usable(me, contacts[..n]) + if c.id.Some? && c.id != me then {c.id.value} else {}
  {
    var n := |contacts| - 1;
    assert forall i :: 0 <= i < n ==> contacts[..n][i] == contacts[i];
  }

  // ---------------------------------------------------------------- queries

  function ActiveIds(cs: Candidates): set<KademliaId> {
    set x | x in cs && cs[x].status != Unresponsive
  }

  function QueriedIds(cs: Candidates): set<KademliaId> {
    set x | x in cs && cs[x].status == Queried
  }

  /** Some of the closest `k` active candidates is unqueried. */
  ghost predicate UnqueriedInTop(cs: Candidates, target: KademliaId, k: nat) {
    exists x :: x in TopK(target, ActiveIds(cs), k) && x in cs && cs[x].status == Unqueried
  }

  /** The first `count` unqueried ones of a listing. */
  function TakeUnqueried(cs: Candidates, ids: seq<KademliaId>, count: nat): seq<KademliaId>
    requires forall x :: x in ids ==> x in cs
    decreases |ids|
  {
    if ids == [] then []
    else
      var before := TakeUnqueried(cs, ids[..|ids| - 1], count);
      var x := ids[|ids| - 1];
      if cs[x].status == Unqueried && |before| < count then before + [x] else before
  }

  function ContactsOf(cs: Candidates, ids: seq<KademliaId>): seq<Contact>
    requires forall x :: x in ids ==> x in cs
  {
    seq(|ids|, i requires 0 <= i < |ids| => cs[ids[i]].contact)
  }

  /**
   * What is taken is unqueried and without repetition, and an unqueried one is left out only
   * if `count` others were taken.
   */
  lemma {:induction false} TakeUnqueriedFacts(cs: Candidates, ids: seq<KademliaId>, count: nat)
    requires forall x :: x in ids ==> x in cs
    requires Distinct(ids)
    ensures var r := TakeUnqueried(cs, ids, count);
            && |r| <= count && Distinct(r)
            && (forall x :: x in r ==> x in ids && cs[x].status == Unqueried)
            && (|r| < count ==> forall x :: x in ids && cs[x].status == Unqueried ==> x in r)
    decreases |ids|
  {
    if ids != [] {
      var n := |ids| - 1;
      TakeUnqueriedFacts(cs, ids[..n], count);
      assert ids == ids[..n] + [ids[n]];
      assert ids[n] !in ids[..n];
    }
  }

  /** Whatever is taken, everything unqueried listed before it is taken too. */
  lemma {:induction false} TakenInOrder(cs: Candidates, ids: seq<KademliaId>, count: nat, i: nat, j: nat)
    requires forall x :: x in ids ==> x in cs
    requires Distinct(ids) && i < j < |ids|
    requires ids[j] in TakeUnqueried(cs, ids, count) && cs[ids[i]].status == Unqueried
    ensures ids[i] in TakeUnqueried(cs, ids, count)
    decreases |ids|
  {
    var n := |ids| - 1;
    TakeUnqueriedFacts(cs, ids[..n], count);
    if j < n {
      assert ids[..n][i] == ids[i] && ids[..n][j] == ids[j];
      TakenInOrder(cs, ids[..n], count, i, j);
    } else {
      assert ids[..n][i] == ids[i] && ids[i] in ids[..n];
      assert ids[n] !in ids[..n];
    }
  }

  lemma TopKMembers(target: KademliaId, ids: set<KademliaId>, k: nat)
    ensures forall x :: x in TopK(target, ids, k) ==> x in ids
    ensures Sorted(DistTo(target), TopK(target, ids, k)) && Distinct(TopK(target, ids, k))
  {
    DistToInjective(target);
    RankedIsRanking(DistTo(target), ids);
  }

  /**
   * The exit condition of the lookup: when none of the closest `k` active candidates is
   * unqueried, the closest `k` queried ones are the closest `k` active ones.
   */
  lemma QueriedTopIsActiveTop(cs: Candidates, target: KademliaId, k: nat)
    requires !UnqueriedInTop(cs, target, k)
    ensures TopK(target, QueriedIds(cs), k) == TopK(target, ActiveIds(cs), k)
  {
    var active, queried := ActiveIds(cs), QueriedIds(cs);
    var top := TopK(target, active, k);
    TopKMembers(target, active, k);
    assert forall i :: 0 <= i < |top| ==> top[i] in top;
    assert forall i :: 0 <= i < |top| ==> top[i] in queried;
    SubsetTop(target, active, queried, k);
  }

  lemma SubsetTop(target: KademliaId, all: set<KademliaId>, some: set<KademliaId>, k: nat)
    requires some <= all && forall i :: 0 <= i < |TopK(target, all, k)| ==> TopK(target, all, k)[i] in some
    ensures TopK(target, some, k) == TopK(target, all, k)
  {
    var m := if k < |all| then k else |all|;
    assert forall i :: 0 <= i < m ==> Ranked(DistTo(target), all)[i] == TopK(target, all, k)[i];
    DistToInjective(target);
    TopOfSubset(DistTo(target), all, some, m);
    SubsetCardinality(some, all);
  }

  class Shortlist {
    const target: KademliaId
    const me: Option<KademliaId>
    var candidates: Candidates

    constructor (target: KademliaId, me: Option<KademliaId>)
      ensures this.target == target && this.me == me && candidates == map[]
    {
      this.target, this.me := target, me;
      candidates := map[];
    }

    method Add(contacts: seq<Contact>)
      modifies this`candidates
      ensures candidates == AddAll(old(candidates), me, contacts)
    {
      for i := 0 to |contacts|
        invariant candidates == AddAll(old(candidates), me, contacts[..i])
      {
        assert contacts[..i + 1][..i] == contacts[..i];
        var c := contacts[i];
        if c.id.None? {
          continue;
        }
        if me.Some? && c.id.value == me.value {
          continue;
        }
        if c.id.value in candidates {
          continue;
        }
        candidates := candidates[c.id.value := Candidate(c, Unqueried)];
      }
      assert contacts[..|contacts|] == contacts;
    }

    method MarkQueried(id: Option<KademliaId>)
      modifies this`candidates
      ensures candidates == Mark(old(candidates), id, Queried)
    {
      if id.Some? && id.value in candidates {
        candidates := candidates[id.value := candidates[id.value].(status := Queried)];
      }
    }

    method MarkUnresponsive(id: Option<KademliaId>)
      modifies this`candidates
      ensures candidates == Mark(old(candidates), id, Unresponsive)
    {
      if id.Some? && id.value in candidates {
        candidates := candidates[id.value := candidates[id.value].(status := Unresponsive)];
      }
    }

    /** Lists a set of identifiers in an arbitrary order, as a Go map is iterated. */
    method List(ids: set<KademliaId>) returns (listed: seq<KademliaId>)
      ensures Distinct(listed) && forall x :: x in listed <==> x in ids
    {
      listed := [];
      var rest := ids;
      while rest != {}
        invariant rest <= ids && Distinct(listed)
        invariant forall x :: x in listed <==> x in ids && x !in rest
        decreases rest
      {
        var x :| x in rest;
        listed := listed + [x];
        rest := rest - {x};
      }
    }

    method GetActiveCandidates() returns (ids: seq<KademliaId>)
      ensures ids == Ranked(DistTo(target), ActiveIds(candidates))
    {
      var listed := List(ActiveIds(candidates));
      ids := Sort(target, listed);
      SortedIsRanking(target, listed, ids, ActiveIds(candidates));
    }

    /** The closest `k` active candidates, or all of them. */
    method GetTop(k: nat) returns (top: seq<KademliaId>)
      ensures top == TopK(target, ActiveIds(candidates), k)
      ensures forall x :: x in top ==> x in candidates
    {
      var active := GetActiveCandidates();
      var limit := if k < |active| then k else |active|;
      TopKMembers(target, ActiveIds(candidates), k);
      top := active[..limit];
    }

    method GetClosestUnqueried(count: nat, withinK: nat) returns (result: seq<KademliaId>)
      ensures forall x :: x in TopK(target, ActiveIds(candidates), withinK) ==> x in candidates
      ensures result == TakeUnqueried(candidates, TopK(target, ActiveIds(candidates), withinK), count)
    {
      var top := GetTop(withinK);
      result := FirstUnqueried(top, count);
    }

    /** The loop over the closest active candidates. */
    method FirstUnqueried(top: seq<KademliaId>, count: nat) returns (result: seq<KademliaId>)
      requires forall x :: x in top ==> x in candidates
      ensures result == TakeUnqueried(candidates, top, count)
    {
      result := [];
      var i := 0;
      while i < |top| && |result| < count
        invariant 0 <= i <= |top|
        invariant result == TakeUnqueried(candidates, top[..i], count)
      {
        assert top[i] in top && top[..i + 1][..i] == top[..i];
        if candidates[top[i]].status == Unqueried {
          result := result + [top[i]];
        }
        i := i + 1;
      }
      FullStaysFull(candidates, top, i, count);
    }

    method HasUnqueriedInTopK(k: nat) returns (found: bool)
      ensures found <==> UnqueriedInTop(candidates, target, k)
    {
      var top := GetTop(k);
      found := AnyUnqueried(top);
    }

    method AnyUnqueried(top: seq<KademliaId>) returns (found: bool)
      requires forall x :: x in top ==> x in candidates
      ensures found <==> exists x :: x in top && x in candidates && candidates[x].status == Unqueried
    {
      for i := 0 to |top|
        invariant forall j :: 0 <= j < i ==> top[j] in candidates && candidates[top[j]].status != Unqueried
      {
        assert top[i] in top;
        if candidates[top[i]].status == Unqueried {
          return true;
        }
      }
      return false;
    }

    method GetClosestQueried(k: nat) returns (result: seq<KademliaId>)
      ensures result == TopK(target, QueriedIds(candidates), k)
    {
      var listed := List(QueriedIds(candidates));
      var queried := Sort(target, listed);
      SortedIsRanking(target, listed, queried, QueriedIds(candidates));
      result := queried[..if k < |queried| then k else |queried|];
    }
  }

  // Once `count` are taken, or the listing is exhausted, nothing more is taken.
  lemma {:induction false} FullStaysFull(cs: Candidates, ids: seq<KademliaId>, i: nat, count: nat)
    requires forall x :: x in ids ==> x in cs
    requires i <= |ids|
    requires i == |ids| || |TakeUnqueried(cs, ids[..i], count)| >= count
    ensures TakeUnqueried(cs, ids[..i], count) == TakeUnqueried(cs, ids, count)
    decreases |ids|
  {
    if i == |ids| {
      assert ids[..i] == ids;
    } else {
      var n := |ids| - 1;
      assert ids[..n][..i] == ids[..i];
      if i < n {
        FullStaysFull(cs, ids[..n], i, count);
      }
    }
  }
}
