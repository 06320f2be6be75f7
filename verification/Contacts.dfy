/** Contacts and their order by XOR distance to a target (kademlia/contact.go). */
module Contacts {
  import opened Common
  import opened KademliaIds
  import opened Ranking

  /** A peer; the identifier is nil in a malformed network reply. */
  datatype Contact = Contact(id: Option<KademliaId>, address: string)

  /** XOR distance to a target, as a measure. */
  ghost function DistTo(target: KademliaId): KademliaId -> nat {
    (x: KademliaId) => Dist(x, target)
  }

  lemma DistToInjective(target: KademliaId)
    ensures Injective(DistTo(target))
  {
    forall x: KademliaId, y: KademliaId ensures Apart(DistTo(target), x, y) {
      DistInjective(x, y, target);
    }
  }

  /** The closest `k` of a set of identifiers, closest first; all of them if there are fewer. */
  ghost function TopK(target: KademliaId, ids: set<KademliaId>, k: nat): seq<KademliaId> {
    FirstK(DistTo(target), ids, k)
  }

  method CloserTo(target: KademliaId, x: KademliaId, y: KademliaId) returns (closer: bool)
    ensures closer <==> DistTo(target)(x) < DistTo(target)(y)
  {
    var dx := CalcDistance(x, target);
    var dy := CalcDistance(y, target);
    closer := Less(dx, dy);
  }

  /** Never farther first; equally far means equal. */
  ghost predicate Ascending(d: KademliaId -> nat, s: seq<KademliaId>) {
    forall i, j :: 0 <= i < j < |s| ==> d(s[i]) <= d(s[j])
  }

  /** Where an identifier belongs in a sorted listing: after everything closer. */
  method Position(target: KademliaId, sorted: seq<KademliaId>, x: KademliaId) returns (i: nat)
    ensures i <= |sorted| && forall j :: 0 <= j < i ==> DistTo(target)(sorted[j]) < DistTo(target)(x)
    ensures i < |sorted| ==> DistTo(target)(x) <= DistTo(target)(sorted[i])
  {
    i := 0;
    while i < |sorted|
      invariant i <= |sorted|
      invariant forall j :: 0 <= j < i ==> DistTo(target)(sorted[j]) < DistTo(target)(x)
    {
      var less := CloserTo(target, sorted[i], x);
      if !less {
        break;
      }
      i := i + 1;
    }
  }

  /** Inserts an identifier into a sorted listing. */
  method Insert(target: KademliaId, sorted: seq<KademliaId>, x: KademliaId) returns (r: seq<KademliaId>)
    requires Ascending(DistTo(target), sorted)
    ensures Ascending(DistTo(target), r) && multiset(r) == multiset(sorted) + multiset{x}
  {
    var i := Position(target, sorted, x);
    InsertedBetween(DistTo(target), sorted, x, i);
    InsertedOnce(sorted, x, i);
    r := sorted[..i] + [x] + sorted[i..];
  }

  lemma InsertedOnce(s: seq<KademliaId>, x: KademliaId, i: nat)
    requires i <= |s|
    ensures multiset(s[..i] + [x] + s[i..]) == multiset(s) + multiset{x}
  {
    assert s == s[..i] + s[i..];
  }

  lemma InsertedBetween(d: KademliaId -> nat, sorted: seq<KademliaId>, x: KademliaId, i: nat)
    requires Ascending(d, sorted) && i <= |sorted|
    requires (forall j :: 0 <= j < i ==> d(sorted[j]) <= d(x)) && (i < |sorted| ==> d(x) <= d(sorted[i]))
    ensures Ascending(d, sorted[..i] + [x] + sorted[i..])
  {
    var r := sorted[..i] + [x] + sorted[i..];
    forall j, k | 0 <= j < k < |r| ensures d(r[j]) <= d(r[k]) {
      assert j == i || r[j] == sorted[if j < i then j else j - 1];
      assert k == i || r[k] == sorted[if k < i then k else k - 1];
    }
  }

  /** Sorting by distance, as `sort.Sort` and `sort.Slice` do with `Contact.Less`. */
  method Sort(target: KademliaId, ids: seq<KademliaId>) returns (r: seq<KademliaId>)
    ensures Ascending(DistTo(target), r) && multiset(r) == multiset(ids)
  {
    r := [];
    for n := 0 to |ids|
      invariant Ascending(DistTo(target), r) && multiset(r) == multiset(ids[..n])
    {
      r := Insert(target, r, ids[n]);
      assert ids[..n + 1] == ids[..n] + [ids[n]];
    }
    assert ids[..|ids|] == ids;
  }

  lemma {:induction false} DistinctOccursOnce(s: seq<KademliaId>, x: KademliaId)
    requires Distinct(s)
    ensures multiset(s)[x] <= 1
  {
    if s != [] {
      var n := |s| - 1;
      assert s == s[..n] + [s[n]];
      DistinctOccursOnce(s[..n], x);
      assert s[n] !in s[..n];
    }
  }

  lemma RepeatsOccurTwice(s: seq<KademliaId>, i: nat, j: nat)
    requires i < j < |s| && s[i] == s[j]
    ensures multiset(s)[s[i]] >= 2
  {
    assert s == s[..j] + s[j..];
    assert s[..j][i] in s[..j] && s[j..][0] in s[j..];
  }

  /** Any sorted permutation of a listing without repetition is the ranking of its elements. */
  lemma SortedIsRanking(target: KademliaId, ids: seq<KademliaId>, r: seq<KademliaId>, members: set<KademliaId>)
    requires Ascending(DistTo(target), r) && multiset(r) == multiset(ids)
    requires Distinct(ids) && forall x :: x in ids <==> x in members
    ensures r == Ranked(DistTo(target), members)
  {
    DistToInjective(target);
    forall i, j | 0 <= i < j < |r| ensures DistTo(target)(r[i]) < DistTo(target)(r[j]) {
      if r[i] == r[j] {
        RepeatsOccurTwice(r, i, j);
        DistinctOccursOnce(ids, r[i]);
      }
      assert Apart(DistTo(target), r[i], r[j]);
    }
    forall x ensures x in r <==> x in members {
      assert x in r <==> x in multiset(r);
      assert x in ids <==> x in multiset(ids);
    }
    RankingIsUnique(DistTo(target), r, members);
  }
}
