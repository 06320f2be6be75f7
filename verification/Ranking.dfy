/**
 * Finite sets ranked by an injective measure. Such a set has exactly one strictly
 * sorted listing. The lookup and the routing table use it with the XOR distance to a
 * target, which is injective (`KademliaIds.DistInjective`).
 */
module Ranking {

  ghost predicate Apart<T>(d: T -> nat, x: T, y: T) {
    d(x) == d(y) ==> x == y
  }

  ghost predicate Injective<T(!new)>(d: T -> nat) {
    forall x, y :: Apart(d, x, y)
  }

  ghost predicate Sorted<T>(d: T -> nat, s: seq<T>) {
    forall i, j :: 0 <= i < j < |s| ==> d(s[i]) < d(s[j])
  }

  ghost predicate Distinct<T>(s: seq<T>) {
    forall i, j :: 0 <= i < j < |s| ==> s[i] != s[j]
  }

  ghost predicate IsClosest<T>(d: T -> nat, all: set<T>, x: T) {
    x in all && forall y :: y in all ==> d(x) <= d(y)
  }

  lemma {:induction false} FindClosest<T(!new)>(d: T -> nat, all: set<T>) returns (x: T)
    requires all != {}
    ensures IsClosest(d, all, x)
  {
    var z :| z in all;
    x := z;
    if all != {z} {
      var y := FindClosest(d, all - {z});
      x := if d(z) <= d(y) then z else y;
    }
  }

  ghost function Closest<T(!new)>(d: T -> nat, all: set<T>): (x: T)
    requires all != {}
    ensures IsClosest(d, all, x)
  {
    assert exists x :: IsClosest(d, all, x) by { var x := FindClosest(d, all); }
    var x :| IsClosest(d, all, x);
    x
  }

  /** The elements of a set, smallest measure first. */
  ghost function Ranked<T(!new)>(d: T -> nat, all: set<T>): (r: seq<T>)
    ensures |r| == |all|
    decreases |all|
  {
    if all == {} then []
    else
      var x := Closest(d, all);
      [x] + Ranked(d, all - {x})
  }

  /** The first `k` of a ranked set; all of it if it is smaller. */
  ghost function FirstK<T(!new)>(d: T -> nat, all: set<T>, k: nat): seq<T> {
    Ranked(d, all)[..if k < |all| then k else |all|]
  }

  lemma {:induction false} RankedMembers<T(!new)>(d: T -> nat, all: set<T>)
    ensures forall x :: x in Ranked(d, all) <==> x in all
    decreases |all|
  {
    if all != {} {
      var x := Closest(d, all);
      RankedMembers(d, all - {x});
    }
  }

  lemma FirstKMembers<T(!new)>(d: T -> nat, all: set<T>, k: nat)
    ensures forall x :: x in FirstK(d, all, k) ==> x in all
  {
    RankedMembers(d, all);
  }

  lemma {:induction false} RankedSorted<T(!new)>(d: T -> nat, all: set<T>)
    requires Injective(d)
    ensures Sorted(d, Ranked(d, all))
    decreases |all|
  {
    if all != {} {
      var x := Closest(d, all);
      var rest := Ranked(d, all - {x});
      RankedSorted(d, all - {x});
      RankedMembers(d, all - {x});
      forall j | 0 <= j < |rest| ensures d(x) < d(rest[j]) {
        assert rest[j] in rest;
        assert Apart(d, x, rest[j]);
      }
    }
  }

  lemma {:induction false} SortedIndex<T>(d: T -> nat, s: seq<T>, x: T)
    requires Sorted(d, s) && x in s && forall y :: y in s ==> d(x) <= d(y)
    ensures s[0] == x && forall y :: y in s[1..] <==> y in s && y != x
  {
    var k :| 0 <= k < |s| && s[k] == x;
    assert s[0] in s;
    assert k == 0;
    assert s == [s[0]] + s[1..];
    forall y | y in s[1..] ensures y != x {
      var i :| 0 <= i < |s[1..]| && s[1..][i] == y;
      assert s[i + 1] == y;
    }
  }

  lemma HeadAndTail<T>(s: seq<T>)
    requires s != []
    ensures s == [s[0]] + s[1..]
  {
  }

  /** Any strictly sorted listing of a set is its ranking: neither listing order nor sort stability matters. */
  lemma {:induction false} RankingIsUnique<T(!new)>(d: T -> nat, s: seq<T>, all: set<T>)
    requires Sorted(d, s) && forall x :: x in s <==> x in all
    ensures s == Ranked(d, all)
    decreases |s|
  {
    if s == [] {
      assert all == {};
    } else {
      assert s[0] in all;
      var x := Closest(d, all);
      SortedIndex(d, s, x);
      RankingIsUnique(d, s[1..], all - {x});
      HeadAndTail(s);
    }
  }

  lemma ClosestOfSubset<T(!new)>(d: T -> nat, all: set<T>, some: set<T>, x: T)
    requires Injective(d) && some <= all && IsClosest(d, all, x) && x in some
    ensures Closest(d, some) == x
  {
    assert Apart(d, Closest(d, some), x);
  }

  /** If the first `m` of a set lie in a subset, they are the first `m` of the subset. */
  lemma {:induction false} TopOfSubset<T(!new)>(d: T -> nat, all: set<T>, some: set<T>, m: nat)
    requires Injective(d) && some <= all && m <= |all|
    requires forall i :: 0 <= i < m ==> Ranked(d, all)[i] in some
    ensures m <= |some| && Ranked(d, some)[..m] == Ranked(d, all)[..m]
    decreases m
  {
    if m > 0 {
      var x := Closest(d, all);
      var rest := Ranked(d, all - {x});
      assert Ranked(d, all) == [x] + rest;
      assert Ranked(d, all)[0] == x;
      ClosestOfSubset(d, all, some, x);
      RankedMembers(d, all - {x});
      TailInSubset(Ranked(d, all), x, rest, some, m);
      TopOfSubset(d, all - {x}, some - {x}, m - 1);
      PrefixOfCons(x, Ranked(d, some - {x}), rest, m);
    }
  }

  lemma TailInSubset<T>(r: seq<T>, x: T, rest: seq<T>, some: set<T>, m: nat)
    requires r == [x] + rest && 0 < m <= |r| && x !in rest
    requires forall i :: 0 <= i < m ==> r[i] in some
    ensures forall i :: 0 <= i < m - 1 ==> rest[i] in some - {x}
  {
    forall i | 0 <= i < m - 1 ensures rest[i] in some - {x} {
      assert r[i + 1] == rest[i] && rest[i] in rest;
    }
  }

  lemma PrefixOfCons<T>(x: T, s: seq<T>, t: seq<T>, m: nat)
    requires 0 < m <= |s| + 1 && m <= |t| + 1 && s[..m - 1] == t[..m - 1]
    ensures ([x] + s)[..m] == ([x] + t)[..m]
  {
    assert ([x] + s)[..m] == [x] + s[..m - 1] && ([x] + t)[..m] == [x] + t[..m - 1];
  }

  /** `r` lists exactly the elements of the set, in strictly increasing measure. */
  ghost predicate IsRanking<T(!new)>(d: T -> nat, all: set<T>, r: seq<T>) {
    Sorted(d, r) && |r| == |all| && forall x :: x in r <==> x in all
  }

  lemma RankedIsRanking<T(!new)>(d: T -> nat, all: set<T>)
    requires Injective(d)
    ensures IsRanking(d, all, Ranked(d, all))
  {
    RankedMembers(d, all);
    RankedSorted(d, all);
  }

  /** What measures no more than the `m`-th ranked element is among the first `m`. */
  lemma CloserIsRankedBefore<T(!new)>(d: T -> nat, all: set<T>, r: seq<T>, x: T, m: nat)
    requires IsRanking(d, all, r) && x in all && 0 < m <= |all| && d(x) <= d(r[m - 1])
    ensures x in r[..m]
  {
    assert x in r;
    var i :| 0 <= i < |r| && r[i] == x;
    assert i < m;
    assert r[..m][i] == x;
  }

  // ---------------------------------------------------------------- counting

  lemma {:induction false} SubsetCardinality<T>(a: set<T>, b: set<T>)
    requires a <= b
    ensures |a| <= |b|
  {
    if a != {} {
      var x :| x in a;
      SubsetCardinality(a - {x}, b - {x});
    }
  }

  /** A sequence without repetition is no longer than a set that holds its elements. */
  lemma {:induction false} DistinctBound<T>(s: seq<T>, all: set<T>)
    requires Distinct(s) && forall x :: x in s ==> x in all
    ensures |s| <= |all|
  {
    if s != [] {
      var n := |s| - 1;
      var before := s[..n];
      forall x | x in before ensures x in all - {s[n]} {
        assert x in s;
      }
      assert s[n] in all;
      DistinctBound(before, all - {s[n]});
    }
  }

  lemma {:induction false} CoverBound<T>(a: set<T>, s: seq<T>)
    requires forall x :: x in a ==> x in s
    ensures |a| <= |s|
    decreases |s|
  {
    if s == [] {
      assert a == {};
    } else {
      CoverBound(a - {s[0]}, s[1..]);
      assert |a| <= |a - {s[0]}| + 1;
    }
  }
}
