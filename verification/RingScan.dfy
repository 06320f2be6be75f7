/**
 * The nearest-contacts query of the routing table (kademlia/routingtable.go:214-242).
 *
 * The scan widens symmetrically around the target's bucket `b` and stops once it has
 * enough contacts. In XOR distance to the target the buckets lie in the order: bucket b,
 * then all buckets above b mixed, then b-1, b-2 and so on. So stopping is harmless for
 * buckets below the scanned range, but a bucket above it may hide closer contacts.
 * `ScanIsExactIff` says exactly when the answer is the globally closest contacts.
 */
module RingScan {
  import opened Common
  import opened KademliaIds
  import opened Ranking
  import opened Contacts
  import opened Buckets
  import opened Eviction

  // ---------------------------------------------------------------- the geometry of the ring

  /** `x` lies before `y` in the order of buckets around `b`. */
  ghost predicate Nearer(home: KademliaId -> BucketNo, b: nat, x: KademliaId, y: KademliaId) {
    (home(y) < b && home(y) < home(x)) || (home(x) == b && home(y) > b)
  }

  ghost predicate Respects(d: KademliaId -> nat, home: KademliaId -> BucketNo, b: nat, x: KademliaId, y: KademliaId) {
    Nearer(home, b, x, y) ==> d(x) < d(y)
  }

  /** Distances respect the order of buckets. */
  ghost predicate RingOrder(d: KademliaId -> nat, home: KademliaId -> BucketNo, b: nat) {
    forall x, y :: Respects(d, home, b, x, y)
  }

  lemma SharedWithTarget(me: KademliaId, target: KademliaId, x: KademliaId)
    ensures var b, i := BucketIndex(me, target), BucketIndex(me, x);
            && SharePrefix(x, target, if i < b then i else b)
            && (i < b ==> FirstBitDifference(x, target, i))
            && (i > b ==> FirstBitDifference(x, target, b))
            && (i == b && b < ID_BITS - 1 ==> SharePrefix(x, target, b + 1))
  {
    var b, i := BucketIndex(me, target), BucketIndex(me, x);
    BucketIndexIsPrefixLength(me, target);
    BucketIndexIsPrefixLength(me, x);
    assert IsBucketIndex(me, target, b) && IsBucketIndex(me, x, i);
    assert SharePrefix(target, me, b) && SharePrefix(x, me, i);
    var m := if i < b then i else b;
    forall k: nat | k < m ensures Bit(x, k) == Bit(target, k) {
      assert Bit(x, k) == Bit(me, k) && Bit(target, k) == Bit(me, k);
    }
    if i < b {
      assert Bit(target, i) == Bit(me, i) && Bit(x, i) != Bit(me, i);
    } else if i > b {
      assert Bit(x, b) == Bit(me, b) && Bit(target, b) != Bit(me, b);
    } else if b < ID_BITS - 1 {
      assert Bit(x, b) != Bit(me, b) && Bit(target, b) != Bit(me, b);
    }
  }

  lemma NearerIsCloser(me: KademliaId, target: KademliaId, x: KademliaId, y: KademliaId)
    requires Nearer(NodeOf(me).home, BucketIndex(me, target), x, y)
    ensures Dist(x, target) < Dist(y, target)
  {
    var b, i, j := BucketIndex(me, target), BucketIndex(me, x), BucketIndex(me, y);
    assert NodeOf(me).home(x) == i && NodeOf(me).home(y) == j;
    SharedWithTarget(me, target, x);
    SharedWithTarget(me, target, y);
    if j < b && j < i {
      LongerPrefixIsCloser(x, y, target, j);
    } else {
      LongerPrefixIsCloser(x, y, target, b);
    }
  }

  /** XOR distances respect the bucket order around the target's bucket, for every node and target. */
  lemma RingOrderHolds(me: KademliaId, target: KademliaId)
    ensures RingOrder(DistTo(target), NodeOf(me).home, BucketIndex(me, target))
  {
    forall x: KademliaId, y: KademliaId
      ensures Respects(DistTo(target), NodeOf(me).home, BucketIndex(me, target), x, y)
    {
      if Nearer(NodeOf(me).home, BucketIndex(me, target), x, y) {
        NearerIsCloser(me, target, x, y);
      }
    }
  }

  // ---------------------------------------------------------------- counting in rankings

  /** Whatever precedes the element ranked at `i` numbers at most `i`. */
  lemma PrecedersBound(d: KademliaId -> nat, all: set<KademliaId>, r: seq<KademliaId>, i: nat, a: set<KademliaId>)
    requires IsRanking(d, all, r) && i < |r| && a <= all
    requires forall x :: x in a ==> d(x) < d(r[i])
    ensures |a| <= i
  {
    forall x | x in a ensures x in r[..i] {
      assert x in r;
      var k :| 0 <= k < |r| && r[k] == x;
      assert k < i;
      assert r[..i][k] == x;
    }
    CoverBound(a, r[..i]);
  }

  // ---------------------------------------------------------------- what a scan misses

  /** The scanned contacts that are closer than everything in the buckets above the scanned range. */
  ghost function Ahead(d: KademliaId -> nat, scanned: set<KademliaId>, above: set<KademliaId>): set<KademliaId> {
    set x | x in scanned && forall u :: u in above ==> d(x) < d(u)
  }

  /** `scanned`, `above` and `below` are the contacts in, above and below the buckets b-r..b+r. */
  ghost predicate Parts(home: KademliaId -> BucketNo, b: nat, r: nat,
                        scanned: set<KademliaId>, above: set<KademliaId>, below: set<KademliaId>) {
    && (forall x :: x in scanned ==> b - r <= home(x) <= b + r)
    && (forall x :: x in above ==> home(x) > b + r)
    && (forall x :: x in below ==> home(x) < b - r)
  }

  /** No contact below the scanned range is closer than a scanned one. */
  lemma BelowIsFarther(d: KademliaId -> nat, home: KademliaId -> BucketNo, b: nat, r: nat,
                       scanned: set<KademliaId>, above: set<KademliaId>, below: set<KademliaId>, x: KademliaId, y: KademliaId)
    requires RingOrder(d, home, b) && Parts(home, b, r, scanned, above, below)
    requires x in scanned && y in below
    ensures d(x) < d(y)
  {
    assert Respects(d, home, b, x, y);
  }

  /** With enough contacts ahead of the hidden ones, the closest of all were scanned. */
  lemma TopWasScanned(d: KademliaId -> nat, home: KademliaId -> BucketNo, b: nat, r: nat,
                      scanned: set<KademliaId>, above: set<KademliaId>, below: set<KademliaId>,
                      ranking: seq<KademliaId>, i: nat, count: nat)
    requires RingOrder(d, home, b) && Parts(home, b, r, scanned, above, below)
    requires IsRanking(d, scanned + above + below, ranking) && i < |ranking| && i < count
    requires count <= |scanned| || (above == {} && below == {})
    requires above == {} || |Ahead(d, scanned, above)| >= count
    ensures ranking[i] in scanned
  {
    var all, x := scanned + above + below, ranking[i];
    assert x in ranking;
    assert x in all;
    if x in below {
      forall y | y in scanned ensures d(y) < d(x) {
        BelowIsFarther(d, home, b, r, scanned, above, below, y, x);
      }
      PrecedersBound(d, all, ranking, i, scanned);
    } else if x in above {
      PrecedersBound(d, all, ranking, i, Ahead(d, scanned, above));
    }
  }

  lemma ExactIfEnoughAhead(d: KademliaId -> nat, home: KademliaId -> BucketNo, b: nat, r: nat,
                           scanned: set<KademliaId>, above: set<KademliaId>, below: set<KademliaId>, count: nat)
    requires Injective(d) && RingOrder(d, home, b) && Parts(home, b, r, scanned, above, below)
    requires count <= |scanned| || (above == {} && below == {})
    requires above == {} || |Ahead(d, scanned, above)| >= count
    ensures FirstK(d, scanned, count) == FirstK(d, scanned + above + below, count)
  {
    var all := scanned + above + below;
    var m := if count < |all| then count else |all|;
    RankedIsRanking(d, all);
    forall i | 0 <= i < m ensures Ranked(d, all)[i] in scanned {
      TopWasScanned(d, home, b, r, scanned, above, below, Ranked(d, all), i, count);
    }
    TopOfSubset(d, all, scanned, m);
    if count > |scanned| {
      assert all == scanned;
    } else {
      CountBelow(d, all, scanned, m, count);
    }
  }

  lemma CountBelow(d: KademliaId -> nat, all: set<KademliaId>, scanned: set<KademliaId>, m: nat, count: nat)
    requires scanned <= all && count <= |scanned| && m == (if count < |all| then count else |all|)
    ensures m == count == if count < |scanned| then count else |scanned|
  {
    SubsetCardinality(scanned, all);
  }

  lemma EnoughAheadIfExact(d: KademliaId -> nat, home: KademliaId -> BucketNo, b: nat, r: nat,
                           scanned: set<KademliaId>, above: set<KademliaId>, below: set<KademliaId>, count: nat)
    requires Injective(d) && Parts(home, b, r, scanned, above, below)
    requires count <= |scanned| && above != {}
    requires FirstK(d, scanned, count) == FirstK(d, scanned + above + below, count)
    ensures |Ahead(d, scanned, above)| >= count
  {
    var all := scanned + above + below;
    SubsetCardinality(scanned, all);
    RankedIsRanking(d, scanned);
    RankedIsRanking(d, all);
    var top := FirstK(d, scanned, count);
    assert |top| == count;
    FirstOfScanned(d, scanned, above, all, Ranked(d, scanned), Ranked(d, all), top);
  }

  lemma FirstOfScanned(d: KademliaId -> nat, scanned: set<KademliaId>, above: set<KademliaId>, all: set<KademliaId>,
                       rs: seq<KademliaId>, ra: seq<KademliaId>, top: seq<KademliaId>)
    requires IsRanking(d, scanned, rs) && IsRanking(d, all, ra) && above <= all && above !! scanned
    requires |top| <= |rs| && |top| <= |ra| && top == rs[..|top|] == ra[..|top|]
    ensures |Ahead(d, scanned, above)| >= |top|
  {
    forall i | 0 <= i < |top| ensures top[i] in Ahead(d, scanned, above) {
      assert top[i] == rs[i] && rs[i] in rs;
      forall u | u in above ensures d(top[i]) < d(u) {}
    }
    assert forall i, j :: 0 <= i < j < |top| ==> top[i] == rs[i] && top[j] == rs[j];
    DistinctBound(top, Ahead(d, scanned, above));
  }

  /**
   * The scanned answer is the globally closest one if and only if nothing is stored above the
   * scanned buckets, or at least `count` scanned contacts are closer than all of it.
   */
  lemma ScanIsExactIff(d: KademliaId -> nat, home: KademliaId -> BucketNo, b: nat, r: nat,
                       scanned: set<KademliaId>, above: set<KademliaId>, below: set<KademliaId>, count: nat)
    requires Injective(d) && RingOrder(d, home, b) && Parts(home, b, r, scanned, above, below)
    requires count <= |scanned| || (above == {} && below == {})
    ensures FirstK(d, scanned, count) == FirstK(d, scanned + above + below, count) <==>
            above == {} || |Ahead(d, scanned, above)| >= count
  {
    if above == {} || |Ahead(d, scanned, above)| >= count {
      ExactIfEnoughAhead(d, home, b, r, scanned, above, below, count);
    } else if FirstK(d, scanned, count) == FirstK(d, scanned + above + below, count) {
      EnoughAheadIfExact(d, home, b, r, scanned, above, below, count);
    }
  }
}
