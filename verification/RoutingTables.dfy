/**
 * The routing table object (kademlia/routingtable.go): 256 buckets, the eviction
 * bookkeeping, and the nearest-contacts query. Each method that changes the object is one
 * critical section and does what the corresponding step of `Eviction` does.
 */
module RoutingTables {
  import opened Common
  import Bits
  import opened KademliaIds
  import opened Ranking
  import opened Contacts
  import opened Buckets
  import opened Eviction
  import opened RingScan

  // ---------------------------------------------------------------- identifiers stored in a table

  function PeerIds(peers: Peers): seq<KademliaId> {
    seq(|peers|, j requires 0 <= j < |peers| => peers[j].id)
  }

  function AllIds(t: Table): set<KademliaId> {
    set i, j | 0 <= i < ID_BITS && 0 <= j < |t[i]| :: t[i][j].id
  }

  ghost function Within(node: Node, t: Table, b: nat, r: nat): set<KademliaId> {
    set x | x in AllIds(t) && b - r <= node.home(x) <= b + r
  }

  ghost function Above(node: Node, t: Table, b: nat, r: nat): set<KademliaId> {
    set x | x in AllIds(t) && node.home(x) > b + r
  }

  ghost function Below(node: Node, t: Table, b: nat, r: nat): set<KademliaId> {
    set x | x in AllIds(t) && node.home(x) < b - r
  }

  lemma StoredAtHome(node: Node, t: Table, i: BucketNo, x: KademliaId)
    requires TableOk(node, t)
    ensures x in PeerIds(t[i]) <==> x in AllIds(t) && node.home(x) == i
  {
    if x in PeerIds(t[i]) {
      var j :| 0 <= j < |PeerIds(t[i])| && PeerIds(t[i])[j] == x;
      assert t[i][j].id == x;
      assert AllIn(node, t[i], i);
    }
    if x in AllIds(t) && node.home(x) == i {
      var k, j :| 0 <= k < ID_BITS && 0 <= j < |t[k]| && t[k][j].id == x;
      var b: BucketNo := k;
      assert AllIn(node, t[b], b);
      assert PeerIds(t[i])[j] == x;
    }
  }

  /** `s` lists the set without repetition. */
  ghost predicate Lists(s: seq<KademliaId>, a: set<KademliaId>) {
    Distinct(s) && forall x :: x in s <==> x in a
  }

  lemma ListsConcat(s: seq<KademliaId>, a: set<KademliaId>, t: seq<KademliaId>, b: set<KademliaId>)
    requires Lists(s, a) && Lists(t, b) && a !! b
    ensures Lists(s + t, a + b)
  {
    forall i, j | 0 <= i < j < |s + t| ensures (s + t)[i] != (s + t)[j] {
      if i < |s| <= j {
        assert s[i] in s && t[j - |s|] in t;
      }
    }
  }

  // ---------------------------------------------------------------- the scan

  /** The identifiers of a bucket that may lie outside the table. */
  function IdsAt(t: Table, i: int): seq<KademliaId> {
    if 0 <= i < ID_BITS then PeerIds(t[i]) else []
  }

  /** What the scan has appended after widening `r` times. */
  function Collected(t: Table, b: BucketNo, r: nat): seq<KademliaId> {
    if r == 0 then PeerIds(t[b]) else Collected(t, b, r - 1) + IdsAt(t, b - r) + IdsAt(t, b + r)
  }

  predicate Covers(b: nat, r: nat) {
    b - r <= 0 && b + r >= ID_BITS - 1
  }

  /** The scan stops here: it has `count` contacts or has seen every bucket. */
  predicate Stops(t: Table, b: BucketNo, count: nat, r: nat) {
    Covers(b, r) || |Collected(t, b, r)| >= count
  }

  /** `r` is the first radius at which the scan stops. */
  ghost predicate IsRadius(t: Table, b: BucketNo, count: nat, r: nat) {
    Stops(t, b, count, r) && forall q: nat :: q < r ==> !Stops(t, b, count, q)
  }

  lemma FindRadius(t: Table, b: BucketNo, count: nat) returns (r: nat)
    ensures IsRadius(t, b, count, r)
  {
    r := 0;
    while !Stops(t, b, count, r)
      invariant forall q: nat :: q < r ==> !Stops(t, b, count, q)
      decreases ID_BITS - r
    {
      r := r + 1;
    }
  }

  /** How far the scan widens. */
  ghost function Radius(t: Table, b: BucketNo, count: nat): (r: nat)
    ensures IsRadius(t, b, count, r)
  {
    assert exists r :: IsRadius(t, b, count, r) by { var r := FindRadius(t, b, count); }
    var r :| IsRadius(t, b, count, r);
    r
  }

  lemma RadiusUnique(t: Table, b: BucketNo, count: nat, r: nat)
    requires IsRadius(t, b, count, r)
    ensures Radius(t, b, count) == r
  {
  }

  /** The scan has widened to radius `r` without stopping before. */
  ghost predicate Scanning(t: Table, b: BucketNo, count: nat, r: nat, candidates: seq<KademliaId>) {
    candidates == Collected(t, b, r) && forall q: nat :: q < r ==> !Stops(t, b, count, q)
  }

  lemma ScanWidens(t: Table, b: BucketNo, count: nat, r: nat, candidates: seq<KademliaId>)
    requires Scanning(t, b, count, r, candidates) && !Covers(b, r) && |candidates| < count
    ensures Scanning(t, b, count, r + 1, candidates + IdsAt(t, b - (r + 1)) + IdsAt(t, b + (r + 1)))
  {
    assert !Stops(t, b, count, r);
  }

  lemma ScanStops(t: Table, b: BucketNo, count: nat, r: nat, candidates: seq<KademliaId>)
    requires Scanning(t, b, count, r, candidates) && (Covers(b, r) || |candidates| >= count)
    ensures candidates == Collected(t, b, Radius(t, b, count))
  {
    RadiusUnique(t, b, count, r);
  }

  ghost function At(node: Node, t: Table, i: int): set<KademliaId> {
    set x | x in AllIds(t) && node.home(x) == i
  }

  lemma {:induction false} CollectedFacts(node: Node, t: Table, b: BucketNo, r: nat)
    requires TableOk(node, t)
    ensures Lists(Collected(t, b, r), Within(node, t, b, r))
  {
    if r == 0 {
      CollectedBase(node, t, b);
    } else {
      CollectedFacts(node, t, b, r - 1);
      CollectedWidens(node, t, b, r);
    }
  }

  lemma CollectedBase(node: Node, t: Table, b: BucketNo)
    requires TableOk(node, t)
    ensures Lists(Collected(t, b, 0), Within(node, t, b, 0))
  {
    IdsAtFacts(node, t, b);
    assert Within(node, t, b, 0) == At(node, t, b);
  }

  lemma CollectedWidens(node: Node, t: Table, b: BucketNo, r: nat)
    requires TableOk(node, t) && r > 0 && Lists(Collected(t, b, r - 1), Within(node, t, b, r - 1))
    ensures Lists(Collected(t, b, r), Within(node, t, b, r))
  {
    IdsAtFacts(node, t, b - r);
    IdsAtFacts(node, t, b + r);
    ListsThree(Collected(t, b, r - 1), Within(node, t, b, r - 1), IdsAt(t, b - r), At(node, t, b - r),
               IdsAt(t, b + r), At(node, t, b + r));
  }

  lemma ListsThree(s: seq<KademliaId>, a: set<KademliaId>, t: seq<KademliaId>, b: set<KademliaId>, u: seq<KademliaId>, c: set<KademliaId>)
    requires Lists(s, a) && Lists(t, b) && Lists(u, c) && a !! b && (a + b) !! c
    ensures Lists(s + t + u, a + b + c)
  {
    ListsConcat(s, a, t, b);
    ListsConcat(s + t, a + b, u, c);
  }

  lemma IdsAtFacts(node: Node, t: Table, i: int)
    requires TableOk(node, t)
    ensures Lists(IdsAt(t, i), At(node, t, i))
  {
    if 0 <= i < ID_BITS {
      var b: BucketNo := i;
      forall x ensures x in IdsAt(t, i) <==> x in At(node, t, i) {
        StoredAtHome(node, t, b, x);
      }
    }
  }

  /** The contacts in, above and below the scanned range are all the contacts, and the scan ended for a reason. */
  lemma ScanParts(node: Node, t: Table, b: BucketNo, count: nat)
    requires TableOk(node, t)
    ensures var r := Radius(t, b, count);
            && Parts(node.home, b, r, Within(node, t, b, r), Above(node, t, b, r), Below(node, t, b, r))
            && Within(node, t, b, r) + Above(node, t, b, r) + Below(node, t, b, r) == AllIds(t)
            && (count <= |Within(node, t, b, r)| || (Above(node, t, b, r) == {} && Below(node, t, b, r) == {}))
  {
    var r := Radius(t, b, count);
    PartsOfTable(node, t, b, r);
    if !Covers(b, r) {
      CollectedFacts(node, t, b, r);
      DistinctBound(Collected(t, b, r), Within(node, t, b, r));
    }
  }

  lemma PartsOfTable(node: Node, t: Table, b: BucketNo, r: nat)
    ensures Parts(node.home, b, r, Within(node, t, b, r), Above(node, t, b, r), Below(node, t, b, r))
    ensures Within(node, t, b, r) + Above(node, t, b, r) + Below(node, t, b, r) == AllIds(t)
    ensures Covers(b, r) ==> Above(node, t, b, r) == {} && Below(node, t, b, r) == {}
  {
  }

  // ---------------------------------------------------------------- when the answer is the globally closest

  /** The answer to a query: the closest `count` of the scanned contacts. */
  ghost function ScanAnswer(me: KademliaId, t: Table, target: KademliaId, count: nat): seq<KademliaId> {
    var b := BucketIndex(me, target);
    TopK(target, Within(NodeOf(me), t, b, Radius(t, b, count)), count)
  }

  /** The contacts stored above the range scanned for a query. */
  ghost function Hidden(me: KademliaId, t: Table, target: KademliaId, count: nat): set<KademliaId> {
    var b := BucketIndex(me, target);
    Above(NodeOf(me), t, b, Radius(t, b, count))
  }

  /** The scanned contacts closer than all of those. */
  ghost function Safe(me: KademliaId, t: Table, target: KademliaId, count: nat): set<KademliaId> {
    var b := BucketIndex(me, target);
    Ahead(DistTo(target), Within(NodeOf(me), t, b, Radius(t, b, count)), Hidden(me, t, target, count))
  }

  /** The query returns the globally closest contacts if and only if nothing is hidden or `count` scanned contacts are safe. */
  lemma QueryIsExactIff(me: KademliaId, t: Table, target: KademliaId, count: nat)
    requires TableOk(NodeOf(me), t)
    ensures ScanAnswer(me, t, target, count) == TopK(target, AllIds(t), count) <==>
            Hidden(me, t, target, count) == {} || |Safe(me, t, target, count)| >= count
  {
    var node, b := NodeOf(me), BucketIndex(me, target);
    var r := Radius(t, b, count);
    ScanParts(node, t, b, count);
    DistToInjective(target);
    RingOrderHolds(me, target);
    ScanIsExactIff(DistTo(target), node.home, b, r, Within(node, t, b, r), Above(node, t, b, r), Below(node, t, b, r), count);
  }

  /** No contact below the scanned range is closer than a returned one. */
  lemma NothingCloserBelow(me: KademliaId, t: Table, target: KademliaId, count: nat, x: KademliaId, y: KademliaId)
    requires TableOk(NodeOf(me), t)
    requires var b := BucketIndex(me, target);
             x in ScanAnswer(me, t, target, count) && y in Below(NodeOf(me), t, b, Radius(t, b, count))
    ensures Dist(x, target) < Dist(y, target)
  {
    var node, b := NodeOf(me), BucketIndex(me, target);
    var r := Radius(t, b, count);
    var scanned := Within(node, t, b, r);
    ScanParts(node, t, b, count);
    RingOrderHolds(me, target);
    RankedMembers(DistTo(target), scanned);
    assert x in Ranked(DistTo(target), scanned);
    BelowIsFarther(DistTo(target), node.home, b, r, scanned, Above(node, t, b, r), Below(node, t, b, r), x, y);
    assert DistTo(target)(x) < DistTo(target)(y);
  }

  /** A lookup of the local identifier is always exact. */
  lemma SelfQueryIsExact(me: KademliaId, t: Table, count: nat)
    requires TableOk(NodeOf(me), t)
    ensures ScanAnswer(me, t, me, count) == TopK(me, AllIds(t), count)
  {
    BucketIndexIsPrefixLength(me, me);
    assert IsBucketIndex(me, me, ID_BITS - 1);
    assert Hidden(me, t, me, count) == {};
    QueryIsExactIff(me, t, me, count);
  }

  /** So is any query whose target's own bucket holds enough contacts. */
  lemma FullBucketQueryIsExact(me: KademliaId, t: Table, target: KademliaId, count: nat)
    requires TableOk(NodeOf(me), t) && |t[BucketIndex(me, target)]| >= count
    ensures ScanAnswer(me, t, target, count) == TopK(target, AllIds(t), count)
  {
    var node, b := NodeOf(me), BucketIndex(me, target);
    RadiusUnique(t, b, count, 0);
    CollectedFacts(node, t, b, 0);
    RingOrderHolds(me, target);
    var own := Within(node, t, b, 0);
    forall x | x in own ensures x in Safe(me, t, target, count) {
      forall u | u in Hidden(me, t, target, count) ensures DistTo(target)(x) < DistTo(target)(u) {
        assert Respects(DistTo(target), node.home, b, x, u);
      }
    }
    assert own == Safe(me, t, target, count);
    DistinctBound(Collected(t, b, 0), own);
    QueryIsExactIff(me, t, target, count);
  }

  /**
   * It is wrong whenever something is hidden and the buckets from the target's own upwards
   * contributed fewer than `count` contacts: a contact from below was then returned although
   * every hidden one is closer.
   */
  lemma ScanFromBelowIsWrong(me: KademliaId, t: Table, target: KademliaId, count: nat)
    requires TableOk(NodeOf(me), t) && Hidden(me, t, target, count) != {}
    requires var b := BucketIndex(me, target);
             |set x | x in Within(NodeOf(me), t, b, Radius(t, b, count)) && NodeOf(me).home(x) >= b| < count
    ensures ScanAnswer(me, t, target, count) != TopK(target, AllIds(t), count)
  {
    var node, b := NodeOf(me), BucketIndex(me, target);
    var upper := set x | x in Within(node, t, b, Radius(t, b, count)) && node.home(x) >= b;
    RingOrderHolds(me, target);
    var u :| u in Hidden(me, t, target, count);
    forall x | x in Safe(me, t, target, count) ensures x in upper {
      SafeIsNotBelow(DistTo(target), node.home, b, x, u);
    }
    SubsetCardinality(Safe(me, t, target, count), upper);
    QueryIsExactIff(me, t, target, count);
  }

  lemma SafeIsNotBelow(d: KademliaId -> nat, home: KademliaId -> BucketNo, b: nat, x: KademliaId, u: KademliaId)
    requires RingOrder(d, home, b) && home(u) > b && d(x) < d(u)
    ensures home(x) >= b
  {
    assert Respects(d, home, b, u, x);
  }

  // ---------------------------------------------------------------- a table on which the scan is wrong

  /** The identifier that differs from `me` in bit `i` only. */
  ghost function Flip(me: KademliaId, i: BucketNo): (x: KademliaId)
    ensures BucketIndex(me, x) == i
  {
    FlipFirst(me[i / 8], i % 8);
    var x: KademliaId := me[i / 8 := Bits.Xor(me[i / 8], Bits.Pow2(7 - i % 8))];
    FlippedByteGivesIndex(me, x, i);
    x
  }

  ghost function TwoContacts(me: KademliaId): Table {
    var none: Table := seq(ID_BITS, _ => []);
    none[9 := [Peer(Flip(me, 9), "")]][12 := [Peer(Flip(me, 12), "")]]
  }

  /**
   * With one contact in bucket 9 and one in bucket 12, asking for the closest contact to a
   * target of bucket 10 scans buckets 9 to 11, returns the former and misses the closer latter.
   */
  lemma ScanCanMissTheClosest(me: KademliaId)
    ensures TableOk(NodeOf(me), TwoContacts(me))
    ensures ScanAnswer(me, TwoContacts(me), Flip(me, 10), 1) != TopK(Flip(me, 10), AllIds(TwoContacts(me)), 1)
  {
    var t, target, node := TwoContacts(me), Flip(me, 10), NodeOf(me);
    var x, y := Flip(me, 9), Flip(me, 12);
    assert t[9] == [Peer(x, "")] && t[12] == [Peer(y, "")];
    assert forall b: BucketNo :: b != 9 && b != 12 ==> t[b] == [];
    forall b: BucketNo ensures BucketOk(t[b]) && AllIn(node, t[b], b) {}
    TwoContactsRadius(me);
    assert t[12][0].id == y && t[9][0].id == x;
    assert y in AllIds(t);
    assert y in Hidden(me, t, target, 1);
    assert forall z :: z in AllIds(t) ==> node.home(z) == 9 || node.home(z) == 12;
    var upper := set z | z in Within(node, t, 10, 1) && node.home(z) >= 10;
    assert upper == {};
    ScanFromBelowIsWrong(me, t, target, 1);
  }

  lemma TwoContactsRadius(me: KademliaId)
    ensures Radius(TwoContacts(me), 10, 1) == 1
  {
    var t := TwoContacts(me);
    assert t[10] == [] && t[11] == [] && t[9] == [Peer(Flip(me, 9), "")];
    assert |Collected(t, 10, 0)| == 0;
    assert Collected(t, 10, 1) == Collected(t, 10, 0) + IdsAt(t, 9) + IdsAt(t, 11);
    assert |IdsAt(t, 9)| == 1;
    RadiusUnique(t, 10, 1, 1);
  }

  // ---------------------------------------------------------------- the object

  class RoutingTable {
    const me: KademliaId
    const buckets: seq<Bucket>
    var inFlight: set<BucketNo>
    var replacements: map<BucketNo, Peers>
    var evicting: int  // the counter of the wait group

    ghost predicate Shaped() {
      |buckets| == ID_BITS && forall i, j :: 0 <= i < j < |buckets| ==> buckets[i] != buckets[j]
    }

    /** The contents of all buckets as a value. */
    ghost function Contents(): Table
      requires Shaped()
      reads buckets
    {
      seq(ID_BITS, i requires 0 <= i < ID_BITS reads buckets => buckets[i].list)
    }

    /** The shared part of an eviction state. */
    ghost function Shared(): State
      requires Shaped()
      reads this, buckets
    {
      State(Contents(), inFlight, replacements, evicting, map[], map[])
    }

    ghost predicate Valid()
      reads buckets
    {
      Shaped() && TableOk(NodeOf(me), Contents())
    }

    constructor (me: KademliaId)
      ensures this.me == me && Valid() && (forall i: BucketNo :: Contents()[i] == []) && fresh(buckets)
      ensures inFlight == {} && replacements == map[] && evicting == 0
    {
      this.me := me;
      var all: seq<Bucket> := [];
      for i := 0 to ID_BITS
        invariant |all| == i && fresh(all)
        invariant forall j :: 0 <= j < i ==> all[j].list == []
        invariant forall j, k :: 0 <= j < k < i ==> all[j] != all[k]
      {
        var b := new Bucket();
        all := all + [b];
      }
      buckets := all;
      inFlight, replacements, evicting := {}, map[], 0;
    }

    method AddContact(contact: Contact)
      requires Valid()
      modifies buckets
      ensures Valid()
      ensures Contents() == if contact.id.None? then old(Contents())
                            else TableAdd(NodeOf(me), old(Contents()), Peer(contact.id.value, contact.address))
      ensures contact.id.Some? ==>
                var p, b := Peer(contact.id.value, contact.address), BucketIndex(me, contact.id.value);
                var was := old(Contents())[b];
                && Contents() == old(Contents())[b := Contents()[b]]
                && if Holds(was, p.id) || |was| < 10 then PutInFront(was, p, Contents()[b]) else Contents()[b] == was
    {
      if contact.id.None? {
        return;
      }
      TableAddMeans(NodeOf(me), Contents(), Peer(contact.id.value, contact.address));
      var p := Peer(contact.id.value, contact.address);
      var i := GetBucketIndex(me, p.id);
      ghost var was := Contents();
      TableAddOk(NodeOf(me), was, p);
      var _ := AddTo(i, p);
    }

    /** Adds to a bucket of the table. */
    method AddTo(i: BucketNo, p: Peer) returns (ok: bool)
      requires Valid()
      modifies buckets
      ensures Shaped() && Contents() == old(Contents())[i := Added(old(Contents())[i], p)]
      ensures ok == Accepts(old(Contents())[i], p)
    {
      ghost var was := Contents();
      assert BucketOk(was[i]);
      ok := buckets[i].AddContact(p);
      assert Contents() == was[i := Added(was[i], p)];
    }

    method RemoveContact(contact: Contact) returns (removed: bool)
      requires Valid()
      modifies buckets
      ensures Valid()
      ensures Contents() == if contact.id.None? then old(Contents())
                            else TableRemove(NodeOf(me), old(Contents()), Peer(contact.id.value, contact.address))
      ensures removed <==> contact.id.Some? && contact.id.value in AllIds(old(Contents()))
    {
      if contact.id.None? {
        return false;
      }
      var i: BucketNo := GetBucketIndex(me, contact.id.value);
      ghost var was := Contents();
      TableRemoveOk(NodeOf(me), was, Peer(contact.id.value, contact.address));
      assert BucketOk(was[i]);
      StoredAtHome(NodeOf(me), was, i, contact.id.value);
      FoundIffListed(was[i], contact.id.value);
      removed := buckets[i].RemoveContact(contact.id.value);
      assert Contents() == was[i := Removed(was[i], contact.id.value)];
    }

    /**
     * The first critical section of `UpdateWithPing`: add or promote the candidate; if its
     * bucket is full, name the bucket and its least recently seen contact.
     */
    method TryUpdate(candidate: Contact, hasPinger: bool) returns (pending: Option<Worker>)
      requires Valid()
      modifies buckets
      ensures Valid() && Contents() == TableAfterUpdate(NodeOf(me), old(Contents()), PeerOf(candidate))
      ensures pending == PendingUpdate(NodeOf(me), old(Contents()), PeerOf(candidate), hasPinger)
      ensures candidate.id.None? || candidate.id == Some(me) ==> pending.None? && Contents() == old(Contents())
      ensures candidate.id.Some? && candidate.id.value != me ==>
                var p, b := Peer(candidate.id.value, candidate.address), BucketIndex(me, candidate.id.value);
                var was := old(Contents())[b];
                if Holds(was, p.id) || |was| < 10
                then pending.None? && PutInFront(was, p, Contents()[b]) && Contents() == old(Contents())[b := Contents()[b]]
                else Contents() == old(Contents()) && pending == if hasPinger then Some(Queueing(b, p, was[|was| - 1])) else None
    {
      DirectPending(NodeOf(me), Contents(), PeerOf(candidate), hasPinger);
      if candidate.id.None? || candidate.id.value == me {
        return None;
      }
      var p := Peer(candidate.id.value, candidate.address);
      var i: BucketNo := GetBucketIndex(me, p.id);
      ghost var was := Contents();
      TableAddOk(NodeOf(me), was, p);
      AddedFacts(was[i], p);
      var ok := AddTo(i, p);
      if ok {
        return None;
      }
      assert Contents() == was;
      var oldest := buckets[i].GetOldestContact();
      if oldest.None? || !hasPinger {
        return None;
      }
      return Some(Queueing(i, p, oldest.value));
    }

    /** The second critical section: queue the candidate, and decide whether to launch a probe. */
    method QueueCandidate(b: BucketNo, candidate: Peer) returns (launch: bool)
      modifies this`inFlight, this`replacements, this`evicting
      ensures replacements == QueuesAfterOffer(old(replacements), b, candidate)
      ensures launch == (b !in old(inFlight)) && inFlight == old(inFlight) + {b}
      ensures evicting == old(evicting) + if launch then 1 else 0
    {
      var queue := if b in replacements then replacements[b] else [];
      var alreadyInCache := IsCached(queue, candidate.id);
      if !alreadyInCache {
        if |queue| >= REPLACEMENT_CACHE_SIZE {
          queue := queue[1..];
        }
        replacements := replacements[b := queue + [candidate]];
      }
      if b in inFlight {
        return false;
      }
      inFlight := inFlight + {b};
      evicting := evicting + 1;
      return true;
    }

    method IsCached(queue: Peers, id: KademliaId) returns (known: bool)
      ensures known <==> Find(queue, id) < |queue|
    {
      for i := 0 to |queue|
        invariant forall j :: 0 <= j < i ==> queue[j].id != id
      {
        if queue[i].id == id {
          return true;
        }
      }
      return false;
    }

    /** The probe's pop of the oldest queued replacement. */
    method PopReplacement(b: BucketNo) returns (replacement: Option<Peer>)
      modifies this`replacements
      ensures var q := QueueOf(old(replacements), b);
              if q == [] then replacement == None && replacements == old(replacements)
              else replacement == Some(q[0]) && replacements == old(replacements)[b := q[1..]]
    {
      if b in replacements && |replacements[b]| > 0 {
        replacement := Some(replacements[b][0]);
        replacements := replacements[b := replacements[b][1..]];
      } else {
        replacement := None;
      }
    }

    /** The probe's handling of a dead contact: remove it and refill from the replacement queue. */
    method Evict(b: BucketNo, target: Peer)
      requires Valid()
      modifies buckets, this`replacements
      ensures Valid()
      ensures Contents() == TableAfterProbe(NodeOf(me), old(Contents()), QueueOf(old(replacements), b), b, target, false)
      ensures replacements == QueuesAfterProbe(old(replacements), b, false)
    {
      var _ := RemoveContact(Contact(Some(target.id), target.address));
      var replacement := PopReplacement(b);
      if replacement.Some? {
        AddContact(Contact(Some(replacement.value.id), replacement.value.address));
      }
    }

    /** The probe's handling of an answer: the contact moves to the front, or returns if it was removed meanwhile and there is room. */
    method Promote(b: BucketNo, target: Peer)
      requires Valid() && NodeOf(me).home(target.id) == b
      modifies buckets
      ensures Valid() && Contents() == old(Contents())[b := Added(old(Contents())[b], target)]
    {
      ghost var was := Contents();
      TableAddOk(NodeOf(me), was, target);
      var _ := AddTo(b, target);
    }

    /** The probe, when nothing else changes the table meanwhile. */
    method RunProbe(b: BucketNo, target: Peer, answered: bool)
      requires Valid() && NodeOf(me).home(target.id) == b
      modifies buckets, this`inFlight, this`replacements, this`evicting
      ensures Valid()
      ensures Contents() == TableAfterProbe(NodeOf(me), old(Contents()), QueueOf(old(replacements), b), b, target, answered)
      ensures replacements == QueuesAfterProbe(old(replacements), b, answered)
      ensures inFlight == old(inFlight) - {b} && evicting == old(evicting) - 1
    {
      if !answered {
        Evict(b, target);
      } else {
        Promote(b, target);
      }
      inFlight := inFlight - {b};
      evicting := evicting - 1;
    }

    /** `UpdateWithPing` and the probe it launches, undisturbed: the steps of `Eviction` one after the other. */
    method UpdateWithPing(candidate: Contact, hasPinger: bool, answers: Peer -> bool)
      requires Valid()
      modifies buckets, this`inFlight, this`replacements, this`evicting
      ensures Valid()
      ensures Alike(AfterWholeUpdate(NodeOf(me), old(Shared()), 0, PeerOf(candidate), hasPinger, answers), Shared())
      ensures UpdatesDirectly(NodeOf(me), old(Shared()), Shared(), PeerOf(candidate), hasPinger)
    {
      ghost var before := Shared();
      var pending := TryUpdate(candidate, hasPinger);
      ghost var updated := Shared();
      if pending.None? {
        DirectUpdate(NodeOf(me), before, updated, PeerOf(candidate), hasPinger, answers);
        return;
      }
      var w := pending.value;
      PendingOk(NodeOf(me), before.table, PeerOf(candidate), hasPinger);
      var launch := QueueCandidate(w.bucket, w.candidate);
      ghost var queued := Shared();
      if launch {
        RunProbe(w.bucket, w.oldest, answers(w.oldest));
      }
      WholeUpdate(NodeOf(me), before, updated, queued, Shared(), PeerOf(candidate), hasPinger, answers);
      DirectUpdate(NodeOf(me), before, Shared(), PeerOf(candidate), hasPinger, answers);
    }

    /** The widening loop: the target's bucket, then the buckets at distance 1, 2 and so on. */
    method Scan(b: BucketNo, count: nat) returns (candidates: seq<KademliaId>)
      requires Shaped()
      ensures candidates == Collected(Contents(), b, Radius(Contents(), b, count))
    {
      ghost var t := Contents();
      candidates := BucketIds(b);
      var radius := 0;
      while (b - (radius + 1) >= 0 || b + (radius + 1) < ID_BITS) && |candidates| < count
        invariant radius < ID_BITS && Scanning(t, b, count, radius, candidates)
        decreases ID_BITS - radius
      {
        ScanWidens(t, b, count, radius, candidates);
        radius := radius + 1;
        candidates := Widen(candidates, b, radius, t);
      }
      ScanStops(t, b, count, radius, candidates);
    }

    /** Appends the buckets at distance `i` below and above, where they exist. */
    method Widen(candidates: seq<KademliaId>, b: BucketNo, i: nat, ghost t: Table) returns (wider: seq<KademliaId>)
      requires Shaped() && t == Contents()
      ensures wider == candidates + IdsAt(t, b - i) + IdsAt(t, b + i)
    {
      wider := candidates;
      if b - i >= 0 {
        var more := BucketIds(b - i);
        wider := wider + more;
      }
      if b + i < ID_BITS {
        var more := BucketIds(b + i);
        wider := wider + more;
      }
    }

    method BucketIds(i: BucketNo) returns (ids: seq<KademliaId>)
      requires Shaped()
      ensures ids == PeerIds(Contents()[i])
    {
      ids := PeerIds(buckets[i].list);
    }

    method StoredUnder(id: KademliaId) returns (p: Peer)
      requires Valid() && id in AllIds(Contents())
      ensures p.id == id && p in Contents()[BucketIndex(me, id)]
    {
      var b: BucketNo := GetBucketIndex(me, id);
      StoredAtHome(NodeOf(me), Contents(), b, id);
      FoundIffListed(Contents()[b], id);
      assert Contents()[b] == buckets[b].list;
      p := buckets[b].list[Find(buckets[b].list, id)];
    }

    /** The contacts stored under the given identifiers. */
    method Stored(ids: seq<KademliaId>) returns (peers: seq<Peer>)
      requires Valid() && forall x :: x in ids ==> x in AllIds(Contents())
      ensures PeerIds(peers) == ids
      ensures forall p :: p in peers ==> p in Contents()[BucketIndex(me, p.id)]
    {
      peers := [];
      for n := 0 to |ids|
        invariant PeerIds(peers) == ids[..n]
        invariant forall p :: p in peers ==> p in Contents()[BucketIndex(me, p.id)]
      {
        assert ids[n] in ids;
        var p := StoredUnder(ids[n]);
        peers := peers + [p];
      }
    }

    /** `FindClosestContacts`: the stored contacts, closest first. */
    method FindClosestContacts(target: KademliaId, count: nat) returns (closest: seq<Peer>)
      requires Valid()
      ensures PeerIds(closest) == ScanAnswer(me, Contents(), target, count)
      ensures forall p :: p in closest ==> p in Contents()[BucketIndex(me, p.id)]
    {
      var ids := FindClosestIds(target, count);
      AnswerIsStored(me, Contents(), target, count);
      closest := Stored(ids);
    }

    method FindClosestIds(target: KademliaId, count: nat) returns (closest: seq<KademliaId>)
      requires Valid()
      ensures closest == ScanAnswer(me, Contents(), target, count)
    {
      var b: BucketNo := GetBucketIndex(me, target);
      var candidates := Scan(b, count);
      ghost var r := Radius(Contents(), b, count);
      CollectedFacts(NodeOf(me), Contents(), b, r);
      closest := SortAndCut(target, candidates, count, Within(NodeOf(me), Contents(), b, r));
    }

    method SortAndCut(target: KademliaId, candidates: seq<KademliaId>, count: nat, ghost scanned: set<KademliaId>)
      returns (closest: seq<KademliaId>)
      requires Lists(candidates, scanned)
      ensures closest == TopK(target, scanned, count)
    {
      var sorted := Sort(target, candidates);
      SortedIsRanking(target, candidates, sorted, scanned);
      var n := if count > |sorted| then |sorted| else count;
      closest := sorted[..n];
    }
  }

  lemma FoundIffListed(peers: Peers, id: KademliaId)
    ensures Find(peers, id) < |peers| <==> id in PeerIds(peers)
  {
    if Find(peers, id) < |peers| {
      assert PeerIds(peers)[Find(peers, id)] == id;
    }
  }

  lemma AnswerIsStored(me: KademliaId, t: Table, target: KademliaId, count: nat)
    ensures forall x :: x in ScanAnswer(me, t, target, count) ==> x in AllIds(t)
  {
    var b := BucketIndex(me, target);
    FirstKMembers(DistTo(target), Within(NodeOf(me), t, b, Radius(t, b, count)), count);
  }

  /** Two eviction states with the same shared part. */
  ghost predicate Alike(s: State, t: State) {
    s.table == t.table && s.inFlight == t.inFlight && s.queues == t.queues && s.wait == t.wait
  }

  lemma TableAddMeans(node: Node, t: Table, p: Peer)
    ensures var b, now := node.home(p.id), TableAdd(node, t, p);
            && now == t[b := now[b]]
            && if Holds(t[b], p.id) || |t[b]| < 10 then PutInFront(t[b], p, now[b]) else now[b] == t[b]
  {
    FindMeans(t[node.home(p.id)], p.id);
    if Holds(t[node.home(p.id)], p.id) || |t[node.home(p.id)]| < 10 {
      AddedInFront(t[node.home(p.id)], p);
    }
  }

  /** What an update does to the table alone, and what it leaves to do. */
  lemma DirectPending(node: Node, t: Table, contact: Option<Peer>, hasPinger: bool)
    ensures contact.None? || contact.value.id == node.me ==>
              PendingUpdate(node, t, contact, hasPinger).None? && TableAfterUpdate(node, t, contact) == t
    ensures contact.Some? && contact.value.id != node.me ==>
              var p, b := contact.value, node.home(contact.value.id);
              var now := TableAfterUpdate(node, t, contact);
              if Holds(t[b], p.id) || |t[b]| < 10
              then PendingUpdate(node, t, contact, hasPinger).None? && PutInFront(t[b], p, now[b]) && now == t[b := now[b]]
              else now == t && PendingUpdate(node, t, contact, hasPinger) == if hasPinger then Some(Queueing(b, p, t[b][|t[b]| - 1])) else None
  {
    if contact.Some? && contact.value.id != node.me {
      var p, b := contact.value, node.home(contact.value.id);
      FindMeans(t[b], p.id);
      if Holds(t[b], p.id) || |t[b]| < 10 {
        AddedInFront(t[b], p);
      }
    }
  }

  /**
   * What an update does when it needs no probe. A contact without identifier and the local
   * node change nothing. A known contact, and a new one with room in its bucket, is put in
   * front of its bucket, and nothing else changes. A new contact that meets a full bucket
   * without a pinger changes nothing.
   */
  ghost predicate UpdatesDirectly(node: Node, before: State, after: State, contact: Option<Peer>, hasPinger: bool) {
    if contact.None? || contact.value.id == node.me then Alike(after, before)
    else
      var p, b := contact.value, node.home(contact.value.id);
      && (Holds(before.table[b], p.id) || |before.table[b]| < 10 ==>
            PutInFront(before.table[b], p, after.table[b]) && Alike(after, before.(table := before.table[b := after.table[b]])))
      && (!Holds(before.table[b], p.id) && |before.table[b]| >= 10 && !hasPinger ==> Alike(after, before))
  }

  lemma DirectUpdate(node: Node, before: State, after: State, contact: Option<Peer>, hasPinger: bool, answers: Peer -> bool)
    requires before.workers == map[] && Alike(AfterWholeUpdate(node, before, 0, contact, hasPinger, answers), after)
    ensures UpdatesDirectly(node, before, after, contact, hasPinger)
  {
    if contact.None? || contact.value.id == node.me {
      UpdateIsIgnored(node, before, 0, contact, hasPinger);
    } else if Holds(before.table[node.home(contact.value.id)], contact.value.id) || |before.table[node.home(contact.value.id)]| < 10 {
      UpdateEnters(node, before, 0, contact.value, hasPinger);
    } else if !hasPinger {
      UpdateIsIgnored(node, before, 0, contact, hasPinger);
    }
  }

  /** An update that met a full bucket, put together from its critical sections. */
  lemma WholeUpdate(node: Node, before: State, updated: State, queued: State, end: State,
                    contact: Option<Peer>, hasPinger: bool, answers: Peer -> bool)
    requires before.workers == map[]
    requires var pending := PendingUpdate(node, before.table, contact, hasPinger);
             pending.Some? && pending.value.Queueing? && var w := pending.value;
             && Alike(updated, before.(table := TableAfterUpdate(node, before.table, contact)))
             && queued.table == updated.table && queued.queues == QueuesAfterOffer(updated.queues, w.bucket, w.candidate)
             && queued.inFlight == updated.inFlight + {w.bucket}
             && (if w.bucket in updated.inFlight then queued.wait == updated.wait && Alike(end, queued)
                 else queued.wait == updated.wait + 1 && ProbeEnd(node, queued, end, w.bucket, w.oldest, answers(w.oldest)))
    ensures Alike(AfterWholeUpdate(node, before, 0, contact, hasPinger, answers), end)
  {
    var w := PendingUpdate(node, before.table, contact, hasPinger).value;
    var first := Do(node, before, Update(0, contact, hasPinger));
    var second := Do(node, first, Queue(0));
    assert Alike(second, queued);
    if w.bucket !in updated.inFlight {
      assert second.workers[0] == Probing(w.bucket, w.oldest);
      ProbeShape(node, second, 0, answers(w.oldest));
    }
  }

  /** The end of an undisturbed probe that was launched in state `s`. */
  ghost predicate ProbeEnd(node: Node, s: State, end: State, b: BucketNo, target: Peer, answered: bool) {
    && end.table == TableAfterProbe(node, s.table, QueueOf(s.queues, b), b, target, answered)
    && end.queues == QueuesAfterProbe(s.queues, b, answered)
    && end.inFlight == s.inFlight - {b} && end.wait == s.wait - 1
  }

  function PeerOf(c: Contact): Option<Peer> {
    if c.id.None? then None else Some(Peer(c.id.value, c.address))
  }
}
