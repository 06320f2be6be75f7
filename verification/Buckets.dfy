/** One k-bucket: contacts from most to least recently seen (kademlia/bucket.go). */
module Buckets {
  import opened Common
  import opened KademliaIds

  const BUCKET_SIZE := 10

  /** A contact with an identifier; only such contacts enter the routing table. */
  datatype Peer = Peer(id: KademliaId, address: string)

  type Peers = seq<Peer>

  ghost predicate DistinctPeers(b: Peers) {
    forall i, j :: 0 <= i < j < |b| ==> b[i].id != b[j].id
  }

  ghost predicate BucketOk(b: Peers) {
    |b| <= BUCKET_SIZE && DistinctPeers(b)
  }

  ghost predicate Holds(b: Peers, id: KademliaId) {
    exists i :: 0 <= i < |b| && b[i].id == id
  }

  /** Position of the identifier, or the length if absent. */
  function Find(b: Peers, id: KademliaId): (i: nat)
    ensures i <= |b|
    ensures i < |b| ==> b[i].id == id
    ensures forall j :: 0 <= j < i ==> b[j].id != id
  {
    if b == [] then 0 else if b[0].id == id then 0 else 1 + Find(b[1..], id)
  }

  /** The list without the element at a position. */
  function DropAt(b: Peers, i: nat): Peers
    requires i < |b|
  {
    b[..i] + b[i + 1..]
  }

  /** `AddContact` reports success for a known contact or when there is room. */
  predicate Accepts(b: Peers, p: Peer) {
    Find(b, p.id) < |b| || |b| < BUCKET_SIZE
  }

  /** A known contact moves to the front as it was stored, a new one is put in front if there is room. */
  function Added(b: Peers, p: Peer): Peers {
    var i := Find(b, p.id);
    if i < |b| then [b[i]] + DropAt(b, i)
    else if |b| < BUCKET_SIZE then [p] + b
    else b
  }

  function Removed(b: Peers, id: KademliaId): Peers {
    var i := Find(b, id);
    if i < |b| then DropAt(b, i) else b
  }

  lemma DropAtFacts(b: Peers, i: nat)
    requires DistinctPeers(b) && i < |b|
    ensures DistinctPeers(DropAt(b, i)) && |DropAt(b, i)| == |b| - 1
    ensures forall x :: Holds(DropAt(b, i), x) <==> Holds(b, x) && x != b[i].id
    ensures forall p :: p in DropAt(b, i) ==> p in b
  {
    var d := DropAt(b, i);
    assert forall j :: 0 <= j < |d| ==> d[j] == if j < i then b[j] else b[j + 1];
    forall x | Holds(b, x) && x != b[i].id ensures Holds(d, x) {
      var j :| 0 <= j < |b| && b[j].id == x;
      assert d[if j < i then j else j - 1].id == x;
    }
  }

  /** Adding keeps the bucket in order and puts an accepted contact in front; a full bucket refuses newcomers. */
  lemma AddedFacts(b: Peers, p: Peer)
    requires BucketOk(b)
    ensures BucketOk(Added(b, p))
    ensures Accepts(b, p) ==> Added(b, p) != [] && Added(b, p)[0].id == p.id
    ensures forall x :: Holds(Added(b, p), x) <==> Holds(b, x) || (x == p.id && Accepts(b, p))
    ensures !Accepts(b, p) ==> Added(b, p) == b && |b| == BUCKET_SIZE && !Holds(b, p.id)
    ensures forall q :: q in Added(b, p) ==> q in b || q == p
  {
    var i, r := Find(b, p.id), Added(b, p);
    if i < |b| {
      DropAtFacts(b, i);
      ConsFacts(b[i], DropAt(b, i));
    } else {
      assert !Holds(b, p.id);
      if |b| < BUCKET_SIZE {
        ConsFacts(p, b);
      }
    }
  }

  lemma ConsFacts(p: Peer, b: Peers)
    requires DistinctPeers(b) && !Holds(b, p.id)
    ensures DistinctPeers([p] + b)
    ensures forall x :: Holds([p] + b, x) <==> Holds(b, x) || x == p.id
  {
    var r := [p] + b;
    assert forall j :: 0 <= j < |b| ==> r[j + 1] == b[j];
    forall x | Holds(b, x) ensures Holds(r, x) {
      var j :| 0 <= j < |b| && b[j].id == x;
      assert r[j + 1].id == x;
    }
    forall x | Holds(r, x) && x != p.id ensures Holds(b, x) {
      var j :| 0 <= j < |r| && r[j].id == x;
      assert b[j - 1].id == x;
    }
    assert r[0].id == p.id;
  }

  lemma RemovedFacts(b: Peers, id: KademliaId)
    requires BucketOk(b)
    ensures BucketOk(Removed(b, id))
    ensures forall x :: Holds(Removed(b, id), x) <==> Holds(b, x) && x != id
    ensures forall q :: q in Removed(b, id) ==> q in b
  {
    var i := Find(b, id);
    if i < |b| {
      DropAtFacts(b, i);
    } else {
      assert !Holds(b, id);
    }
  }

  /** Removing takes the contact out of its place and leaves the others in theirs. */
  lemma RemovedInPlace(b: Peers, id: KademliaId)
    ensures var i, r := Find(b, id), Removed(b, id);
            if i < |b| then |r| == |b| - 1 && b == r[..i] + [b[i]] + r[i..] else r == b
  {
    var i, r := Find(b, id), Removed(b, id);
    if i < |b| {
      assert r[..i] == b[..i] && r[i..] == b[i + 1..];
    }
  }

  /** Adding moves at most the added contact: the others keep their order, a known one its stored address. */
  lemma AddedKeepsOthers(b: Peers, p: Peer)
    requires BucketOk(b)
    ensures Removed(Added(b, p), p.id) == Removed(b, p.id)
    ensures Accepts(b, p) ==> Added(b, p) == [if Find(b, p.id) < |b| then b[Find(b, p.id)] else p] + Removed(b, p.id)
  {
    var i, r := Find(b, p.id), Added(b, p);
    if Accepts(b, p) {
      assert r[0].id == p.id && Find(r, p.id) == 0;
      assert DropAt(r, 0) == r[1..];
    }
  }

  class Bucket {
    var list: Peers

    constructor ()
      ensures list == []
    {
      list := [];
    }

    /** Traverses the whole list for the element, then moves it to the front or pushes a new one. */
    method AddContact(contact: Peer) returns (ok: bool)
      requires BucketOk(list)
      modifies this
      ensures list == Added(old(list), contact) && ok == Accepts(old(list), contact)
      ensures BucketOk(list)
    {
      AddedFacts(list, contact);
      var element := -1;
      for i := 0 to |list|
        invariant element == if Find(list, contact.id) < i then Find(list, contact.id) else -1
      {
        if list[i].id == contact.id {
          element := i;
        }
      }
      if element == -1 {
        if |list| < BUCKET_SIZE {
          list := [contact] + list;
          return true;
        }
        return false;
      }
      list := [list[element]] + (list[..element] + list[element + 1..]);
      return true;
    }

    method RemoveContact(id: KademliaId) returns (removed: bool)
      requires BucketOk(list)
      modifies this
      ensures list == Removed(old(list), id) && removed == (Find(old(list), id) < |old(list)|)
      ensures BucketOk(list)
    {
      RemovedFacts(list, id);
      for i := 0 to |list|
        invariant forall j :: 0 <= j < i ==> list[j].id != id
      {
        if list[i].id == id {
          assert Find(list, id) == i;
          list := list[..i] + list[i + 1..];
          return true;
        }
      }
      return false;
    }

    method GetOldestContact() returns (oldest: Option<Peer>)
      ensures oldest == if list == [] then None else Some(list[|list| - 1])
    {
      if |list| == 0 {
        return None;
      }
      return Some(list[|list| - 1]);
    }
  }
}
