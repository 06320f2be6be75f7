/**
 * The store of one node as its callers see it when nobody interferes
 * (kademlia/datastore.go:83-262), and the proof that this is a solo run of the
 * concurrent protocol.
 */
module DataStore {
  import opened Common
  import opened Text
  import opened Records
  import opened KademliaIds
  import opened Publication
  import opened Validator
  import Hex
  import opened StoreProtocol

  datatype StoreError = ValueTooLarge | KeyMismatch | Rejected(error: Error)

  datatype Outcome = Outcome(error: Option<StoreError>, data: map<KademliaId, Bytes>)

  /** The getter closure over one state of the map, and the read-only fetcher behind it. */
  function Getter(rd: Reader, data: map<KademliaId, Bytes>, fetcher: string -> Option<Bytes>): string -> Option<Bytes> {
    (hash: string) =>
      match rd.locate(hash)
      case None => None
      case Some(id) => if id in data then Some(data[id]) else fetcher(hash)
  }

  function SaveAll(rd: Reader, data: map<KademliaId, Bytes>, records: seq<Bytes>): map<KademliaId, Bytes>
    decreases |records|
  {
    if records == [] then data else SaveAll(rd, SaveRecord(rd, data, records[0]), records[1..])
  }

  function Checked(rd: Reader, data: map<KademliaId, Bytes>, key: KademliaId, lp: Head, answer: Resolution,
                   fetcher: string -> Option<Bytes>): Result<seq<Bytes>, Error>
  {
    Validation(rd, Some(lp), Existing(rd, Lookup(data, key)), answer, Getter(rd, data, fetcher), DEFAULT_MAX_CHAIN_DEPTH)
  }

  predicate TooLarge(maxValSize: int, value: Bytes) {
    maxValSize > 0 && |value| > maxValSize
  }

  /** The verdict of `DataStore.Validate`. */
  function Verdict(rd: Reader, data: map<KademliaId, Bytes>, maxValSize: int, key: KademliaId, value: Bytes,
                   answer: Resolution, fetcher: string -> Option<Bytes>): Option<StoreError>
  {
    if TooLarge(maxValSize, value) then Some(ValueTooLarge)
    else if rd.digest(value) == key then None
    else if rd.pointer(value).None? || rd.pointer(value).value.key != key then Some(KeyMismatch)
    else match Checked(rd, data, key, rd.pointer(value).value, answer, fetcher)
      case Ok(_) => None
      case Err(e) => Some(Rejected(e))
  }

  /** The optimistic loop on a pointer: validate, save, and commit if the key is as it was. */
  function PointerOutcome(rd: Reader, data: map<KademliaId, Bytes>, key: KademliaId, value: Bytes, lp: Head,
                          answer: Resolution, fetcher: string -> Option<Bytes>): Outcome
    decreases if key in data then 0 else 1
  {
    match Checked(rd, data, key, lp, answer, fetcher)
    case Err(e) => Outcome(Some(Rejected(e)), data)
    case Ok(saves) =>
      var saved := SaveAll(rd, data, saves);
      SaveAllKeeps(rd, data, saves, key);
      if Lookup(saved, key) == Lookup(data, key) then Outcome(None, saved[key := value])
      else PointerOutcome(rd, saved, key, value, lp, answer, fetcher)
  }

  lemma {:induction false} SaveAllKeeps(rd: Reader, data: map<KademliaId, Bytes>, records: seq<Bytes>, key: KademliaId)
    ensures key in data ==> Lookup(SaveAll(rd, data, records), key) == Lookup(data, key)
    decreases |records|
  {
    if records != [] {
      SaveAllKeeps(rd, SaveRecord(rd, data, records[0]), records[1..], key);
    }
  }

  /** The value at `key` was there before or is one of the records, at its own digest. */
  ghost predicate Accounted(rd: Reader, data: map<KademliaId, Bytes>, records: seq<Bytes>, key: KademliaId, value: Bytes) {
    (key in data && data[key] == value) || exists i :: 0 <= i < |records| && records[i] == value && rd.digest(value) == key
  }

  /** Saving puts an entry at the digest of every record, and adds nothing but records at their digests. */
  lemma {:induction false} SaveAllAdds(rd: Reader, data: map<KademliaId, Bytes>, records: seq<Bytes>)
    requires rd.Sound()
    ensures var saved := SaveAll(rd, data, records);
            && (forall i :: 0 <= i < |records| ==> rd.digest(records[i]) in saved)
            && (forall k :: k in saved ==> Accounted(rd, data, records, k, saved[k]))
    decreases |records|
  {
    if records != [] {
      var next, rest := SaveRecord(rd, data, records[0]), records[1..];
      var saved := SaveAll(rd, next, rest);
      assert rd.locate(rd.hash(records[0])) == Some(rd.digest(records[0]));
      SaveAllAdds(rd, next, rest);
      SaveAllKeeps(rd, next, rest, rd.digest(records[0]));
      forall i | 0 <= i < |records| ensures rd.digest(records[i]) in saved {
        assert i > 0 ==> records[i] == rest[i - 1];
      }
      forall k | k in saved ensures Accounted(rd, data, records, k, saved[k]) {
        assert Accounted(rd, next, rest, k, saved[k]);
      }
    }
  }

  function StoreOutcome(rd: Reader, data: map<KademliaId, Bytes>, maxValSize: int, key: KademliaId, value: Bytes,
                        answer: Resolution, fetcher: string -> Option<Bytes>): Outcome
  {
    if TooLarge(maxValSize, value) then Outcome(Some(ValueTooLarge), data)
    else if rd.digest(value) == key then Outcome(None, data[key := value])
    else if rd.pointer(value).None? || rd.pointer(value).value.key != key then Outcome(Some(KeyMismatch), data)
    else PointerOutcome(rd, data, key, value, rd.pointer(value).value, answer, fetcher)
  }

  class DataStore {
    const rd: Reader
    var data: map<KademliaId, Bytes>
    var maxValSize: int

    constructor (rd: Reader)
      ensures this.rd == rd && data == map[] && maxValSize == 64 * 1024
    {
      this.rd := rd;
      data := map[];
      maxValSize := 64 * 1024;
    }

    method Get(key: KademliaId) returns (value: Option<Bytes>)
      ensures value == Lookup(data, key)
    {
      if key in data {
        return Some(data[key]);
      }
      return None;
    }

    /** Checks a pair without storing it or any record of its chain. */
    method Validate(key: KademliaId, value: Bytes, answer: Resolution, fetcher: string -> Option<Bytes>)
      returns (error: Option<StoreError>)
      ensures error == Verdict(rd, data, maxValSize, key, value, answer, fetcher)
      ensures error == Some(ValueTooLarge) <==> maxValSize > 0 && |value| > maxValSize
      ensures error == Some(KeyMismatch) <==>
                && (maxValSize <= 0 || |value| <= maxValSize)
                && rd.digest(value) != key && (rd.pointer(value).Some? ==> rd.pointer(value).value.key != key)
    {
      ErrorsMean(rd, data, maxValSize, key, value, answer, fetcher);
      if maxValSize > 0 && |value| > maxValSize {
        return Some(ValueTooLarge);
      }
      if rd.digest(value) == key {
        return None;
      }
      var lp := rd.pointer(value);
      if lp.None? || lp.value.key != key {
        return Some(KeyMismatch);
      }
      var existing := Get(key);
      var r := ValidateWithExisting(lp.value, existing, answer, fetcher);
      return if r.Ok? then None else Some(Rejected(r.error));
    }

    method ValidateWithExisting(lp: Head, seen: Option<Bytes>, answer: Resolution, fetcher: string -> Option<Bytes>)
      returns (r: Result<seq<Bytes>, Error>)
      ensures r == Validation(rd, Some(lp), Existing(rd, seen), answer, Getter(rd, data, fetcher), DEFAULT_MAX_CHAIN_DEPTH)
    {
      var existing := Existing(rd, seen);
      var owner := Precheck(rd, Some(lp), existing, answer);
      if owner.Err? {
        return Err(owner.error);
      }
      r := WalkAndConclude(rd, TaskOf(Some(lp), existing, owner.value, DEFAULT_MAX_CHAIN_DEPTH), Getter(rd, data, fetcher));
    }

    method SaveRecords(records: seq<Bytes>)
      modifies this`data
      ensures data == SaveAll(rd, old(data), records)
    {
      for i := 0 to |records|
        invariant SaveAll(rd, data, records[i..]) == SaveAll(rd, old(data), records)
      {
        assert records[i..][0] == records[i] && records[i..][1..] == records[i + 1..];
        var id := rd.locate(rd.hash(records[i]));
        if id.Some? && id.value !in data {
          data := data[id.value := records[i]];
        }
      }
    }

    method Store(key: KademliaId, value: Bytes, answer: Resolution, fetcher: string -> Option<Bytes>)
      returns (error: Option<StoreError>)
      modifies this`data
      ensures Outcome(error, data) == StoreOutcome(rd, old(data), maxValSize, key, value, answer, fetcher)
      ensures error == Some(ValueTooLarge) <==> maxValSize > 0 && |value| > maxValSize
      ensures error == Some(KeyMismatch) <==>
                && (maxValSize <= 0 || |value| <= maxValSize)
                && rd.digest(value) != key && (rd.pointer(value).Some? ==> rd.pointer(value).value.key != key)
      ensures rd.Sound() && Placed(rd, old(data)) ==> Placed(rd, data)
    {
      ErrorsMean(rd, data, maxValSize, key, value, answer, fetcher);
      if rd.Sound() && Placed(rd, data) {
        StoreKeepsPlaced(rd, data, maxValSize, key, value, answer, fetcher);
      }
      if maxValSize > 0 && |value| > maxValSize {
        return Some(ValueTooLarge);
      }
      if rd.digest(value) == key {
        data := data[key := value];
        return None;
      }
      var lp := rd.pointer(value);
      if lp.None? || lp.value.key != key {
        return Some(KeyMismatch);
      }
      while true
        invariant StoreOutcome(rd, old(data), maxValSize, key, value, answer, fetcher) ==
                  PointerOutcome(rd, data, key, value, lp.value, answer, fetcher)
        decreases if key in data then 0 else 1
      {
        ghost var before := data;
        var existing := Get(key);
        var r := ValidateWithExisting(lp.value, existing, answer, fetcher);
        if r.Err? {
          return Some(Rejected(r.error));
        }
        SaveRecords(r.value);
        var current := Get(key);
        if current == existing {
          data := data[key := value];
          return None;
        }
        SaveAllKeeps(rd, before, r.value, key);
      }
    }
  }

  // ---------------------------------------------------------------- errors, and where values may lie

  lemma {:induction false} PointerErrors(rd: Reader, data: map<KademliaId, Bytes>, key: KademliaId, value: Bytes, lp: Head,
                                         answer: Resolution, fetcher: string -> Option<Bytes>)
    ensures var out := PointerOutcome(rd, data, key, value, lp, answer, fetcher);
            out.error.None? || out.error.value.Rejected?
    decreases if key in data then 0 else 1
  {
    var r := Checked(rd, data, key, lp, answer, fetcher);
    if r.Ok? {
      SaveAllKeeps(rd, data, r.value, key);
      if Lookup(SaveAll(rd, data, r.value), key) != Lookup(data, key) {
        PointerErrors(rd, SaveAll(rd, data, r.value), key, value, lp, answer, fetcher);
      }
    }
  }

  /** The two errors before the chain is looked at, and what they mean. */
  lemma ErrorsMean(rd: Reader, data: map<KademliaId, Bytes>, maxValSize: int, key: KademliaId, value: Bytes,
                   answer: Resolution, fetcher: string -> Option<Bytes>)
    ensures var error := StoreOutcome(rd, data, maxValSize, key, value, answer, fetcher).error;
            && (error == Some(ValueTooLarge) <==> maxValSize > 0 && |value| > maxValSize)
            && (error == Some(KeyMismatch) <==>
                  && (maxValSize <= 0 || |value| <= maxValSize)
                  && rd.digest(value) != key && (rd.pointer(value).Some? ==> rd.pointer(value).value.key != key))
            && (error == Some(ValueTooLarge) || error == Some(KeyMismatch) ==>
                  StoreOutcome(rd, data, maxValSize, key, value, answer, fetcher).data == data)
    ensures var error := Verdict(rd, data, maxValSize, key, value, answer, fetcher);
            && (error == Some(ValueTooLarge) <==> maxValSize > 0 && |value| > maxValSize)
            && (error == Some(KeyMismatch) <==>
                  && (maxValSize <= 0 || |value| <= maxValSize)
                  && rd.digest(value) != key && (rd.pointer(value).Some? ==> rd.pointer(value).value.key != key))
  {
    if rd.pointer(value).Some? {
      PointerErrors(rd, data, key, value, rd.pointer(value).value, answer, fetcher);
    }
  }

  /** Every entry sits at its own digest or at the key of the pointer it is. */
  ghost predicate Placed(rd: Reader, data: map<KademliaId, Bytes>) {
    forall k :: k in data ==> rd.digest(data[k]) == k || (rd.pointer(data[k]).Some? && rd.pointer(data[k]).value.key == k)
  }

  lemma SavePlaced(rd: Reader, data: map<KademliaId, Bytes>, records: seq<Bytes>)
    requires rd.Sound() && Placed(rd, data)
    ensures Placed(rd, SaveAll(rd, data, records))
  {
    SaveAllAdds(rd, data, records);
    var saved := SaveAll(rd, data, records);
    forall k | k in saved
      ensures rd.digest(saved[k]) == k || (rd.pointer(saved[k]).Some? && rd.pointer(saved[k]).value.key == k)
    {
      assert Accounted(rd, data, records, k, saved[k]);
    }
  }

  lemma {:induction false} PointerPlaced(rd: Reader, data: map<KademliaId, Bytes>, key: KademliaId, value: Bytes, lp: Head,
                                         answer: Resolution, fetcher: string -> Option<Bytes>)
    requires rd.Sound() && Placed(rd, data) && rd.pointer(value) == Some(lp) && lp.key == key
    ensures Placed(rd, PointerOutcome(rd, data, key, value, lp, answer, fetcher).data)
    decreases if key in data then 0 else 1
  {
    var r := Checked(rd, data, key, lp, answer, fetcher);
    if r.Ok? {
      SavePlaced(rd, data, r.value);
      SaveAllKeeps(rd, data, r.value, key);
      if Lookup(SaveAll(rd, data, r.value), key) != Lookup(data, key) {
        PointerPlaced(rd, SaveAll(rd, data, r.value), key, value, lp, answer, fetcher);
      }
    }
  }

  /** No call of `Store` puts a value where it does not belong. */
  lemma StoreKeepsPlaced(rd: Reader, data: map<KademliaId, Bytes>, maxValSize: int, key: KademliaId, value: Bytes,
                         answer: Resolution, fetcher: string -> Option<Bytes>)
    requires rd.Sound() && Placed(rd, data)
    ensures Placed(rd, StoreOutcome(rd, data, maxValSize, key, value, answer, fetcher).data)
  {
    if rd.pointer(value).Some? && rd.pointer(value).value.key == key {
      PointerPlaced(rd, data, key, value, rd.pointer(value).value, answer, fetcher);
    }
  }

  // ---------------------------------------------------------------- what is accepted, in terms of the library

  /** The pointer stored at the key: other bytes count as none. */
  ghost function StoredPointer(lib: Library, data: map<KademliaId, Bytes>, key: KademliaId): Option<LatestPointer> {
    if key in data && lib.unmarshalPointer(data[key]).Some? && WellFormed(lib.unmarshalPointer(data[key]).value)
    then lib.unmarshalPointer(data[key]) else None
  }

  /** The record is what the store holds at its digest or, if it holds nothing there, what the fetcher brings. */
  ghost predicate IsAvailable(lib: Library, data: map<KademliaId, Bytes>, fetcher: string -> Option<Bytes>, record: Bytes) {
    if lib.digest(record) in data then data[lib.digest(record)] == record else fetcher(Fingerprint(lib, record)) == Some(record)
  }

  lemma SuppliedMeans(lib: Library, data: map<KademliaId, Bytes>, fetcher: string -> Option<Bytes>, chain: seq<Bytes>)
    ensures Supplied(lib, Getter(ReaderOf(lib), data, fetcher), chain) <==>
            forall i :: 0 <= i < |chain| ==> IsAvailable(lib, data, fetcher, chain[i])
  {
    forall i | 0 <= i < |chain|
      ensures Getter(ReaderOf(lib), data, fetcher)(Fingerprint(lib, chain[i])) == Some(chain[i]) <==> IsAvailable(lib, data, fetcher, chain[i])
    {
      Hex.DecodeOfEncode(lib.digest(chain[i]));
    }
  }

  lemma PointerMeans(lib: Library, data: Bytes)
    ensures var lp := lib.unmarshalPointer(data);
            ReaderOf(lib).pointer(data) == if lp.Some? && WellFormed(lp.value) then HeadOf(lib, lp.value) else None
  {
    if lib.unmarshalPointer(data).Some? {
      HeadMeans(lib, lib.unmarshalPointer(data).value);
    }
  }

  lemma ExistingMeans(lib: Library, data: map<KademliaId, Bytes>, key: KademliaId)
    ensures Existing(ReaderOf(lib), Lookup(data, key)) == ExistingHead(lib, StoredPointer(lib, data, key))
  {
    if key in data {
      PointerMeans(lib, data[key]);
      if lib.unmarshalPointer(data[key]).Some? {
        HeadMeans(lib, lib.unmarshalPointer(data[key]).value);
      }
    }
  }

  /** The chain may be published at the key by the pointer, given what is stored and what the fetcher brings. */
  ghost predicate IsPublishable(lib: Library, data: map<KademliaId, Bytes>, key: KademliaId, lp: LatestPointer, owner: PublicKey,
                                fetcher: string -> Option<Bytes>, chain: seq<Bytes>) {
    && MayReplace(lib, owner, lp, StoredPointer(lib, data, key))
    && IsPublished(lib, owner, lp, StoredPointer(lib, data, key), 1000, chain)
    && forall i :: 0 <= i < |chain| ==> IsAvailable(lib, data, fetcher, chain[i])
  }

  lemma CheckedMeans(lib: Library, data: map<KademliaId, Bytes>, key: KademliaId, lp: LatestPointer, answer: Resolution,
                     fetcher: string -> Option<Bytes>, chain: seq<Bytes>)
    requires HeadOf(lib, lp).Some?
    ensures Checked(ReaderOf(lib), data, key, HeadOf(lib, lp).value, answer, fetcher) == Ok(chain) <==>
            answer.Owner? && IsPublishable(lib, data, key, lp, answer.key, fetcher, chain)
  {
    ExistingMeans(lib, data, key);
    SuppliedMeans(lib, data, fetcher, chain);
    ValidationIffPublished(lib, lp, StoredPointer(lib, data, key), answer, Getter(ReaderOf(lib), data, fetcher), DEFAULT_MAX_CHAIN_DEPTH, chain);
  }

  /**
   * What `Validate` accepts, and by `StoreFollowsVerdict` what `Store` accepts: a value within
   * the size limit that hashes to the key, or a pointer whose own key it is, with a chain that
   * may be published there.
   */
  lemma AcceptedIffPublishable(lib: Library, data: map<KademliaId, Bytes>, maxValSize: int, key: KademliaId, value: Bytes,
                               answer: Resolution, fetcher: string -> Option<Bytes>)
    ensures Verdict(ReaderOf(lib), data, maxValSize, key, value, answer, fetcher).None? <==>
            && (maxValSize <= 0 || |value| <= maxValSize)
            && (lib.digest(value) == key ||
                (&& lib.unmarshalPointer(value).Some? && WellFormed(lib.unmarshalPointer(value).value)
                 && var lp := lib.unmarshalPointer(value).value;
                 && lib.digest(NormalizeDomain(lp.domain) + ":" + TrimSpace(lp.package) + ":latest") == key
                 && answer.Owner? && exists chain :: IsPublishable(lib, data, key, lp, answer.key, fetcher, chain)))
  {
    PointerMeans(lib, value);
    if lib.unmarshalPointer(value).Some? && WellFormed(lib.unmarshalPointer(value).value) {
      var lp := lib.unmarshalPointer(value).value;
      HeadMeans(lib, lp);
      forall chain { CheckedMeans(lib, data, key, lp, answer, fetcher, chain); }
      var r := Checked(ReaderOf(lib), data, key, HeadOf(lib, lp).value, answer, fetcher);
      assert r.Ok? ==> IsPublishable(lib, data, key, lp, answer.key, fetcher, r.value);
    }
  }

  // ---------------------------------------------------------------- Store against Validate

  lemma {:induction false} SaveAllAgain(rd: Reader, data: map<KademliaId, Bytes>, records: seq<Bytes>)
    requires rd.Sound() && forall i :: 0 <= i < |records| ==> rd.digest(records[i]) in data
    ensures SaveAll(rd, data, records) == data
    decreases |records|
  {
    if records != [] {
      assert rd.locate(rd.hash(records[0])) == Some(rd.digest(records[0]));
      assert rd.digest(records[0]) in data;
      forall i | 0 <= i < |records[1..]| ensures rd.digest(records[1..][i]) in data {
        assert records[1..][i] == records[i + 1];
      }
      SaveAllAgain(rd, data, records[1..]);
    }
  }

  /** After saving, the getter still supplies every record it supplied. */
  lemma SavedIsSupplied(rd: Reader, data: map<KademliaId, Bytes>, records: seq<Bytes>, fetcher: string -> Option<Bytes>, i: nat)
    requires rd.Sound() && Separates(rd) && i < |records|
    requires forall k :: 0 <= k < |records| ==> Getter(rd, data, fetcher)(rd.hash(records[k])) == Some(records[k])
    ensures Getter(rd, SaveAll(rd, data, records), fetcher)(rd.hash(records[i])) == Some(records[i])
  {
    var saved, id := SaveAll(rd, data, records), rd.digest(records[i]);
    assert rd.locate(rd.hash(records[i])) == Some(id);
    SaveAllAdds(rd, data, records);
    SaveAllKeeps(rd, data, records, id);
    assert Getter(rd, data, fetcher)(rd.hash(records[i])) == Some(records[i]);
    if id !in data {
      assert Accounted(rd, data, records, id, saved[id]);
      var k :| 0 <= k < |records| && records[k] == saved[id] && rd.digest(saved[id]) == id;
      assert rd.hash(records[k]) == rd.hash(records[i]);
    }
  }

  /**
   * If a saved record takes the still empty key of the pointer, the commit is not made. The
   * next round sees no pointer there either, accepts the same stretch, and has nothing to save.
   */
  lemma SecondRoundAgrees(rd: Reader, data: map<KademliaId, Bytes>, key: KademliaId, lp: Head, answer: Resolution,
                          fetcher: string -> Option<Bytes>)
    requires rd.Sound() && Separates(rd) && key !in data
    requires Checked(rd, data, key, lp, answer, fetcher).Ok?
    ensures var saves := Checked(rd, data, key, lp, answer, fetcher).value;
            var saved := SaveAll(rd, data, saves);
            key in saved ==> Checked(rd, saved, key, lp, answer, fetcher) == Ok(saves) && SaveAll(rd, saved, saves) == saved
  {
    var saves := Checked(rd, data, key, lp, answer, fetcher).value;
    var saved := SaveAll(rd, data, saves);
    SaveAllAdds(rd, data, saves);
    SaveAllAgain(rd, saved, saves);
    if key in saved {
      ValidationIffAcceptable(rd, Some(lp), None, answer, Getter(rd, data, fetcher), DEFAULT_MAX_CHAIN_DEPTH);
      ValidationIffAcceptable(rd, Some(lp), None, answer, Getter(rd, saved, fetcher), DEFAULT_MAX_CHAIN_DEPTH);
      var task := TaskOf(Some(lp), None, answer.key, Depth(DEFAULT_MAX_CHAIN_DEPTH));
      assert ValidStretch(rd, task, Getter(rd, data, fetcher), saves);
      assert Accounted(rd, data, saves, key, saved[key]);
      RecordIsNoPointer(rd, task, Getter(rd, data, fetcher), saves, saved[key]);
      forall i | 0 <= i < |saves| ensures Getter(rd, saved, fetcher)(rd.hash(saves[i])) == Some(saves[i]) {
        SavedIsSupplied(rd, data, saves, fetcher, i);
      }
      assert ValidStretch(rd, task, Getter(rd, saved, fetcher), saves);
    }
  }

  lemma RecordIsNoPointer(rd: Reader, task: Task, getter: string -> Option<Bytes>, chain: seq<Bytes>, value: Bytes)
    requires Separates(rd) && ValidStretch(rd, task, getter, chain) && value in chain
    ensures Existing(rd, Some(value)) == None
  {
    var i :| 0 <= i < |chain| && chain[i] == value;
    ChainAt(rd, task.lp.pointer.domain, task.lp.pointer.package, task.lp.start, chain, task.Target(), i);
  }

  /** The pointer branch of `Store`, when validation accepts: one round, or two with the same outcome. */
  lemma AcceptedIsStored(rd: Reader, data: map<KademliaId, Bytes>, key: KademliaId, value: Bytes, lp: Head, answer: Resolution,
                         fetcher: string -> Option<Bytes>)
    requires rd.Sound() && Separates(rd) && Checked(rd, data, key, lp, answer, fetcher).Ok?
    ensures PointerOutcome(rd, data, key, value, lp, answer, fetcher) ==
            Outcome(None, SaveAll(rd, data, Checked(rd, data, key, lp, answer, fetcher).value)[key := value])
  {
    var saves := Checked(rd, data, key, lp, answer, fetcher).value;
    SaveAllKeeps(rd, data, saves, key);
    if key !in data {
      SecondRoundAgrees(rd, data, key, lp, answer, fetcher);
    }
  }

  /**
   * Undisturbed, `Store` accepts exactly what `Validate` accepts. A rejected store changes
   * nothing; an accepted pointer is stored together with the whole accepted stretch.
   */
  lemma StoreFollowsVerdict(rd: Reader, data: map<KademliaId, Bytes>, maxValSize: int, key: KademliaId, value: Bytes,
                            answer: Resolution, fetcher: string -> Option<Bytes>)
    requires rd.Sound() && Separates(rd)
    ensures var out := StoreOutcome(rd, data, maxValSize, key, value, answer, fetcher);
            && out.error == Verdict(rd, data, maxValSize, key, value, answer, fetcher)
            && (out.error.Some? ==> out.data == data)
            && (out.error.None? ==> Lookup(out.data, key) == Some(value))
            && (out.error.None? && rd.digest(value) == key ==> out.data == data[key := value])
            && (out.error.None? && rd.digest(value) != key ==>
                  rd.pointer(value).Some? && Checked(rd, data, key, rd.pointer(value).value, answer, fetcher).Ok? &&
                  out.data == SaveAll(rd, data, Checked(rd, data, key, rd.pointer(value).value, answer, fetcher).value)[key := value])
  {
    if rd.pointer(value).Some? && Checked(rd, data, key, rd.pointer(value).value, answer, fetcher).Ok? {
      AcceptedIsStored(rd, data, key, value, rd.pointer(value).value, answer, fetcher);
    }
  }

  // ---------------------------------------------------------------- an undisturbed Store is a run of the protocol

  /** The actions lead from `s` to `end`. */
  ghost predicate Leads(rd: Reader, values: set<Bytes>, s: System, actions: seq<Action>, end: System)
    decreases |actions|
  {
    if actions == [] then s == end
    else Enabled(rd, values, s, actions[0]) && Leads(rd, values, Do(rd, values, s, actions[0]), actions[1..], end)
  }

  lemma {:induction false} LeadsConcat(rd: Reader, values: set<Bytes>, s: System, a1: seq<Action>, mid: System,
                                       a2: seq<Action>, end: System)
    requires Leads(rd, values, s, a1, mid) && Leads(rd, values, mid, a2, end)
    ensures Leads(rd, values, s, a1 + a2, end)
    decreases |a1|
  {
    if a1 == [] {
      assert a1 + a2 == a2;
    } else {
      assert (a1 + a2)[1..] == a1[1..] + a2;
      LeadsConcat(rd, values, Do(rd, values, s, a1[0]), a1[1..], mid, a2, end);
    }
  }

  lemma LeadsOne(rd: Reader, values: set<Bytes>, s: System, a: Action)
    requires Enabled(rd, values, s, a)
    ensures Leads(rd, values, s, [a], Do(rd, values, s, a))
  {
    assert [a][1..] == [];
  }

  /** The fetcher only brings values of the run. */
  ghost predicate Brings(values: set<Bytes>, fetcher: string -> Option<Bytes>) {
    forall h :: fetcher(h).Some? ==> fetcher(h).value in values
  }

  /** All actions are taken by the one call. */
  ghost predicate OwnActions(actions: seq<Action>, id: nat) {
    forall i :: 0 <= i < |actions| ==> !actions[i].PutBlob? && actions[i].id == id
  }

  /** The fetches of an undisturbed walk end as the validator's walk does. */
  lemma {:induction false} FetchAll(rd: Reader, values: set<Bytes>, s: System, id: nat, fetcher: string -> Option<Bytes>)
    returns (actions: seq<Action>, end: System)
    requires Brings(values, fetcher)
    requires id in s.calls && s.calls[id].phase.Walking?
    ensures Leads(rd, values, s, actions, end) && OwnActions(actions, id)
    ensures var c := s.calls[id];
            var r := WalkDown(rd, c.phase.task, c.phase.walk, Getter(rd, s.data, fetcher));
            end == s.(calls := s.calls[id := c.(phase := if r.Ok? then Walking(c.phase.task, r.value) else Finished(Some(r.error)))])
    decreases var p := s.calls[id].phase;
              if |p.walk.visited| <= p.task.depth then p.task.depth - |p.walk.visited| + 1 else 0
  {
    var c := s.calls[id];
    var task, walk, getter := c.phase.task, c.phase.walk, Getter(rd, s.data, fetcher);
    if walk.current == task.Target() {
      actions, end := [], s;
      assert s.calls[id := c] == s.calls;
    } else {
      var a := Fetch(id, getter(walk.current));
      var next := Do(rd, values, s, a);
      LeadsOne(rd, values, s, a);
      if Visit(rd, task, walk, getter(walk.current)).Err? {
        actions, end := [a], next;
      } else {
        var rest;
        rest, end := FetchAll(rd, values, next, id, fetcher);
        LeadsConcat(rd, values, s, [a], next, rest, end);
        actions := [a] + rest;
      }
    }
  }

  lemma {:induction false} SaveEach(rd: Reader, values: set<Bytes>, s: System, id: nat)
    returns (actions: seq<Action>, end: System)
    requires id in s.calls && s.calls[id].phase.Saving? && s.calls[id].phase.next <= |s.calls[id].phase.saves|
    ensures Leads(rd, values, s, actions, end) && OwnActions(actions, id)
    ensures var c := s.calls[id];
            end == s.(data := SaveAll(rd, s.data, c.phase.saves[c.phase.next..]),
                      calls := s.calls[id := c.(phase := Saving(c.phase.saves, |c.phase.saves|))])
    decreases |s.calls[id].phase.saves| - s.calls[id].phase.next
  {
    var c := s.calls[id];
    var saves, n := c.phase.saves, c.phase.next;
    if n == |saves| {
      actions, end := [], s;
      assert s.calls[id := c] == s.calls;
    } else {
      var next := Do(rd, values, s, Save(id));
      LeadsOne(rd, values, s, Save(id));
      assert saves[n..][1..] == saves[n + 1..];
      var rest;
      rest, end := SaveEach(rd, values, next, id);
      LeadsConcat(rd, values, s, [Save(id)], next, rest, end);
      actions := [Save(id)] + rest;
    }
  }

  /** Where an idle call stands after snapshotting and being admitted, on its own. */
  function Admitted(rd: Reader, s: System, id: nat, answer: Resolution): System
    requires id in s.calls
  {
    s.(calls := s.calls[id := AfterAdmit(rd, AfterSnapshot(s, s.calls[id]), answer)])
  }

  lemma LeadsToAdmitted(rd: Reader, values: set<Bytes>, s: System, id: nat, answer: Resolution)
    requires id in s.calls && s.calls[id].phase.Idle?
    ensures Leads(rd, values, s, [Snapshot(id), Admit(id, answer)], Admitted(rd, s, id, answer))
  {
    var s1 := Do(rd, values, s, Snapshot(id));
    var s2 := Do(rd, values, s1, Admit(id, answer));
    LeadsOne(rd, values, s, Snapshot(id));
    LeadsOne(rd, values, s1, Admit(id, answer));
    LeadsConcat(rd, values, s, [Snapshot(id)], s1, [Admit(id, answer)], s2);
    assert [Snapshot(id)] + [Admit(id, answer)] == [Snapshot(id), Admit(id, answer)];
    assert s2.calls == Admitted(rd, s, id, answer).calls;
  }

  /** The same store request, in whatever phase. */
  predicate SameRequest(c: Call, d: Call) {
    c.key == d.key && c.value == d.value && c.lp == d.lp
  }

  /** What one undisturbed round from `data` leaves behind, given the verdict of its validation. */
  ghost predicate RoundEnds(rd: Reader, data: map<KademliaId, Bytes>, c: Call, verdict: Result<seq<Bytes>, Error>, end: System, id: nat) {
    && id in end.calls && SameRequest(end.calls[id], c)
    && match verdict
       case Err(e) => end.data == data && end.calls[id].phase == Finished(Some(e))
       case Ok(saves) =>
         var saved := SaveAll(rd, data, saves);
         if Lookup(saved, c.key) == Lookup(data, c.key)
         then end.data == saved[c.key := c.value] && end.calls[id].phase == Finished(None)
         else end.data == saved && end.calls[id].phase == Idle
  }

  /** From a finished walk: the acceptance, the saves, and the commit or the return for another round. */
  lemma FinishRound(rd: Reader, values: set<Bytes>, s: System, id: nat)
    returns (actions: seq<Action>, end: System)
    requires id in s.calls && s.calls[id].phase.Walking?
    requires s.calls[id].phase.walk.current == s.calls[id].phase.task.Target()
    requires s.calls[id].seen == Lookup(s.data, s.calls[id].key)
    ensures Leads(rd, values, s, actions, end) && OwnActions(actions, id)
    ensures RoundEnds(rd, s.data, s.calls[id], Conclude(s.calls[id].phase.task, s.calls[id].phase.walk), end, id)
  {
    var c := s.calls[id];
    var accepted := Do(rd, values, s, Accept(id));
    LeadsOne(rd, values, s, Accept(id));
    if Conclude(c.phase.task, c.phase.walk).Err? {
      actions, end := [Accept(id)], accepted;
    } else {
      var saves := Conclude(c.phase.task, c.phase.walk).value;
      var middle, saved := SaveEach(rd, values, accepted, id);
      assert saves[0..] == saves;
      end := Do(rd, values, saved, TryCommit(id));
      LeadsOne(rd, values, saved, TryCommit(id));
      LeadsConcat(rd, values, s, [Accept(id)], accepted, middle, saved);
      LeadsConcat(rd, values, s, [Accept(id)] + middle, saved, [TryCommit(id)], end);
      actions := [Accept(id)] + middle + [TryCommit(id)];
    }
  }

  /** One undisturbed round of an idle call. */
  lemma SoloRound(rd: Reader, values: set<Bytes>, s: System, id: nat, answer: Resolution, fetcher: string -> Option<Bytes>)
    returns (actions: seq<Action>, end: System)
    requires Brings(values, fetcher) && id in s.calls && s.calls[id].phase.Idle?
    ensures Leads(rd, values, s, actions, end) && OwnActions(actions, id)
    ensures RoundEnds(rd, s.data, s.calls[id], Checked(rd, s.data, s.calls[id].key, s.calls[id].lp, answer, fetcher), end, id)
  {
    var admitted := Admitted(rd, s, id, answer);
    var first := [Snapshot(id), Admit(id, answer)];
    LeadsToAdmitted(rd, values, s, id, answer);
    if admitted.calls[id].phase.Finished? {
      actions, end := first, admitted;
    } else {
      var second, walked := FetchAll(rd, values, admitted, id, fetcher);
      LeadsConcat(rd, values, s, first, admitted, second, walked);
      if walked.calls[id].phase.Finished? {
        actions, end := first + second, walked;
      } else {
        WalkDownStops(rd, admitted.calls[id].phase.task, admitted.calls[id].phase.walk, Getter(rd, s.data, fetcher));
        var third;
        third, end := FinishRound(rd, values, walked, id);
        LeadsConcat(rd, values, s, first + second, walked, third, end);
        actions := first + second + third;
      }
    }
  }

  /** The call has finished as the sequential outcome says. */
  ghost predicate EndsAs(out: Outcome, end: System, id: nat) {
    && id in end.calls && end.calls[id].phase.Finished? && end.data == out.data
    && out.error == if end.calls[id].phase.error.Some? then Some(Rejected(end.calls[id].phase.error.value)) else None
  }

  /** The undisturbed rounds of an idle call end as the retry loop does. */
  lemma {:induction false} SoloRounds(rd: Reader, values: set<Bytes>, s: System, id: nat, answer: Resolution, fetcher: string -> Option<Bytes>)
    returns (actions: seq<Action>, end: System)
    requires Brings(values, fetcher) && id in s.calls && s.calls[id].phase.Idle?
    ensures Leads(rd, values, s, actions, end) && OwnActions(actions, id)
    ensures EndsAs(PointerOutcome(rd, s.data, s.calls[id].key, s.calls[id].value, s.calls[id].lp, answer, fetcher), end, id)
    decreases if s.calls[id].key in s.data then 0 else 1
  {
    var c := s.calls[id];
    var r := Checked(rd, s.data, c.key, c.lp, answer, fetcher);
    actions, end := SoloRound(rd, values, s, id, answer, fetcher);
    if r.Ok? {
      SaveAllKeeps(rd, s.data, r.value, c.key);
      if Lookup(SaveAll(rd, s.data, r.value), c.key) != Lookup(s.data, c.key) {
        var more, last := SoloRounds(rd, values, end, id, answer, fetcher);
        LeadsConcat(rd, values, s, actions, end, more, last);
        actions, end := actions + more, last;
      }
    }
  }

  /** The sequential `Store` of a pointer is what the protocol does when one call runs alone, from any state. */
  lemma StoreIsSoloRun(rd: Reader, values: set<Bytes>, s: System, id: nat, key: KademliaId, value: Bytes,
                       answer: Resolution, fetcher: string -> Option<Bytes>)
    returns (actions: seq<Action>, end: System)
    requires Brings(values, fetcher) && Enabled(rd, values, s, Invoke(id, key, value))
    ensures Leads(rd, values, s, actions, end) && OwnActions(actions, id)
    ensures EndsAs(PointerOutcome(rd, s.data, key, value, rd.pointer(value).value, answer, fetcher), end, id)
  {
    var a := Invoke(id, key, value);
    var invoked := Do(rd, values, s, a);
    LeadsOne(rd, values, s, a);
    var rest;
    rest, end := SoloRounds(rd, values, invoked, id, answer, fetcher);
    LeadsConcat(rd, values, s, [a], invoked, rest, end);
    actions := [a] + rest;
  }

  /** Actions that lead on from the end of a run extend it to a longer run. */
  lemma {:induction false} LeadsExtendsRun(rd: Reader, values: set<Bytes>, run: seq<System>, before: seq<Action>,
                                           actions: seq<Action>, end: System)
    returns (longer: seq<System>)
    requires IsRun(rd, values, run, before) && Leads(rd, values, run[|run| - 1], actions, end)
    ensures IsRun(rd, values, longer, before + actions) && longer[|longer| - 1] == end && run <= longer
    decreases |actions|
  {
    if actions == [] {
      longer := run;
      assert before + actions == before;
    } else {
      var next := Do(rd, values, run[|run| - 1], actions[0]);
      RunSnoc(rd, values, run, before, actions[0]);
      longer := LeadsExtendsRun(rd, values, run + [next], before + [actions[0]], actions[1..], end);
      assert before + [actions[0]] + actions[1..] == before + actions;
    }
  }

  lemma RunSnoc(rd: Reader, values: set<Bytes>, run: seq<System>, actions: seq<Action>, a: Action)
    requires IsRun(rd, values, run, actions) && Enabled(rd, values, run[|run| - 1], a)
    ensures IsRun(rd, values, run + [Do(rd, values, run[|run| - 1], a)], actions + [a])
  {
    var longer, all := run + [Do(rd, values, run[|run| - 1], a)], actions + [a];
    forall i | 0 <= i < |all| ensures Follows(rd, values, longer, all, i) {
      if i < |actions| {
        assert Follows(rd, values, run, actions, i);
      }
    }
  }

  lemma {:induction false} WalkDownStops(rd: Reader, task: Task, walk: Walk, getter: string -> Option<Bytes>)
    ensures var r := WalkDown(rd, task, walk, getter);
            r.Ok? ==> r.value.current == task.Target()
    decreases if |walk.visited| <= task.depth then task.depth - |walk.visited| + 1 else 0
  {
    if walk.current != task.Target() {
      var r := Visit(rd, task, walk, getter(walk.current));
      if r.Ok? {
        WalkDownStops(rd, task, r.value, getter);
      }
    }
  }
}
