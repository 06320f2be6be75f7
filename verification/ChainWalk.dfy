/** Reading a package's history back: `WalkVersionChainWithDepth` (registry/validator.go:208-252). */
module ChainWalk {
  import opened Common
  import opened Text
  import opened Versions
  import opened Records
  import opened Validator

  /** Records from `current` downwards, and the error that stopped the walk, if any. */
  datatype Trail = Trail(records: seq<VersionRecord>, error: Option<Error>)

  function Collect(rd: Reader, getter: string -> Option<Bytes>, current: string, visited: set<string>, depth: nat): Trail
    decreases if |visited| <= depth then depth - |visited| + 1 else 0
  {
    if current == "" || current == ZERO_HASH then Trail([], None)
    else if current in visited || |visited| + 1 > depth then Trail([], Some(InvalidHistoryChain))
    else
      var data := getter(current);
      if data.None? || data.value == "" then Trail([], Some(MissingVersionRecord))
      else if rd.hash(data.value) != current || rd.record(data.value).None? then Trail([], Some(CorruptRecord))
      else
        var e := rd.record(data.value).value;
        var below := Collect(rd, getter, e.previous, visited + {current}, depth);
        Trail([e.record] + below.records, below.error)
  }

  /** `WalkVersionChainWithDepth` */
  method WalkVersionChain(rd: Reader, headHash: string, getter: string -> Option<Bytes>, maxDepth: int)
    returns (trail: Trail)
    ensures trail == Collect(rd, getter, NormHash(headHash), {}, Depth(maxDepth))
  {
    trail := WalkFrom(rd, NormHash(headHash), getter, Depth(maxDepth));
  }

  /** The loop, from a normalized head hash. */
  method WalkFrom(rd: Reader, head: string, getter: string -> Option<Bytes>, depth: nat) returns (trail: Trail)
    ensures trail == Collect(rd, getter, head, {}, depth)
  {
    if head == "" || head == ZERO_HASH {
      return Trail([], None);
    }
    var chain, visited, currentHash := [], {}, head;
    while currentHash != "" && currentHash != ZERO_HASH
      invariant |visited| <= depth
      invariant var below := Collect(rd, getter, currentHash, visited, depth);
                Collect(rd, getter, head, {}, depth) == Trail(chain + below.records, below.error)
      decreases depth - |visited|
    {
      if currentHash in visited {
        return Trail(chain, Some(InvalidHistoryChain));
      }
      ghost var before := visited;
      visited := visited + {currentHash};
      if |visited| > depth {
        return Trail(chain, Some(InvalidHistoryChain));
      }
      var data := getter(currentHash);
      if data.None? || data.value == "" {
        return Trail(chain, Some(MissingVersionRecord));
      }
      if rd.hash(data.value) != currentHash {
        return Trail(chain, Some(CorruptRecord));
      }
      var vr := rd.record(data.value);
      if vr.None? {
        return Trail(chain, Some(CorruptRecord));
      }
      ghost var below := Collect(rd, getter, vr.value.previous, visited, depth);
      assert chain + ([vr.value.record] + below.records) == chain + [vr.value.record] + below.records;
      chain := chain + [vr.value.record];
      currentHash := vr.value.previous;
    }
    return Trail(chain, None);
  }

  /** What an error of the walk reports about the hash it stopped at, after passing the hashes `passed`. */
  ghost predicate TrailFault(rd: Reader, getter: string -> Option<Bytes>, passed: set<string>, hash: string, depth: nat, e: Error) {
    match e
    case InvalidHistoryChain => |passed| >= depth || hash in passed
    case MissingVersionRecord => getter(hash).None? || getter(hash).value == ""
    case CorruptRecord => getter(hash).Some? && (rd.hash(getter(hash).value) != hash || rd.record(getter(hash).value).None?)
    case _ => false
  }

  predicate IsEnd(hash: string) {
    hash == "" || hash == ZERO_HASH
  }

  /**
   * The trail is explained by `chain`: each of its records is what the getter gave for the
   * hash asked for, and has that hash; the next hash asked for is its predecessor. Without an
   * error the last hash is the end of the history, otherwise the error names what is wrong there.
   */
  ghost predicate IsExplained(rd: Reader, getter: string -> Option<Bytes>, hash: string, passed: set<string>, depth: nat,
                              chain: seq<Bytes>, trail: Trail)
    decreases |chain|
  {
    if chain == [] then
      && trail.records == []
      && if trail.error.None? then IsEnd(hash) else !IsEnd(hash) && TrailFault(rd, getter, passed, hash, depth, trail.error.value)
    else
      && !IsEnd(hash) && getter(hash) == Some(chain[0]) && rd.hash(chain[0]) == hash && rd.record(chain[0]).Some?
      && trail.records != [] && trail.records[0] == rd.record(chain[0]).value.record
      && IsExplained(rd, getter, PredecessorOf(rd, chain[0]), passed + {hash}, depth, chain[1..], Trail(trail.records[1..], trail.error))
  }

  function RecordsOf(rd: Reader, chain: seq<Bytes>): seq<VersionRecord>
    requires forall i :: 0 <= i < |chain| ==> rd.record(chain[i]).Some?
  {
    seq(|chain|, i requires 0 <= i < |chain| => rd.record(chain[i]).value.record)
  }

  ghost predicate Supplies(rd: Reader, getter: string -> Option<Bytes>, chain: seq<Bytes>) {
    forall i :: 0 <= i < |chain| ==> getter(rd.hash(chain[i])) == Some(chain[i])
  }

  ghost predicate Unvisited(rd: Reader, chain: seq<Bytes>, visited: set<string>) {
    forall i :: 0 <= i < |chain| ==> rd.hash(chain[i]) !in visited
  }

  /** What walking a complete history of `n` records with a depth limit must return. */
  ghost predicate IsTrailOf(rd: Reader, chain: seq<Bytes>, depth: nat, trail: Trail) {
    (forall i :: 0 <= i < |chain| ==> rd.record(chain[i]).Some?) &&
    if |chain| <= depth then trail == Trail(RecordsOf(rd, chain), None)
    else trail == Trail(RecordsOf(rd, chain[..depth]), Some(InvalidHistoryChain))
  }

  /**
   * Walking a history that ends at the zero hash returns exactly its records, newest
   * first, when the depth limit allows; otherwise the first `depth` of them and an error.
   */
  lemma {:induction false} CollectHistory(rd: Reader, getter: string -> Option<Bytes>, domain: string, package: string,
                                          from: string, chain: seq<Bytes>, visited: set<string>, depth: nat)
    requires rd.Sound()
    requires Chain(rd, domain, package, from, chain, ZERO_HASH) && Supplies(rd, getter, chain)
    requires |visited| <= depth
    requires Unvisited(rd, chain, visited)
    ensures IsTrailOf(rd, chain, depth - |visited|, Collect(rd, getter, from, visited, depth))
    decreases |chain|
  {
    if chain != [] {
      Descend(rd, getter, domain, package, from, chain, visited);
      CollectUnfolds(rd, getter, domain, package, from, chain, visited, depth);
      if |visited| < depth {
        CollectHistory(rd, getter, domain, package, PredecessorOf(rd, chain[0]), chain[1..], visited + {from}, depth);
        TrailExtends(rd, chain, depth - |visited|, Collect(rd, getter, PredecessorOf(rd, chain[0]), visited + {from}, depth));
      } else {
        ChainRecordsParse(rd, domain, package, from, chain, ZERO_HASH);
        assert RecordsOf(rd, chain[..0]) == [];
      }
    }
  }

  // One round of the walk over a history.
  lemma CollectUnfolds(rd: Reader, getter: string -> Option<Bytes>, domain: string, package: string,
                       from: string, chain: seq<Bytes>, visited: set<string>, depth: nat)
    requires rd.Sound() && chain != [] && from !in visited && |visited| <= depth
    requires Chain(rd, domain, package, from, chain, ZERO_HASH) && Supplies(rd, getter, chain)
    ensures rd.record(chain[0]).Some?
    ensures Collect(rd, getter, from, visited, depth) ==
            if |visited| == depth then Trail([], Some(InvalidHistoryChain))
            else
              var below := Collect(rd, getter, PredecessorOf(rd, chain[0]), visited + {from}, depth);
              Trail([rd.record(chain[0]).value.record] + below.records, below.error)
  {
    assert rd.hash(chain[0]) != "" && getter(rd.hash(chain[0])) == Some(chain[0]);
  }

  lemma {:induction false} ChainRecordsParse(rd: Reader, domain: string, package: string, from: string, chain: seq<Bytes>, to: string)
    requires Chain(rd, domain, package, from, chain, to)
    ensures forall i :: 0 <= i < |chain| ==> rd.record(chain[i]).Some?
  {
    forall i | 0 <= i < |chain| ensures rd.record(chain[i]).Some? {
      ChainAt(rd, domain, package, from, chain, to, i);
    }
  }

  // The newest record's hash does not occur again further down.
  lemma Descend(rd: Reader, getter: string -> Option<Bytes>, domain: string, package: string,
                from: string, chain: seq<Bytes>, visited: set<string>)
    requires Chain(rd, domain, package, from, chain, ZERO_HASH) && Supplies(rd, getter, chain) && chain != []
    requires Unvisited(rd, chain, visited)
    ensures from !in visited && Supplies(rd, getter, chain[1..]) && Unvisited(rd, chain[1..], visited + {from})
  {
    assert getter(rd.hash(chain[0])) == Some(chain[0]);
    forall i | 0 <= i < |chain[1..]|
      ensures rd.hash(chain[1..][i]) !in visited + {from}
      ensures getter(rd.hash(chain[1..][i])) == Some(chain[1..][i])
    {
      ChainDecreases(rd, domain, package, from, chain, ZERO_HASH, 0, i + 1);
      assert getter(rd.hash(chain[i + 1])) == Some(chain[i + 1]) && rd.hash(chain[i + 1]) !in visited;
    }
  }

  lemma TrailExtends(rd: Reader, chain: seq<Bytes>, n: nat, below: Trail)
    requires chain != [] && n > 0 && rd.record(chain[0]).Some?
    requires IsTrailOf(rd, chain[1..], n - 1, below)
    ensures IsTrailOf(rd, chain, n, Trail([rd.record(chain[0]).value.record] + below.records, below.error))
  {
    UnfoldRecords(rd, chain, n);
  }

  lemma UnfoldRecords(rd: Reader, chain: seq<Bytes>, n: nat)
    requires chain != [] && n > 0
    requires forall i :: 0 <= i < |chain[1..]| ==> rd.record(chain[1..][i]).Some?
    requires rd.record(chain[0]).Some?
    ensures forall i :: 0 <= i < |chain| ==> rd.record(chain[i]).Some?
    ensures RecordsOf(rd, chain) == [rd.record(chain[0]).value.record] + RecordsOf(rd, chain[1..])
    ensures n < |chain| ==>
      RecordsOf(rd, chain[..n]) == [rd.record(chain[0]).value.record] + RecordsOf(rd, chain[1..][..n - 1])
  {
    assert forall i :: 0 <= i < |chain| ==> i == 0 || chain[i] == chain[1..][i - 1];
  }

  // ---------------------------------------------------------------- every walk, over any getter

  /** Over any getter, complete or not, every walk is explained. */
  lemma {:induction false} CollectIsExplained(rd: Reader, getter: string -> Option<Bytes>, hash: string, passed: set<string>, depth: nat)
    returns (chain: seq<Bytes>)
    ensures IsExplained(rd, getter, hash, passed, depth, chain, Collect(rd, getter, hash, passed, depth))
    decreases if |passed| <= depth then depth - |passed| + 1 else 0
  {
    var data := getter(hash);
    chain := [];
    if !IsEnd(hash) && hash !in passed && |passed| < depth && data.Some? && data.value != "" &&
       rd.hash(data.value) == hash && rd.record(data.value).Some? {
      var previous := rd.record(data.value).value.previous;
      var rest := CollectIsExplained(rd, getter, previous, passed + {hash}, depth);
      var below := Collect(rd, getter, previous, passed + {hash}, depth);
      chain := [data.value] + rest;
      assert chain[1..] == rest;
      assert ([rd.record(data.value).value.record] + below.records)[1..] == below.records;
    }
  }
}
