/**
 * The validated store under concurrency (kademlia/datastore.go:116-237).
 *
 * A `System` is the shared map together with any number of in-flight `Store` calls of
 * latest pointers. Every access of a call to the map is one atomic `Action`: the
 * snapshot, each single record fetch of the chain walk, each single record save, and
 * the compare-and-commit. Actions of different calls interleave freely, and content
 * blobs are put at any time. `log` and the call fields `at`, `wins`, `reach` and `full`
 * are history variables: no action's effect on the map depends on them.
 */
module StoreProtocol {
  import opened Common
  import opened Text
  import opened Versions
  import opened Records
  import opened KademliaIds
  import opened Validator
  import opened ChainWalk

  datatype Phase =
    | Idle
    | Snapped
    | Walking(task: Task, walk: Walk)
    | Saving(saves: seq<Bytes>, next: nat)
    | Finished(error: Option<Error>)

  datatype Call = Call(
    key: KademliaId, value: Bytes, lp: Head, phase: Phase, seen: Option<Bytes>,
    at: nat,           // length of the log when `seen` was taken
    wins: nat,         // successful validations so far
    reach: nat,        // records in the last accepted stretch
    full: seq<Bytes>)  // the complete history the last accepted stretch belongs to

  /** One pointer commit: what it replaced, and the history its pointer heads. */
  datatype Commit = Commit(key: KademliaId, replaced: Option<Bytes>, value: Bytes, history: seq<Bytes>)

  datatype System = System(data: map<KademliaId, Bytes>, calls: map<nat, Call>, log: seq<Commit>)

  datatype Action =
    | PutBlob(value: Bytes)
    | Invoke(id: nat, key: KademliaId, value: Bytes)
    | Snapshot(id: nat)
    | Admit(id: nat, answer: Resolution)
    | Fetch(id: nat, fetched: Option<Bytes>)
    | Accept(id: nat)
    | Save(id: nat)
    | TryCommit(id: nat)

  // ---------------------------------------------------------------- the transition system

  function Lookup(data: map<KademliaId, Bytes>, key: KademliaId): Option<Bytes> {
    if key in data then Some(data[key]) else None
  }

  function LastCommit(log: seq<Commit>, key: KademliaId): Option<Commit> {
    if log == [] then None
    else if log[|log| - 1].key == key then Some(log[|log| - 1])
    else LastCommit(log[..|log| - 1], key)
  }

  function HistoryOf(c: Option<Commit>): seq<Bytes> {
    if c.Some? then c.value.history else []
  }

  function ValueOf(c: Option<Commit>): Option<Bytes> {
    if c.Some? then Some(c.value.value) else None
  }

  /** The stored pointer as the validator sees it: bytes that do not parse count as none. */
  function Existing(rd: Reader, seen: Option<Bytes>): Option<Option<Head>> {
    if seen.Some? && rd.pointer(seen.value).Some? then Some(rd.pointer(seen.value)) else None
  }

  /** The getter: a local entry if there is one, otherwise whatever the fetcher brings. */
  predicate GetterMay(rd: Reader, values: set<Bytes>, data: map<KademliaId, Bytes>, hash: string, fetched: Option<Bytes>) {
    match rd.locate(hash)
    case None => fetched == None
    case Some(id) =>
      if id in data then fetched == Some(data[id]) else fetched.None? || fetched.value in values
  }

  predicate Enabled(rd: Reader, values: set<Bytes>, s: System, a: Action) {
    match a
    case PutBlob(value) => value in values
    case Invoke(id, key, value) =>
      id !in s.calls && value in values && rd.digest(value) != key &&
      rd.pointer(value).Some? && rd.pointer(value).value.key == key
    case Snapshot(id) => id in s.calls && s.calls[id].phase.Idle?
    case Admit(id, _) => id in s.calls && s.calls[id].phase.Snapped?
    case Fetch(id, fetched) =>
      id in s.calls && s.calls[id].phase.Walking? &&
      var p := s.calls[id].phase;
      p.walk.current != p.task.Target() && GetterMay(rd, values, s.data, p.walk.current, fetched)
    case Accept(id) =>
      id in s.calls && s.calls[id].phase.Walking? &&
      s.calls[id].phase.walk.current == s.calls[id].phase.task.Target()
    case Save(id) => id in s.calls && s.calls[id].phase.Saving? && s.calls[id].phase.next < |s.calls[id].phase.saves|
    case TryCommit(id) => id in s.calls && s.calls[id].phase.Saving? && s.calls[id].phase.next == |s.calls[id].phase.saves|
  }

  function AfterSnapshot(s: System, c: Call): Call {
    c.(phase := Snapped, seen := Lookup(s.data, c.key), at := |s.log|)
  }

  function AfterAdmit(rd: Reader, c: Call, answer: Resolution): Call {
    match Precheck(rd, Some(c.lp), Existing(rd, c.seen), answer)
    case Err(e) => c.(phase := Finished(Some(e)))
    case Ok(owner) =>
      var task := TaskOf(Some(c.lp), Existing(rd, c.seen), owner, DEFAULT_MAX_CHAIN_DEPTH);
      c.(phase := Walking(task, Begin(task)))
  }

  function AfterFetch(rd: Reader, c: Call, fetched: Option<Bytes>): Call
    requires c.phase.Walking?
  {
    match Visit(rd, c.phase.task, c.phase.walk, fetched)
    case Err(e) => c.(phase := Finished(Some(e)))
    case Ok(walk) => c.(phase := Walking(c.phase.task, walk))
  }

  function AfterAccept(log: seq<Commit>, c: Call): Call
    requires c.phase.Walking?
  {
    match Conclude(c.phase.task, c.phase.walk)
    case Err(e) => c.(phase := Finished(Some(e)))
    case Ok(saves) =>
      var below := if c.at <= |log| then HistoryOf(LastCommit(log[..c.at], c.key)) else [];
      c.(phase := Saving(saves, 0), wins := c.wins + 1, reach := |saves|, full := saves + below)
  }

  function AfterTryCommit(s: System, c: Call): Call {
    c.(phase := if Lookup(s.data, c.key) == c.seen then Finished(None) else Idle)
  }

  /** What the acting call becomes. */
  function CallAfter(rd: Reader, s: System, c: Call, a: Action): Call
    requires a.Fetch? || a.Accept? ==> c.phase.Walking?
    requires a.Save? ==> c.phase.Saving?
  {
    match a
    case PutBlob(_) => c
    case Invoke(_, _, _) => c
    case Snapshot(_) => AfterSnapshot(s, c)
    case Admit(_, answer) => AfterAdmit(rd, c, answer)
    case Fetch(_, fetched) => AfterFetch(rd, c, fetched)
    case Accept(_) => AfterAccept(s.log, c)
    case Save(_) => c.(phase := Saving(c.phase.saves, c.phase.next + 1))
    case TryCommit(_) => AfterTryCommit(s, c)
  }

  /** The saver: keeps an entry that already exists. */
  function SaveRecord(rd: Reader, data: map<KademliaId, Bytes>, record: Bytes): map<KademliaId, Bytes> {
    match rd.locate(rd.hash(record))
    case None => data
    case Some(id) => if id in data then data else data[id := record]
  }

  function DataAfter(rd: Reader, values: set<Bytes>, s: System, a: Action): map<KademliaId, Bytes>
    requires Enabled(rd, values, s, a)
  {
    match a
    case PutBlob(value) => s.data[rd.digest(value) := value]
    case Save(id) => SaveRecord(rd, s.data, s.calls[id].phase.saves[s.calls[id].phase.next])
    case TryCommit(id) =>
      var c := s.calls[id];
      if Lookup(s.data, c.key) == c.seen then s.data[c.key := c.value] else s.data
    case _ => s.data
  }

  function LogAfter(s: System, a: Action): seq<Commit> {
    if a.TryCommit? && a.id in s.calls && Lookup(s.data, s.calls[a.id].key) == s.calls[a.id].seen then
      var c := s.calls[a.id];
      s.log + [Commit(c.key, c.seen, c.value, c.full)]
    else s.log
  }

  function CallsAfter(rd: Reader, values: set<Bytes>, s: System, a: Action): map<nat, Call>
    requires Enabled(rd, values, s, a)
  {
    match a
    case PutBlob(_) => s.calls
    case Invoke(id, key, value) => s.calls[id := Call(key, value, rd.pointer(value).value, Idle, None, 0, 0, 0, [])]
    case _ => s.calls[a.id := CallAfter(rd, s, s.calls[a.id], a)]
  }

  function Do(rd: Reader, values: set<Bytes>, s: System, a: Action): System
    requires Enabled(rd, values, s, a)
  {
    System(DataAfter(rd, values, s, a), CallsAfter(rd, values, s, a), LogAfter(s, a))
  }

  const EMPTY_STORE := System(map[], map[], [])

  /** A run from the empty store: every state follows from the one before by an enabled action. */
  ghost predicate IsRun(rd: Reader, values: set<Bytes>, run: seq<System>, actions: seq<Action>) {
    |run| == |actions| + 1 && run[0] == EMPTY_STORE &&
    forall i :: 0 <= i < |actions| ==> Follows(rd, values, run, actions, i)
  }

  ghost predicate Follows(rd: Reader, values: set<Bytes>, run: seq<System>, actions: seq<Action>, i: nat)
    requires |run| == |actions| + 1 && i < |actions|
  {
    Enabled(rd, values, run[i], actions[i]) && run[i + 1] == Do(rd, values, run[i], actions[i])
  }

  /**
   * The hypothesis on a run, over the finitely many byte strings it handles: SHA-256
   * has no collision among them, and none of them hashes to the key of one of its
   * pointers (in particular no key string "domain:package:latest" is put as a blob).
   */
  ghost predicate Collisionless(rd: Reader, values: set<Bytes>) {
    (forall a, b :: a in values && b in values && rd.digest(a) == rd.digest(b) ==> a == b) &&
    (forall a, p :: a in values && p in values && rd.pointer(p).Some? ==> rd.digest(a) != rd.pointer(p).value.key)
  }

  // ---------------------------------------------------------------- histories

  /** `history` is the complete record history of the pointer, newest first, down to the zero hash. */
  ghost predicate FullHistory(rd: Reader, values: set<Bytes>, lp: Head, history: seq<Bytes>) {
    && history != []
    && (forall i :: 0 <= i < |history| ==> history[i] in values)
    && Chain(rd, lp.pointer.domain, lp.pointer.package, lp.start, history, ZERO_HASH)
    && VersionOf(rd, history[0]) == lp.version
  }

  /** Every record of the history is stored under its own digest. */
  ghost predicate Present(rd: Reader, data: map<KademliaId, Bytes>, history: seq<Bytes>) {
    forall i :: 0 <= i < |history| ==> rd.digest(history[i]) in data && data[rd.digest(history[i])] == history[i]
  }

  /** `older` is the end part of `newer`, and strictly shorter. */
  ghost predicate ProperSuffix(older: seq<Bytes>, newer: seq<Bytes>) {
    |older| < |newer| && newer[|newer| - |older|..] == older
  }

  ghost predicate CommitOk(rd: Reader, values: set<Bytes>, before: seq<Commit>, c: Commit) {
    && c.value in values
    && rd.pointer(c.value).Some? && rd.pointer(c.value).value.key == c.key
    && FullHistory(rd, values, rd.pointer(c.value).value, c.history)
    && var last := LastCommit(before, c.key);
    && c.replaced == ValueOf(last)
    && (last.Some? ==>
          && ProperSuffix(last.value.history, c.history)
          && rd.pointer(last.value.value).Some?
          && Newer(rd.pointer(c.value).value.version, rd.pointer(last.value.value).value.version))
  }

  ghost predicate GoodLog(rd: Reader, values: set<Bytes>, log: seq<Commit>) {
    log == [] || (GoodLog(rd, values, log[..|log| - 1]) && CommitOk(rd, values, log[..|log| - 1], log[|log| - 1]))
  }

  lemma {:induction false} ChainUnique(rd: Reader, values: set<Bytes>, domain: string, package: string, from: string,
                                       c1: seq<Bytes>, c2: seq<Bytes>)
    requires rd.Sound() && Collisionless(rd, values)
    requires forall i :: 0 <= i < |c1| ==> c1[i] in values
    requires forall i :: 0 <= i < |c2| ==> c2[i] in values
    requires Chain(rd, domain, package, from, c1, ZERO_HASH) && Chain(rd, domain, package, from, c2, ZERO_HASH)
    ensures c1 == c2
    decreases |c1|
  {
    if c1 != [] && c2 != [] {
      assert rd.locate(rd.hash(c1[0])) == Some(rd.digest(c1[0])) && rd.locate(rd.hash(c2[0])) == Some(rd.digest(c2[0]));
      assert c1[0] == c2[0];
      ChainUnique(rd, values, domain, package, PredecessorOf(rd, c1[0]), c1[1..], c2[1..]);
      assert c1 == [c1[0]] + c1[1..] && c2 == [c2[0]] + c2[1..];
    }
  }

  lemma {:induction false} LastCommitOk(rd: Reader, values: set<Bytes>, log: seq<Commit>, key: KademliaId)
    requires GoodLog(rd, values, log)
    ensures var last := LastCommit(log, key);
            last.Some? ==>
              last.value.key == key && last.value.value in values && rd.pointer(last.value.value).Some? &&
              rd.pointer(last.value.value).value.key == key &&
              FullHistory(rd, values, rd.pointer(last.value.value).value, last.value.history)
  {
    if log != [] && log[|log| - 1].key != key {
      LastCommitOk(rd, values, log[..|log| - 1], key);
    }
  }

  /** How an earlier and the present last commit of one key relate. */
  ghost predicate Supersedes(rd: Reader, was: Commit, now: Commit) {
    was == now ||
    (ProperSuffix(was.history, now.history) && rd.pointer(was.value).Some? && rd.pointer(now.value).Some? &&
     Newer(rd.pointer(now.value).value.version, rd.pointer(was.value).value.version))
  }

  lemma {:induction false} LastCommitAdvances(rd: Reader, values: set<Bytes>, log: seq<Commit>, at: nat, key: KademliaId)
    requires GoodLog(rd, values, log) && at <= |log|
    ensures var was, now := LastCommit(log[..at], key), LastCommit(log, key);
            was.Some? ==> now.Some? && Supersedes(rd, was.value, now.value)
    decreases |log|
  {
    if at == |log| {
      assert log[..at] == log;
    } else {
      var before := log[..|log| - 1];
      assert before[..at] == log[..at];
      LastCommitAdvances(rd, values, before, at, key);
      var was, mid, now := LastCommit(log[..at], key), LastCommit(before, key), LastCommit(log, key);
      if was.Some? && now != mid && was != mid {
        NewerTransitive(rd.pointer(now.value.value).value.version, rd.pointer(mid.value.value).value.version,
                        rd.pointer(was.value.value).value.version);
      }
    }
  }

  // ---------------------------------------------------------------- the invariant

  /** Every entry is a committed pointer at its key, or a value at its own digest. */
  ghost predicate DataOk(rd: Reader, values: set<Bytes>, data: map<KademliaId, Bytes>, log: seq<Commit>) {
    && (forall k :: k in data ==> data[k] in values)
    && (forall k :: k in data ==> LastCommit(log, k).Some? || rd.digest(data[k]) == k)
    && (forall k :: LastCommit(log, k).Some? ==> Lookup(data, k) == ValueOf(LastCommit(log, k)))
  }

  ghost predicate HistoriesPresent(rd: Reader, data: map<KademliaId, Bytes>, log: seq<Commit>) {
    forall i :: 0 <= i < |log| ==> Present(rd, data, log[i].history)
  }

  ghost predicate CallBasics(rd: Reader, values: set<Bytes>, log: seq<Commit>, c: Call) {
    && c.value in values && rd.pointer(c.value) == Some(c.lp) && c.lp.key == c.key
    && c.at <= |log|
    && (c.wins > 0 ==>
          && FullHistory(rd, values, c.lp, c.full)
          && 1 <= c.reach <= |c.full|
          && c.wins + c.reach <= DEFAULT_MAX_CHAIN_DEPTH + 1)
  }

  /** After a lost race the call faces a history longer than the one its last stretch stood on. */
  ghost predicate Ahead(c: Call, faced: seq<Bytes>) {
    c.wins > 0 ==> |faced| + c.reach > |c.full|
  }

  ghost predicate TaskOk(rd: Reader, c: Call, task: Task) {
    && task.lp == c.lp && task.depth == DEFAULT_MAX_CHAIN_DEPTH && c.lp.start != ZERO_HASH
    && task.existing == (if c.seen.Some? then rd.pointer(c.seen.value) else None)
    && (task.existing.Some? ==>
          && task.existing.value.pointer.domain == c.lp.pointer.domain
          && task.existing.value.pointer.package == c.lp.pointer.package
          && Newer(c.lp.version, task.existing.value.version))
  }

  ghost predicate PhaseOk(rd: Reader, values: set<Bytes>, data: map<KademliaId, Bytes>, log: seq<Commit>, c: Call)
    requires c.at <= |log|
  {
    var base := LastCommit(log[..c.at], c.key);
    match c.phase
    case Idle => Ahead(c, HistoryOf(LastCommit(log, c.key)))
    case Snapped => c.seen == ValueOf(base) && Ahead(c, HistoryOf(base))
    case Walking(task, walk) =>
      && c.seen == ValueOf(base) && Ahead(c, HistoryOf(base)) && TaskOk(rd, c, task)
      && Walked(rd, task, walk) && (forall i :: 0 <= i < |walk.toSave| ==> walk.toSave[i] in values)
    case Saving(saves, next) =>
      && c.seen == ValueOf(base) && c.wins > 0 && c.reach == |saves| && next <= |saves|
      && c.full == saves + HistoryOf(base) && Present(rd, data, saves[..next])
      && (base.Some? ==> rd.pointer(base.value.value).Some? &&
                         Newer(c.lp.version, rd.pointer(base.value.value).value.version))
    case Finished(_) => true
  }

  ghost predicate CallOk(rd: Reader, values: set<Bytes>, data: map<KademliaId, Bytes>, log: seq<Commit>, c: Call) {
    CallBasics(rd, values, log, c) && PhaseOk(rd, values, data, log, c)
  }

  ghost predicate SharedOk(rd: Reader, values: set<Bytes>, data: map<KademliaId, Bytes>, log: seq<Commit>) {
    GoodLog(rd, values, log) && DataOk(rd, values, data, log) && HistoriesPresent(rd, data, log)
  }

  ghost predicate Inv(rd: Reader, values: set<Bytes>, s: System) {
    && SharedOk(rd, values, s.data, s.log)
    && (forall id :: id in s.calls ==> CallOk(rd, values, s.data, s.log, s.calls[id]))
  }

  // ---------------------------------------------------------------- what writes keep

  /** Content entries are never lost or changed. */
  ghost predicate Grows(rd: Reader, data: map<KademliaId, Bytes>, data': map<KademliaId, Bytes>) {
    forall k :: k in data && rd.digest(data[k]) == k ==> k in data' && data'[k] == data[k]
  }

  lemma PresentGrows(rd: Reader, data: map<KademliaId, Bytes>, data': map<KademliaId, Bytes>, history: seq<Bytes>)
    requires Grows(rd, data, data') && Present(rd, data, history)
    ensures Present(rd, data', history)
  {
  }

  // No value of the run sits at the key of a committed pointer.
  lemma KeyIsNoDigest(rd: Reader, values: set<Bytes>, log: seq<Commit>, value: Bytes)
    requires Collisionless(rd, values) && GoodLog(rd, values, log) && value in values
    ensures LastCommit(log, rd.digest(value)).None?
  {
    LastCommitOk(rd, values, log, rd.digest(value));
  }

  lemma PutKeeps(rd: Reader, values: set<Bytes>, data: map<KademliaId, Bytes>, log: seq<Commit>, value: Bytes)
    requires Collisionless(rd, values) && GoodLog(rd, values, log) && DataOk(rd, values, data, log) && value in values
    ensures var data' := data[rd.digest(value) := value];
            Grows(rd, data, data') && DataOk(rd, values, data', log) && Present(rd, data', [value])
  {
    KeyIsNoDigest(rd, values, log, value);
  }

  lemma SaveKeeps(rd: Reader, values: set<Bytes>, data: map<KademliaId, Bytes>, log: seq<Commit>, value: Bytes)
    requires rd.Sound() && Collisionless(rd, values)
    requires GoodLog(rd, values, log) && DataOk(rd, values, data, log) && value in values
    ensures var data' := SaveRecord(rd, data, value);
            Grows(rd, data, data') && DataOk(rd, values, data', log) && Present(rd, data', [value])
  {
    KeyIsNoDigest(rd, values, log, value);
    assert rd.locate(rd.hash(value)) == Some(rd.digest(value));
  }

  lemma CommitGrows(rd: Reader, values: set<Bytes>, data: map<KademliaId, Bytes>, log: seq<Commit>, c: Call)
    requires Collisionless(rd, values) && DataOk(rd, values, data, log) && CallBasics(rd, values, log, c)
    ensures Grows(rd, data, data[c.key := c.value])
  {
  }

  lemma HistoriesGrow(rd: Reader, data: map<KademliaId, Bytes>, data': map<KademliaId, Bytes>, log: seq<Commit>)
    requires Grows(rd, data, data') && HistoriesPresent(rd, data, log)
    ensures HistoriesPresent(rd, data', log)
  {
    forall i | 0 <= i < |log| ensures Present(rd, data', log[i].history) {
      PresentGrows(rd, data, data', log[i].history);
    }
  }

  /** Calls that do not act stay in order when the map grows and the log is extended. */
  lemma BystanderKept(rd: Reader, values: set<Bytes>, data: map<KademliaId, Bytes>, data': map<KademliaId, Bytes>,
                      log: seq<Commit>, log': seq<Commit>, c: Call)
    requires CallOk(rd, values, data, log, c) && Grows(rd, data, data')
    requires GoodLog(rd, values, log') && log <= log'
    ensures CallOk(rd, values, data', log', c)
  {
    assert log'[..c.at] == log[..c.at];
    assert log'[..|log|] == log;
    LastCommitAdvances(rd, values, log', |log|, c.key);
    if c.phase.Saving? {
      PresentGrows(rd, data, data', c.phase.saves[..c.phase.next]);
    }
  }

  // ---------------------------------------------------------------- what each action of a call keeps

  // A pointer key never holds anything but a committed pointer.
  lemma SnapshotSeesLastCommit(rd: Reader, values: set<Bytes>, s: System, c: Call)
    requires Collisionless(rd, values) && SharedOk(rd, values, s.data, s.log) && CallBasics(rd, values, s.log, c)
    ensures Lookup(s.data, c.key) == ValueOf(LastCommit(s.log, c.key))
  {
  }

  lemma SnapshotKeeps(rd: Reader, values: set<Bytes>, s: System, c: Call)
    requires Collisionless(rd, values) && SharedOk(rd, values, s.data, s.log)
    requires CallOk(rd, values, s.data, s.log, c) && c.phase.Idle?
    ensures CallOk(rd, values, s.data, s.log, AfterSnapshot(s, c))
  {
    SnapshotSeesLastCommit(rd, values, s, c);
    assert s.log[..|s.log|] == s.log;
  }

  lemma AdmitKeeps(rd: Reader, values: set<Bytes>, s: System, c: Call, answer: Resolution)
    requires SharedOk(rd, values, s.data, s.log)
    requires CallOk(rd, values, s.data, s.log, c) && c.phase.Snapped?
    ensures CallOk(rd, values, s.data, s.log, AfterAdmit(rd, c, answer))
  {
    var existing := Existing(rd, c.seen);
    PrecheckIffAdmissible(rd, Some(c.lp), existing, answer);
    SeenParses(rd, values, s.log, c);
    if Precheck(rd, Some(c.lp), existing, answer).Ok? {
      var task := TaskOf(Some(c.lp), existing, answer.key, DEFAULT_MAX_CHAIN_DEPTH);
      BeginWalked(rd, task);
      assert TaskOk(rd, c, task);
    }
  }

  lemma {:induction false} GoodPrefix(rd: Reader, values: set<Bytes>, log: seq<Commit>, at: nat)
    requires GoodLog(rd, values, log) && at <= |log|
    ensures GoodLog(rd, values, log[..at])
    decreases |log|
  {
    if at == |log| {
      assert log[..at] == log;
    } else {
      GoodPrefix(rd, values, log[..|log| - 1], at);
      assert log[..|log| - 1][..at] == log[..at];
    }
  }

  // What a call has seen is a committed pointer with its full history.
  lemma SeenParses(rd: Reader, values: set<Bytes>, log: seq<Commit>, c: Call)
    requires GoodLog(rd, values, log) && c.at <= |log|
    requires c.seen == ValueOf(LastCommit(log[..c.at], c.key))
    ensures var base := LastCommit(log[..c.at], c.key);
            base.Some? ==> c.seen.Some? && rd.pointer(c.seen.value).Some? &&
                           FullHistory(rd, values, rd.pointer(c.seen.value).value, base.value.history)
  {
    GoodPrefix(rd, values, log, c.at);
    LastCommitOk(rd, values, log[..c.at], c.key);
  }

  // The getter only ever brings values of the run.
  lemma FetchedIsValue(rd: Reader, values: set<Bytes>, s: System, hash: string, fetched: Option<Bytes>)
    requires DataOk(rd, values, s.data, s.log) && GetterMay(rd, values, s.data, hash, fetched)
    ensures fetched.Some? ==> fetched.value in values
  {
  }

  lemma WalkingKept(rd: Reader, values: set<Bytes>, data: map<KademliaId, Bytes>, log: seq<Commit>, c: Call, walk: Walk)
    requires CallOk(rd, values, data, log, c) && c.phase.Walking?
    requires Walked(rd, c.phase.task, walk) && forall i :: 0 <= i < |walk.toSave| ==> walk.toSave[i] in values
    ensures CallOk(rd, values, data, log, c.(phase := Walking(c.phase.task, walk)))
  {
  }

  lemma VisitKeepsWalking(rd: Reader, values: set<Bytes>, task: Task, walk: Walk, fetched: Option<Bytes>)
    requires Walked(rd, task, walk) && walk.current != task.Target()
    requires forall i :: 0 <= i < |walk.toSave| ==> walk.toSave[i] in values
    requires fetched.Some? ==> fetched.value in values
    requires Visit(rd, task, walk, fetched).Ok?
    ensures var next := Visit(rd, task, walk, fetched).value;
            Walked(rd, task, next) && forall i :: 0 <= i < |next.toSave| ==> next.toSave[i] in values
  {
    VisitExtends(rd, task, walk, fetched);
  }

  lemma FetchKeeps(rd: Reader, values: set<Bytes>, s: System, c: Call, fetched: Option<Bytes>)
    requires SharedOk(rd, values, s.data, s.log)
    requires CallOk(rd, values, s.data, s.log, c) && c.phase.Walking?
    requires c.phase.walk.current != c.phase.task.Target()
    requires GetterMay(rd, values, s.data, c.phase.walk.current, fetched)
    ensures CallOk(rd, values, s.data, s.log, AfterFetch(rd, c, fetched))
  {
    var next := Visit(rd, c.phase.task, c.phase.walk, fetched);
    if next.Ok? {
      FetchedIsValue(rd, values, s, c.phase.walk.current, fetched);
      VisitKeepsWalking(rd, values, c.phase.task, c.phase.walk, fetched);
      WalkingKept(rd, values, s.data, s.log, c, next.value);
    } else {
      FinishedIsOk(rd, values, s.data, s.log, c, Some(next.error));
    }
  }

  lemma FinishedIsOk(rd: Reader, values: set<Bytes>, data: map<KademliaId, Bytes>, log: seq<Commit>, c: Call, error: Option<Error>)
    requires CallBasics(rd, values, log, c)
    ensures CallOk(rd, values, data, log, c.(phase := Finished(error)))
  {
  }

  /** An accepted stretch on top of the history it was validated against is a complete history. */
  lemma AcceptedIsFull(rd: Reader, values: set<Bytes>, log: seq<Commit>, c: Call)
    requires rd.Sound() && GoodLog(rd, values, log)
    requires CallBasics(rd, values, log, c) && c.phase.Walking?
    requires c.seen == ValueOf(LastCommit(log[..c.at], c.key))
    requires TaskOk(rd, c, c.phase.task) && Walked(rd, c.phase.task, c.phase.walk)
    requires forall i :: 0 <= i < |c.phase.walk.toSave| ==> c.phase.walk.toSave[i] in values
    requires c.phase.walk.current == c.phase.task.Target() && Conclude(c.phase.task, c.phase.walk).Ok?
    ensures c.phase.walk.toSave != []
    ensures FullHistory(rd, values, c.lp, c.phase.walk.toSave + HistoryOf(LastCommit(log[..c.at], c.key)))
  {
    var domain, package := c.lp.pointer.domain, c.lp.pointer.package;
    var saves, base := c.phase.walk.toSave, LastCommit(log[..c.at], c.key);
    SeenParses(rd, values, log, c);
    StretchNotEmpty(rd, c.phase.task, c.phase.walk);
    assert rd.record(saves[0]).value.version == c.lp.version;
    ChainConcat(rd, domain, package, c.lp.start, saves, c.phase.task.Target(), HistoryOf(base), ZERO_HASH);
  }

  lemma StretchNotEmpty(rd: Reader, task: Task, walk: Walk)
    requires Walked(rd, task, walk) && walk.current == task.Target() && Conclude(task, walk).Ok?
    requires task.lp.start != ZERO_HASH
    ensures walk.toSave != []
    ensures task.existing.Some? ==> Newer(VersionOf(rd, walk.toSave[|walk.toSave| - 1]), task.existing.value.version)
  {
  }

  /** Validating again after a lost race accepts a strictly shorter stretch of the same history. */
  lemma StretchShrinks(rd: Reader, values: set<Bytes>, c: Call, saves: seq<Bytes>, faced: seq<Bytes>)
    requires rd.Sound() && Collisionless(rd, values)
    requires c.wins > 0 && FullHistory(rd, values, c.lp, c.full) && Ahead(c, faced)
    requires FullHistory(rd, values, c.lp, saves + faced)
    ensures |saves| < c.reach
  {
    ChainUnique(rd, values, c.lp.pointer.domain, c.lp.pointer.package, c.lp.start, c.full, saves + faced);
  }

  lemma AcceptKeeps(rd: Reader, values: set<Bytes>, s: System, c: Call)
    requires rd.Sound() && Collisionless(rd, values) && SharedOk(rd, values, s.data, s.log)
    requires CallOk(rd, values, s.data, s.log, c) && c.phase.Walking?
    requires c.phase.walk.current == c.phase.task.Target()
    ensures CallOk(rd, values, s.data, s.log, AfterAccept(s.log, c))
    ensures Conclude(c.phase.task, c.phase.walk).Ok? && c.wins > 0 ==>
              AfterAccept(s.log, c).reach < c.reach
  {
    var end := Conclude(c.phase.task, c.phase.walk);
    if end.Ok? {
      AcceptedIsFull(rd, values, s.log, c);
      if c.wins > 0 {
        StretchShrinks(rd, values, c, end.value, HistoryOf(LastCommit(s.log[..c.at], c.key)));
      }
      SavingBegins(rd, values, s.data, s.log, c);
    } else {
      FinishedIsOk(rd, values, s.data, s.log, c, Some(end.error));
    }
  }

  lemma SavingBegins(rd: Reader, values: set<Bytes>, data: map<KademliaId, Bytes>, log: seq<Commit>, c: Call)
    requires GoodLog(rd, values, log) && CallOk(rd, values, data, log, c) && c.phase.Walking?
    requires c.phase.walk.toSave != [] && (c.wins > 0 ==> |c.phase.walk.toSave| < c.reach)
    requires FullHistory(rd, values, c.lp, c.phase.walk.toSave + HistoryOf(LastCommit(log[..c.at], c.key)))
    ensures var saves := c.phase.walk.toSave;
            CallOk(rd, values, data, log, c.(phase := Saving(saves, 0), wins := c.wins + 1, reach := |saves|,
                                             full := saves + HistoryOf(LastCommit(log[..c.at], c.key))))
  {
    SeenParses(rd, values, log, c);
  }

  lemma SavesAreValues(rd: Reader, values: set<Bytes>, log: seq<Commit>, c: Call)
    requires CallBasics(rd, values, log, c) && c.phase.Saving? && c.wins > 0
    requires c.full == c.phase.saves + HistoryOf(LastCommit(log[..c.at], c.key))
    ensures forall i :: 0 <= i < |c.phase.saves| ==> c.phase.saves[i] in values
  {
    forall i | 0 <= i < |c.phase.saves| ensures c.phase.saves[i] in values {
      assert c.full[i] == c.phase.saves[i];
    }
  }

  lemma PresentConcat(rd: Reader, data: map<KademliaId, Bytes>, a: seq<Bytes>, b: seq<Bytes>)
    requires Present(rd, data, a) && Present(rd, data, b)
    ensures Present(rd, data, a + b)
  {
  }

  lemma SavingKeeps(rd: Reader, values: set<Bytes>, s: System, c: Call)
    requires rd.Sound() && Collisionless(rd, values) && SharedOk(rd, values, s.data, s.log)
    requires CallOk(rd, values, s.data, s.log, c) && c.phase.Saving? && c.phase.next < |c.phase.saves|
    ensures var data' := SaveRecord(rd, s.data, c.phase.saves[c.phase.next]);
            CallOk(rd, values, data', s.log, c.(phase := Saving(c.phase.saves, c.phase.next + 1)))
  {
    var saves, n := c.phase.saves, c.phase.next;
    var data' := SaveRecord(rd, s.data, saves[n]);
    SavesAreValues(rd, values, s.log, c);
    SaveKeeps(rd, values, s.data, s.log, saves[n]);
    PresentGrows(rd, s.data, data', saves[..n]);
    PresentConcat(rd, data', saves[..n], [saves[n]]);
    assert saves[..n + 1] == saves[..n] + [saves[n]];
    SavingAdvances(rd, values, s.data, data', s.log, c);
  }

  lemma SavingAdvances(rd: Reader, values: set<Bytes>, data: map<KademliaId, Bytes>, data': map<KademliaId, Bytes>,
                       log: seq<Commit>, c: Call)
    requires CallOk(rd, values, data, log, c) && c.phase.Saving? && c.phase.next < |c.phase.saves|
    requires Present(rd, data', c.phase.saves[..c.phase.next + 1])
    ensures CallOk(rd, values, data', log, c.(phase := Saving(c.phase.saves, c.phase.next + 1)))
  {
  }

  /** A commit replaces exactly what the call saw, which is the last commit of its key. */
  lemma CommitReplacesLast(rd: Reader, values: set<Bytes>, s: System, c: Call)
    requires Collisionless(rd, values) && SharedOk(rd, values, s.data, s.log)
    requires CallBasics(rd, values, s.log, c) && c.seen == ValueOf(LastCommit(s.log[..c.at], c.key))
    ensures Lookup(s.data, c.key) == c.seen <==> LastCommit(s.log, c.key) == LastCommit(s.log[..c.at], c.key)
  {
    SnapshotSeesLastCommit(rd, values, s, c);
    LastCommitAdvances(rd, values, s.log, c.at, c.key);
  }

  lemma SuffixOfConcat(a: seq<Bytes>, b: seq<Bytes>)
    requires a != []
    ensures ProperSuffix(b, a + b)
  {
  }

  lemma CommitKeeps(rd: Reader, values: set<Bytes>, s: System, c: Call)
    requires rd.Sound() && Collisionless(rd, values) && SharedOk(rd, values, s.data, s.log)
    requires CallOk(rd, values, s.data, s.log, c) && c.phase.Saving? && c.phase.next == |c.phase.saves|
    requires Lookup(s.data, c.key) == c.seen
    ensures CommitOk(rd, values, s.log, Commit(c.key, c.seen, c.value, c.full)) && Present(rd, s.data, c.full)
  {
    var saves, base := c.phase.saves, LastCommit(s.log[..c.at], c.key);
    CommitReplacesLast(rd, values, s, c);
    assert saves[..c.phase.next] == saves;
    LastHistoryPresent(rd, s.data, s.log, c.key);
    PresentConcat(rd, s.data, saves, HistoryOf(base));
    SuffixOfConcat(saves, HistoryOf(base));
  }

  /** A lost race leaves the call facing a longer history than the one it validated against. */
  lemma RetryKeeps(rd: Reader, values: set<Bytes>, s: System, c: Call)
    requires Collisionless(rd, values) && SharedOk(rd, values, s.data, s.log)
    requires CallOk(rd, values, s.data, s.log, c) && c.phase.Saving?
    requires Lookup(s.data, c.key) != c.seen
    ensures CallOk(rd, values, s.data, s.log, c.(phase := Idle))
  {
    var base := LastCommit(s.log[..c.at], c.key);
    CommitReplacesLast(rd, values, s, c);
    LastCommitAdvances(rd, values, s.log, c.at, c.key);
    LastCommitOk(rd, values, s.log, c.key);
    assert |HistoryOf(LastCommit(s.log, c.key))| > |HistoryOf(base)|;
  }

  lemma {:induction false} LastHistoryPresent(rd: Reader, data: map<KademliaId, Bytes>, log: seq<Commit>, key: KademliaId)
    requires HistoriesPresent(rd, data, log)
    ensures Present(rd, data, HistoryOf(LastCommit(log, key)))
  {
    if log != [] && log[|log| - 1].key != key {
      var before := log[..|log| - 1];
      assert forall i :: 0 <= i < |before| ==> before[i] == log[i];
      LastHistoryPresent(rd, data, before, key);
    }
  }

  // ---------------------------------------------------------------- every action keeps the invariant

  lemma CommitDataOk(rd: Reader, values: set<Bytes>, data: map<KademliaId, Bytes>, log: seq<Commit>, c: Commit)
    requires DataOk(rd, values, data, log) && CommitOk(rd, values, log, c)
    ensures DataOk(rd, values, data[c.key := c.value], log + [c])
  {
    var longer := log + [c];
    assert longer[..|longer| - 1] == log;
    forall k ensures LastCommit(longer, k) == if k == c.key then Some(c) else LastCommit(log, k) {}
  }

  lemma CommitShared(rd: Reader, values: set<Bytes>, s: System, c: Call)
    requires rd.Sound() && Collisionless(rd, values) && SharedOk(rd, values, s.data, s.log)
    requires CallOk(rd, values, s.data, s.log, c) && c.phase.Saving? && c.phase.next == |c.phase.saves|
    requires Lookup(s.data, c.key) == c.seen
    ensures var data', log' := s.data[c.key := c.value], s.log + [Commit(c.key, c.seen, c.value, c.full)];
            SharedOk(rd, values, data', log') && Grows(rd, s.data, data')
  {
    var commit := Commit(c.key, c.seen, c.value, c.full);
    var data', log' := s.data[c.key := c.value], s.log + [commit];
    CommitKeeps(rd, values, s, c);
    CommitGrows(rd, values, s.data, s.log, c);
    CommitDataOk(rd, values, s.data, s.log, commit);
    HistoriesGrow(rd, s.data, data', s.log);
    PresentGrows(rd, s.data, data', c.full);
    assert log'[..|log'| - 1] == s.log;
  }

  lemma PutShared(rd: Reader, values: set<Bytes>, s: System, value: Bytes)
    requires Collisionless(rd, values) && SharedOk(rd, values, s.data, s.log) && value in values
    ensures var data' := s.data[rd.digest(value) := value];
            SharedOk(rd, values, data', s.log) && Grows(rd, s.data, data')
  {
    PutKeeps(rd, values, s.data, s.log, value);
    HistoriesGrow(rd, s.data, s.data[rd.digest(value) := value], s.log);
  }

  lemma SaveShared(rd: Reader, values: set<Bytes>, s: System, c: Call)
    requires rd.Sound() && Collisionless(rd, values) && SharedOk(rd, values, s.data, s.log)
    requires CallOk(rd, values, s.data, s.log, c) && c.phase.Saving? && c.phase.next < |c.phase.saves|
    ensures var data' := SaveRecord(rd, s.data, c.phase.saves[c.phase.next]);
            SharedOk(rd, values, data', s.log) && Grows(rd, s.data, data')
  {
    var record := c.phase.saves[c.phase.next];
    SavesAreValues(rd, values, s.log, c);
    SaveKeeps(rd, values, s.data, s.log, record);
    HistoriesGrow(rd, s.data, SaveRecord(rd, s.data, record), s.log);
  }

  lemma SharedStep(rd: Reader, values: set<Bytes>, s: System, a: Action)
    requires rd.Sound() && Collisionless(rd, values) && Inv(rd, values, s) && Enabled(rd, values, s, a)
    ensures var s' := Do(rd, values, s, a);
            SharedOk(rd, values, s'.data, s'.log) && Grows(rd, s.data, s'.data) && s.log <= s'.log
  {
    assert !a.PutBlob? && !a.Invoke? ==> CallOk(rd, values, s.data, s.log, s.calls[a.id]);
    SharedAfter(rd, values, s, a);
  }

  lemma SharedAfter(rd: Reader, values: set<Bytes>, s: System, a: Action)
    requires rd.Sound() && Collisionless(rd, values) && SharedOk(rd, values, s.data, s.log) && Enabled(rd, values, s, a)
    requires !a.PutBlob? && !a.Invoke? ==> CallOk(rd, values, s.data, s.log, s.calls[a.id])
    ensures var data', log' := DataAfter(rd, values, s, a), LogAfter(s, a);
            SharedOk(rd, values, data', log') && Grows(rd, s.data, data') && s.log <= log'
  {
    match a
    case PutBlob(value) => PutShared(rd, values, s, value);
    case Save(id) => SaveShared(rd, values, s, s.calls[id]);
    case TryCommit(id) => TryShared(rd, values, s, id);
    case _ => assert DataAfter(rd, values, s, a) == s.data && LogAfter(s, a) == s.log;
  }

  lemma TryShared(rd: Reader, values: set<Bytes>, s: System, id: nat)
    requires rd.Sound() && Collisionless(rd, values) && SharedOk(rd, values, s.data, s.log)
    requires Enabled(rd, values, s, TryCommit(id)) && CallOk(rd, values, s.data, s.log, s.calls[id])
    ensures var data', log' := DataAfter(rd, values, s, TryCommit(id)), LogAfter(s, TryCommit(id));
            SharedOk(rd, values, data', log') && Grows(rd, s.data, data') && s.log <= log'
  {
    if Lookup(s.data, s.calls[id].key) == s.calls[id].seen {
      CommitShared(rd, values, s, s.calls[id]);
    }
  }

  lemma ReadStep(rd: Reader, values: set<Bytes>, s: System, a: Action)
    requires rd.Sound() && Collisionless(rd, values) && SharedOk(rd, values, s.data, s.log)
    requires a.Snapshot? || a.Admit? || a.Fetch? || a.Accept?
    requires Enabled(rd, values, s, a) && CallOk(rd, values, s.data, s.log, s.calls[a.id])
    ensures CallOk(rd, values, s.data, s.log, CallAfter(rd, s, s.calls[a.id], a))
  {
    var c := s.calls[a.id];
    match a
    case Snapshot(id) => SnapshotKeeps(rd, values, s, c);
    case Admit(id, answer) => AdmitKeeps(rd, values, s, c, answer);
    case Fetch(id, fetched) => FetchKeeps(rd, values, s, c, fetched);
    case Accept(id) => AcceptKeeps(rd, values, s, c);
  }

  lemma WriteStep(rd: Reader, values: set<Bytes>, s: System, a: Action)
    requires rd.Sound() && Collisionless(rd, values) && SharedOk(rd, values, s.data, s.log)
    requires a.Save? || a.TryCommit?
    requires Enabled(rd, values, s, a) && CallOk(rd, values, s.data, s.log, s.calls[a.id])
    ensures CallOk(rd, values, DataAfter(rd, values, s, a), LogAfter(s, a), CallAfter(rd, s, s.calls[a.id], a))
  {
    var c := s.calls[a.id];
    if a.Save? {
      SavingKeeps(rd, values, s, c);
    } else if Lookup(s.data, c.key) == c.seen {
      CommittedIsOk(rd, values, s, c);
    } else {
      RetryKeeps(rd, values, s, c);
    }
  }

  lemma ActorStep(rd: Reader, values: set<Bytes>, s: System, a: Action)
    requires rd.Sound() && Collisionless(rd, values) && SharedOk(rd, values, s.data, s.log)
    requires Enabled(rd, values, s, a) && !a.PutBlob? && !a.Invoke?
    requires CallOk(rd, values, s.data, s.log, s.calls[a.id])
    ensures CallOk(rd, values, DataAfter(rd, values, s, a), LogAfter(s, a), CallAfter(rd, s, s.calls[a.id], a))
  {
    if a.Save? || a.TryCommit? {
      WriteStep(rd, values, s, a);
    } else {
      ReadStep(rd, values, s, a);
    }
  }

  lemma CommittedIsOk(rd: Reader, values: set<Bytes>, s: System, c: Call)
    requires CallOk(rd, values, s.data, s.log, c)
    ensures CallOk(rd, values, s.data[c.key := c.value], s.log + [Commit(c.key, c.seen, c.value, c.full)],
                   c.(phase := Finished(None)))
  {
  }

  lemma StepKeepsInv(rd: Reader, values: set<Bytes>, s: System, a: Action)
    requires rd.Sound() && Collisionless(rd, values) && Inv(rd, values, s) && Enabled(rd, values, s, a)
    ensures Inv(rd, values, Do(rd, values, s, a))
  {
    var s' := Do(rd, values, s, a);
    SharedStep(rd, values, s, a);
    if !a.PutBlob? && !a.Invoke? {
      ActorStep(rd, values, s, a);
    }
    forall id | id in s'.calls ensures CallOk(rd, values, s'.data, s'.log, s'.calls[id]) {
      if a.PutBlob? || id != a.id {
        assert id in s.calls && s'.calls[id] == s.calls[id];
        BystanderKept(rd, values, s.data, s'.data, s.log, s'.log, s.calls[id]);
      }
    }
  }

  lemma {:induction false} RunKeepsInv(rd: Reader, values: set<Bytes>, run: seq<System>, actions: seq<Action>, i: nat)
    requires rd.Sound() && Collisionless(rd, values) && IsRun(rd, values, run, actions) && i < |run|
    ensures Inv(rd, values, run[i])
  {
    if i > 0 {
      RunKeepsInv(rd, values, run, actions, i - 1);
      assert Follows(rd, values, run, actions, i - 1);
      StepKeepsInv(rd, values, run[i - 1], actions[i - 1]);
    }
  }
}
