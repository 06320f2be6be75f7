/**
 * What holds over all runs of the validated store (kademlia/datastore.go:150-236): closure,
 * no fork and no rollback, termination of the retry loop, all-or-nothing saving, and reading
 * a history back.
 */
module StoreRuns {
  import opened Common
  import opened Text
  import opened Versions
  import opened Records
  import opened KademliaIds
  import opened Validator
  import opened ChainWalk
  import opened StoreProtocol

  // ---------------------------------------------------------------- the theorems on runs

  /** The closure of the local store at one key. */
  ghost predicate ClosedAt(rd: Reader, values: set<Bytes>, data: map<KademliaId, Bytes>, key: KademliaId)
    requires key in data
  {
    rd.digest(data[key]) == key ||
    (rd.pointer(data[key]).Some? && rd.pointer(data[key]).value.key == key &&
     exists history :: FullHistory(rd, values, rd.pointer(data[key]).value, history) && Present(rd, data, history))
  }

  /**
   * In every state of every run, each entry is stored under its own digest or is a
   * pointer at its key whose complete record history is present locally.
   */
  lemma StoreIsClosed(rd: Reader, values: set<Bytes>, run: seq<System>, actions: seq<Action>, i: nat, key: KademliaId)
    requires rd.Sound() && Collisionless(rd, values) && IsRun(rd, values, run, actions) && i < |run|
    requires key in run[i].data
    ensures ClosedAt(rd, values, run[i].data, key)
  {
    RunKeepsInv(rd, values, run, actions, i);
    LastCommitOk(rd, values, run[i].log, key);
    LastHistoryPresent(rd, run[i].data, run[i].log, key);
    var last := LastCommit(run[i].log, key);
    if last.Some? {
      assert Lookup(run[i].data, key) == ValueOf(last);
      assert FullHistory(rd, values, rd.pointer(run[i].data[key]).value, last.value.history);
    }
  }

  lemma {:induction false} LogGrows(rd: Reader, values: set<Bytes>, run: seq<System>, actions: seq<Action>, i: nat, j: nat)
    requires rd.Sound() && Collisionless(rd, values) && IsRun(rd, values, run, actions) && i <= j < |run|
    ensures run[i].log <= run[j].log
    decreases j - i
  {
    if i < j {
      LogGrows(rd, values, run, actions, i, j - 1);
      RunKeepsInv(rd, values, run, actions, j - 1);
      assert Follows(rd, values, run, actions, j - 1);
      SharedStep(rd, values, run[j - 1], actions[j - 1]);
    }
  }

  /** One pointer key holds `was` and later `now`: the same bytes, or a strictly newer head of the same history. */
  ghost predicate Advanced(rd: Reader, values: set<Bytes>, was: Bytes, now: Bytes) {
    was == now ||
    (rd.pointer(was).Some? && rd.pointer(now).Some? &&
     Newer(rd.pointer(now).value.version, rd.pointer(was).value.version) &&
     exists older, newer :: FullHistory(rd, values, rd.pointer(was).value, older) &&
                            FullHistory(rd, values, rd.pointer(now).value, newer) && ProperSuffix(older, newer))
  }

  /**
   * No rollback and no fork: whatever calls interleave, a pointer key that holds a value
   * keeps holding one, and any later value is the same or has a strictly newer version
   * and a history that ends in the earlier pointer's complete history.
   */
  lemma HeadsOnlyAdvance(rd: Reader, values: set<Bytes>, run: seq<System>, actions: seq<Action>, i: nat, j: nat, p: Bytes)
    requires rd.Sound() && Collisionless(rd, values) && IsRun(rd, values, run, actions) && i <= j < |run|
    requires p in values && rd.pointer(p).Some?
    ensures var key := rd.pointer(p).value.key;
            key in run[i].data ==>
              key in run[j].data && Advanced(rd, values, run[i].data[key], run[j].data[key])
  {
    var key := rd.pointer(p).value.key;
    if key in run[i].data {
      RunKeepsInv(rd, values, run, actions, i);
      RunKeepsInv(rd, values, run, actions, j);
      LogGrows(rd, values, run, actions, i, j);
      var was, now := LastCommit(run[i].log, key), LastCommit(run[j].log, key);
      assert run[j].log[..|run[i].log|] == run[i].log;
      LastCommitAdvances(rd, values, run[j].log, |run[i].log|, key);
      LastCommitOk(rd, values, run[i].log, key);
      LastCommitOk(rd, values, run[j].log, key);
      assert was.Some? && Lookup(run[i].data, key) == ValueOf(was) && Lookup(run[j].data, key) == ValueOf(now);
      if was != now {
        assert ProperSuffix(was.value.history, now.value.history);
      }
    }
  }

  /** A commit takes effect only on the very bytes it was validated against. */
  lemma CommitReplacesValidated(rd: Reader, values: set<Bytes>, run: seq<System>, actions: seq<Action>, i: nat)
    requires rd.Sound() && Collisionless(rd, values) && IsRun(rd, values, run, actions) && i < |actions|
    requires actions[i].TryCommit? && Follows(rd, values, run, actions, i) && run[i + 1].data != run[i].data
    ensures var c := run[i].calls[actions[i].id];
            && Lookup(run[i].data, c.key) == c.seen
            && run[i + 1].data == run[i].data[c.key := c.value]
            && FullHistory(rd, values, c.lp, c.full) && Present(rd, run[i + 1].data, c.full)
            && (c.seen.Some? ==> rd.pointer(c.seen.value).Some? &&
                                 Newer(c.lp.version, rd.pointer(c.seen.value).value.version))
  {
    var c := run[i].calls[actions[i].id];
    RunKeepsInv(rd, values, run, actions, i);
    assert Follows(rd, values, run, actions, i);
    CommitKeeps(rd, values, run[i], c);
    CommitGrows(rd, values, run[i].data, run[i].log, c);
    PresentGrows(rd, run[i].data, run[i + 1].data, c.full);
  }

  // ---------------------------------------------------------------- termination of the retry loop

  /** Validations a call can still win: any number up to the depth limit, then fewer than the last stretch. */
  function Left(c: Call): nat {
    if c.wins == 0 then DEFAULT_MAX_CHAIN_DEPTH + 1 else c.reach
  }

  /** A bound on the actions the call can still take, whatever the other calls do. */
  function Rank(c: Call): int {
    match c.phase
    case Idle => 4000 * Left(c)
    case Snapped => 4000 * Left(c) - 1
    case Walking(task, walk) => 4000 * Left(c) - 2 - |walk.visited|
    case Saving(saves, next) => 4000 * Left(c) + 1 + |saves| - next
    case Finished(_) => 0
  }

  /** Every action of a call lowers its rank; a validation succeeds at most 1000 times. */
  lemma OwnActionLowersRank(rd: Reader, values: set<Bytes>, s: System, a: Action)
    requires rd.Sound() && Collisionless(rd, values) && SharedOk(rd, values, s.data, s.log)
    requires Enabled(rd, values, s, a) && !a.PutBlob? && !a.Invoke?
    requires CallOk(rd, values, s.data, s.log, s.calls[a.id])
    ensures var c' := CallAfter(rd, s, s.calls[a.id], a);
            0 <= Rank(c') < Rank(s.calls[a.id]) && c'.wins <= DEFAULT_MAX_CHAIN_DEPTH
  {
    var c := s.calls[a.id];
    var c' := CallAfter(rd, s, c, a);
    ActorStep(rd, values, s, a);
    RankBounds(rd, values, s.data, s.log, c);
    RankBounds(rd, values, DataAfter(rd, values, s, a), LogAfter(s, a), c');
    if a.Fetch? {
      FetchLowersRank(rd, c, a.fetched);
    } else if a.Accept? {
      AcceptShape(rd, values, s, c);
      AcceptLowersRank(c, c');
    } else {
      OtherActionsLowerRank(rd, s, c, a);
    }
  }

  lemma OtherActionsLowerRank(rd: Reader, s: System, c: Call, a: Action)
    requires match a
             case Snapshot(_) => c.phase.Idle?
             case Admit(_, _) => c.phase.Snapped?
             case Save(_) => c.phase.Saving?
             case TryCommit(_) => c.phase.Saving? && c.phase.next <= |c.phase.saves|
             case _ => false
    requires Rank(c) > 0
    ensures Rank(CallAfter(rd, s, c, a)) < Rank(c)
  {
  }

  lemma AcceptShape(rd: Reader, values: set<Bytes>, s: System, c: Call)
    requires rd.Sound() && Collisionless(rd, values) && SharedOk(rd, values, s.data, s.log)
    requires CallOk(rd, values, s.data, s.log, c) && c.phase.Walking?
    requires c.phase.walk.current == c.phase.task.Target()
    ensures var c' := AfterAccept(s.log, c);
            c'.phase.Finished? ||
            (c'.phase.Saving? && c'.wins > 0 && c'.phase.next == 0 &&
             c'.reach == |c'.phase.saves| <= DEFAULT_MAX_CHAIN_DEPTH && c'.reach < Left(c))
  {
    AcceptKeeps(rd, values, s, c);
  }

  lemma FetchLowersRank(rd: Reader, c: Call, fetched: Option<Bytes>)
    requires c.phase.Walking? && Rank(c) > 0
    ensures Rank(AfterFetch(rd, c, fetched)) < Rank(c)
  {
  }

  lemma AcceptLowersRank(c: Call, c': Call)
    requires c.phase.Walking? && |c.phase.walk.visited| <= DEFAULT_MAX_CHAIN_DEPTH && Rank(c) > 0
    requires c'.phase.Finished? || (c'.phase.Saving? && c'.wins > 0 && c'.phase.next == 0)
    requires c'.phase.Saving? ==> c'.reach == |c'.phase.saves| <= DEFAULT_MAX_CHAIN_DEPTH && c'.reach < Left(c)
    ensures Rank(c') < Rank(c)
  {
  }

  lemma RankBounds(rd: Reader, values: set<Bytes>, data: map<KademliaId, Bytes>, log: seq<Commit>, c: Call)
    requires CallOk(rd, values, data, log, c)
    ensures c.wins <= DEFAULT_MAX_CHAIN_DEPTH && 1 <= Left(c) <= DEFAULT_MAX_CHAIN_DEPTH + 1
    ensures 0 <= Rank(c) && (!c.phase.Finished? ==> Rank(c) > 0)
    ensures c.phase.Walking? ==> |c.phase.walk.visited| <= DEFAULT_MAX_CHAIN_DEPTH
    ensures c.phase.Saving? ==> Left(c) == |c.phase.saves| <= DEFAULT_MAX_CHAIN_DEPTH
  {
  }

  /** A step starts the call at the full rank, lowers its rank, or belongs to somebody else. */
  lemma RankAfterStep(rd: Reader, values: set<Bytes>, s: System, a: Action, id: nat)
    requires rd.Sound() && Collisionless(rd, values) && Inv(rd, values, s) && Enabled(rd, values, s, a)
    ensures var s' := Do(rd, values, s, a);
            if a.PutBlob? || a.id != id then (id in s'.calls <==> id in s.calls) && (id in s.calls ==> s'.calls[id] == s.calls[id])
            else if id !in s.calls then id in s'.calls && Rank(s'.calls[id]) == 4000 * (DEFAULT_MAX_CHAIN_DEPTH + 1)
            else id in s'.calls && Rank(s'.calls[id]) < Rank(s.calls[id])
  {
    if !a.PutBlob? && !a.Invoke? && a.id == id {
      OwnActionLowersRank(rd, values, s, a);
    }
  }

  /** How many of the actions were taken by the call. */
  function ActionsOf(actions: seq<Action>, id: nat): nat {
    if actions == [] then 0
    else
      var a := actions[|actions| - 1];
      ActionsOf(actions[..|actions| - 1], id) + if !a.PutBlob? && a.id == id then 1 else 0
  }

  /**
   * The retry loop terminates: in every run each call takes a bounded number of actions
   * and validates successfully at most 1000 times, whatever the other calls do.
   */
  lemma {:induction false} CallsTerminate(rd: Reader, values: set<Bytes>, run: seq<System>, actions: seq<Action>, i: nat, id: nat)
    requires rd.Sound() && Collisionless(rd, values) && IsRun(rd, values, run, actions) && i < |run|
    ensures if id in run[i].calls
            then ActionsOf(actions[..i], id) + Rank(run[i].calls[id]) <= 4000 * (DEFAULT_MAX_CHAIN_DEPTH + 1) + 1 &&
                 0 <= Rank(run[i].calls[id]) && run[i].calls[id].wins <= DEFAULT_MAX_CHAIN_DEPTH
            else ActionsOf(actions[..i], id) == 0
  {
    RunKeepsInv(rd, values, run, actions, i);
    if id in run[i].calls {
      RankBounds(rd, values, run[i].data, run[i].log, run[i].calls[id]);
    }
    if i > 0 {
      CallsTerminate(rd, values, run, actions, i - 1, id);
      assert actions[..i][..i - 1] == actions[..i - 1];
      RunKeepsInv(rd, values, run, actions, i - 1);
      assert Follows(rd, values, run, actions, i - 1);
      RankAfterStep(rd, values, run[i - 1], actions[i - 1], id);
    }
  }

  /** No call gets stuck: in every state of every run, one that is not finished has an action of its own to take. */
  lemma CallsCanAct(rd: Reader, values: set<Bytes>, run: seq<System>, actions: seq<Action>, i: nat, id: nat) returns (a: Action)
    requires rd.Sound() && Collisionless(rd, values) && IsRun(rd, values, run, actions) && i < |run|
    requires id in run[i].calls && !run[i].calls[id].phase.Finished?
    ensures Enabled(rd, values, run[i], a) && !a.PutBlob? && !a.Invoke? && a.id == id
  {
    RunKeepsInv(rd, values, run, actions, i);
    var s := run[i];
    match s.calls[id].phase
    case Idle => a := Snapshot(id);
    case Snapped => a := Admit(id, NoResolver);
    case Walking(task, walk) =>
      var id' := rd.locate(walk.current);
      a := if walk.current == task.Target() then Accept(id)
           else Fetch(id, if id'.Some? && id'.value in s.data then Some(s.data[id'.value]) else None);
    case Saving(saves, next) =>
      assert CallOk(rd, values, s.data, s.log, s.calls[id]);
      a := if next < |saves| then Save(id) else TryCommit(id);
  }

  // ---------------------------------------------------------------- all-or-nothing saving

  /** Only blob puts and calls that have won a validation write to the map. */
  lemma OnlyWinnersWrite(rd: Reader, values: set<Bytes>, s: System, a: Action)
    requires Inv(rd, values, s) && Enabled(rd, values, s, a)
    requires Do(rd, values, s, a).data != s.data
    ensures a.PutBlob? || (a.id in s.calls && s.calls[a.id].wins > 0)
  {
  }

  lemma {:induction false} WinsGrow(rd: Reader, values: set<Bytes>, run: seq<System>, actions: seq<Action>, i: nat, j: nat, id: nat)
    requires IsRun(rd, values, run, actions) && i <= j < |run| && id in run[i].calls
    ensures id in run[j].calls && run[i].calls[id].wins <= run[j].calls[id].wins
    decreases j - i
  {
    if i < j {
      WinsGrow(rd, values, run, actions, i, j - 1, id);
      assert Follows(rd, values, run, actions, j - 1);
    }
  }

  /** A call that failed on its first attempt has left the map as it was at each of its actions. */
  lemma FirstFailureWritesNothing(rd: Reader, values: set<Bytes>, run: seq<System>, actions: seq<Action>, i: nat, j: nat)
    requires rd.Sound() && Collisionless(rd, values) && IsRun(rd, values, run, actions) && i < j < |run|
    requires !actions[i].PutBlob? && actions[i].id in run[j].calls && run[j].calls[actions[i].id].wins == 0
    ensures run[i + 1].data == run[i].data
  {
    RunKeepsInv(rd, values, run, actions, i);
    assert Follows(rd, values, run, actions, i);
    if run[i + 1].data != run[i].data {
      OnlyWinnersWrite(rd, values, run[i], actions[i]);
      WinsGrow(rd, values, run, actions, i, j, actions[i].id);
    }
  }

  // ---------------------------------------------------------------- reading the history back

  /** The local store as a record getter. */
  function LocalGetter(rd: Reader, data: map<KademliaId, Bytes>): string -> Option<Bytes> {
    (hash: string) =>
      match rd.locate(hash)
      case None => None
      case Some(id) => Lookup(data, id)
  }

  /**
   * Walking the local store from any stored pointer's head returns exactly its history,
   * newest record first, up to 1000 records; a longer one yields its first 1000 and an error.
   */
  lemma WalkReadsHistory(rd: Reader, values: set<Bytes>, run: seq<System>, actions: seq<Action>, i: nat, key: KademliaId)
    returns (history: seq<Bytes>)
    requires rd.Sound() && Collisionless(rd, values) && IsRun(rd, values, run, actions) && i < |run|
    requires key in run[i].data && rd.digest(run[i].data[key]) != key
    ensures rd.pointer(run[i].data[key]).Some?
    ensures var lp := rd.pointer(run[i].data[key]).value;
            FullHistory(rd, values, lp, history) &&
            IsTrailOf(rd, history, DEFAULT_MAX_CHAIN_DEPTH,
                      Collect(rd, LocalGetter(rd, run[i].data), lp.start, {}, DEFAULT_MAX_CHAIN_DEPTH))
  {
    StoreIsClosed(rd, values, run, actions, i, key);
    var data := run[i].data;
    var lp := rd.pointer(data[key]).value;
    history :| FullHistory(rd, values, lp, history) && Present(rd, data, history);
    CollectHistory(rd, LocalGetter(rd, data), lp.pointer.domain, lp.pointer.package, lp.start, history, {}, DEFAULT_MAX_CHAIN_DEPTH);
  }

  // ---------------------------------------------------------------- why key strings are excluded

  /** A blob put leaves the entry at a key alone exactly when it does not hash to that key or repeats it. */
  lemma BlobKeepsEntryIff(rd: Reader, values: set<Bytes>, s: System, value: Bytes, key: KademliaId)
    requires value in values && key in s.data
    ensures var s' := Do(rd, values, s, PutBlob(value));
            key in s'.data && (s'.data[key] == s.data[key] <==> rd.digest(value) != key || value == s.data[key])
  {
  }

  /**
   * Without the hypothesis the heads need not advance: putting the key string of a stored
   * pointer as a blob erases that pointer.
   */
  lemma KeyStringErasesPointer(lib: Library, values: set<Bytes>, s: System, domain: string, package: string, key: KademliaId)
    requires key == lib.digest(PointerKeyString(domain, package)) && PointerKeyString(domain, package) in values
    requires ReaderOf(lib).pointer(PointerKeyString(domain, package)).None?
    requires key in s.data && ReaderOf(lib).pointer(s.data[key]).Some?
    ensures var s' := Do(ReaderOf(lib), values, s, PutBlob(PointerKeyString(domain, package)));
            key in s'.data && !Advanced(ReaderOf(lib), values, s.data[key], s'.data[key])
  {
    BlobKeepsEntryIff(ReaderOf(lib), values, s, PointerKeyString(domain, package), key);
  }
}
