/**
 * Who vouches for what the store holds. The chain validation checks every record of a
 * stretch under the key that the DNS resolver names for the pointer's domain, at that moment
 * (registry/validator.go:77-83 and 158-160). Over a whole run of `StoreProtocol` the keys may
 * change from validation to validation; `StoredHistoryIsSigned` says what remains true.
 */
module Provenance {
  import opened Common
  import opened Text
  import opened Records
  import opened KademliaIds
  import opened Validator
  import opened StoreProtocol

  /** The resolver named this key as the owner of the domain. */
  datatype Grant = Grant(domain: string, key: PublicKey)

  function GrantsOf(s: System, a: Action): set<Grant> {
    if a.Admit? && a.id in s.calls && a.answer.Owner? then {Grant(s.calls[a.id].lp.pointer.domain, a.answer.key)} else {}
  }

  /** The answers of the resolver in the first `i` actions of a run. */
  ghost function Owners(run: seq<System>, actions: seq<Action>, i: nat): set<Grant>
    requires |run| == |actions| + 1 && i <= |actions|
  {
    if i == 0 then {} else Owners(run, actions, i - 1) + GrantsOf(run[i - 1], actions[i - 1])
  }

  ghost predicate Vouched(rd: Reader, owners: set<Grant>, domain: string, data: Bytes) {
    exists key :: Grant(domain, key) in owners && SignedBy(rd, key, data)
  }

  ghost predicate AllVouched(rd: Reader, owners: set<Grant>, domain: string, history: seq<Bytes>) {
    forall i :: 0 <= i < |history| ==> Vouched(rd, owners, domain, history[i])
  }

  ghost predicate PointerVouched(rd: Reader, owners: set<Grant>, lp: LatestPointer) {
    exists key :: Grant(lp.domain, key) in owners && rd.pointerSignedBy(key, lp)
  }

  /** The pointer and all records of its history were signed by keys named for its domain. */
  ghost predicate Backed(rd: Reader, owners: set<Grant>, lp: LatestPointer, history: seq<Bytes>) {
    PointerVouched(rd, owners, lp) && AllVouched(rd, owners, lp.domain, history)
  }

  ghost predicate CommitBacked(rd: Reader, owners: set<Grant>, c: Commit) {
    rd.pointer(c.value).Some? && Backed(rd, owners, rd.pointer(c.value).value.pointer, c.history)
  }

  ghost predicate LogBacked(rd: Reader, owners: set<Grant>, log: seq<Commit>) {
    forall i :: 0 <= i < |log| ==> CommitBacked(rd, owners, log[i])
  }

  ghost predicate CallBacked(rd: Reader, owners: set<Grant>, c: Call) {
    && (c.phase.Walking? ==>
          && Grant(c.lp.pointer.domain, c.phase.task.owner) in owners
          && rd.pointerSignedBy(c.phase.task.owner, c.lp.pointer))
    && (c.wins > 0 ==> Backed(rd, owners, c.lp.pointer, c.full))
  }

  ghost predicate SystemBacked(rd: Reader, owners: set<Grant>, s: System) {
    LogBacked(rd, owners, s.log) && forall id :: id in s.calls ==> CallBacked(rd, owners, s.calls[id])
  }

  lemma CallBackedGrows(rd: Reader, owners: set<Grant>, more: set<Grant>, c: Call)
    requires owners <= more && CallBacked(rd, owners, c)
    ensures CallBacked(rd, more, c)
  {
  }

  lemma LogBackedGrows(rd: Reader, owners: set<Grant>, more: set<Grant>, log: seq<Commit>)
    requires owners <= more && LogBacked(rd, owners, log)
    ensures LogBacked(rd, more, log)
  {
    forall i | 0 <= i < |log| ensures CommitBacked(rd, more, log[i]) {
      assert CommitBacked(rd, owners, log[i]);
    }
  }

  // ---------------------------------------------------------------- what each action keeps

  lemma {:induction false} LastCommitBacked(rd: Reader, owners: set<Grant>, log: seq<Commit>, key: KademliaId)
    requires LogBacked(rd, owners, log)
    ensures LastCommit(log, key).Some? ==> CommitBacked(rd, owners, LastCommit(log, key).value)
    decreases |log|
  {
    if log != [] {
      var before := log[..|log| - 1];
      assert forall i :: 0 <= i < |before| ==> before[i] == log[i];
      assert CommitBacked(rd, owners, log[|log| - 1]);
      LastCommitBacked(rd, owners, before, key);
    }
  }

  lemma AdmitBacked(rd: Reader, owners: set<Grant>, s: System, id: nat, answer: Resolution)
    requires id in s.calls && CallBacked(rd, owners, s.calls[id]) && s.calls[id].phase.Snapped?
    ensures CallBacked(rd, owners + GrantsOf(s, Admit(id, answer)), AfterAdmit(rd, s.calls[id], answer))
  {
    var c, more := s.calls[id], owners + GrantsOf(s, Admit(id, answer));
    PrecheckIffAdmissible(rd, Some(c.lp), Existing(rd, c.seen), answer);
    CallBackedGrows(rd, owners, more, c);
  }

  /** What the accepted stretch stands on: the history of the last commit at the snapshot, if there was one. */
  lemma BelowIsVouched(rd: Reader, values: set<Bytes>, owners: set<Grant>, data: map<KademliaId, Bytes>, log: seq<Commit>, c: Call)
    requires CallOk(rd, values, data, log, c) && c.phase.Walking? && LogBacked(rd, owners, log)
    ensures AllVouched(rd, owners, c.lp.pointer.domain, HistoryOf(LastCommit(log[..c.at], c.key)))
  {
    assert LogBacked(rd, owners, log[..c.at]);
    LastCommitBacked(rd, owners, log[..c.at], c.key);
  }

  lemma AcceptBacked(rd: Reader, values: set<Bytes>, owners: set<Grant>, s: System, c: Call)
    requires CallOk(rd, values, s.data, s.log, c) && c.phase.Walking?
    requires CallBacked(rd, owners, c) && LogBacked(rd, owners, s.log)
    ensures CallBacked(rd, owners, AfterAccept(s.log, c))
  {
    if Conclude(c.phase.task, c.phase.walk).Ok? {
      var below := HistoryOf(LastCommit(s.log[..c.at], c.key));
      BelowIsVouched(rd, values, owners, s.data, s.log, c);
      assert PointerVouched(rd, owners, c.lp.pointer);
    }
  }

  lemma ActorBacked(rd: Reader, values: set<Bytes>, owners: set<Grant>, s: System, a: Action)
    requires Enabled(rd, values, s, a) && !a.PutBlob? && !a.Invoke?
    requires CallOk(rd, values, s.data, s.log, s.calls[a.id])
    requires CallBacked(rd, owners, s.calls[a.id]) && LogBacked(rd, owners, s.log)
    ensures CallBacked(rd, owners + GrantsOf(s, a), CallAfter(rd, s, s.calls[a.id], a))
  {
    var c := s.calls[a.id];
    if a.Admit? {
      AdmitBacked(rd, owners, s, a.id, a.answer);
    } else {
      assert owners + GrantsOf(s, a) == owners;
      if a.Accept? {
        AcceptBacked(rd, values, owners, s, c);
      }
    }
  }

  lemma LogAfterBacked(rd: Reader, values: set<Bytes>, owners: set<Grant>, s: System, a: Action)
    requires Enabled(rd, values, s, a) && LogBacked(rd, owners, s.log)
    requires a.TryCommit? ==> CallOk(rd, values, s.data, s.log, s.calls[a.id]) && CallBacked(rd, owners, s.calls[a.id])
    ensures LogBacked(rd, owners, LogAfter(s, a))
  {
    if a.TryCommit? {
      var c := s.calls[a.id];
      assert CommitBacked(rd, owners, Commit(c.key, c.seen, c.value, c.full));
    }
  }

  lemma StepKeepsBacked(rd: Reader, values: set<Bytes>, owners: set<Grant>, s: System, a: Action)
    requires Inv(rd, values, s) && Enabled(rd, values, s, a) && SystemBacked(rd, owners, s)
    ensures SystemBacked(rd, owners + GrantsOf(s, a), Do(rd, values, s, a))
  {
    var more, s' := owners + GrantsOf(s, a), Do(rd, values, s, a);
    LogAfterBacked(rd, values, owners, s, a);
    LogBackedGrows(rd, owners, more, s'.log);
    if !a.PutBlob? && !a.Invoke? {
      ActorBacked(rd, values, owners, s, a);
    }
    forall id | id in s'.calls ensures CallBacked(rd, more, s'.calls[id]) {
      if a.PutBlob? || id != a.id {
        assert id in s.calls && s'.calls[id] == s.calls[id];
        CallBackedGrows(rd, owners, more, s.calls[id]);
      }
    }
  }

  // ---------------------------------------------------------------- the theorems on runs

  lemma {:induction false} RunKeepsBacked(rd: Reader, values: set<Bytes>, run: seq<System>, actions: seq<Action>, i: nat)
    requires rd.Sound() && Collisionless(rd, values) && IsRun(rd, values, run, actions) && i < |run|
    ensures SystemBacked(rd, Owners(run, actions, i), run[i])
  {
    if i > 0 {
      RunKeepsBacked(rd, values, run, actions, i - 1);
      RunKeepsInv(rd, values, run, actions, i - 1);
      assert Follows(rd, values, run, actions, i - 1);
      StepKeepsBacked(rd, values, Owners(run, actions, i - 1), run[i - 1], actions[i - 1]);
    }
  }

  /** Every grant is an answer the resolver gave, about that domain, to some earlier validation of the run. */
  lemma {:induction false} GrantsWereGiven(run: seq<System>, actions: seq<Action>, i: nat, g: Grant) returns (j: nat)
    requires |run| == |actions| + 1 && i <= |actions| && g in Owners(run, actions, i)
    ensures j < i && actions[j].Admit? && actions[j].answer == Owner(g.key)
    ensures actions[j].id in run[j].calls && run[j].calls[actions[j].id].lp.pointer.domain == g.domain
  {
    if g in GrantsOf(run[i - 1], actions[i - 1]) {
      j := i - 1;
    } else {
      j := GrantsWereGiven(run, actions, i - 1, g);
    }
  }

  /**
   * In every state of every run, a stored pointer and every record of its complete history
   * carry a signature by a key that the resolver named for the pointer's domain to some
   * validation of the run.
   */
  lemma StoredHistoryIsSigned(rd: Reader, values: set<Bytes>, run: seq<System>, actions: seq<Action>, i: nat, key: KademliaId)
    returns (history: seq<Bytes>)
    requires rd.Sound() && Collisionless(rd, values) && IsRun(rd, values, run, actions) && i < |run|
    requires key in run[i].data && rd.digest(run[i].data[key]) != key
    ensures rd.pointer(run[i].data[key]).Some?
    ensures var lp := rd.pointer(run[i].data[key]).value;
            && FullHistory(rd, values, lp, history) && Present(rd, run[i].data, history)
            && Backed(rd, Owners(run, actions, i), lp.pointer, history)
  {
    var s := run[i];
    RunKeepsInv(rd, values, run, actions, i);
    RunKeepsBacked(rd, values, run, actions, i);
    LastCommitOk(rd, values, s.log, key);
    LastHistoryPresent(rd, s.data, s.log, key);
    LastCommitBacked(rd, Owners(run, actions, i), s.log, key);
    assert Lookup(s.data, key) == ValueOf(LastCommit(s.log, key));
    history := LastCommit(s.log, key).value.history;
  }
}
