/**
 * Validation of a latest pointer against its version chain (registry/validator.go).
 *
 * `Visit` is one round of the walk from the pointer's head record towards the record
 * of the pointer currently stored, `Validation` the whole check as a function, and
 * `ValidateChain` the loop of the source. `Acceptable` says declaratively what is
 * accepted; `ValidationIffAcceptable` proves the two agree.
 */
module Validator {
  import opened Common
  import opened Text
  import opened Versions
  import opened Records
  import opened KademliaIds
  import opened Publication

  const DEFAULT_MAX_CHAIN_DEPTH := 1000

  datatype Error =
    | InvalidLatestPointer | NoDNSResolver | Unauthorized | ExistingPointerInvalid
    | DomainMismatch | VersionRollback | HistoryFork | InvalidHistoryChain
    | MissingVersionRecord | CorruptRecord

  /** What asking the DNS resolver for the owner of the pointer's domain gives. */
  datatype Resolution = NoResolver | LookupFailed | Owner(key: PublicKey)

  // ---------------------------------------------------------------- records of a chain

  function VersionOf(rd: Reader, data: Bytes): Version {
    match rd.record(data)
    case Some(e) => e.version
    case None => NO_VERSION
  }

  function PredecessorOf(rd: Reader, data: Bytes): string {
    match rd.record(data)
    case Some(e) => e.previous
    case None => ZERO_HASH
  }

  /** A non-empty record of the given package. */
  predicate Belongs(rd: Reader, domain: string, package: string, data: Bytes) {
    data != "" && rd.record(data).Some? &&
    rd.record(data).value.record.domain == domain && rd.record(data).value.record.package == package
  }

  predicate SignedBy(rd: Reader, owner: PublicKey, data: Bytes) {
    rd.record(data).Some? && rd.recordSignedBy(owner, rd.record(data).value.record)
  }

  /**
   * `chain` is a stretch of one package's history, newest record first: it is entered by
   * the hash `from`, every record refers to the next one, the last refers to `to`,
   * versions strictly decrease, and no record sits at the reserved zero hash.
   */
  ghost predicate Chain(rd: Reader, domain: string, package: string, from: string, chain: seq<Bytes>, to: string)
    decreases |chain|
  {
    if chain == [] then from == to
    else
      && rd.hash(chain[0]) == from != ZERO_HASH
      && Belongs(rd, domain, package, chain[0])
      && (|chain| > 1 ==> Newer(VersionOf(rd, chain[0]), VersionOf(rd, chain[1])))
      && Chain(rd, domain, package, PredecessorOf(rd, chain[0]), chain[1..], to)
  }

  ghost predicate AllSigned(rd: Reader, owner: PublicKey, chain: seq<Bytes>) {
    forall i :: 0 <= i < |chain| ==> SignedBy(rd, owner, chain[i])
  }

  ghost predicate Avoids(rd: Reader, chain: seq<Bytes>, hash: string) {
    forall i :: 0 <= i < |chain| ==> rd.hash(chain[i]) != hash
  }

  ghost predicate HeadMatches(rd: Reader, versionText: string, chain: seq<Bytes>) {
    chain != [] ==> rd.record(chain[0]).Some? && rd.record(chain[0]).value.record.version == versionText
  }

  ghost function Hashes(rd: Reader, chain: seq<Bytes>): set<string> {
    set i | 0 <= i < |chain| :: rd.hash(chain[i])
  }

  // ---------------------------------------------------------------- the check as a function

  /**
   * The checks before the walk; yields the owner's key. A pointer argument is the
   * result of `HeadOf`, so `None` is a malformed pointer; the outer option of
   * `existing` says whether a pointer is stored at all.
   */
  function Precheck(rd: Reader, lp: Option<Head>, existing: Option<Option<Head>>, answer: Resolution)
    : Result<PublicKey, Error>
  {
    if lp.None? || lp.value.start == ZERO_HASH then Err(InvalidLatestPointer)
    else if answer.NoResolver? then Err(NoDNSResolver)
    else if answer.LookupFailed? || !rd.pointerSignedBy(answer.key, lp.value.pointer) then Err(Unauthorized)
    else if existing.None? then Ok(answer.key)
    else if existing.value.None? then Err(ExistingPointerInvalid)
    else
      var was := existing.value.value;
      if was.start == ZERO_HASH then Err(InvalidLatestPointer)
      else if was.pointer.domain != lp.value.pointer.domain || was.pointer.package != lp.value.pointer.package
      then Err(DomainMismatch)
      else if Compare(lp.value.version, was.version) <= 0 then Err(VersionRollback)
      else if lp.value.folded == was.folded then Err(HistoryFork)
      else Ok(answer.key)
  }

  /** A walk that passed `Precheck`: where it starts and stops and what every record must satisfy. */
  datatype Task = Task(lp: Head, existing: Option<Head>, owner: PublicKey, depth: nat) {
    function Target(): string {
      if existing.Some? then existing.value.start else ZERO_HASH
    }
  }

  datatype Walk = Walk(current: string, visited: set<string>, last: Version, toSave: seq<Bytes>)

  function Begin(task: Task): Walk {
    Walk(task.lp.start, {}, NO_VERSION, [])
  }

  /** The record checks inside the loop. */
  function CheckRecord(rd: Reader, task: Task, hash: string, fetched: Option<Bytes>): Result<Entry, Error> {
    if fetched.None? || fetched.value == "" then Err(MissingVersionRecord)
    else if rd.hash(fetched.value) != hash then Err(CorruptRecord)
    else match rd.record(fetched.value)
      case None => Err(CorruptRecord)
      case Some(e) =>
        if e.record.domain != task.lp.pointer.domain || e.record.package != task.lp.pointer.package then Err(DomainMismatch)
        else if !rd.recordSignedBy(task.owner, e.record) then Err(Unauthorized)
        else Ok(e)
  }

  /** One loop round at a hash that is not the target, given what the getter returned. */
  function Visit(rd: Reader, task: Task, walk: Walk, fetched: Option<Bytes>): Result<Walk, Error> {
    if walk.current == ZERO_HASH then Err(HistoryFork)
    else if walk.current in walk.visited || |walk.visited| + 1 > task.depth then Err(InvalidHistoryChain)
    else match CheckRecord(rd, task, walk.current, fetched)
      case Err(e) => Err(e)
      case Ok(e) =>
        if walk.toSave == [] && e.record.version != task.lp.pointer.version then Err(InvalidHistoryChain)
        else if walk.toSave != [] && Compare(walk.last, e.version) <= 0 then Err(InvalidHistoryChain)
        else Ok(Walk(e.previous, walk.visited + {walk.current}, e.version, walk.toSave + [fetched.value]))
  }

  function WalkDown(rd: Reader, task: Task, walk: Walk, getter: string -> Option<Bytes>): Result<Walk, Error>
    decreases if |walk.visited| <= task.depth then task.depth - |walk.visited| + 1 else 0
  {
    if walk.current == task.Target() then Ok(walk)
    else match Visit(rd, task, walk, getter(walk.current))
      case Err(e) => Err(e)
      case Ok(next) => WalkDown(rd, task, next, getter)
  }

  /** The check after the walk; yields the records to save, newest first. */
  function Conclude(task: Task, walk: Walk): Result<seq<Bytes>, Error> {
    if task.existing.Some? && Compare(walk.last, task.existing.value.version) <= 0
    then Err(InvalidHistoryChain)
    else Ok(walk.toSave)
  }

  function Depth(maxDepth: int): (depth: nat)
    ensures depth > 0
  {
    if maxDepth <= 0 then DEFAULT_MAX_CHAIN_DEPTH else maxDepth
  }

  function TaskOf(lp: Option<Head>, existing: Option<Option<Head>>, owner: PublicKey, depth: nat): Task
    requires lp.Some?
  {
    Task(lp.value, if existing.Some? then existing.value else None, owner, depth)
  }

  function Validation(rd: Reader, lp: Option<Head>, existing: Option<Option<Head>>, answer: Resolution,
                      getter: string -> Option<Bytes>, maxDepth: int): Result<seq<Bytes>, Error>
  {
    match Precheck(rd, lp, existing, answer)
    case Err(e) => Err(e)
    case Ok(owner) =>
      var task := TaskOf(lp, existing, owner, Depth(maxDepth));
      match WalkDown(rd, task, Begin(task), getter)
      case Err(e) => Err(e)
      case Ok(walk) => Conclude(task, walk)
  }

  // ---------------------------------------------------------------- what a walk has established

  /** Everything a walk in progress guarantees, whatever the getter answered on the way. */
  ghost predicate Walked(rd: Reader, task: Task, walk: Walk) {
    var chain := walk.toSave;
    && Chain(rd, task.lp.pointer.domain, task.lp.pointer.package, task.lp.start, chain, walk.current)
    && AllSigned(rd, task.owner, chain)
    && HeadMatches(rd, task.lp.pointer.version, chain)
    && Avoids(rd, chain, task.Target())
    && |chain| == |walk.visited| <= task.depth
    && walk.visited == Hashes(rd, chain)
    && walk.last == if chain == [] then NO_VERSION else VersionOf(rd, chain[|chain| - 1])
  }

  lemma BeginWalked(rd: Reader, task: Task)
    ensures Walked(rd, task, Begin(task))
  {
  }

  lemma {:induction false} ChainConcat(rd: Reader, domain: string, package: string, from: string,
                                       upper: seq<Bytes>, mid: string, lower: seq<Bytes>, to: string)
    requires Chain(rd, domain, package, from, upper, mid) && Chain(rd, domain, package, mid, lower, to)
    requires upper != [] && lower != [] ==> Newer(VersionOf(rd, upper[|upper| - 1]), VersionOf(rd, lower[0]))
    ensures Chain(rd, domain, package, from, upper + lower, to)
    decreases |upper|
  {
    if upper == [] {
      assert upper + lower == lower;
    } else {
      ChainConcat(rd, domain, package, PredecessorOf(rd, upper[0]), upper[1..], mid, lower, to);
      assert (upper + lower)[1..] == upper[1..] + lower;
    }
  }

  lemma ChainSnoc(rd: Reader, domain: string, package: string, from: string, chain: seq<Bytes>, data: Bytes)
    requires Chain(rd, domain, package, from, chain, rd.hash(data))
    requires rd.hash(data) != ZERO_HASH && Belongs(rd, domain, package, data)
    requires chain != [] ==> Newer(VersionOf(rd, chain[|chain| - 1]), VersionOf(rd, data))
    ensures Chain(rd, domain, package, from, chain + [data], PredecessorOf(rd, data))
  {
    assert Chain(rd, domain, package, PredecessorOf(rd, data), [data][1..], PredecessorOf(rd, data));
    ChainConcat(rd, domain, package, from, chain, rd.hash(data), [data], PredecessorOf(rd, data));
  }

  lemma HashesSnoc(rd: Reader, chain: seq<Bytes>, data: Bytes)
    ensures Hashes(rd, chain + [data]) == Hashes(rd, chain) + {rd.hash(data)}
  {
    var longer := chain + [data];
    forall h | h in Hashes(rd, chain) + {rd.hash(data)} ensures h in Hashes(rd, longer) {
      if h == rd.hash(data) {
        assert longer[|chain|] == data;
      } else {
        var i :| 0 <= i < |chain| && h == rd.hash(chain[i]);
        assert longer[i] == chain[i];
      }
    }
  }

  lemma RulesSnoc(rd: Reader, task: Task, chain: seq<Bytes>, data: Bytes)
    requires AllSigned(rd, task.owner, chain) && Avoids(rd, chain, task.Target())
    requires HeadMatches(rd, task.lp.pointer.version, if chain == [] then [data] else chain)
    requires SignedBy(rd, task.owner, data) && rd.hash(data) != task.Target()
    ensures AllSigned(rd, task.owner, chain + [data]) && Avoids(rd, chain + [data], task.Target())
    ensures HeadMatches(rd, task.lp.pointer.version, chain + [data])
  {
  }

  /** A successful round keeps all of it and adds exactly the fetched record. */
  lemma VisitExtends(rd: Reader, task: Task, walk: Walk, fetched: Option<Bytes>)
    requires Walked(rd, task, walk) && walk.current != task.Target()
    requires Visit(rd, task, walk, fetched).Ok?
    ensures var next := Visit(rd, task, walk, fetched).value;
            fetched.Some? && next.toSave == walk.toSave + [fetched.value] &&
            rd.hash(fetched.value) == walk.current && Walked(rd, task, next)
  {
    ChainSnoc(rd, task.lp.pointer.domain, task.lp.pointer.package, task.lp.start, walk.toSave, fetched.value);
    HashesSnoc(rd, walk.toSave, fetched.value);
    RulesSnoc(rd, task, walk.toSave, fetched.value);
  }

  // ---------------------------------------------------------------- what is accepted, declaratively

  /** `chain` leads from the pointer to its target, `getter` supplies it, and it passes every rule. */
  ghost predicate ValidStretch(rd: Reader, task: Task, getter: string -> Option<Bytes>, chain: seq<Bytes>) {
    && 1 <= |chain| <= task.depth
    && Chain(rd, task.lp.pointer.domain, task.lp.pointer.package, task.lp.start, chain, task.Target())
    && Avoids(rd, chain, task.Target())
    && (forall i :: 0 <= i < |chain| ==> getter(rd.hash(chain[i])) == Some(chain[i]))
    && AllSigned(rd, task.owner, chain)
    && HeadMatches(rd, task.lp.pointer.version, chain)
    && (task.existing.Some? ==> Newer(VersionOf(rd, chain[|chain| - 1]), task.existing.value.version))
  }

  /** The pointer is well formed, owner-signed, newer than a stored one of the same package, and elsewhere. */
  ghost predicate Admissible(rd: Reader, lp: Option<Head>, existing: Option<Option<Head>>, answer: Resolution) {
    && lp.Some? && lp.value.start != ZERO_HASH
    && answer.Owner? && rd.pointerSignedBy(answer.key, lp.value.pointer)
    && (existing.Some? ==>
          && existing.value.Some?
          && var was := existing.value.value;
          && was.start != ZERO_HASH
          && was.pointer.domain == lp.value.pointer.domain && was.pointer.package == lp.value.pointer.package
          && Newer(lp.value.version, was.version)
          && lp.value.folded != was.folded)
  }

  ghost predicate Acceptable(rd: Reader, lp: Option<Head>, existing: Option<Option<Head>>, answer: Resolution,
                             getter: string -> Option<Bytes>, maxDepth: int) {
    && Admissible(rd, lp, existing, answer)
    && exists chain :: ValidStretch(rd, TaskOf(lp, existing, answer.key, Depth(maxDepth)), getter, chain)
  }

  lemma PrecheckIffAdmissible(rd: Reader, lp: Option<Head>, existing: Option<Option<Head>>, answer: Resolution)
    ensures Precheck(rd, lp, existing, answer).Ok? <==> Admissible(rd, lp, existing, answer)
    ensures Precheck(rd, lp, existing, answer).Ok? ==> Precheck(rd, lp, existing, answer) == Ok(answer.key)
  {
  }

  // Versions strictly decrease along a chain, not only between neighbours.
  lemma {:induction false} ChainDecreases(rd: Reader, domain: string, package: string, from: string,
                                          chain: seq<Bytes>, to: string, i: nat, j: nat)
    requires Chain(rd, domain, package, from, chain, to) && i < j < |chain|
    ensures Newer(VersionOf(rd, chain[i]), VersionOf(rd, chain[j]))
    decreases |chain|
  {
    if i > 0 {
      ChainDecreases(rd, domain, package, PredecessorOf(rd, chain[0]), chain[1..], to, i - 1, j - 1);
    } else if j > 1 {
      ChainDecreases(rd, domain, package, PredecessorOf(rd, chain[0]), chain[1..], to, 0, j - 1);
      NewerTransitive(VersionOf(rd, chain[0]), VersionOf(rd, chain[1]), VersionOf(rd, chain[j]));
    }
  }

  // The part of a chain below position i is a chain entered by the hash at i.
  lemma {:induction false} ChainAt(rd: Reader, domain: string, package: string, from: string,
                                   chain: seq<Bytes>, to: string, i: nat)
    requires Chain(rd, domain, package, from, chain, to) && i < |chain|
    ensures Belongs(rd, domain, package, chain[i]) && rd.hash(chain[i]) != ZERO_HASH
    ensures i > 0 ==> rd.hash(chain[i]) == PredecessorOf(rd, chain[i - 1])
    ensures i == 0 ==> rd.hash(chain[i]) == from
    ensures Chain(rd, domain, package, PredecessorOf(rd, chain[i]), chain[i + 1..], to)
    decreases |chain|
  {
    if i > 0 {
      ChainAt(rd, domain, package, PredecessorOf(rd, chain[0]), chain[1..], to, i - 1);
      assert chain[1..][i..] == chain[i + 1..];
    }
  }

  /** The walk only accepts valid stretches. */
  lemma {:induction false} WalkDownSound(rd: Reader, task: Task, walk: Walk, getter: string -> Option<Bytes>)
    requires Walked(rd, task, walk)
    requires forall i :: 0 <= i < |walk.toSave| ==> getter(rd.hash(walk.toSave[i])) == Some(walk.toSave[i])
    requires WalkDown(rd, task, walk, getter).Ok?
    ensures var end := WalkDown(rd, task, walk, getter).value;
            end.current == task.Target() && Walked(rd, task, end) &&
            forall i :: 0 <= i < |end.toSave| ==> getter(rd.hash(end.toSave[i])) == Some(end.toSave[i])
    decreases task.depth - |walk.visited|
  {
    if walk.current != task.Target() {
      var fetched := getter(walk.current);
      VisitExtends(rd, task, walk, fetched);
      WalkDownSound(rd, task, Visit(rd, task, walk, fetched).value, getter);
    }
  }

  lemma NextRoundPasses(rd: Reader, task: Task, walk: Walk, getter: string -> Option<Bytes>, chain: seq<Bytes>)
    requires ValidStretch(rd, task, getter, chain)
    requires Walked(rd, task, walk) && walk.toSave <= chain && |walk.toSave| < |chain|
    requires walk.current == rd.hash(chain[|walk.toSave|])
    ensures walk.current != task.Target() && getter(walk.current) == Some(chain[|walk.toSave|])
    ensures Visit(rd, task, walk, Some(chain[|walk.toSave|])).Ok?
  {
    var domain, package, n := task.lp.pointer.domain, task.lp.pointer.package, |walk.toSave|;
    ChainAt(rd, domain, package, task.lp.start, chain, task.Target(), n);
    CycleFree(rd, task, walk, getter, chain);
    if n > 0 {
      ChainDecreases(rd, domain, package, task.lp.start, chain, task.Target(), n - 1, n);
      assert walk.toSave[n - 1] == chain[n - 1];
    }
    assert SignedBy(rd, task.owner, chain[n]);
  }

  lemma PrefixSnoc(s: seq<Bytes>, t: seq<Bytes>)
    requires s <= t && |s| < |t|
    ensures s + [t[|s|]] <= t
  {
  }

  lemma NextRound(rd: Reader, task: Task, walk: Walk, getter: string -> Option<Bytes>, chain: seq<Bytes>)
    returns (next: Walk)
    requires ValidStretch(rd, task, getter, chain)
    requires Walked(rd, task, walk) && walk.toSave <= chain && |walk.toSave| < |chain|
    ensures walk.current != task.Target()
    ensures Visit(rd, task, walk, getter(walk.current)) == Ok(next)
    ensures Walked(rd, task, next) && next.toSave <= chain && |next.toSave| == |walk.toSave| + 1
  {
    var n := |walk.toSave|;
    WalkPosition(rd, task, walk, chain);
    NextRoundPasses(rd, task, walk, getter, chain);
    next := Visit(rd, task, walk, Some(chain[n])).value;
    VisitExtends(rd, task, walk, Some(chain[n]));
    PrefixSnoc(walk.toSave, chain);
  }

  /** A walk along a valid stretch is never rejected, in particular not by the cycle check. */
  lemma {:induction false} WalkDownComplete(rd: Reader, task: Task, walk: Walk, getter: string -> Option<Bytes>,
                                            chain: seq<Bytes>)
    requires ValidStretch(rd, task, getter, chain)
    requires Walked(rd, task, walk) && walk.toSave <= chain
    ensures WalkDown(rd, task, walk, getter).Ok?
    ensures WalkDown(rd, task, walk, getter).value.toSave == chain
    decreases |chain| - |walk.toSave|
  {
    if |walk.toSave| < |chain| {
      var next := NextRound(rd, task, walk, getter, chain);
      WalkDownComplete(rd, task, next, getter, chain);
    } else {
      WalkPosition(rd, task, walk, chain);
    }
  }

  // A walk that has collected a prefix of the stretch stands at the next record's hash.
  lemma WalkPosition(rd: Reader, task: Task, walk: Walk, chain: seq<Bytes>)
    requires Chain(rd, task.lp.pointer.domain, task.lp.pointer.package, task.lp.start, chain, task.Target())
    requires Walked(rd, task, walk) && walk.toSave <= chain
    ensures walk.current == if |walk.toSave| < |chain| then rd.hash(chain[|walk.toSave|]) else task.Target()
    ensures |walk.toSave| == |chain| ==> walk.toSave == chain
  {
    var domain, package, n := task.lp.pointer.domain, task.lp.pointer.package, |walk.toSave|;
    if n > 0 {
      ChainAt(rd, domain, package, task.lp.start, walk.toSave, walk.current, n - 1);
      ChainAt(rd, domain, package, task.lp.start, chain, task.Target(), n - 1);
      assert walk.toSave[n - 1] == chain[n - 1];
    }
    if n < |chain| {
      ChainAt(rd, domain, package, task.lp.start, chain, task.Target(), n);
    }
  }

  // Two records at the same hash would be the same record, yet have different versions.
  lemma CycleFree(rd: Reader, task: Task, walk: Walk, getter: string -> Option<Bytes>, chain: seq<Bytes>)
    requires ValidStretch(rd, task, getter, chain)
    requires walk.toSave <= chain && |walk.toSave| < |chain| && walk.visited == Hashes(rd, walk.toSave)
    requires walk.current == rd.hash(chain[|walk.toSave|])
    ensures walk.current !in walk.visited
  {
    var n := |walk.toSave|;
    if walk.current in walk.visited {
      var i :| 0 <= i < n && walk.current == rd.hash(walk.toSave[i]);
      assert walk.toSave[i] == chain[i];
      assert getter(rd.hash(chain[i])) == Some(chain[i]) && getter(rd.hash(chain[n])) == Some(chain[n]);
      ChainDecreases(rd, task.lp.pointer.domain, task.lp.pointer.package, task.lp.start, chain, task.Target(), i, n);
    }
  }

  /** Acceptance is exactly the declarative rule, and what is handed to the saver is the stretch. */
  lemma ValidationIffAcceptable(rd: Reader, lp: Option<Head>, existing: Option<Option<Head>>, answer: Resolution,
                                getter: string -> Option<Bytes>, maxDepth: int)
    ensures Validation(rd, lp, existing, answer, getter, maxDepth).Ok? <==>
            Acceptable(rd, lp, existing, answer, getter, maxDepth)
    ensures Acceptable(rd, lp, existing, answer, getter, maxDepth) ==>
            forall chain :: ValidStretch(rd, TaskOf(lp, existing, answer.key, Depth(maxDepth)), getter, chain) <==>
                            Validation(rd, lp, existing, answer, getter, maxDepth) == Ok(chain)
  {
    PrecheckIffAdmissible(rd, lp, existing, answer);
    if Admissible(rd, lp, existing, answer) {
      var task := TaskOf(lp, existing, answer.key, Depth(maxDepth));
      forall chain { WalkAcceptsExactly(rd, task, getter, chain); }
      var end := WalkDown(rd, task, Begin(task), getter);
      if end.Ok? && Conclude(task, end.value).Ok? {
        assert ValidStretch(rd, task, getter, end.value.toSave);
      }
    }
  }

  /** The walk and the check after it accept exactly the valid stretches. */
  lemma WalkAcceptsExactly(rd: Reader, task: Task, getter: string -> Option<Bytes>, chain: seq<Bytes>)
    requires task.lp.start != ZERO_HASH
    ensures var end := WalkDown(rd, task, Begin(task), getter);
            ValidStretch(rd, task, getter, chain) <==> end.Ok? && Conclude(task, end.value) == Ok(chain)
  {
    var end := WalkDown(rd, task, Begin(task), getter);
    BeginWalked(rd, task);
    if end.Ok? {
      WalkDownSound(rd, task, Begin(task), getter);
      if Conclude(task, end.value).Ok? {
        ConclusionIsValid(rd, task, end.value, getter);
      }
    }
    if ValidStretch(rd, task, getter, chain) {
      WalkDownComplete(rd, task, Begin(task), getter, chain);
    }
  }

  // An empty stretch never passes: 0.0.0, the version before any record, is newer than no stored version.
  lemma ConclusionIsValid(rd: Reader, task: Task, walk: Walk, getter: string -> Option<Bytes>)
    requires Walked(rd, task, walk) && walk.current == task.Target() && Conclude(task, walk).Ok?
    requires task.lp.start != ZERO_HASH
    requires forall i :: 0 <= i < |walk.toSave| ==> getter(rd.hash(walk.toSave[i])) == Some(walk.toSave[i])
    ensures ValidStretch(rd, task, getter, walk.toSave)
  {
    if walk.toSave == [] {
      assert false;
    }
  }

  // ---------------------------------------------------------------- why a pointer is rejected

  /** The fault of the pointers themselves that an error before the walk reports. */
  ghost predicate PointerFault(rd: Reader, lp: Option<Head>, existing: Option<Option<Head>>, answer: Resolution, e: Error) {
    var both := lp.Some? && existing.Some? && existing.value.Some?;
    match e
    case InvalidLatestPointer => lp.None? || lp.value.start == ZERO_HASH || (both && existing.value.value.start == ZERO_HASH)
    case NoDNSResolver => answer.NoResolver?
    case Unauthorized => answer.LookupFailed? || (answer.Owner? && lp.Some? && !rd.pointerSignedBy(answer.key, lp.value.pointer))
    case ExistingPointerInvalid => existing == Some(None)
    case DomainMismatch =>
      both && (existing.value.value.pointer.domain != lp.value.pointer.domain || existing.value.value.pointer.package != lp.value.pointer.package)
    case VersionRollback => both && !Newer(lp.value.version, existing.value.value.version)
    case HistoryFork => both && lp.value.folded == existing.value.value.folded
    case _ => false
  }

  /** The fault of the chain that an error of the walk reports, at the place where the walk stands. */
  ghost predicate ChainFault(rd: Reader, task: Task, walk: Walk, fetched: Option<Bytes>, e: Error) {
    var chain := walk.toSave;
    var entry := if fetched.Some? then rd.record(fetched.value) else None;
    match e
    case HistoryFork => walk.current == ZERO_HASH && task.Target() != ZERO_HASH
    case MissingVersionRecord => fetched.None? || fetched.value == ""
    case CorruptRecord => fetched.Some? && (rd.hash(fetched.value) != walk.current || entry.None?)
    case DomainMismatch =>
      entry.Some? && (entry.value.record.domain != task.lp.pointer.domain || entry.value.record.package != task.lp.pointer.package)
    case Unauthorized => entry.Some? && !rd.recordSignedBy(task.owner, entry.value.record)
    case InvalidHistoryChain =>
      || walk.current in Hashes(rd, chain) || |chain| == task.depth
      || (entry.Some? && chain == [] && entry.value.record.version != task.lp.pointer.version)
      || (entry.Some? && chain != [] && !Newer(VersionOf(rd, chain[|chain| - 1]), entry.value.version))
    case _ => false
  }

  /** Where a failing walk stops: after a correct part of the chain, at a fault that its error names. */
  lemma {:induction false} WalkDownFails(rd: Reader, task: Task, walk: Walk, getter: string -> Option<Bytes>) returns (end: Walk)
    requires Walked(rd, task, walk) && WalkDown(rd, task, walk, getter).Err?
    ensures Walked(rd, task, end) && walk.toSave <= end.toSave && end.current != task.Target()
    ensures ChainFault(rd, task, end, getter(end.current), WalkDown(rd, task, walk, getter).error)
    decreases task.depth - |walk.visited|
  {
    var fetched := getter(walk.current);
    if Visit(rd, task, walk, fetched).Err? {
      end := walk;
    } else {
      VisitExtends(rd, task, walk, fetched);
      end := WalkDownFails(rd, task, Visit(rd, task, walk, fetched).value, getter);
    }
  }

  /**
   * Every rejection has its cause: a fault of the pointers, a fault of the chain at the place
   * a correct walk has reached, or a chain that leads to the stored head without a record
   * newer than it.
   */
  lemma RejectionHasCause(rd: Reader, lp: Option<Head>, existing: Option<Option<Head>>, answer: Resolution,
                          getter: string -> Option<Bytes>, maxDepth: int) returns (end: Walk)
    requires Validation(rd, lp, existing, answer, getter, maxDepth).Err?
    ensures var e := Validation(rd, lp, existing, answer, getter, maxDepth).error;
            if !Admissible(rd, lp, existing, answer) then PointerFault(rd, lp, existing, answer, e)
            else
              var task := TaskOf(lp, existing, answer.key, Depth(maxDepth));
              && Walked(rd, task, end)
              && if end.current != task.Target() then ChainFault(rd, task, end, getter(end.current), e)
                 else e == InvalidHistoryChain && task.existing.Some? &&
                      (end.toSave == [] || !Newer(VersionOf(rd, end.toSave[|end.toSave| - 1]), task.existing.value.version))
  {
    end := Walk("", {}, NO_VERSION, []);
    PrecheckIffAdmissible(rd, lp, existing, answer);
    if Admissible(rd, lp, existing, answer) {
      var task := TaskOf(lp, existing, answer.key, Depth(maxDepth));
      BeginWalked(rd, task);
      if WalkDown(rd, task, Begin(task), getter).Err? {
        end := WalkDownFails(rd, task, Begin(task), getter);
      } else {
        WalkDownWalked(rd, task, Begin(task), getter);
        end := WalkDown(rd, task, Begin(task), getter).value;
      }
    }
  }

  lemma {:induction false} WalkDownWalked(rd: Reader, task: Task, walk: Walk, getter: string -> Option<Bytes>)
    requires Walked(rd, task, walk) && WalkDown(rd, task, walk, getter).Ok?
    ensures var end := WalkDown(rd, task, walk, getter).value;
            Walked(rd, task, end) && end.current == task.Target()
    decreases task.depth - |walk.visited|
  {
    if walk.current != task.Target() {
      VisitExtends(rd, task, walk, getter(walk.current));
      WalkDownWalked(rd, task, Visit(rd, task, walk, getter(walk.current)).value, getter);
    }
  }

  // ---------------------------------------------------------------- chains, record by record

  /** Record `i` belongs to the package and refers to the next record, or to `to`. */
  ghost predicate ChainLink(rd: Reader, domain: string, package: string, chain: seq<Bytes>, to: string, i: nat)
    requires i < |chain|
  {
    && Belongs(rd, domain, package, chain[i]) && rd.hash(chain[i]) != ZERO_HASH
    && PredecessorOf(rd, chain[i]) == (if i + 1 < |chain| then rd.hash(chain[i + 1]) else to)
    && (i + 1 < |chain| ==> Newer(VersionOf(rd, chain[i]), VersionOf(rd, chain[i + 1])))
  }

  lemma {:induction false} ChainHasLinks(rd: Reader, domain: string, package: string, from: string, chain: seq<Bytes>, to: string, i: nat)
    requires Chain(rd, domain, package, from, chain, to) && i < |chain|
    ensures ChainLink(rd, domain, package, chain, to, i) && rd.hash(chain[0]) == from
  {
    ChainAt(rd, domain, package, from, chain, to, i);
    if i + 1 < |chain| {
      ChainDecreases(rd, domain, package, from, chain, to, i, i + 1);
      ChainAt(rd, domain, package, from, chain, to, i + 1);
    } else {
      assert chain[i + 1..] == [];
    }
  }

  lemma {:induction false} LinksMakeChain(rd: Reader, domain: string, package: string, chain: seq<Bytes>, to: string)
    requires chain != [] && forall i :: 0 <= i < |chain| ==> ChainLink(rd, domain, package, chain, to, i)
    ensures Chain(rd, domain, package, rd.hash(chain[0]), chain, to)
    decreases |chain|
  {
    assert ChainLink(rd, domain, package, chain, to, 0);
    if |chain| > 1 {
      var rest := chain[1..];
      forall i | 0 <= i < |rest| ensures ChainLink(rd, domain, package, rest, to, i) {
        assert ChainLink(rd, domain, package, chain, to, i + 1);
      }
      LinksMakeChain(rd, domain, package, rest, to);
    } else {
      assert chain[1..] == [];
    }
  }

  // ---------------------------------------------------------------- validation of raw pointers

  /** The validation of the raw pointers, as the source calls it. */
  function ValidationOf(lib: Library, lp: LatestPointer, existing: Option<LatestPointer>, answer: Resolution,
                        getter: string -> Option<Bytes>, maxDepth: int): Result<seq<Bytes>, Error>
  {
    Validation(ReaderOf(lib), HeadOf(lib, lp), ExistingHead(lib, existing), answer, getter, maxDepth)
  }

  lemma AdmissibleMeans(lib: Library, lp: LatestPointer, existing: Option<LatestPointer>, answer: Resolution)
    ensures Admissible(ReaderOf(lib), HeadOf(lib, lp), ExistingHead(lib, existing), answer) <==>
            answer.Owner? && MayReplace(lib, answer.key, lp, existing)
  {
    HeadMeans(lib, lp);
    if existing.Some? {
      HeadMeans(lib, existing.value);
    }
  }

  /** The walk for the raw pointers. */
  ghost predicate TaskFor(task: Task, key: PublicKey, lp: LatestPointer, existing: Option<LatestPointer>, depth: nat) {
    && task.owner == key && task.depth == depth && ReadsHead(task.lp, lp)
    && (task.existing.Some? <==> existing.Some?) && (existing.Some? ==> ReadsHead(task.existing.value, existing.value))
  }

  /** Record `i` as the walk sees it. */
  ghost predicate IsSignedLink(rd: Reader, key: PublicKey, lp: LatestPointer, end: string, chain: seq<Bytes>, i: nat)
    requires i < |chain|
  {
    ChainLink(rd, lp.domain, lp.package, chain, end, i) && SignedBy(rd, key, chain[i]) && rd.hash(chain[i]) != end
  }

  lemma BelongsMeans(rd: Reader, lib: Library, key: PublicKey, lp: LatestPointer, data: Bytes)
    requires ReadsAs(rd, lib, data)
    ensures Belongs(rd, lp.domain, lp.package, data) && SignedBy(rd, key, data) <==> IsRecordOf(lib, key, lp, data)
    ensures rd.record(data).Some? ==> VersionOf(rd, data) == VersionIn(lib, data) && RefersTo(lib, data, PredecessorOf(rd, data))
  {
  }

  lemma LinkMeans(rd: Reader, lib: Library, key: PublicKey, lp: LatestPointer, end: string, chain: seq<Bytes>, i: nat)
    requires i < |chain| && ReadsAs(rd, lib, chain[i])
    requires i + 1 < |chain| ==> ReadsAs(rd, lib, chain[i + 1]) && rd.record(chain[i + 1]).Some?
    ensures IsSignedLink(rd, key, lp, end, chain, i) <==> IsLink(lib, key, lp, end, chain, i)
  {
    BelongsMeans(rd, lib, key, lp, chain[i]);
    if i + 1 < |chain| {
      BelongsMeans(rd, lib, key, lp, chain[i + 1]);
    }
  }

  lemma LinksMean(rd: Reader, lib: Library, key: PublicKey, lp: LatestPointer, end: string, chain: seq<Bytes>)
    requires forall i :: 0 <= i < |chain| ==> ReadsAs(rd, lib, chain[i])
    ensures (forall i :: 0 <= i < |chain| ==> IsSignedLink(rd, key, lp, end, chain, i)) <==>
            (forall i :: 0 <= i < |chain| ==> IsLink(lib, key, lp, end, chain, i))
  {
    if forall i :: 0 <= i < |chain| ==> IsSignedLink(rd, key, lp, end, chain, i) {
      forall i | 0 <= i < |chain| ensures IsLink(lib, key, lp, end, chain, i) {
        assert i + 1 < |chain| ==> IsSignedLink(rd, key, lp, end, chain, i + 1);
        LinkMeans(rd, lib, key, lp, end, chain, i);
      }
    }
    if forall i :: 0 <= i < |chain| ==> IsLink(lib, key, lp, end, chain, i) {
      forall i | 0 <= i < |chain| ensures IsSignedLink(rd, key, lp, end, chain, i) {
        if i + 1 < |chain| {
          assert IsLink(lib, key, lp, end, chain, i + 1);
          BelongsMeans(rd, lib, key, lp, chain[i + 1]);
        }
        LinkMeans(rd, lib, key, lp, end, chain, i);
      }
    }
  }

  lemma StretchIffLinks(rd: Reader, task: Task, getter: string -> Option<Bytes>, chain: seq<Bytes>)
    ensures ValidStretch(rd, task, getter, chain) <==>
            && 1 <= |chain| <= task.depth && rd.hash(chain[0]) == task.lp.start
            && (forall i :: 0 <= i < |chain| ==> IsSignedLink(rd, task.owner, task.lp.pointer, task.Target(), chain, i))
            && (forall i :: 0 <= i < |chain| ==> getter(rd.hash(chain[i])) == Some(chain[i]))
            && HeadMatches(rd, task.lp.pointer.version, chain)
            && (task.existing.Some? ==> Newer(VersionOf(rd, chain[|chain| - 1]), task.existing.value.version))
  {
    var domain, package, end := task.lp.pointer.domain, task.lp.pointer.package, task.Target();
    if ValidStretch(rd, task, getter, chain) {
      forall i | 0 <= i < |chain| ensures IsSignedLink(rd, task.owner, task.lp.pointer, end, chain, i) {
        ChainHasLinks(rd, domain, package, task.lp.start, chain, end, i);
        assert SignedBy(rd, task.owner, chain[i]) && rd.hash(chain[i]) != end;
      }
    }
    if chain != [] && forall i :: 0 <= i < |chain| ==> IsSignedLink(rd, task.owner, task.lp.pointer, end, chain, i) {
      forall i | 0 <= i < |chain|
        ensures ChainLink(rd, domain, package, chain, end, i) && SignedBy(rd, task.owner, chain[i]) && rd.hash(chain[i]) != end
      {
        assert IsSignedLink(rd, task.owner, task.lp.pointer, end, chain, i);
      }
      LinksMakeChain(rd, domain, package, chain, end);
    }
  }

  /** The valid stretches are the published chains that the getter supplies. */
  lemma StretchIsPublished(rd: Reader, lib: Library, task: Task, key: PublicKey, lp: LatestPointer, existing: Option<LatestPointer>,
                           getter: string -> Option<Bytes>, depth: nat, chain: seq<Bytes>)
    requires TaskFor(task, key, lp, existing, depth) && Reads(rd, lib)
    ensures ValidStretch(rd, task, getter, chain) <==>
            IsPublished(lib, key, lp, existing, depth, chain) && Supplied(lib, getter, chain)
  {
    StretchIffLinks(rd, task, getter, chain);
    assert forall i :: 0 <= i < |chain| ==> ReadsAs(rd, lib, chain[i]);
    LinksMean(rd, lib, key, lp, EndOf(existing), chain);
    assert task.Target() == EndOf(existing);
    forall i | 0 <= i < |chain| ensures rd.hash(chain[i]) == Fingerprint(lib, chain[i]) {
      assert ReadsAs(rd, lib, chain[i]);
    }
    if chain != [] && forall i :: 0 <= i < |chain| ==> IsSignedLink(rd, key, lp, EndOf(existing), chain, i) {
      EndsMean(rd, lib, key, lp, EndOf(existing), chain);
    }
  }

  lemma EndsMean(rd: Reader, lib: Library, key: PublicKey, lp: LatestPointer, end: string, chain: seq<Bytes>)
    requires chain != [] && ReadsAs(rd, lib, chain[0]) && ReadsAs(rd, lib, chain[|chain| - 1])
    requires forall i :: 0 <= i < |chain| ==> IsSignedLink(rd, key, lp, end, chain, i)
    ensures VersionOf(rd, chain[|chain| - 1]) == VersionIn(lib, chain[|chain| - 1])
    ensures HeadMatches(rd, lp.version, chain) <==>
            lib.unmarshalRecord(chain[0]).Some? && lib.unmarshalRecord(chain[0]).value.version == lp.version
  {
    assert IsSignedLink(rd, key, lp, end, chain, 0) && IsSignedLink(rd, key, lp, end, chain, |chain| - 1);
    BelongsMeans(rd, lib, key, lp, chain[|chain| - 1]);
  }

  /**
   * The validation accepts, and hands to the saver, exactly the published chains that the
   * getter supplies for a pointer that may replace the stored one under the owner's key.
   */
  lemma ValidationIffPublished(lib: Library, lp: LatestPointer, existing: Option<LatestPointer>, answer: Resolution,
                               getter: string -> Option<Bytes>, maxDepth: int, chain: seq<Bytes>)
    ensures ValidationOf(lib, lp, existing, answer, getter, maxDepth) == Ok(chain) <==>
            && answer.Owner? && MayReplace(lib, answer.key, lp, existing)
            && IsPublished(lib, answer.key, lp, existing, if maxDepth > 0 then maxDepth else 1000, chain)
            && Supplied(lib, getter, chain)
  {
    AdmissibleMeans(lib, lp, existing, answer);
    TaskOfRaw(lib, lp, existing, answer, Depth(maxDepth));
    ReaderReads(lib);
    AcceptsPublished(ReaderOf(lib), lib, HeadOf(lib, lp), ExistingHead(lib, existing), lp, existing, answer, getter, maxDepth, chain);
  }

  lemma AcceptsPublished(rd: Reader, lib: Library, head: Option<Head>, was: Option<Option<Head>>,
                         lp: LatestPointer, existing: Option<LatestPointer>, answer: Resolution,
                         getter: string -> Option<Bytes>, maxDepth: int, chain: seq<Bytes>)
    requires Admissible(rd, head, was, answer) <==> answer.Owner? && MayReplace(lib, answer.key, lp, existing)
    requires Admissible(rd, head, was, answer) ==>
               TaskFor(TaskOf(head, was, answer.key, Depth(maxDepth)), answer.key, lp, existing, Depth(maxDepth))
    requires Reads(rd, lib)
    ensures Validation(rd, head, was, answer, getter, maxDepth) == Ok(chain) <==>
            && answer.Owner? && MayReplace(lib, answer.key, lp, existing)
            && IsPublished(lib, answer.key, lp, existing, if maxDepth > 0 then maxDepth else 1000, chain)
            && Supplied(lib, getter, chain)
  {
    AcceptsStretch(rd, head, was, answer, getter, maxDepth, chain);
    if Admissible(rd, head, was, answer) {
      StretchIsPublished(rd, lib, TaskOf(head, was, answer.key, Depth(maxDepth)), answer.key, lp, existing, getter, Depth(maxDepth), chain);
    }
  }

  lemma TaskOfRaw(lib: Library, lp: LatestPointer, existing: Option<LatestPointer>, answer: Resolution, depth: nat)
    ensures answer.Owner? && MayReplace(lib, answer.key, lp, existing) ==>
              && HeadOf(lib, lp).Some?
              && TaskFor(TaskOf(HeadOf(lib, lp), ExistingHead(lib, existing), answer.key, depth), answer.key, lp, existing, depth)
  {
    HeadMeans(lib, lp);
    if existing.Some? {
      HeadMeans(lib, existing.value);
    }
  }

  lemma AcceptsStretch(rd: Reader, lp: Option<Head>, existing: Option<Option<Head>>, answer: Resolution,
                       getter: string -> Option<Bytes>, maxDepth: int, chain: seq<Bytes>)
    ensures Validation(rd, lp, existing, answer, getter, maxDepth) == Ok(chain) <==>
            Admissible(rd, lp, existing, answer) &&
            ValidStretch(rd, TaskOf(lp, existing, answer.key, Depth(maxDepth)), getter, chain)
  {
    ValidationIffAcceptable(rd, lp, existing, answer, getter, maxDepth);
  }

  // ---------------------------------------------------------------- the loops of the source

  /** The `for currentHash != normTarget` loop. */
  method WalkToTarget(rd: Reader, task: Task, getter: string -> Option<Bytes>) returns (r: Result<Walk, Error>)
    ensures r == WalkDown(rd, task, Begin(task), getter)
  {
    var currentHash, visited, isHead := task.lp.start, {}, true;
    var lastParsedVer, toSave := NO_VERSION, [];
    while currentHash != task.Target()
      invariant isHead <==> toSave == []
      invariant |visited| <= task.depth
      invariant WalkDown(rd, task, Begin(task), getter) ==
                WalkDown(rd, task, Walk(currentHash, visited, lastParsedVer, toSave), getter)
      decreases task.depth - |visited|
    {
      ghost var walk := Walk(currentHash, visited, lastParsedVer, toSave);
      if currentHash == ZERO_HASH {
        return Err(HistoryFork);
      }
      if currentHash in visited {
        return Err(InvalidHistoryChain);
      }
      visited := visited + {currentHash};
      if |visited| > task.depth {
        return Err(InvalidHistoryChain);
      }
      var recBytes := getter(currentHash);
      if recBytes.None? || recBytes.value == "" {
        return Err(MissingVersionRecord);
      }
      if rd.hash(recBytes.value) != currentHash {
        return Err(CorruptRecord);
      }
      var parsed := rd.record(recBytes.value);
      if parsed.None? {
        return Err(CorruptRecord);
      }
      var vr := parsed.value.record;
      if vr.domain != task.lp.pointer.domain || vr.package != task.lp.pointer.package {
        return Err(DomainMismatch);
      }
      if !rd.recordSignedBy(task.owner, vr) {
        return Err(Unauthorized);
      }
      var vrVer := parsed.value.version;
      if isHead {
        if vr.version != task.lp.pointer.version {
          return Err(InvalidHistoryChain);
        }
        isHead := false;
      } else {
        if Compare(lastParsedVer, vrVer) <= 0 {
          return Err(InvalidHistoryChain);
        }
      }
      lastParsedVer := vrVer;
      toSave := toSave + [recBytes.value];
      currentHash := parsed.value.previous;
      assert Visit(rd, task, walk, recBytes) == Ok(Walk(currentHash, visited, lastParsedVer, toSave));
    }
    return Ok(Walk(currentHash, visited, lastParsedVer, toSave));
  }

  function ExistingHead(lib: Library, existing: Option<LatestPointer>): Option<Option<Head>> {
    match existing
    case Some(lp) => Some(HeadOf(lib, lp))
    case None => None
  }

  /**
   * `ValidateLatestPointerChainWithDepth`. The saver is called on exactly the returned
   * records, in this order, and not at all on an error.
   */
  method ValidateChain(lib: Library, lp: LatestPointer, existing: Option<LatestPointer>, answer: Resolution,
                       getter: string -> Option<Bytes>, maxDepth: int) returns (r: Result<seq<Bytes>, Error>)
    ensures r == ValidationOf(lib, lp, existing, answer, getter, maxDepth)
    ensures forall chain :: r == Ok(chain) <==>
              && answer.Owner? && MayReplace(lib, answer.key, lp, existing)
              && IsPublished(lib, answer.key, lp, existing, if maxDepth > 0 then maxDepth else 1000, chain)
              && Supplied(lib, getter, chain)
  {
    var rd, head, was := ReaderOf(lib), HeadOf(lib, lp), ExistingHead(lib, existing);
    forall chain { ValidationIffPublished(lib, lp, existing, answer, getter, maxDepth, chain); }
    var owner := Preliminaries(lib, lp, existing, answer);
    if owner.Err? {
      return Err(owner.error);
    }
    r := WalkAndConclude(rd, TaskOf(head, was, owner.value, Depth(maxDepth)), getter);
  }

  /** The walk and the comparison with the stored version after it. */
  method WalkAndConclude(rd: Reader, task: Task, getter: string -> Option<Bytes>) returns (r: Result<seq<Bytes>, Error>)
    ensures var end := WalkDown(rd, task, Begin(task), getter);
            r == if end.Err? then Err(end.error) else Conclude(task, end.value)
  {
    var end := WalkToTarget(rd, task, getter);
    if end.Err? {
      return Err(end.error);
    }
    if task.existing.Some? {
      var existingVer := task.existing.value.version;
      if Compare(end.value.last, existingVer) <= 0 {
        return Err(InvalidHistoryChain);
      }
    }
    return Ok(end.value.toSave);
  }

  /** The checks before the walk, on the raw pointers. */
  method Preliminaries(lib: Library, lp: LatestPointer, existing: Option<LatestPointer>, answer: Resolution)
    returns (r: Result<PublicKey, Error>)
    ensures r == Precheck(ReaderOf(lib), HeadOf(lib, lp), ExistingHead(lib, existing), answer)
  {
    if !PointerValid(lp) {
      return Err(InvalidLatestPointer);
    }
    FoldsToZero(lp.recordHash);
    if EqualFold(TrimSpace(lp.recordHash), ZERO_HASH) {
      return Err(InvalidLatestPointer);
    }
    if answer.NoResolver? {
      return Err(NoDNSResolver);
    }
    if answer.LookupFailed? || !PointerVerified(lib, answer.key, lp) {
      return Err(Unauthorized);
    }
    if existing.Some? {
      var was := existing.value;
      if !PointerValid(was) {
        return Err(ExistingPointerInvalid);
      }
      FoldsToZero(was.recordHash);
      if EqualFold(TrimSpace(was.recordHash), ZERO_HASH) {
        return Err(InvalidLatestPointer);
      }
      if was.domain != lp.domain || was.package != lp.package {
        return Err(DomainMismatch);
      }
      if Compare(ParseVersion(lp.version).value, ParseVersion(was.version).value) <= 0 {
        return Err(VersionRollback);
      }
      if EqualFold(lp.recordHash, was.recordHash) {
        return Err(HistoryFork);
      }
    }
    return Ok(answer.key);
  }
}
