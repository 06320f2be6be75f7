# A verified model of a Kademlia node with a package registry

The node stores content blobs under their SHA-256 digest and, per package, one mutable
"latest pointer". A pointer names the newest record of a hash-linked, owner-signed version
chain. Nodes find each other and their values by iterative lookups over an XOR-metric
routing table. This project models four parts of that node in Dafny and proves what they
promise, for all inputs and over all runs:

* **The pointer store under concurrency** (`Publication`, `Validator`, `ChainWalk`,
  `StoreProtocol`, `StoreRuns`, `Provenance`, `DataStore`). Any number of `Store` calls interleave; each access to the shared map (the
  snapshot, every single record fetch, every single record save, the compare-and-commit) is
  one atomic action. No run loses a record, forks or rolls back a head, holds an
  unsigned history, gets stuck or retries forever.
* **Iterative lookup** (`Ranking`, `Contacts`, `Shortlists`, `Rounds`, `LookupRuns`,
  `Discovery`, `Lookup`) against an adversarial network: any reply, any failure, any arrival order. The methods say
  which run of the network they went through, and the theorems are about all such runs.
* **The routing table** (`Buckets`, `Eviction`, `RingScan`, `RoutingTables`): buckets,
  ping-based eviction as an interleaving of critical sections, and the exact condition under
  which the nearest-contacts scan is right.
* **The arithmetic under them** (`Bits`, `KademliaIds`, `Versions`, `Hex`, `Text`, `Records`).

## How the model is set up

* Objects whose methods update fields are classes (`DataStore`, `Shortlist`, `Bucket`,
  `RoutingTable`); their methods are proved against functions on values, and the lemmas are
  about those functions. The two protocols with concurrency are transition systems over
  values, and a sequential call of the class is shown to be a solo run of the protocol
  (`DataStore.StoreIsSoloRun`, `RoutingTables.RoutingTable.UpdateWithPing`).
* SHA-256, JSON decoding and Ed25519 verification are parameters (`Records.Library`). The
  chain and store proofs use only what `Reader.Sound` says about them, and
  `Records.ReaderOfIsSound` proves that for the reader the source uses, whatever the library.
  `Publication.ReaderReads` says what that reader reads from raw fields, so that acceptance is
  also stated in terms of the library alone (`Validator.ValidationIffPublished`,
  `DataStore.AcceptedIffPublishable`).
* No function from all byte strings to 32 bytes is injective. The store theorems therefore
  assume `Collisionless` of the finite set `values` of byte strings a run handles: no two of
  them collide, and none hashes to the key of one of its pointers. The second half shuts out
  storing the text "domain:package:latest" as a blob. The content-addressed branch writes
  without looking, so that blob would erase the pointer
  (`StoreRuns.KeyStringErasesPointer`). A blob leaves the entry at a key alone if and only
  if it does not hash to that key or equals the entry.
* The record fetcher is a read-only oracle, free to answer differently every time within
  `values`; the DNS answer is free at every validation. The network may answer any probe
  differently in every round and deliver a round in any order. Random bits are parameters.
* Go strings and byte slices are both byte sequences and both `string` here. Blank trimming
  and case folding are those of ASCII. Bytes are naturals below 256; version numbers are
  naturals with the uint64 bound checked where the source checks it.
* Calls' fields `at`, `wins`, `reach`, `full`, the commit log, the traces of a lookup and the
  arrivals of a replacement queue are history variables.
* A contact is an identifier (possibly missing) and an address. The distance field of a
  contact is a cache of `Dist`; sorting compares `Dist` directly.

Where code and comments disagree, the model follows the code:

* The comment on `UpdateWithPing` says a candidate is discarded when the oldest contact
  answers. The code leaves it in the replacement queue (`Eviction.AnsweringContactStays`).
* The same comment says that a dead oldest contact is replaced by the candidate. The code
  takes the head of the replacement queue, which is the candidate only if nobody was queued
  before it, and which may even be in the bucket already (`Eviction.DeadContactIsReplaced`).
* `FindClosestContacts` is described as finding the closest contacts of the table. It does so
  exactly under the condition of `RoutingTables.QueryIsExactIff`;
  `RoutingTables.ScanCanMissTheClosest` is a two-contact table on which it does not.

## Model

| member | source | states |
|---|---|---|
| `StoreRuns.HeadsOnlyAdvance` | kademlia/datastore.go:205-236 | in every interleaving, a pointer key that holds a value keeps holding one, and any later value is the same or is strictly newer with a history ending in the earlier pointer's complete history: no fork, no rollback |
| `StoreRuns.CommitReplacesValidated` | kademlia/datastore.go:222-231 | a commit that changes the map changes only its key, replaces exactly the bytes the call validated against, is newer than them, and its complete history is present |
| `StoreRuns.StoreIsClosed` | kademlia/datastore.go:150-236 | in every state of every run, mid-retry included, each entry sits at its own digest or is a pointer at its key whose hash-correct, strictly version-decreasing history down to the zero hash is stored locally |
| `StoreRuns.CallsTerminate` | kademlia/datastore.go:205-236 | whatever other calls do, each call takes a bounded number of actions and validates successfully at most 1000 times |
| `StoreRuns.CallsCanAct` | kademlia/datastore.go:205-236 | in every state of every run a call that is not finished has an action of its own to take, so with the bound every call finishes |
| `StoreRuns.OwnActionLowersRank` | kademlia/datastore.go:205-236 | every action of a call strictly lowers a non-negative rank |
| `StoreProtocol.StretchShrinks` | kademlia/datastore.go:205-236 | validating again after a lost race accepts a strictly shorter stretch of the same history |
| `StoreProtocol.ChainUnique` | registry/validator.go:128-184 | without collisions one head hash determines the whole history down to the zero hash |
| `StoreProtocol.LastCommitAdvances` | kademlia/datastore.go:222-231 | along a good commit log, the last commit of a key is superseded only by a newer one whose history properly extends it |
| `StoreProtocol.CommitReplacesLast` | kademlia/datastore.go:222-225 | the byte comparison succeeds if and only if no commit to the key happened since the snapshot |
| `StoreProtocol.StepKeepsInv` | kademlia/datastore.go:176-236 | every action of every call, and every blob put, keeps the store invariant |
| `StoreProtocol.RunKeepsInv` | kademlia/datastore.go:176-236 | the store invariant holds in every state of every run from the empty store |
| `StoreRuns.FirstFailureWritesNothing` | kademlia/datastore.go:218-220 | a call that has won no validation has left the map unchanged at each of its actions |
| `StoreRuns.WalkReadsHistory` | registry/validator.go:208-252 | walking the local store from any stored pointer's head returns exactly its complete history, newest first, if it has at most 1000 records, and otherwise the first 1000 and an error |
| `StoreRuns.KeyStringErasesPointer` | kademlia/datastore.go:184-192 | storing the key text of a stored pointer as a blob breaks the advance of heads, so the run hypothesis is needed |
| `Provenance.StoredHistoryIsSigned` | registry/validator.go:77-83 | in every state of every run, a stored pointer and every record of its complete local history are signed by keys that the resolver named for the pointer's domain during the run, even if the owner's key changed in between |
| `Provenance.GrantsWereGiven` | registry/validator.go:77-80 | each of those keys was the resolver's answer, for that domain, to some earlier validation of the run |
| `Provenance.StepKeepsBacked` | registry/validator.go:158-160 | every action keeps all committed and all accepted histories signed |
| `Provenance.RunKeepsBacked` | registry/validator.go:158-160 | so they are in every state of every run |
| `DataStore.StoreIsSoloRun` | kademlia/datastore.go:204-236 | from any state, the sequential store of a pointer, retries included, ends as the protocol does when that one call alone acts: same map, same error |
| `DataStore.LeadsExtendsRun` | kademlia/datastore.go:204-236 | appended to a run from the empty store, those actions give a run, so every theorem on runs applies |
| `DataStore.SoloRounds` | kademlia/datastore.go:205-236 | the rounds of an undisturbed call end as the retry loop does |
| `DataStore.StoreFollowsVerdict` | kademlia/datastore.go:176-236 | undisturbed, Store fails with exactly Validate's error and then changes nothing, or succeeds, stores the value and the whole accepted stretch, and nothing else |
| `DataStore.AcceptedIffPublishable` | kademlia/datastore.go:83-171 | what is accepted, in terms of the library alone: within the size limit, and hashing to the key or a well-formed pointer whose key text hashes to it, with a published chain on top of the pointer stored there, each record from the local store or else from the fetcher |
| `DataStore.ErrorsMean` | kademlia/datastore.go:180-202 | when exactly a value is too large and when exactly its key does not match; neither changes the map |
| `DataStore.StoreKeepsPlaced` | kademlia/datastore.go:184-231 | no call puts a value anywhere but at its own digest or at its pointer's key |
| `DataStore.SecondRoundAgrees` | kademlia/datastore.go:222-235 | even if a saved record takes the pointer's still empty key, the second round accepts the same stretch and commits |
| `DataStore.SaveAllKeeps` | kademlia/datastore.go:152-167 | saving records never changes an existing entry |
| `DataStore.SaveAllAdds` | kademlia/datastore.go:152-167 | after saving, every record's digest is a key, and every entry was there before or is one of the records at its own digest |
| `DataStore.FetchAll` | kademlia/datastore.go:122-148 | the fetch actions of an undisturbed call end as the validator's walk ends |
| `DataStore.SaveEach` | kademlia/datastore.go:152-167 | the save actions of an undisturbed call store all accepted records, in order |
| `DataStore.FinishRound` | kademlia/datastore.go:218-235 | from a finished walk, an undisturbed call fails without a write, or saves the stretch and commits, or goes for another round |
| `DataStore.DataStore.constructor` | kademlia/datastore.go:36-41 | a new store is empty with a size limit of 64 KiB |
| `DataStore.DataStore.Get` | kademlia/datastore.go:251-262 | the stored value, if any |
| `DataStore.DataStore.Validate` | kademlia/datastore.go:83-114 | the verdict on a pair: too large exactly when a positive limit is exceeded, a key mismatch exactly when the value neither hashes to the key nor is a pointer with that key; the map is not changed |
| `DataStore.DataStore.ValidateWithExisting` | kademlia/datastore.go:116-171 | the chain validation with the local-first getter against the given stored bytes |
| `DataStore.DataStore.SaveRecords` | kademlia/datastore.go:152-167 | the saver over a whole stretch: absent records are added, present ones kept |
| `DataStore.DataStore.Store` | kademlia/datastore.go:176-237 | the same two errors, the content branch and the retry loop, as the outcome that the lemmas above are about; the loop terminates, and every entry stays at its own digest or at its pointer's key |
| `Validator.ValidationIffAcceptable` | registry/validator.go:57-202 | acceptance holds if and only if the pointer is well formed, owner-signed, newer than the stored one, and some stretch of 1 to maxDepth hash-matching, same-package, owner-signed, strictly version-decreasing records leads to the stored head or the zero hash; the saved records are that stretch, which is unique |
| `Validator.WalkAcceptsExactly` | registry/validator.go:128-194 | the loop and the comparison after it accept exactly the valid stretches |
| `Validator.WalkDownSound` | registry/validator.go:128-184 | what the loop collected is a valid chain the getter supplied |
| `Validator.WalkDownComplete` | registry/validator.go:128-184 | the loop never rejects a valid stretch |
| `Validator.CycleFree` | registry/validator.go:135-138 | the visited check never fires on a valid stretch |
| `Validator.VisitExtends` | registry/validator.go:128-184 | one loop round keeps everything established so far and adds exactly the fetched record |
| `Validator.PrecheckIffAdmissible` | registry/validator.go:65-107 | the checks before the walk pass if and only if the pointer is admissible |
| `Validator.ChainDecreases` | registry/validator.go:171-176 | versions decrease between any two records of a chain, not only neighbours |
| `Validator.ChainConcat` | registry/validator.go:128-184 | a stretch on top of a history is a history |
| `Validator.ValidateChain` | registry/validator.go:57-202 | returns a chain, the one handed to the saver in order, if and only if the pointer may replace the stored one under the owner's key and the getter supplies that published chain; on any error nothing is handed over |
| `Validator.ValidationIffPublished` | registry/validator.go:57-202 | the same in terms of SHA-256, JSON decoding and signature checks alone: pointer and every record well formed and signed, each record found under the trimmed, lower-cased hash that its successor names, the last naming the stored pointer's record or nothing, versions strictly decreasing and above the stored one |
| `Validator.RejectionHasCause` | registry/validator.go:57-202 | every error is explained: a fault of the pointers that it names, a fault of the chain where a correct walk stands, or a chain without a record newer than the stored head |
| `Validator.WalkDownFails` | registry/validator.go:128-184 | where a failing walk stops, and what its error says about that place |
| `Publication.ReaderReads` | registry/record.go:469-478 | what the reader reads from bytes, by the decoded fields: well-formedness, the signed form with a filled-in predecessor, version, predecessor, signature |
| `Publication.HeadMeans` | registry/record.go:279-299 | what the validator knows of a raw pointer |
| `Validator.WalkToTarget` | registry/validator.go:116-184 | the loop computes the walk, with every error of its rounds |
| `Validator.WalkAndConclude` | registry/validator.go:116-202 | the walk, then the comparison with the stored version |
| `Validator.Preliminaries` | registry/validator.go:65-107 | the checks on the raw pointers, in order, each with its own error |
| `ChainWalk.WalkVersionChain` | registry/validator.go:208-252 | the records from a head hash downwards and the error that stopped the walk |
| `ChainWalk.WalkFrom` | registry/validator.go:220-251 | the loop from a normalized head hash |
| `ChainWalk.CollectHistory` | registry/validator.go:208-252 | over a complete history the walk returns exactly its records, or the first depth-many with an error when there are more |
| `ChainWalk.CollectIsExplained` | registry/validator.go:224-251 | over any getter every record returned was asked for by its own hash, named by the one before; without an error the end of the history was reached, and an error names what is wrong where the walk stopped |
| `LookupRuns.ResultIsClosest` | kademlia/kademlia.go:100-167 | a whole lookup returns exactly the min(k, n) closest of the n nodes that the table or some reply named and whose own probe did not fail, although it filters by queried status; each of them answered |
| `LookupRuns.ResultIsFixedPoint` | kademlia/kademlia.go:147-167 | any node other than the local one that a queried node's reply named is in the result, unless its own probe failed or the result holds k nodes that are all closer |
| `LookupRuns.ResultIsConfluent` | kademlia/kademlia.go:129-167 | networks that give the same replies lead to the same number of rounds and the same result, whatever the order of arrival in each round |
| `LookupRuns.RunsAreConfluent` | kademlia/kademlia.go:100-163 | and to the same statuses after each round |
| `LookupRuns.ReplyIsKnown` | kademlia/kademlia.go:129-162 | from the round of its probe on, a node's status and the contacts recorded for it are what the network replied, for good |
| `LookupRuns.DecidedWasProbed` | kademlia/shortlist.go:68-91 | a queried or unresponsive candidate was probed in an earlier round |
| `LookupRuns.MetIffCandidate` | kademlia/kademlia.go:153-160 | the candidates are exactly the nodes named by the table or by a reply |
| `LookupRuns.DeadIffUnresponsive` | kademlia/kademlia.go:131-139 | a candidate is unresponsive if and only if the network failed its probe |
| `LookupRuns.ProbedOnce` | kademlia/kademlia.go:100-127 | no node is probed twice |
| `LookupRuns.LocalIsNeverProbed` | kademlia/kademlia.go:100-127 | the local node is never probed |
| `LookupRuns.RunsAreBounded` | kademlia/kademlia.go:100-163 | a lookup has no more rounds than there are identifiers |
| `LookupRuns.SomethingToProbe` | kademlia/kademlia.go:101-104 | while the loop condition holds there is a node to probe: the empty break is unreachable |
| `LookupRuns.RunIsUnique` | kademlia/kademlia.go:100-163 | query, network and initial contacts determine the whole run |
| `LookupRuns.SearchIsExhaustive` | kademlia/kademlia.go:447-554 | a value lookup that ends without a value asked each of the k closest nodes that it met and that did not fail, and none of them sent an acceptable value |
| `Lookup.LookupContact` | kademlia/kademlia.go:80-183 | offline or with nothing usable stored, the local answer; otherwise the lookup terminates, goes through a whole run of the given network starting from the local answer, and returns the nodes found by that run, each with the contact first named for it; every peer new in the routing table answered and is stored as it was first named |
| `Lookup.LookupKeepsContacts` | kademlia/kademlia.go:147-167 | returned contacts and new peers are, identifier and address, contacts of the local answer or of an answering node's reply, the first for their identifier in order of discovery |
| `Lookup.HitKeepsContacts` | kademlia/kademlia.go:488-492 | the same for the routing table after a value lookup that found a value |
| `Discovery.CandidatesAreAsNamed` | kademlia/shortlist.go:44-65 | every candidate of a run is kept as it was first named, by the table or by an answering node |
| `Discovery.StagesKnow` | kademlia/shortlist.go:48-64 | in every stage the candidates are the nodes named so far, each with the contact first named for it |
| `Discovery.NamedSource` | kademlia/kademlia.go:153-160 | whatever was named came from the table or from an answering node's reply |
| `Discovery.TablePeers` | kademlia/kademlia.go:149-151 | every peer of the routing table was there before or is an answering node as it was first named |
| `Discovery.AnsweringNodeIsStored` | kademlia/kademlia.go:149-151 | every node that answered is in the routing table from then on, unless its bucket is full |
| `Lookup.Iterate` | kademlia/kademlia.go:99-163 | the loop goes through a run of the network until the k closest active candidates are all queried |
| `Lookup.Round` | kademlia/kademlia.go:101-162 | one iteration extends the run by one round |
| `Lookup.Receive` | kademlia/kademlia.go:131-161 | one reply: unresponsive on an error; otherwise queried, added to the routing table, and its usable contacts added |
| `Lookup.Collect` | kademlia/kademlia.go:129-162 | all replies of a round, in their order of arrival, act on the shortlist and on the routing table |
| `Lookup.LookupData` | kademlia/kademlia.go:397-555 | a local value wins; otherwise the lookup goes through a run of the given network in which every probed node failed, had no value or sent one that is refused, and ends either with a non-empty acceptable value, its sender, and nothing acceptable among the earlier arrivals of that round, or without one when the k closest active candidates are all queried |
| `Lookup.Search` | kademlia/kademlia.go:447-554 | the same from a filled shortlist |
| `Lookup.IterateData` | kademlia/kademlia.go:447-547 | the value loop, ending so |
| `Lookup.DataRound` | kademlia/kademlia.go:448-546 | one iteration: a complete round without an acceptable value, or the first acceptable one |
| `Lookup.CollectData` | kademlia/kademlia.go:474-546 | the replies of a round up to and including the first non-empty value that is accepted, with their effect on shortlist and routing table |
| `Rounds.RoundIsConfluent` | kademlia/kademlia.go:129-162 | the statuses after a round depend only on the statuses before it and on the replies, not on their order of arrival |
| `Rounds.DeliverAllEffect` | kademlia/kademlia.go:129-162 | what a round does to the candidates, without mention of an order |
| `Rounds.IterationKeeps` | kademlia/kademlia.go:100-163 | a round's probes are new, at least one, and the number of probed nodes grows within the universe |
| `Rounds.RoundKeeps` | kademlia/kademlia.go:129-162 | after a round the candidates are exactly those discovered and no node was probed twice |
| `Rounds.DecidedStaysDecided` | kademlia/kademlia.go:129-162 | no later round changes a queried or unresponsive candidate |
| `Rounds.Alpha` | kademlia/kademlia.go:38-41 | the number of parallel probes is the configured one if positive, and at least one |
| `Shortlists.QueriedTopIsActiveTop` | kademlia/shortlist.go:129-164 | with nothing unqueried among the k closest active candidates, the k closest queried are the k closest active ones |
| `Shortlists.AddAllEffect` | kademlia/shortlist.go:44-65 | adding contributes exactly the usable new identifiers, unqueried, and changes no known candidate |
| `Shortlists.TakeUnqueriedFacts` | kademlia/shortlist.go:114-125 | the probes are distinct, unqueried, at most count, and fewer only if nothing unqueried is left |
| `Shortlists.TakenInOrder` | kademlia/shortlist.go:119-123 | a closer unqueried candidate is never passed over |
| `Shortlists.Shortlist.constructor` | kademlia/shortlist.go:34-40 | a new shortlist is empty |
| `Shortlists.Shortlist.Add` | kademlia/shortlist.go:44-65 | the contacts are added one by one; nil, local and known ones are skipped |
| `Shortlists.Shortlist.MarkQueried` | kademlia/shortlist.go:68-78 | changes the status of a known candidate only |
| `Shortlists.Shortlist.MarkUnresponsive` | kademlia/shortlist.go:81-91 | changes the status of a known candidate only |
| `Shortlists.Shortlist.GetActiveCandidates` | kademlia/shortlist.go:94-110 | the unique ranking of the active candidates, whatever the map iteration order |
| `Shortlists.Shortlist.GetClosestUnqueried` | kademlia/shortlist.go:114-125 | the first count unqueried of the closest k active candidates |
| `Shortlists.Shortlist.HasUnqueriedInTopK` | kademlia/shortlist.go:129-139 | true if and only if one of the closest k active candidates is unqueried |
| `Shortlists.Shortlist.GetClosestQueried` | kademlia/shortlist.go:142-164 | the closest k queried candidates, closest first |
| `Ranking.RankingIsUnique` | kademlia/shortlist.go:105-107 | a set has one sorted listing by an injective measure: neither listing order nor sort stability matters |
| `Ranking.TopOfSubset` | kademlia/shortlist.go:157-162 | if the first m of a set lie in a subset they are the first m of the subset |
| `Contacts.DistToInjective` | kademlia/contact.go:23-30 | distance to a target is an injective measure |
| `Contacts.CloserTo` | kademlia/contact.go:23-30 | comparing computed distances byte by byte decides the numeric order of distances |
| `Contacts.Sort` | kademlia/contact.go:54-73 | a permutation of the given contacts, never a farther one first |
| `Contacts.SortedIsRanking` | kademlia/shortlist.go:105-107 | for contacts without repetition it is the ranking of their set |
| `RoutingTables.QueryIsExactIff` | kademlia/routingtable.go:214-242 | the query returns the globally closest contacts if and only if nothing is stored above the scanned buckets or at least count scanned contacts are closer than all of that |
| `RoutingTables.NothingCloserBelow` | kademlia/routingtable.go:214-242 | no contact below the scanned range is closer than a returned one |
| `RoutingTables.SelfQueryIsExact` | kademlia/routingtable.go:214-242 | looking up the local identifier is always exact |
| `RoutingTables.FullBucketQueryIsExact` | kademlia/routingtable.go:219-224 | a query whose target's own bucket holds count contacts is exact |
| `RoutingTables.ScanFromBelowIsWrong` | kademlia/routingtable.go:224-233 | with contacts hidden above and fewer than count found at or above the target's bucket, the answer is wrong |
| `RoutingTables.ScanCanMissTheClosest` | kademlia/routingtable.go:224-233 | a table with two contacts on which the query for one contact returns the farther one |
| `RoutingTables.CollectedFacts` | kademlia/routingtable.go:218-233 | after any number of widenings the scan holds exactly the contacts of the buckets in range, each once |
| `RoutingTables.WholeUpdate` | kademlia/routingtable.go:67-172 | the critical sections of an undisturbed update add up to the steps of the protocol |
| `RoutingTables.RoutingTable.constructor` | kademlia/routingtable.go:30-40 | 256 empty buckets, no flag, no queue, nothing to wait for |
| `RoutingTables.RoutingTable.AddContact` | kademlia/routingtable.go:43-59 | a known contact moves to the front of its bucket as it was stored, a new one enters in front if there is room, all others keep their order; otherwise, and without an identifier, nothing changes |
| `RoutingTables.RoutingTable.RemoveContact` | kademlia/routingtable.go:191-211 | removes the identifier from its bucket and reports whether it was stored anywhere in the table |
| `RoutingTables.RoutingTable.TryUpdate` | kademlia/routingtable.go:67-95 | puts a known contact, or a new one with room, in front of its bucket; otherwise changes nothing and, given a pinger, names the bucket and its least recently seen contact |
| `RoutingTables.RoutingTable.QueueCandidate` | kademlia/routingtable.go:98-123 | queues the candidate and launches a probe if and only if none is in flight for the bucket |
| `RoutingTables.RoutingTable.PopReplacement` | kademlia/routingtable.go:150-159 | takes the head of the replacement queue, if any |
| `RoutingTables.RoutingTable.Evict` | kademlia/routingtable.go:146-163 | a dead contact is removed and the head of the queue takes its place |
| `RoutingTables.RoutingTable.Promote` | kademlia/routingtable.go:164-167 | an answering contact is added again to its bucket |
| `RoutingTables.RoutingTable.RunProbe` | kademlia/routingtable.go:126-171 | an undisturbed probe: bucket, queue, flag and wait group afterwards |
| `RoutingTables.RoutingTable.UpdateWithPing` | kademlia/routingtable.go:67-172 | a known contact, or a new one with room, is put in front of its bucket and no other bucket, queue, flag or count changes; the local node, a contact without identifier, and a full bucket without a pinger change nothing; every update, probe included, does exactly the protocol's steps one after the other |
| `Eviction.AddMeans` | kademlia/routingtable.go:43-59 | in any state adding puts a known contact, or a new one with room, in front of its bucket; nothing else changes |
| `Eviction.RemoveMeans` | kademlia/routingtable.go:191-211 | in any state removing takes exactly the contact's identifier out of its bucket; nothing else changes |
| `Eviction.UpdateEnters` | kademlia/routingtable.go:77-80 | in any state an update of a known contact, or of a new one with room, puts it in front and launches no probe |
| `Eviction.UpdateIsIgnored` | kademlia/routingtable.go:68-93 | when an update changes nothing |
| `Eviction.FullBucketUpdateQueues` | kademlia/routingtable.go:98-120 | with a probe in flight an update of a new contact only queues it |
| `Eviction.FullBucketUpdateProbes` | kademlia/routingtable.go:98-171 | with none in flight it is queued and the oldest contact probed: if that answers it moves to the front, otherwise it is removed and the head of the queue enters in front |
| `Eviction.OfferedMeans` | kademlia/routingtable.go:99-114 | a queued candidate comes last, and the queue loses its oldest contact only if it held ten |
| `RoutingTables.RoutingTable.Scan` | kademlia/routingtable.go:218-233 | the widening loop stops at the first radius with count contacts or all buckets seen |
| `RoutingTables.RoutingTable.FindClosestContacts` | kademlia/routingtable.go:214-242 | the stored contacts that are the min(count, size) closest of the scanned buckets, sorted and without repetition |
| `RingScan.RingOrderHolds` | kademlia/routingtable.go:214-242 | around the target's bucket, distances order the buckets: that bucket, all above it, then those below in descending order |
| `RingScan.SharedWithTarget` | kademlia/routingtable.go:245-261 | how long a prefix a contact shares with the target, from the two bucket numbers |
| `RingScan.ScanIsExactIff` | kademlia/routingtable.go:224-242 | the exactness condition for any measure that respects the bucket order |
| `Eviction.RunKeepsInv` | kademlia/routingtable.go:43-211 | in every interleaving of updates, removals and probes: buckets hold at most 10 distinct contacts of their own, queues at most 10 distinct contacts of their bucket, flags and wait group match the running probes |
| `Eviction.StepKeepsInv` | kademlia/routingtable.go:43-211 | each critical section keeps that invariant |
| `Eviction.WaitCoversProbes` | kademlia/routingtable.go:98-132 | the wait group counts at least the flags; when it is zero no bucket has a probe in flight |
| `Eviction.FlagsBelowCount` | kademlia/routingtable.go:116-132 | flags never outnumber counted probes |
| `Eviction.OneProbePerBucket` | kademlia/routingtable.go:116-132 | at most one probe per bucket lies between launch and the clearing of its flag |
| `Eviction.QueueIsTail` | kademlia/routingtable.go:98-114 | in every state a replacement queue is the latest part of its bucket's arrivals, in arrival order |
| `Eviction.PopTakesOldest` | kademlia/routingtable.go:150-159 | in every run a failed probe takes the earliest arrival still queued and keeps the later ones |
| `Eviction.ProbeShape` | kademlia/routingtable.go:126-171 | what a probe that nobody interferes with changes, and that it leaves no trace among the running probes |
| `Eviction.NewcomerLaunchesProbe` | kademlia/routingtable.go:82-126 | a newcomer to a full bucket is queued and the least recently seen contact probed |
| `Eviction.AnsweringContactStays` | kademlia/routingtable.go:164-170 | if that contact answers it moves to the front and the newcomer stays queued |
| `Eviction.DeadContactIsReplaced` | kademlia/routingtable.go:134-163 | if it fails it is removed and the head of the queue, whoever that is, enters in front; a head already in the bucket is promoted instead, and with an empty queue nobody enters |
| `Buckets.AddedFacts` | kademlia/bucket.go:23-43 | adding keeps size and distinctness, puts an accepted contact in front, loses nobody, and refuses only newcomers to a full bucket |
| `Buckets.AddedKeepsOthers` | kademlia/bucket.go:33-42 | adding moves at most the added contact to the front: all others keep their order, and a known contact keeps its stored address |
| `Buckets.RemovedInPlace` | kademlia/bucket.go:51-57 | removing takes the contact out of its place and leaves the others in order |
| `Buckets.RemovedFacts` | kademlia/bucket.go:47-59 | removing loses exactly the given identifier |
| `Buckets.Bucket.constructor` | kademlia/bucket.go:14-18 | a new bucket is empty |
| `Buckets.Bucket.AddContact` | kademlia/bucket.go:23-43 | the list after push or move-to-front, and whether the contact was accepted |
| `Buckets.Bucket.RemoveContact` | kademlia/bucket.go:47-59 | the list without the contact, and whether it was there |
| `Buckets.Bucket.GetOldestContact` | kademlia/bucket.go:63-69 | the last contact of the list, if any |
| `KademliaIds.Less` | kademlia/kademliaid.go:53-60 | the byte-wise comparison is the order of the big-endian 256-bit values |
| `KademliaIds.Equals` | kademlia/kademliaid.go:63-70 | byte-wise equality |
| `KademliaIds.CalcDistance` | kademlia/kademliaid.go:74-80 | the byte-wise XOR, whose value is the distance |
| `KademliaIds.ValueInjective` | kademlia/kademliaid.go:53-60 | different identifiers have different values, so the order is total |
| `KademliaIds.FirstDifferenceDecides` | kademlia/kademliaid.go:53-60 | the first differing byte decides the order of the values |
| `KademliaIds.DistZeroIffEqual` | kademlia/kademliaid.go:74-80 | distance is zero only on equality |
| `KademliaIds.DistSymmetric` | kademlia/kademliaid.go:74-80 | distance is symmetric |
| `KademliaIds.DistInjective` | kademlia/kademliaid.go:74-80 | no two identifiers are equally far from a target |
| `KademliaIds.Unidirectional` | kademlia/kademliaid.go:74-80 | exactly one identifier lies at a given distance from a target |
| `KademliaIds.Triangle` | kademlia/kademliaid.go:74-80 | the numeric triangle inequality |
| `KademliaIds.LongerPrefixIsCloser` | kademlia/kademliaid.go:53-80 | sharing more leading bits with the target means being strictly closer |
| `KademliaIds.BucketIndexIsPrefixLength` | kademlia/routingtable.go:245-261 | the bucket index is the common prefix length, and 255 for the local identifier, and nothing else is |
| `KademliaIds.GetBucketIndex` | kademlia/routingtable.go:245-261 | the nested loops compute it |
| `KademliaIds.GenerateRandomIdForBucket` | kademlia/kademlia.go:606-636 | for every local identifier, every index and every sequence of random choices the result lies in that bucket, and its lower bits and bytes are the choices |
| `KademliaIds.BucketMembersByChoices` | kademlia/kademlia.go:618-634 | those choices determine an identifier of the bucket |
| `Versions.ParseOfPrint` | registry/version.go:27-77 | parsing a printed version returns it, for every uint64 triple |
| `Versions.PrintOfParse` | registry/version.go:27-77 | printing a parsed string reparses to the same version, and is the string itself, without blanks and prefix, if and only if that had three components |
| `Versions.ParseIff` | registry/version.go:27-72 | a text parses to a version if and only if, after blanks and one v or V, it is the version's numbers without leading zeros, separated by dots, with last components that are zero possibly missing, all within uint64 |
| `Versions.ParseIgnoresDecoration` | registry/version.go:28-35 | surrounding blanks and one leading v or V do not change the result |
| `Versions.Parse` | registry/version.go:27-72 | the loop parses as the function does, with every rejection |
| `Versions.ParseComponent` | registry/version.go:47-63 | one component, with the loop over its characters |
| `Versions.DecimalRoundTrip` | registry/version.go:60-77 | printing a number is canonical and reads back |
| `Versions.CanonicalIsUnique` | registry/version.go:50-64 | a component without leading zeros is the printing of its value |
| `Versions.CompareIsNumericOrder` | registry/version.go:86-106 | Compare is the order of major:minor:patch as one number: antisymmetric, total, zero only on equality |
| `Versions.NewerTransitive` | registry/version.go:86-106 | the order is transitive and irreflexive |
| `Records.KeyStringInjective` | registry/record.go:372-374 | valid names share a key text if and only if they name the same package |
| `Records.KeyTextOf` | registry/record.go:372-374 | the key text is the lower-cased domain, the package and "latest" between colons, whatever blanks and trailing dots surround the names |
| `Records.KeyIgnoresCase` | registry/dns.go:27-29 | domains that differ only in case have the same key |
| `Records.ValidDomainHasNoColon` | registry/keymanager.go:23-29 | a valid domain does not contain the separator of the key text |
| `Records.ParseRecord` | registry/record.go:469-478 | parsing succeeds exactly on well-formed decoded records, fills in an absent predecessor and changes nothing else |
| `Records.ParsePointer` | registry/record.go:480-489 | parsing succeeds exactly on well-formed decoded pointers and returns them |
| `Records.FoldsToZero` | registry/validator.go:71-73 | comparing with the zero hash ignoring case is comparing normal forms |
| `Records.ReaderOfIsSound` | kademlia/datastore.go:122-158 | a digest's text leads back to the digest, and equal version texts mean equal versions |
| `Records.ReaderOfSeparates` | registry/record.go:469-489 | no byte string is both a record and a pointer, since their tags differ |
| `Hex.DecodeOfEncode` | kademlia/kademliaid.go:83-85 | decoding undoes encoding |
| `Hex.EncodeMeans` | kademlia/kademliaid.go:83-85 | two lower-case digits per byte, the higher one first |
| `Hex.EncodeInjective` | kademlia/shortlist.go:55-56 | keying candidates by text is keying them by identifier |

## Left out

- UDP sockets, the JSON wire format, timeouts and pending transactions (kademlia/network.go): they turn a probe into a reply or a failure, and the network of the model may give any.
- The internals of SHA-256, Ed25519 and JSON: parameters of the model.
- DNS resolvers and key files (registry/dns.go, registry/keymanager.go): they produce the answer to an ownership question, which is arbitrary at every validation here.
- Signing and building records (the `Sign` and `New` functions of registry/record.go): the theorems are about what the validator accepts, whoever built it.
- The command line, node startup and the simulated hub: they call the operations modelled here and format their results.
- The replication worker and `Replicate`: they store every local value again at the nodes a lookup returns. Each such store is a `Store` call at a remote node, which runs of `StoreProtocol` contain anywhere.
- `Join` and the network-wide `StoreWithKey`: they are sequences of lookups and stores without a state of their own.
- `StoreUnchecked`, the forced-store paths and `Delete` as steps of a run: they bypass validation or drop history on purpose, and the theorems on runs do not hold with them.
- The network-backed fetcher's caching of fetched blobs in the local store: the fetcher is read-only here. Cached content would be a blob put, which runs may contain anywhere.
- `GetAllContacts`, `GetReplacementCandidates`, `IsBucketEmpty`, `GetClosestNonEmptyBucketIndex`, `GetAllKeys` and the other readers: each copies out a part of the state whose contents `Eviction.Inv` and `StoreProtocol.Inv` describe, and nothing modelled calls them.
- Nil arguments for which the source has a guard: a nil target or routing table in the lookups, a nil pointer or getter in the validator.
- Unicode blanks and case folding outside ASCII in names, versions and hashes.
- The size limit in the concurrent protocol: it only refuses calls before their first access to the map; `DataStore.DataStore.Store` has it.
- DataStore.DataStore.Store: one caller without interference; interleaved callers are `StoreProtocol`.
- DataStore.StoreFollowsVerdict: assumes that JSON decoding reads the same tag field into a record and into a pointer (`Records.ReaderOfSeparates`).
- Lookup.LookupContact: the routing table is not changed by others while the lookup runs; what others do to it is `Eviction`.
- Lookup.LookupData: the same, and does not model caching the found value in the local store. Whether a value is acceptable (it hashes to the target or `DataStore.Validate` accepts it) is a fixed predicate during the lookup.
- RoutingTables.RoutingTable.FindClosestContacts: takes a non-negative count, since the source slices by it.
- RoutingTables.RoutingTable.UpdateWithPing: runs the probe to its end at once; interleaved probes are `Eviction`.
