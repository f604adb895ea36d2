# Reverse query matching: a verified model

The system stores Boolean queries and, given a title, returns the queries that accept it. A query text is
parsed, compiled to integer columns and phrase graphs, filed under a few signatures in a segment, and found
again by probing the signatures a title generates; an exact check then decides. Around that sit a durable
mutation log, a control-plane document with rendezvous placement, the rule for which shard emits a row, and
an order-independent checksum over what was delivered. The files here model those parts in Dafny and prove
what the design promises of them.

`dafny verify dfyconfig.toml` checks everything.

## How the parts fit

| files | part of the system |
|---|---|
| `PhraseGraphs`, `PhraseSearch`, `PhraseSteps`, `PhraseReference` | three searches for one question: does a quoted clause occur in a title graph |
| `Dsl`, `Parsers`, `RoundTrip` | the query grammar, the engine's parser and the reference parser |
| `Equivalences`, `Queries`, `Expansion`, `Extracted`, `Extraction` | equivalence classes, compiled queries, canonical form, expansion, and the compiler against the reference predicate tree |
| `Dictionary`, `Plans` | feature ids and hot bits, and the signatures a query is filed under |
| `Index`, `Bloom`, `Segments`, `Retrieval`, `EndToEnd` | postings, the anchor filter, a segment, a read, and the whole path from text to result |
| `ClusterLog`, `FramedLog`, `MutationCodec`, `CrcFrames`, `Crc32`, `StepTables`, `LinearFold` | the mutation log as a state machine with faults, its frames, its records and their checksum |
| `Keyed`, `Allocator`, `Control`, `Ownership` | placement, the control document and emission ownership |
| `Delivery`, `CommutativeFold`, `ShiftFold`, `MemberWords` | the delivery checksum |
| `Wrappers`, `Orders`, `Lists` | options and results, orders and sorting, lists |

The main results:

- **From text to result.** `EndToEnd.ReadTexts`: for a segment of rows stored from texts, and any title whose arcs
  run forward inside it, probing through the filter and the three indexes and checking exactly returns each live
  row of the lanes asked for whose text the reference parser and the reference predicate tree accept, each once.
  It returns no other row unless a search for one of that row's phrases gave up. It rests on the agreement of the
  parsers, of the compiler and the reference tree with its own phrase search after equivalence expansion, on the
  budgeted phrase search that the check runs, on the shapes of the plans, on the postings and on the filter.
- **Exact retrieval.** `Retrieval.MatchTitle` compares a read with brute force row by row, and
  `Retrieval.CandidateExact` says in terms of the title's features which accepted rows it leaves out.
- **The log.** `ClusterLog.EveryRunReplays`: over every run of appends that succeed, fail or tear, checkpoints
  that fail at any step, crashes and reopenings, replay after the committed cursor holds every acknowledged
  mutation in order. `MutationCodec.EveryRunReadsBack` says the same of the bytes of the file.
- **Checksums.** `Crc32Checksum.ChecksumOf`: slicing by eight is the bit-at-a-time CRC-32 on every byte string.
  `Delivery.SingleChangeDetected`: the delivery checksum notices every single change of an id or a score.

Imperative parts of the system are methods and classes here, each proved against a function of its inputs or
of its old state. Hash functions (signature keys, body hashes, rendezvous weights and, in the framing, the
checksum) are arbitrary functions; no result needs them to be free of collisions unless it says so.

## Where the code does less than one might expect

- **Fail-open acceptances.** A phrase search that runs out of states or work rejects nothing
  (`engine/src/compile.rs:196-224`), so a title can be accepted for a phrase it does not contain. Such a row is
  accepted by the fail-open check and is never a true match. If it is filed under the labels of that phrase
  (`engine/src/compile/plan.rs:20-34`) and the title shows none of them, the read does not return it:
  `Retrieval.OverBudgetUnshown` is a family of complete titles. `Retrieval.CandidateExact` gives the condition,
  `Retrieval.UnshownIsUndecided` shows that no match is among these rows, and `EndToEnd.NeverMissed` that the
  promise not to drop a true match needs no search to be decided.
- **Directory sync.** A checkpoint whose rename succeeds and whose directory sync fails refuses appends until the
  log is reopened, but opening it again does not repeat the sync (`engine/src/cluster/clog.rs:253-293`,
  `engine/src/cluster/clog.rs:546-551`). If a power loss then brings the old file back, appends the reopened
  log acknowledged are gone (`ClusterLog.UnsyncedAppendIsLost`; `ClusterLog.FailedSyncReaches` is a run to such a log).
  `ClusterLog.ReversalExact` gives the exact condition, and `ClusterLog.EveryRunReplays` covers every reversal
  that meets it: what was acknowledged since the rename is committed.
- **Torn tails.** Repair refuses an unfinished final write whose bytes look as if they hide a complete record.
  `FramedLog.WrittenIsRead` states exactly which cuts are dropped and which are refused, and
  `FramedLog.EmbeddedFrameRefused` is a family of writes that are refused.
- **Parser errors.** The two parsers accept the same texts. On a text that both refuse, the reference reports too many
  clauses where the engine reports an error behind the last clause allowed, because it counts while it reads.
  `Parsers.ParsersAgree` gives the exact condition and `Parsers.ErrorKindsDiffer` a family of texts.

## Conditions on inputs, and why they are there

- **Canonical form.** Dropping an empty requirement turns a member that nothing satisfies into a weaker one
  (`Queries.EmptyRequirementSeparates`). `Queries.CanonicalExactly` says what becomes of any query,
  `Queries.CanonicalMeaning` that nothing changes for a query without such members, and `Extraction.LiteralSound`
  that the compiler makes no others.
- **Pair anchors.** A required column that lists a hot feature twice would be filed under a pair that no title
  probes (`Plans.RepeatedRequirementMisses`). The compiler's columns are sorted without repeats, and
  `Segments.Segment.AddCompiled` asks for that.
- **Log floor.** Opening a log is safe iff the committed cursor is at most the floor or the last position in the file
  (`ClusterLog.FloorExact`); with a lower floor acknowledged appends are lost (`ClusterLog.LowFloorLoses`).
- **Arcs inside their graph.** The engine follows a title arc that leaves the title, and the reference does not
  (`PhraseReference.IllFormedTitleSeparates`), so agreement, and with it the path from text to result, is stated for
  graphs without one.

## Model

| member | source | states |
|---|---|---|
| PhraseSearch.HasFeature | engine/src/normalize.rs:101-152 | binary search of a sorted label list answers membership |
| PhraseSearch.MatchFrom | engine/src/normalize.rs:106-148 | one depth-first search: true iff the end of the clause is reachable in step from that title start, and it terminates |
| PhraseSearch.PhraseGraphMatches | engine/src/normalize.rs:101-152 | for every clause and title with arcs sorted by start and sorted labels: true iff some title path, edge for edge, carries labels a complete query path accepts |
| PhraseSearch.BoundedNeverLies | engine/src/normalize.rs:84-227 | the budgeted search as the function it computes: a definite answer is the path definition although all starts share one set of seen states, and graphs within both caps always get one |
| PhraseSearch.PhraseGraphMatchesBounded | engine/src/normalize.rs:160-227 | the loops compute that search exactly, down to which graphs make it give up; an incomplete title never gets an answer |
| PhraseReference.RefPhraseGraphMatches | engine/ref-matcher/src/normalize.rs:140-176 | for every input the breadth-first search decides occurrence in the graphs cut down to their forward arcs |
| PhraseReference.OneLanguage | engine/ref-matcher/src/normalize.rs:140-176 | on well-formed graphs that question is the engine's question |
| PhraseReference.ThreeMatchersAgree | engine/src/normalize.rs:101-227 | the unbounded search and the reference give one answer, and the budgeted search gives that answer or none, and gives it within budget |
| PhraseReference.IllFormedTitleSeparates | engine/ref-matcher/src/normalize.rs:155-165 | well-formedness is needed: a title arc that runs past the end of the title is followed by the engine and not by the reference |
| StepTables.BuildTables | engine/src/storage.rs:81-111 | the nested loops make entry `b` of table `k` the effect of byte `b` followed by `k` zero bytes |
| Crc32Checksum.Crc32.Update | engine/src/storage.rs:121-123 | one table lookup is eight single-bit steps of the definition |
| Crc32Checksum.Crc32.UpdateChunk | engine/src/storage.rs:128-138 | eight table lookups are the definition on eight bytes |
| Crc32Checksum.Crc32.UpdateSlice | engine/src/storage.rs:126-142 | whole chunks, then the remainder, leave the register the definition leaves, for every length and starting value |
| Crc32Checksum.EightBytes | engine/src/storage.rs:126-142 | the eight bytes of a chunk contribute independently to the register (linearity over GF(2)) |
| Crc32Checksum.RegisterConcat | engine/src/storage.rs:113-146 | the register after a concatenation is the register of the second part started from that of the first, so every prefix agrees |
| Crc32Checksum.ChecksumOf | engine/src/storage.rs:68-72 | tables built by the loops, then used: the CRC-32 of section 8 of RFC 1952 for every byte string |
| Crc32Checksum.BitwiseCrc32 | engine/src/storage.rs:310-323 | the bit-at-a-time loop computes the same definition |
| Crc32Checksum.OneByteChangeDetected | engine/src/storage.rs:65-72 | changing any one byte of any byte string changes its checksum |
| Delivery.MixIsBijective | engine/src/delivery.rs:77-83 | the mixer has a two-sided inverse on 64-bit words |
| Delivery.OneSeparates | engine/src/delivery.rs:51-68 | two members that differ in the id alone or in the score alone (absent included) contribute different pairs |
| Delivery.OrderIndependent | engine/src/delivery.rs:51-68 | the checksum is a function of the multiset of members |
| Delivery.ShardsMerge | engine/src/delivery.rs:70-73 | merging per-shard checksums gives the checksum of any list of all their members |
| Delivery.SingleChangeDetected | engine/src/delivery.rs:51-73 | changing one member of any list, in its id or in its score, changes the checksum |
| Delivery.DeliveryChecksum.Observe | engine/src/delivery.rs:51-68 | the two words stay the checksum of everything observed so far, this member included |
| Delivery.DeliveryChecksum.Merge | engine/src/delivery.rs:70-73 | the two words become the checksum of both deliveries together |
| Parsers.ParseWithLimits | engine/src/dsl.rs:99-204 | the index-driven loops compute the clause list or the error, kind and position, of the grammar; they always advance |
| Parsers.EngineGroup | engine/src/dsl.rs:134-167 | the character-by-character member scan is split, trim and drop-empty |
| Parsers.RefParse | engine/ref-matcher/src/parse.rs:50-107 | the loop over the text that is left reads the same clauses as the index-driven engine, and answers every text as `ParsersAgree` says |
| Parsers.ParsersAgree | engine/src/dsl.rs:99-212 | under default limits both parsers accept exactly the same strings with equal clause lists; on a text both refuse the kinds are equal unless more clauses can be read before the error than are allowed, and then the reference reports too many clauses |
| Parsers.ErrorKindsDiffer | engine/ref-matcher/src/parse.rs:101-104 | so for every number of words past the limit, followed by an unclosed group, the two kinds differ |
| RoundTrip.AcceptedIsNormal | engine/src/dsl.rs:133-212 | an accepted text has no empty bare term, no empty or untrimmed member and no untrimmed phrase |
| RoundTrip.RenderThenParse | engine/src/dsl.rs:99-204 | written out and parsed, exactly the normal clause lists come back unchanged |
| RoundTrip.ParseRenderParse | engine/src/dsl.rs:99-204 | writing out what an accepted text parsed to and parsing again gives the same clauses |
| Equivalences.Absorb | engine/ref-matcher/src/semantic.rs:321-330 | one merge pass with removal by swapping keeps the classes apart and joined by declared groups, and loses no member |
| Equivalences.MergeGroups | engine/ref-matcher/src/semantic.rs:319-331 | the classes are exactly the connected components of the declared groups |
| Equivalences.ComponentIsReach | engine/ref-matcher/src/semantic.rs:319-331 | two features share a class iff a chain of overlapping groups joins them |
| Equivalences.ParticipantSet | engine/ref-matcher/src/semantic.rs:303-313 | a group keeps the forms that analyze to one feature, sorted without repeats |
| Equivalences.MapClasses | engine/ref-matcher/src/semantic.rs:333-340 | every member maps to its whole class |
| Equivalences.ResolveEquivalences | engine/ref-matcher/src/semantic.rs:300-341 | the resolved map is the component map and is class-closed, which expansion needs |
| Queries.CanonicalMeaning | engine/src/compile.rs:225-269 | a query whose members are whole or ask for nothing, and its canonical form, accept the same titles, positive and negative sides separately |
| Queries.CanonicalExactly | engine/src/compile.rs:93-126 | what the canonical form of any query accepts, empty parts included, in terms of the query |
| Queries.CanonicalTwice | engine/src/compile.rs:245-269 | canonicalizing any query twice changes nothing more |
| Queries.CanonicalFull | engine/src/compile.rs:93-126 | canonicalizing a query without empty parts leaves none empty |
| Queries.CanonPhraseOccurs | engine/src/compile.rs:482-498 | a phrase and its canonical form occur in the same titles |
| Queries.EmptyRequirementSeparates | engine/src/compile.rs:93-107 | a member with an empty and a non-empty requirement does change meaning |
| Expansion.ExpandedMeaning | engine/src/compile.rs:287-364 | the expanded query matches (pos, neg) iff the original matches (closure of pos, neg); the negative side is untouched |
| Expansion.ExpansionKeepsMatches | engine/src/compile.rs:271-287 | expansion never loses a flat match |
| Expansion.WidenPhraseOccurs | engine/src/compile.rs:287-364 | a widened phrase occurs in a title iff the phrase occurs in the title closed under the classes |
| Expansion.ExpandedPhrases | engine/src/compile.rs:287-364 | required phrases of the expanded query mean the original phrases on the closed title; forbidden ones are unchanged |
| Expansion.ExpansionIdempotent | engine/src/compile.rs:285-287 | expanding twice gives the same query as expanding once, for every query |
| Expansion.ProxyImplied | engine/src/compile.rs:128-156 | a retrieval group is implied by the exact predicate it stands for |
| Expansion.ExpansionKeepsProxies | engine/src/compile.rs:287-364 | every exact predicate still has its retrieval group after expansion |
| ExtractedQuery.Extracted.Canonicalize | engine/src/compile.rs:245-269 | in place, column by column: the canonical query |
| ExtractedQuery.Extracted.MoveRequired | engine/src/compile.rs:287-364 | required features with a class leave the column and become groups, in order |
| ExtractedQuery.Extracted.ExpandEquivalences | engine/src/compile.rs:287-364 | in place: the expanded query |
| ExtractedQuery.Extracted.MatchesPositioned | engine/src/compile.rs:196-243 | the exact check with budgeted phrase searches answers exactly: flat predicates hold, no search for a required phrase comes back empty, none for a forbidden one succeeds |
| ExtractedQuery.CheckQuery | engine/src/compile.rs:196-224 | the loops over the phrases compute that answer |
| ExtractedQuery.TrueMatchAccepted | engine/src/compile.rs:182-224 | a title that satisfies the query is never rejected, whatever the searches can afford |
| ExtractedQuery.DecidedExact | engine/src/compile.rs:196-243 | when no search gives up the check is the meaning of the query |
| ExtractedQuery.SmallIsDecided | engine/src/normalize.rs:79-82 | no search gives up on a complete title within both caps |
| Extraction.Extract | engine/src/compile/extract.rs:111-269 | the clause loop builds the compiled query of the clauses, expansion included |
| Extraction.LiteralAgrees | engine/ref-matcher/src/semantic.rs:230-281 | before expansion the compiled query and the reference predicate tree, run with the reference's own phrase search, accept the same well-formed titles, for every clause list |
| Extraction.ClauseMeansHolds | engine/ref-matcher/src/normalize.rs:140-176 | in a well-formed title the phrase leaf of the reference tree, decided by the forward search, has its path meaning |
| Extraction.LiteralSound | engine/src/compile/extract.rs:111-263 | extraction never produces an empty part and gives every exact any-of predicate a retrieval group |
| Extraction.CompilerAgreesWithReference | engine/ref-matcher/src/semantic.rs:129-226 | the same after both sides expand the declared equivalences |
| Extraction.CompiledSound | engine/src/compile/extract.rs:111-269 | a compiled query has no empty part, keeps its retrieval groups and has searchable phrases |
| CandidateIndexing.Push | engine/src/index.rs:46-73 | adding an id, both promotions included, keeps the posting the one its insertion history determines |
| CandidateIndexing.PostingHolds | engine/src/index.rs:90-123 | for increasing ids iteration yields exactly the inserted sequence in every tier, and for any ids the same set |
| CandidateIndexing.TierByCount | engine/src/index.rs:46-73 | the tier is a function of the number of ids, at the exact boundaries |
| CandidateIndexing.ForEachWhile | engine/src/index.rs:90-114 | early-stopping iteration visits exactly the prefix through the first refusal |
| CandidateIndexing.CandidateIndex.Insert | engine/src/index.rs:164-169 | the index refines a map from signature to inserted ids |
| CandidateIndexing.CandidateIndex.Get | engine/src/index.rs:172-174 | looking a signature up gives exactly its inserted ids, in order when they increased |
| Bloom.SetProbes | engine/src/filter.rs:165-176 | exactly the probe bits of the key are set, inside its block, and no bit is cleared |
| Bloom.CheckProbes | engine/src/filter.rs:181-195 | true iff every probe bit of the key is set |
| Bloom.NextPowerOfTwo | engine/src/filter.rs:87-90 | the block count is the least power of two that is large enough |
| Bloom.Build | engine/src/filter.rs:76-102 | a bit of the filter is set iff some key of the list marks it |
| Bloom.MayContain | engine/src/filter.rs:110-116 | the object form answers the same as the raw-word form, and rejects everything when empty |
| Bloom.BloomCheck | engine/src/filter.rs:138-144 | the raw-word form, on any filter laid out in whole blocks |
| Bloom.PassesMeans | engine/src/filter.rs:76-195 | the exact answer: a key passes iff each of its probes is shared with some inserted key |
| Bloom.NoFalseNegatives | engine/src/filter.rs:104-116 | every inserted key passes, for every key list |
| Bloom.BlockIsRemainder | engine/src/filter.rs:150-153 | selecting a block by mask is selecting it by remainder, so every probe is inside the array |
| Plans.PlanShaped | engine/src/compile/plan.rs:111-257 | every plan has one lane with one of the documented shapes: a required singleton, a sorted required pair with a hot member, one anchor per group member or phrase label, or the universal anchor |
| Plans.ClassCIsFlat | engine/src/compile/plan.rs:111-257 | a class-C plan is anchored on a required feature or a group of the query |
| Plans.PinnedShaped | engine/src/compile.rs:532-547 | pinning a class-C plan leaves a valid cover on an always-probed lane |
| Plans.FlatCoverFound | engine/src/compile/plan.rs:45-86 | a title that satisfies the flat predicates carries one of the anchors |
| Plans.PairCoverFound | engine/src/segment/seg/matching.rs:103-144 | the pair loop over hot features reaches every planned pair, also when more features became hot since |
| Plans.PhraseCoverFound | engine/src/compile/extract.rs:19-28 | a title in which the phrase occurs has one of its labels among the probed features |
| Plans.RepeatedRequirementMisses | engine/src/compile/plan.rs:186-257 | a required column that repeats a hot feature would be planned as a pair no title probes: sortedness without repeats is needed, and canonicalizing gives it |
| Segments.Segment.AddCompiled | engine/src/segment/seg/write.rs:217-312 | one more row exactly unless it is a refused class-D plan; the row is reachable through its group leader, on its own side of the opt-in boundary |
| Segments.Segment.FindLeader | engine/src/segment/seg/write.rs:258-262 | a leader is shared only on equal bodies, whatever the hash does |
| Segments.Segment.Join | engine/src/segment/seg/write.rs:263-272 | a duplicate joins its leader's group and adopts its class |
| Segments.Segment.Lead | engine/src/segment/seg/write.rs:275-291 | a new body is filed under every signature of its plan |
| Segments.Segment.Tombstone | engine/src/segment/seg/write.rs:314-324 | a deleted row is dead, both counters stay the counts of live rows and of live rows with phrases, and everything else is as before |
| Segments.Segment.HasPhrasePredicates | engine/src/segment/seg/write.rs:102-105 | true iff some live row carries a phrase |
| Segments.Segment.BuildFilter | engine/src/segment/seg/write.rs:56-68 | sealing attaches a filter over the keys of all three lanes |
| Segments.FilterPasses | engine/src/segment/seg/matching.rs:83-88 | the filter never turns away a stored signature of any lane |
| Segments.Segment.EmitGroup | engine/src/segment/seg/matching.rs:316-405 | one run of the exact check on the leader's body answers for the whole group; liveness and the row predicate are per row |
| Segments.Segment.Visit | engine/src/segment/seg/matching.rs:271-315 | each leader is examined once across all signatures |
| Segments.Segment.Probe | engine/src/segment/seg/matching.rs:243-315 | probing through the filter is probing without it |
| Segments.Segment.MatchCollect | engine/src/segment/seg/matching.rs:47-239 | the returned rows, each once, are exactly the accepted live rows that are candidates of the lanes asked for |
| Segments.CandidateIsHit | engine/src/explain.rs:150-182 | a row is reached through the three indexes iff its own plan shares a signature with the title |
| Retrieval.IsCandidate | engine/src/explain.rs:150-182 | the explanation's signature sets give the candidate relation of the real probe |
| Retrieval.CandidateExact | engine/src/compile/plan.rs:97-257 | when a satisfied query is a candidate: its lane is read and, if it is filed under a phrase alone, a label of the phrase is among the probed features; without colliding keys, only then |
| Retrieval.MatchTitle | engine/src/segment/seg/matching.rs:47-239 | filter, index, probe and check together return no row but brute force returns it, every such row whose filed phrase shows a label, every row whose query the title satisfies, and without colliding keys nothing more |
| Retrieval.LabelDecides | engine/src/compile/plan.rs:134-145 | a phrase-filed query is probed if a label of the phrase is a probed feature, and iff when keys do not collide |
| Retrieval.TrueMatchShown | engine/src/compile/plan.rs:134-145 | a title that satisfies the query shows a label of the phrase it is filed under |
| Retrieval.UnshownIsUndecided | engine/src/compile.rs:182-224 | an accepted row that is not shown is no match: some search for its phrases gave up |
| Retrieval.OverBudgetUnshown | engine/src/normalize.rs:169-180 | such rows exist: every complete title with more positions than the search has states passes the check of any quoted word it does not contain |
| Retrieval.PinnedIsVisible | engine/src/compile.rs:532-547 | pinning adds a class-C query to default reads and leaves the read with the broad lane unchanged |
| EndToEnd.StoreText | engine/src/segment/seg/write.rs:217-312 | storing a text succeeds exactly when the reference parser accepts it and its plan is admitted, and every stored row stays what the reference reads in its text |
| EndToEnd.RowIsReference | engine/ref-matcher/src/semantic.rs:129-163 | on a well-formed title the reference tree's answer for a stored row, its own phrase search included, is the meaning of the row's body |
| EndToEnd.NeverMissed | docs/decisions/adr-120-quoted-phrase-token-graph-semantics.md:114-124 | for every well-formed title, decided or not, a live row on a lane that is read is accepted and reached when the reference accepts the title for its text |
| EndToEnd.StoredTextIsFound | engine/src/segment/seg/matching.rs:47-239 | on a well-formed title, when no search for its phrases gives up, a row on a lane that is read is checked and reached iff the reference accepts |
| EndToEnd.ReadTexts | engine/src/segment/seg/matching.rs:47-239 | a whole segment stored from texts, for every well-formed title: the read returns only live rows of the lanes asked for, every one whose text the reference accepts, and beyond those only rows one of whose phrase searches gave up |
| ClusterLog.StepSafe | engine/src/cluster/clog.rs:253-293 | every append, checkpoint (failing at any step), commit, crash and reopening keeps the log's invariant |
| ClusterLog.RunSafe | engine/src/cluster/clog.rs:467-561 | so does every run |
| ClusterLog.ReplayIsComplete | engine/src/cluster/clog.rs:483-497 | in a safe state replay after the cursor holds, in order, every acknowledged later mutation; every other entry is one whose append reported an error |
| ClusterLog.EveryRunReplays | engine/src/cluster/clog.rs:467-561 | over every run from the empty log, failed directory syncs and what they may bring back included: the file passes its own increasing check and replay is complete in that sense |
| ClusterLog.ReversalExact | engine/src/storage.rs:149-158 | when a failed directory sync lets the old file come back, replay stays complete iff each append acknowledged since the rename is committed or in the old file too |
| ClusterLog.UnsyncedAppendIsLost | engine/src/cluster/clog.rs:540-551 | any append acknowledged by a reopened log whose last rename was never synced is lost by that reversal, unless the same record is in the old file |
| ClusterLog.FailedSyncReaches | engine/src/cluster/clog.rs:512-561 | a run that reaches such a log: create, append, checkpoint with a failing sync, restart |
| ClusterLog.FloorExact | engine/src/cluster/clog.rs:266-272 | opening leaves a safe log iff the committed cursor is at most the floor or the last position in the file |
| ClusterLog.LowFloorLoses | engine/src/cluster/clog.rs:266-272 | with any lower floor, from every safe log, the next acknowledged append gets a position that no replay from the cursor returns |
| ClusterLog.RunEverywhere | engine/src/cluster/clog.rs:467-561 | over every run each record in the file, or in a file that may come back, was written by an append |
| ClusterLog.ParseEntries | engine/src/cluster/clog.rs:449-463 | the loop accepts exactly the files whose positions start above zero and strictly increase |
| ClusterLog.FileClusterLog.constructor | engine/src/cluster/clog.rs:253-293 | opening drops a torn tail and continues after the greater of floor and last position |
| ClusterLog.FileClusterLog.Append | engine/src/cluster/clog.rs:467-481 | a position is used up whatever happens, acknowledged only when the write was, and a failure disables the handle |
| ClusterLog.FileClusterLog.Replay | engine/src/cluster/clog.rs:483-497 | the records after a position and the bytes dropped on the way, reported once |
| ClusterLog.FileClusterLog.Checkpoint | engine/src/cluster/clog.rs:512-561 | the file is replaced by the later records or, before the rename, untouched; a rename that reports failure may have taken effect, and counts as one that was not synced; a failed handle stops taking appends |
| FramedLog.WriteFrame | engine/src/storage/framed_log.rs:205-222 | a file of frames becomes the file of one more frame, and the write fails only when the length does not fit its field |
| FramedLog.ScanRecords | engine/src/storage/framed_log.rs:142-184 | the scanning loop, whose decoder may look at the records before, computes the recursive reading of the file |
| FramedLog.ScanFrames | engine/src/storage/framed_log.rs:142-184 | whole frames followed by anything read as their records, then as what follows |
| FramedLog.UnfinishedTail | engine/src/storage/framed_log.rs:99-184 | part of a frame is never read as a record |
| FramedLog.WrittenIsRead | engine/src/storage/framed_log.rs:99-222 | a file of written frames and any cut of the next one reads back as exactly those records, or is refused exactly when the cut is neither short, zero nor droppable |
| FramedLog.EmbeddedFrameRefused | engine/src/storage/framed_log.rs:118-138 | such cuts exist: whatever the checksum, a body that contains a whole frame, cut anywhere behind it, is refused |
| FramedLog.DroppedHidesNothing | engine/src/storage/framed_log.rs:99-140 | a tail that is dropped holds no complete record at any later offset |
| FramedLog.RepairKeeps | engine/src/storage/framed_log.rs:188-202 | cutting a file back to what was read leaves what is read |
| MutationCodec.DecodeEncode | engine/src/cluster/clog/codec.rs:14-74 | decoding an encoded mutation gives it back with its position, for every mutation |
| MutationCodec.EncodingIsFaithful | engine/src/cluster/clog.rs:359-419 | different mutations or positions have different bytes |
| MutationCodec.LogFileIsItsRecords | engine/src/cluster/clog.rs:423-463 | the bytes of a log file with an unfinished last write, read with the check that positions increase, give back exactly its records, or are refused exactly when the cut is |
| MutationCodec.EveryRunReadsBack | engine/src/cluster/clog.rs:423-561 | for the final state of every run, reading the bytes of its file gives its records, and replay from them is complete |
| CrcFrames.ChangedBodyRefused | engine/src/storage/framed_log.rs:161-169 | with the real checksum, a complete frame with one byte of its body changed is never read, whatever is around it |
| Allocator.RankingComplete | engine/src/cluster/allocator.rs:56-63 | a position's ranking lists every node once |
| Allocator.PlanAssignments | engine/src/cluster/allocator.rs:49-74 | one assignment per position in order, on as many distinct nodes as the clamped factor |
| Allocator.AddMovesMinimally | engine/src/cluster/allocator.rs:45-74 | a new node is only inserted, and at most the last entry drops out, for every factor |
| Allocator.RemoveMovesMinimally | engine/src/cluster/allocator.rs:45-74 | removing a node touches only the positions that held it, and there the others keep their order |
| Allocator.PlanIgnoresOrder | engine/src/cluster/allocator.rs:45-62 | the plan does not depend on the order of the node list |
| Control.ChangeListing | engine/src/cluster/control.rs:414-462 | each change keeps nodes, assignments and generations the sorted listings of last-writer-wins maps |
| Control.DocumentIsCanonical | engine/src/cluster/control.rs:414-462 | after any sequence of changes the lists are the only listings of the written maps |
| Control.CountIsDense | engine/src/cluster/control.rs:437-455 | a shard-count change leaves exactly one assignment per position and keeps the survivors |
| Control.RebalanceReachesPlan | engine/src/cluster/allocator.rs:78-86 | committing the difference puts every desired assignment in force, and the next difference is empty |
| Control.RebalanceIsPlan | engine/src/cluster/allocator.rs:76-86 | for a plan over the document's positions the assignments become the plan itself |
| Control.SingleNodeCanonical | engine/src/cluster/control.rs:470-497 | the first document is canonical |
| Control.InMemoryControlPlane.Propose | engine/src/cluster/control.rs:571-589 | one change and one epoch per proposal, and the document stays canonical |
| Control.InMemoryControlPlane.Replace | engine/src/cluster/control.rs:419-431 | retain, push and sort turns the listing of a map into the listing of the map with that key overwritten |
| Control.InMemoryControlPlane.FillPositions | engine/src/cluster/control.rs:444-452 | the fill loop adds a default exactly where a position has none |
| Ownership.ValidatePlacement | engine/src/ownership.rs:147-190 | accepted exactly when the placement is valid, and otherwise the error names the check that fails first |
| Ownership.ValidateContext | engine/src/ownership.rs:307-336 | accepted exactly when the route is non-empty, in range, strictly increasing and holds the evaluator, and otherwise the error names the check that fails first |
| Ownership.OneFault | engine/src/ownership.rs:147-190 | no other error fits a faulty placement or route |
| Ownership.CheckPositions | engine/src/ownership.rs:318-330 | the reported error is that of the first offending position |
| Ownership.SelectivePlacement | engine/src/ownership.rs:79-94 | a placement is built exactly when it can be valid, with the given positions sorted without repeats |
| Ownership.FromRaw | engine/src/ownership.rs:131-145 | stored fields are read back as the placement they came from, or refused |
| Ownership.LeastCommon | engine/src/ownership.rs:379-388 | the two-pointer walk finds the least common position, or there is none |
| Ownership.Owner | engine/src/ownership.rs:373-393 | the owner by mode, and nobody across generations or shard counts |
| Ownership.ShouldEmit | engine/src/ownership.rs:463-468 | a shard emits iff it is the owner |
| Ownership.BatchShouldEmit | engine/src/ownership.rs:511-521 | the batch policy decides each title as that title's own policy does |
| Ownership.ExactlyOnce | engine/src/ownership.rs:370-393 | exactly one routed shard emits a selective row iff placement and route meet, at the least common position; always-visible rows have exactly one emitter; broad rows iff an evaluator is set; nothing is emitted across generations |
| Dictionary.MaskFacts | engine/src/dict.rs:282-295 | the bits given out are distinct, none below 64 is left unused, and no feature without one is more frequent than a feature with one |
| Dictionary.StepValid | engine/src/dict.rs:195-295 | interning, bumping and finalizing keep names and dense ids in bijection and never move a bit |
| Dictionary.RunKeeps | engine/src/dict.rs:195-295 | so does every run |
| Dictionary.HotStaysHot | engine/src/dict.rs:282-295 | a feature that is hot once is hot ever after, which the pair lane needs |
| Dictionary.Dict.Intern | engine/src/dict.rs:195-210 | the known id of a known name, else the next dense id |
| Dictionary.Dict.BumpFreq | engine/src/dict.rs:270-276 | the frequency of one id grows, saturating |
| Dictionary.Dict.FinalizeMask | engine/src/dict.rs:282-295 | the first call gives bits by a frequency ranking and later calls change nothing |
| Dictionary.RankByFrequency | engine/src/dict.rs:286-288 | the ids in falling order of frequency, each once |
| Dictionary.Dict.MaskInverse | engine/src/dict.rs:313-321 | a two-sided inverse of the bits |

## Left out

- Title analysis, vocabulary matching and Unicode folding: an analyzer is any function from text to features and to a phrase graph whose arcs run forward and carry labels.
- Title views: the positive, negative and probed features are sets; the source searches sorted slices. That a probe includes the positive features and the labels of the positive graph, and that title arcs run forward inside the title, are conditions on the view.
- The packed exact store, whose required hot features are bit masks: a stored body is the query itself.
- Segments.Segment.MatchCollect: does not model deadlines, collectors that stop early and probe counters; tags and ownership are one predicate per row, and the interpreter of packed predicates is the check on the query itself.
- Segments.Segment.AddCompiled: does not model logical ids, versions, tags and rank values of a row.
- Segments: memory-mapped segments, compaction, merging and the columnar batch kernel.
- CandidateIndexing.Push: does not model the compressed container layout; the compressed tier is an ascending list without repeats, and ids are unbounded naturals.
- Extraction.Extract: does not model the interning and frequency bumps it performs on the way; the read-only form with synthetic ids is the same function of another analyzer.
- ClusterLog: file-system calls are outcomes chosen freely at each step. A crash keeps what was acknowledged in the file it leaves, which without a sync per write is true of process crashes only.
- MutationCodec.DecodeEncode: does not model UTF-8 validity, which is any predicate the texts of the mutation satisfy.
- FramedLog.ScanRecords: does not model error messages; a refused file and a record that fails its checksum or decoding are error kinds.
- Control: move and resize intents, membership changes of voters, wire formats and the consensus backend.
- Allocator.PlanAssignments: does not model an empty node list, which its callers exclude.
- Dictionary: synthetic ids, fingerprints, persistence and kind tags.
- Ownership: the check that a shard's own position is routed, which has one branch.
- Probabilistic claims: false-positive rate of the filter, balance of placement, expected movement.
- The write-ahead log of a single node, point-in-time reads, ranking, routing of titles to shards, remote procedure calls, metrics, settings and command-line tools.
