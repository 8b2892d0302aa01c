# Verified model of the Nexus Spark library

This project models the parts of the Nexus Spark library that keep golden records consistent, and proves
what those parts promise.

* **Stage 3 survivorship** (`Sources`, `Survivorship`, `HashTracking`, `BatchEquivalence`,
  `UpdateEquivalence`, `DocumentedRules`, `Counterexamples`, `ProvenanceHash`, `StableSort`, each in the file of
  its name; `SynthesisSteps` and `Synthesis` in `SynthesisContext.dfy`). Each attribute of a golden record keeps
  one winning source row. Arrivals are judged against the standing winner only; deleted sources and cleared
  values are re-elected over all remaining sources; a hash summarises the winners. `Survivorship` says what one
  call does to the state of a golden record; the class `Synthesis.SynthesisContext` does it as the source does,
  loop by loop, and each of its methods is proved equal to its specification. About that specification the
  project proves, attribute by attribute and for every rule, exactly when incremental judging agrees with a full
  election over whole histories of arrivals, updates and deletes; that the recorded hash follows the stored rows
  over whole runs; when replays are silent; and that the hashed text determines the winners.
  `Counterexamples` leads from a new golden record to the states in which each exact condition fails.
* **The Stage 0 predicate language** (`Predicate`, `LeafForms`, `LeafReading`, `PredicateGrammar`,
  `PredicateMeaning`, `Materialization`, and `Text` for the character helpers, each in the file of its name).
  The character-level splitter, the parenthesis matcher, the regular expressions of the six leaf forms and the
  recursive evaluator; a grammar with a printer and Kleene's three-valued meaning. Evaluating printed text gives
  the meaning of the tree, and knowing more fields never undoes a definite result or worsens the deciding rule.
* **Golden-record lifecycle** (`MergeGraph`; `Lifecycle` and `GoldenRecordTables` in `GoldenRecords.dfy`). The
  tables of one tenant under the state machine and the CRUD steps, and what every run keeps about the graph of
  successors, the redirects and the ER index.
* **Confirmed, archived publication** (`RawChunks`; `Publication` in `ConfirmedProducer.dfy`). The producer
  between an archive that may fail and a Kafka client that may refuse, delay or fail any message. The invariant
  `Valid` holds after every call, whether it succeeds or raises, so it holds in every run.
* **The backfill window planner** (`Calendar`, `BackfillWindows`). Dates with month-end clamping, planning,
  the compare-and-set cursor, and any interleaving of workers.
* **Matching kernels** (`TextSimilarity`, `SignalB`, `SignalA`; `Fields`, `ResolveIndex` and
  `ResolveIndexTables` in `ErResolveIndex.dfy`). Jaro-Winkler with its two match arrays, the phone blocking index
  and its scoring loop, and the rule by which an update may skip being resolved again.

Where the source mutates an object, the model is a class with the same fields, and its methods are proved
against functions over plain values; the properties are lemmas about those functions. SHA-256, UTF-8, JSON,
the tests of predicate leaves on field values, value comparison and attribute similarity are parameters, and so
are the writes that the object store confirms and the messages that Kafka takes: every theorem holds for all of
them, and assumes nothing that its `requires` does not say.

## Where code and documentation differ

The model follows the code; these are the differences met on the way, with the exact condition and, after it,
the input that meets its failing side.

* "Same sources, same output, regardless of processing order" (`stage3_synthesise.py:19-20`): through any history
  of first arrivals and deletes, the stored row is the winner of the full election all along if and only if, at
  every arrival, the arriving record beats the standing row exactly when it comes before the standing winner in
  the election (`ElectedThroughoutIff`). That is so of itself for most rules (`ComparableMeasuresAgree`);
  `first_observed` needs arrivals in timestamp order (`FirstObservedAgreesInOrder`, `OlderArrivalExists`),
  `most_complete` compares a cached count here and an index score there (`CompletenessDisagreesExists`), and
  `manual` elects nobody but keeps a value (`ManualValueExists`). The election itself does not depend on the
  order of the sources if and only if nothing ties with its winner (`ElectIgnoresOrderIff`); on a tie the first
  arrival stays (`TiedArrivalsExist`).
* An UPDATE of an indexed source keeps the stored row equal to the full election if and only if nothing it
  changed goes unrecorded (`UpdateAgreesIff`, and `StaysElectedIff` over whole histories): a `source_priority`
  winner's own update, for one, is lost (`OwnUpdateExists`).
* "Longest non-null string value wins" and "only include if all sources agree exactly"
  (`stage3_synthesise.py:16-17`): the code stores the earliest indexed source with a value under both rules
  (`EarliestIsStored`). A longest value is stored if and only if that source has one (`LongestValueIff`,
  `ShorterFirstExists`), and a row is stored exactly when it should be if and only if all values agree
  (`ExactMatchIff`, `DisagreementStoredExists`).
* A golden record is said to be tombstoned when its last source is removed (`crud_propagation.py:83`), but
  the code tests whether any provenance row is left. The delete is wrong if and only if other sources are indexed
  but won nothing, or won something but are not indexed (`DeleteTombstonesIff`, `TombstoneWithSourceLeft`,
  `KeptWithoutSources`).
* Tombstoning in Stage 3 empties the provenance store but leaves the recorded hash
  (`TombstoneLeavesStaleHash`, `StaleHashExists`).
* A replayed record is silent unless a cleared attribute was re-elected from a second table under the same
  connector and record id (`ReplayIsSilent`, `LoudReplayExists`).
* Redirects keep pointing away from a merged record that is re-activated, made provisional or tombstoned,
  while its successor is cleared (`StepKeepsAgreementIff`, `ReactivationDisagrees`).
* A merge repoints index entries to the survivor it was called with, which may itself have been merged away
  (`EntriesLeaveSupersededIff`, `MergeIntoMergedLeavesEntry`); what the entries resolve to is right all the
  same (`MergeMovesEntries`).
* Draining a backfill ends exactly at the boundary, from everywhere, if and only if the window length can still
  be added on the day before the boundary (`AlwaysDrainsIff`, `LastMonthIsNotDrained`): planning fails where
  one more length would leave the calendar, even if the boundary lies within it.
* An update may skip re-resolution without losing a deterministic match, unless a configured column name is
  empty (`SkippingIsSafeIff`, `EmptyColumnIsMissed`) or equal numbers print differently
  (`EqualNumbersMayDiffer`; `AlwaysAgreeIff` says for which records Signal A cannot tell).
* A successful `flush` means that everything handed to Kafka was acknowledged, not that everything accepted
  was handed over: that holds if and only if no call has raised for a refused hand-over (`Flush`). After one,
  the rest of the chunk stays archived only, and a later `flush` may succeed all the same (`LoseWire`).
* The parenthesis matcher ignores quotes: a tree may stand in parentheses if and only if its text is balanced, or
  it is unknown anyway (`ParenMeansIff`); a literal may if and only if its own parentheses are balanced
  (`LiteralIsSafeIff`), and otherwise the whole group is unknown (`UnmatchedIsUnknown`).
* A low bound of BETWEEN is read back if and only if it holds no AND between blanks (`BetweenReadsIff`,
  `AndIsCutOff`), and a list of IN if and only if no item holds a comma (`ListIsReadIff`); a value with a comma is
  in no list (`CommaIsNeverFound`).

## Model

| member | source | states |
|---|---|---|
| Synthesis.SynthesisContext.Synthesise | nexus_spark_lib/transform/stage3_synthesise.py:225-351 | the attribute loop, the writes, the tracked rows, the hash decision and the report together have exactly the specified effect on the golden record and return the specified result |
| Synthesis.SynthesisContext.EvaluateAttributes | nexus_spark_lib/transform/stage3_synthesise.py:275-312 | one pass collects the changes and deletions of each attribute judged against the rows read before the loop, and unwinds exactly the winners that cleared their value |
| Synthesis.SynthesisContext.HandleClearedAttribute | nexus_spark_lib/transform/stage3_synthesise.py:376-441 | a cleared value unwinds the row only of the source that won it, and the replacement is the full election over the other sources |
| Synthesis.SynthesisContext.WriteChanges | nexus_spark_lib/transform/stage3_synthesise.py:314-318 | the store ends with every collected row applied in order, and the flag says whether any write changed it |
| Synthesis.SynthesisContext.UpsertReturningChanged | nexus_spark_lib/transform/stage3_synthesise.py:574-576 | an upsert reports a change exactly when the store differs afterwards |
| Synthesis.SynthesisContext.ReElectWinner | nexus_spark_lib/transform/stage3_synthesise.py:683-734 | the elected row is the first of the candidates with a current lake value after a stable sort by the rule; manual attributes elect nobody |
| Synthesis.SynthesisContext.HandleSourceDelete | nexus_spark_lib/transform/stage3_synthesise.py:586-680 | unknown sources change nothing, the last source tombstones, otherwise exactly the attributes the source won are re-elected or removed and the hash is recomputed |
| Synthesis.SynthesisContext.ReElectAttributes | nexus_spark_lib/transform/stage3_synthesise.py:639-671 | the lost attributes end with their elected rows or without a row, in whatever order they are taken |
| SynthesisSteps.StoreEndsWithRowsAfter | nexus_spark_lib/transform/stage3_synthesise.py:275-318 | unwinding and then upserting leaves exactly the row each verdict asks for |
| SynthesisSteps.TrackedRowsAreRowsAfter | nexus_spark_lib/transform/stage3_synthesise.py:314-325 | the dictionary that the hash and the result are computed from equals the store |
| SynthesisSteps.ChangedExactlyWhenTouched | nexus_spark_lib/transform/stage3_synthesise.py:314-335 | the flag that triggers re-hashing is raised exactly when some verdict touched an attribute |
| Survivorship.PriorityRank | nexus_spark_lib/transform/stage3_synthesise.py:857-861 | the rank is the first position of the connector in the list, or the length of the list if it is not there |
| BatchEquivalence.StoredRowsAreElected | nexus_spark_lib/transform/stage3_synthesise.py:225-351 | after any history of first arrivals and deletes in which the rule's two measures can be compared, the stored row of an attribute is the winner of a full election over the sources now indexed, whatever the rules of the other attributes |
| BatchEquivalence.ElectedThroughoutIff | nexus_spark_lib/transform/stage3_synthesise.py:225-351 | under any rule, the stored row is the elected one all through a history if and only if the incremental measure and that of the election agree at every arrival |
| BatchEquivalence.ArrivalKeepsAgreement | nexus_spark_lib/transform/stage3_synthesise.py:535-571 | judging an arrival against the standing winner alone keeps the agreement with the full election, where the two measures of the rule can be compared |
| BatchEquivalence.DepartureKeepsAgreement | nexus_spark_lib/transform/stage3_synthesise.py:586-671 | re-electing only what the deleted source had won keeps it too |
| BatchEquivalence.ArrivalElectsIff | nexus_spark_lib/transform/stage3_synthesise.py:794-836 | one comparison of the arriving record with the standing winner gives the row that the full election over all sources picks, if and only if the two measures agree on that pair |
| BatchEquivalence.ArrivalKeepsElectedIff | nexus_spark_lib/transform/stage3_synthesise.py:535-571 | a first arrival, with or without a value, leaves the elected row stored if and only if the measures agree |
| BatchEquivalence.ComparableMeasuresAgree | nexus_spark_lib/transform/stage3_synthesise.py:794-836 | the measures agree of themselves under source_priority, most_recent, longest_value and exact_match, for new connectors under most_confident, and in timestamp order under first_observed |
| BatchEquivalence.KeptWinnerStays | nexus_spark_lib/transform/stage3_synthesise.py:683-734 | removing a source that won nothing leaves the winner of the election as it was, under every rule |
| BatchEquivalence.ArrivalOrderIsIrrelevant | nexus_spark_lib/transform/stage3_synthesise.py:19-20 | histories that end with the same sources, none of which ties with the winner, store the same row however they got there |
| BatchEquivalence.ElectIgnoresOrderIff | nexus_spark_lib/transform/stage3_synthesise.py:683-734 | the elected row is the same for every order of the index entries if and only if no candidate ties with the winner |
| StableSort.OrderIsIrrelevantIff | nexus_spark_lib/transform/stage3_synthesise.py:714-722 | the head of the stable sort is the same for every listing of the candidates if and only if nothing ties with it |
| BatchEquivalence.FirstObservedAgreesInOrder | nexus_spark_lib/transform/stage3_synthesise.py:794-836 | under first_observed a later arrival agrees with the full election if and only if it is not older than the standing winner |
| UpdateEquivalence.UpdateAgreesIff | nexus_spark_lib/transform/stage3_synthesise.py:225-441 | after an UPDATE the stored row of an attribute is the winner of the full election if and only if nothing the update changed goes unrecorded, told from the state and the record before the call |
| UpdateEquivalence.OwnRowAgreesIff | nexus_spark_lib/transform/stage3_synthesise.py:535-571 | an update of the standing winner keeps the agreement if and only if it still wins the election, and its row is the same as before or is beaten by one with another value |
| UpdateEquivalence.WinsOverItself | nexus_spark_lib/transform/stage3_synthesise.py:794-836 | an updated winner beats its own row, but for most_complete, only under most_recent, with a newer timestamp and the attribute in the diff |
| UpdateEquivalence.RivalRowAgreesIff | nexus_spark_lib/transform/stage3_synthesise.py:535-571 | an update of another source agrees if and only if it is put in place of the standing row exactly when the election prefers it, ties included |
| UpdateEquivalence.NoValueAgrees | nexus_spark_lib/transform/stage3_synthesise.py:376-441 | an update without a value of the attribute always leaves the full election's winner, unwinding its own row if it had one |
| UpdateEquivalence.ManualAgreesIff | nexus_spark_lib/transform/stage3_synthesise.py:535-571 | an update with a value of a manual attribute agrees with the election, which knows no winner, if and only if the attribute is not in the diff |
| UpdateEquivalence.StaysElectedIff | nexus_spark_lib/transform/stage3_synthesise.py:225-441 | through any history of first arrivals, updates and deletes, the stored row is the elected one all along if and only if the measures agree at every arrival and every update is recorded |
| Counterexamples.OlderArrivalExists | nexus_spark_lib/transform/stage3_synthesise.py:794-836 | a reachable state and an older arrival after which first_observed disagrees with the full election |
| Counterexamples.OwnUpdateExists | nexus_spark_lib/transform/stage3_synthesise.py:794-836 | a reachable state and an update of the source_priority winner that is not recorded |
| Counterexamples.StaleHashExists | nexus_spark_lib/transform/stage3_synthesise.py:624-633 | a reachable state and a delete after which the recorded hash is stale |
| Counterexamples.LoudReplayExists | nexus_spark_lib/transform/stage3_synthesise.py:376-441 | a reachable state and a cleared record whose replay is not silent |
| Counterexamples.TiedArrivalsExist | nexus_spark_lib/transform/stage3_synthesise.py:794-836 | two histories of the same two sources with equal timestamps that store different rows |
| Counterexamples.ManualValueExists | nexus_spark_lib/transform/stage3_synthesise.py:794-836 | a reachable state that stores a row of a manual attribute, which the election knows no winner of |
| Counterexamples.CompletenessDisagreesExists | nexus_spark_lib/transform/stage3_synthesise.py:839-855 | a reachable state and an arrival after which most_complete disagrees with the full election |
| DocumentedRules.EarliestIsStored | nexus_spark_lib/transform/stage3_synthesise.py:16-17 | under longest_value and exact_match, any history of first arrivals and deletes ends with the row of the earliest indexed source with a value |
| DocumentedRules.LongestValueIff | nexus_spark_lib/transform/stage3_synthesise.py:16 | a longest value is stored if and only if the earliest indexed source with a value has one |
| DocumentedRules.ExactMatchIff | nexus_spark_lib/transform/stage3_synthesise.py:17 | a row is stored exactly when there is a value and all sources agree, if and only if all values there are agree |
| Counterexamples.ShorterFirstExists | nexus_spark_lib/transform/stage3_synthesise.py:794-836 | a reachable state that stores the shorter of two values under longest_value |
| Counterexamples.DisagreementStoredExists | nexus_spark_lib/transform/stage3_synthesise.py:794-836 | a reachable state that stores a row under exact_match although two sources disagree |
| HashTracking.HashTracksProvenance | nexus_spark_lib/transform/stage3_synthesise.py:320-335 | from the first synthesis of a new entity, through any run of synthesis calls, deletes and changes elsewhere, until a tombstone, the recorded hash is the hash of the stored rows |
| HashTracking.ResultDescribesStore | nexus_spark_lib/transform/stage3_synthesise.py:247-351 | the returned provenance and contributors describe exactly the store that is left, and hash_changed is true exactly when the recorded hash moved |
| HashTracking.HashChangedMeansWinnersChanged | nexus_spark_lib/transform/stage3_synthesise.py:327-335 | with a collision-free hash, hash_changed is true exactly when some winning record id or value hash changed |
| HashTracking.TombstoneLeavesStaleHash | nexus_spark_lib/transform/stage3_synthesise.py:624-633 | after a tombstone the recorded hash still matches if and only if there was nothing to delete |
| HashTracking.ReplayIsSilent | nexus_spark_lib/transform/stage3_synthesise.py:225-441 | replaying a record at once leaves store and hash alone and reports nothing, if and only if no cleared attribute was re-elected from the same connector and record id |
| HashTracking.ReplayOfNamedSourceIsSilent | nexus_spark_lib/transform/stage3_synthesise.py:225-441 | if connector and record id name one source, every replay is silent, for every rule kind, INSERT and UPDATE, cleared attributes included |
| ProvenanceHash.SummaryIgnoresInsertionOrder | nexus_spark_lib/_internal/hash_utils.py:39-60 | the canonical text does not depend on the order in which the winners were inserted |
| ProvenanceHash.SummaryInjective | nexus_spark_lib/_internal/hash_utils.py:39-60 | the canonical text determines every attribute, record id and value hash, if names lack = and the bar, record ids lack the bar, and hashes are hexadecimal |
| ProvenanceHash.DigestInjective | nexus_spark_lib/transform/stage3_synthesise.py:579-583 | with a collision-free hash, equal provenance hashes mean equal winners, and conversely |
| ProvenanceHash.SeparatorInRecordIdCollides | nexus_spark_lib/_internal/hash_utils.py:39-60 | a bar in a record id makes a one-attribute record print like any given two-attribute one |
| Predicate.SplitTopLevel | nexus_spark_lib/models/materialization.py:413-446 | the index loop over depth, quote and BETWEEN flags cuts exactly where the scan of the remaining text does |
| Predicate.Turn | nexus_spark_lib/models/materialization.py:424-444 | each turn of the loop advances, and keeps the parts cut so far and the rest of the scan equal to the whole scan |
| Predicate.ScanShortens | nexus_spark_lib/models/materialization.py:413-446 | when a text is split at all, every part is strictly shorter than the text, which is why evaluation ends on any text |
| Predicate.MatchingCloseParen | nexus_spark_lib/models/materialization.py:449-459 | the index found is that of the first parenthesis that brings the depth back to zero, quotes ignored |
| PredicateGrammar.SplitOr | nexus_spark_lib/models/materialization.py:413-446 | splitting printed text at OR recovers exactly the operands of the top disjunction |
| PredicateGrammar.SplitAnd | nexus_spark_lib/models/materialization.py:413-446 | splitting at AND recovers exactly the operands of the top conjunction; the AND of a BETWEEN, and those in quotes and parentheses, are left alone |
| PredicateGrammar.PassNested | nexus_spark_lib/models/materialization.py:413-446 | inside parentheses the scan passes over any printed tree without a cut and returns to its depth |
| PredicateMeaning.CloseTree | nexus_spark_lib/models/materialization.py:449-459 | the parenthesis matcher passes over any printed tree with balanced literals and returns to its depth |
| PredicateMeaning.OuterParensMatchIff | nexus_spark_lib/models/materialization.py:449-459 | the matcher takes the last character for the partner of an opening parenthesis if and only if the text between them is balanced, quotes or not |
| LeafReading.LeafIsReadBack | nexus_spark_lib/models/materialization.py:317-406 | the printed text of a comparison, IN, BETWEEN, AGE, MATCHES or COHORT leaf is read back as that form with its own attribute, symbol and literals, and as no other form; without a reading it is unknown |
| LeafReading.BetweenReadsIff | nexus_spark_lib/models/materialization.py:356-378 | a printed BETWEEN leaf is read back as its attribute and its two bounds if and only if its low bound holds no AND between blanks |
| LeafReading.AndIsCutOff | nexus_spark_lib/models/materialization.py:356-378 | a BETWEEN whose low bound is a text, AND and another text, in quotes, is not read back |
| LeafReading.ListIsReadIff | nexus_spark_lib/models/materialization.py:346-354 | the list test compares with exactly the literals of the items if and only if no item holds a comma |
| LeafReading.InMeans | nexus_spark_lib/models/materialization.py:346-354 | without commas, IN holds exactly if the field's value is one of the items, quotes stripped, and is unknown exactly without a value |
| LeafReading.CommaIsNeverFound | nexus_spark_lib/models/materialization.py:353-354 | a value with a comma is in no list, whatever the list says |
| PredicateMeaning.PrintedMeans | nexus_spark_lib/models/materialization.py:249-406 | evaluating the text of a tree that has its parentheses, with balanced text in each pair, gives the tree's three-valued meaning |
| PredicateMeaning.EveryTreeMeans | nexus_spark_lib/models/materialization.py:249-406 | for every tree with printable leaves, the text with parentheses where needed evaluates to the tree's meaning, if what stands in each pair of parentheses is balanced |
| PredicateMeaning.BalancedLiteralsMatch | nexus_spark_lib/models/materialization.py:449-459 | balanced literals are enough for that |
| PredicateMeaning.ParenMeansIff | nexus_spark_lib/models/materialization.py:311-315 | a tree in parentheses evaluates to its meaning, for all fields and leaf tests, if and only if its text is balanced or it is unknown anyway |
| PredicateMeaning.UnmatchedIsUnknown | nexus_spark_lib/models/materialization.py:311-406 | a tree in parentheses whose text is not balanced evaluates to unknown |
| PredicateMeaning.LiteralIsSafeIff | nexus_spark_lib/models/materialization.py:449-459 | a literal without quotes may stand in parentheses, for all fields and leaf tests, if and only if its own parentheses are balanced |
| Materialization.MoreFieldsKeepDefiniteResults | nexus_spark_lib/models/materialization.py:249-406 | a true or false result of any text without COHORT stays the same when more fields become known |
| Materialization.PartsHaveNoCohort | nexus_spark_lib/models/materialization.py:413-446 | splitting a text without COHORT gives parts without it |
| Materialization.Evaluate | nexus_spark_lib/models/materialization.py:115-176 | the loop, the sort and the default give the specified decision |
| Materialization.DecidingRuleIsBest | nexus_spark_lib/models/materialization.py:115-176 | the deciding rule is in force and true, no rule in force and true outranks it, and without one nothing is in force and true |
| Materialization.MoreFieldsNeverWorsenTheDecision | nexus_spark_lib/models/materialization.py:115-176 | for a policy without COHORT, more fields lose no matching rule, and the decider's priority, rule-type rank and expiry never get worse |
| MergeGraph.ResolveEnds | nexus_spark_lib/db/golden_records.py:99-120 | where cycles are self-loops, following links ends at a record without a link or linked to itself, on the chain it started from |
| MergeGraph.LinkRedirectsFollowers | nexus_spark_lib/transform/stage2_resolve/state_machine.py:65-88 | a new link to the end of a chain moves exactly the records whose chain passes through its start |
| MergeGraph.SameResolution | nexus_spark_lib/db/redirects.py:36-55 | tables that differ by self-loops only resolve every id alike |
| MergeGraph.DroppedLinksAgreeIff | nexus_spark_lib/transform/stage2_resolve/state_machine.py:41-63 | dropping successors but not redirects keeps both loops in agreement if and only if none of them led to another record |
| Lifecycle.RunsKeepShape | nexus_spark_lib/transform/stage2_resolve/state_machine.py:41-111 | in every run a record is superseded exactly when it has a successor, and every cycle of successors is a self-loop |
| Lifecycle.ResolutionEnds | nexus_spark_lib/db/golden_records.py:99-120 | in every reachable state resolution ends at a record that has no row, is not superseded, or succeeds itself |
| Lifecycle.ClearingOnLinks | nexus_spark_lib/transform/stage2_resolve/crud_propagation.py:29-159 | every step other than a merge drops the links of exactly the records it clears, and no redirect |
| Lifecycle.MergeMovesFollowers | nexus_spark_lib/transform/stage2_resolve/crud_propagation.py:162-175 | a merge moves exactly the records whose chain passed through the loser, to the ultimate survivor |
| Lifecycle.MergeMovesEntries | nexus_spark_lib/db/er_index.py:282-304 | what each index entry resolves to moves likewise, though entries are repointed to the named survivor |
| Lifecycle.EntriesLeaveSupersededIff | nexus_spark_lib/transform/stage2_resolve/crud_propagation.py:162-175 | a merge keeps all entries off superseded records if and only if the loser has none, or its survivor is another record that is not superseded |
| Lifecycle.MergeIntoMergedLeavesEntry | nexus_spark_lib/transform/stage2_resolve/crud_propagation.py:162-175 | an insert and two merges after which an entry names a superseded record |
| Lifecycle.StepKeepsAgreementIff | nexus_spark_lib/transform/stage2_resolve/state_machine.py:41-111 | the next step keeps redirects and successors in agreement if and only if it clears no record that another has superseded |
| Lifecycle.ReactivationDisagrees | nexus_spark_lib/transform/stage2_resolve/state_machine.py:41-88 | after a merge and a re-activation the redirect leads to the survivor and the successor chain nowhere |
| Lifecycle.RedirectsFollowSuccessors | nexus_spark_lib/db/redirects.py:16-55 | in every run that clears no merged record, resolve_redirect and resolve_successor agree on every id |
| Lifecycle.StepTwiceIsOnce | nexus_spark_lib/db/golden_records.py:6-8 | every step is idempotent: done twice in a row it leaves what doing it once leaves |
| Lifecycle.DeleteTombstonesIff | nexus_spark_lib/transform/stage2_resolve/crud_propagation.py:70-112 | a delete tombstones exactly if no other source had won anything; it tombstones with sources left if and only if others are indexed and none had won, and keeps the entity without sources if and only if others had won and none is indexed |
| Lifecycle.TombstoneWithSourceLeft | nexus_spark_lib/transform/stage2_resolve/crud_propagation.py:83-109 | a run after which deleting one of two indexed sources tombstones the entity of both |
| Lifecycle.KeptWithoutSources | nexus_spark_lib/transform/stage2_resolve/crud_propagation.py:83-109 | a run from empty tables after which an entity without any indexed source stays active |
| GoldenRecordTables.GoldenRecordStore.ResolveSuccessor | nexus_spark_lib/db/golden_records.py:99-120 | the loop over visited records ends on any table, with the end of the chain |
| GoldenRecordTables.GoldenRecordStore.ResolveRedirect | nexus_spark_lib/db/redirects.py:36-55 | likewise over the redirect table |
| GoldenRecordTables.GoldenRecordStore.DeleteProvenanceForSource | nexus_spark_lib/db/golden_records.py:212-236 | exactly the rows won by the source at the entity go, and the attributes returned are those that lost their row |
| Lifecycle.RepointMovesSources | nexus_spark_lib/db/er_index.py:282-304 | repointing keeps the keys, leaves the loser without sources, gives the survivor its own and the loser's, and no other record any |
| GoldenRecordTables.GoldenRecordStore.RepointToSurvivor | nexus_spark_lib/db/er_index.py:282-304 | unless the loser survives itself it ends without sources, the survivor gains as many as the count returned, and every other record keeps its own |
| GoldenRecordTables.GoldenRecordStore.CreateOrActivate | nexus_spark_lib/transform/stage2_resolve/state_machine.py:41-63 | new, tombstoned and superseded records become active, others keep their state, and the successor is cleared |
| GoldenRecordTables.GoldenRecordStore.Merge | nexus_spark_lib/transform/stage2_resolve/state_machine.py:65-88 | the loser is superseded by the end of the survivor's chain, in both tables |
| GoldenRecordTables.GoldenRecordStore.PropagateInsert | nexus_spark_lib/transform/stage2_resolve/crud_propagation.py:29-67 | the three writes have the specified effect on all four tables |
| GoldenRecordTables.GoldenRecordStore.PropagateDelete | nexus_spark_lib/transform/stage2_resolve/crud_propagation.py:70-112 | the entry and the rows of the source go, the entity is tombstoned if nothing is left, and the result says which |
| GoldenRecordTables.GoldenRecordStore.PropagateResolutionSplit | nexus_spark_lib/transform/stage2_resolve/crud_propagation.py:115-159 | the source leaves the prior entity, tombstoning it if it empties, and joins the new one |
| GoldenRecordTables.GoldenRecordStore.PropagateMerge | nexus_spark_lib/transform/stage2_resolve/crud_propagation.py:162-175 | the merge and the repointing have the specified effect |
| Publication.RawArchive.Persist | nexus_spark_lib/backfill_archive.py:45-71 | a chunk counts as stored only if it was within bounds, of one scope and confirmed; the record guard fires exactly out of bounds, the byte and scope guards only for chunks that break them |
| Publication.ConfirmedProducer.PublishRaw | nexus_spark_lib/backfill.py:49-63 | every call keeps the ledger (accepted = archived + buffered, Kafka holds a first part of each archived chunk in order); the byte and scope guards never fire, the record guard only after storage failed earlier; input is rejected exactly where it must be and then changes nothing; the outcome tells whether storage or hand-over failed |
| Publication.ConfirmedProducer.MakeRoom | nexus_spark_lib/backfill.py:57-58 | a message that does not belong or fit into the buffer has the buffered chunk published first, and nothing happens to an empty buffer |
| Publication.ConfirmedProducer.PublishIfFull | nexus_spark_lib/backfill.py:62-63 | the chunk is published at the record bound and not before |
| Publication.ConfirmedProducer.PublishArchivedChunk | nexus_spark_lib/backfill.py:65-80 | the buffer is cleared only after confirmed storage, and hand-over follows storage |
| Publication.ConfirmedProducer.HandOverNext | nexus_spark_lib/backfill.py:77-78 | a wire is handed to Kafka only as the next wire of a chunk that is already stored |
| Publication.ConfirmedProducer.Flush | nexus_spark_lib/backfill.py:97-105 | success means that everything handed over so far was acknowledged and that all accepted wires are archived; they are what Kafka holds, in order, if and only if no call raised for a refused hand-over; an earlier delivery error makes it fail |
| Publication.ConfirmedProducer.ConfirmDelivery | nexus_spark_lib/backfill.py:101-105 | success means that no message is in flight and none failed |
| Publication.LoseWire | nexus_spark_lib/backfill.py:65-105 | a run in which a wire is accepted and archived, Kafka refuses it, the first flush raises and the second succeeds without it |
| RawChunks.StoredBeforeHanded | nexus_spark_lib/backfill.py:65-80 | every archived message in Kafka's log carries a wire of a stored chunk, to its topic and under its tenant's key |
| RawChunks.FullCountsHandAll | nexus_spark_lib/backfill.py:65-80 | while no hand-over failed, Kafka's sequence is the archived chunks concatenated |
| RawChunks.AllHandedIffFull | nexus_spark_lib/backfill.py:65-80 | Kafka's sequence is the archived chunks concatenated if and only if every chunk was handed over whole |
| RawChunks.NoneCounted | nexus_spark_lib/backfill.py:101-105 | a pending count of zero means that no single message is pending |
| Calendar.OrdinalKeepsOrder | nexus_spark_lib/backfill_windows.py:31-53 | the order of dates by year, month and day is the order of their day numbers |
| Calendar.AddDaysOrdinal | nexus_spark_lib/backfill_windows.py:24-27 | adding days adds to the day number, exactly while the result is in the calendar |
| Calendar.MovesOn | nexus_spark_lib/backfill_windows.py:13-28 | a day, week, month or quarter length moves a date strictly on, with the day of the month clamped |
| Calendar.EarlierMoves | nexus_spark_lib/backfill_windows.py:13-28 | a length that can be added at a date can be added at every earlier one |
| BackfillWindows.LengthIsRead | nexus_spark_lib/backfill_windows.py:13-28 | a count and a unit, singular or plural, in any case and with any blanks around, is read as exactly that many days, weeks, months or quarters, and rejected for any other unit, a count below 1 or too many days |
| BackfillWindows.AcceptedIsTwoWords | nexus_spark_lib/backfill_windows.py:14-16 | whatever is accepted consists of exactly two words |
| BackfillWindows.PlannedLeadsOn | nexus_spark_lib/backfill_windows.py:31-53 | a planned window starts at the cursor and ends the length further on, or at the boundary if that is nearer |
| BackfillWindows.Checkpoint.CompleteWindow | nexus_spark_lib/backfill_windows.py:76-85 | the cursor advances only if it still is where the window was planned; a replay and an overtaken window change nothing |
| BackfillWindows.RunsTile | nexus_spark_lib/backfill_windows.py:31-85 | however workers interleave, the committed windows tile the way from the start (the stored cursor, or else the start index the policies share) to the present cursor, which never moves back |
| BackfillWindows.RunsCoverOnce | nexus_spark_lib/backfill_windows.py:31-85 | each date from the start up to the cursor is in exactly one committed window, and no other date in any; a fresh table has none before its first commit |
| BackfillWindows.OvertakenWindowsStayOut | nexus_spark_lib/backfill_windows.py:76-85 | once the cursor has left the place where a window was planned, no later event of any run commits it |
| BackfillWindows.CommittedOnce | nexus_spark_lib/backfill_windows.py:76-85 | no run commits a window a second time, however often it is completed |
| BackfillWindows.TilesCover | nexus_spark_lib/backfill_windows.py:31-53 | windows laid end to end cover exactly the dates of their range |
| BackfillWindows.TilesAreDisjoint | nexus_spark_lib/backfill_windows.py:31-53 | and no date twice |
| BackfillWindows.DrainEnds | nexus_spark_lib/backfill_windows.py:31-85 | planning and completing in turn ends, with tiles from the origin, at the boundary or where the length leads out of the calendar, and never beyond the boundary |
| BackfillWindows.DrainReachesBoundary | nexus_spark_lib/backfill_windows.py:31-85 | it ends exactly at the boundary whenever the length can still be added on the day before it |
| BackfillWindows.AlwaysDrainsIff | nexus_spark_lib/backfill_windows.py:31-85 | draining ends exactly at the boundary from every earlier cursor if and only if the length can still be added on the day before the boundary; backward likewise |
| BackfillWindows.LastMonthIsNotDrained | nexus_spark_lib/backfill_windows.py:41-49 | monthly windows up to 31 December 9999 stop short at 15 December |
| TextSimilarity.JaroWinkler | nexus_spark_lib/util/text_similarity.py:6-64 | the arrays and loops compute the specified similarity; it is in [0, 1] for every scale from 0 on, and below 1/4 it is 1 exactly if the trimmed lower-cased texts are equal |
| TextSimilarity.MarkMatch | nexus_spark_lib/util/text_similarity.py:26-35 | the inner loop marks the first free equal character in the window, in both arrays, or nothing |
| TextSimilarity.NextMatched | nexus_spark_lib/util/text_similarity.py:44-45 | the scan for the next matched place never leaves the second array |
| TextSimilarity.CountTranspositions | nexus_spark_lib/util/text_similarity.py:40-48 | the loop counts the places where the matched characters of the two texts, each in order, differ |
| TextSimilarity.MatchesPairOff | nexus_spark_lib/util/text_similarity.py:21-35 | as many characters are matched in one text as in the other, and they are the same characters |
| TextSimilarity.MatchesAreMaximal | nexus_spark_lib/util/text_similarity.py:26-35 | of two equal characters within the distance at least one is matched |
| TextSimilarity.JaroOfInRange | nexus_spark_lib/util/text_similarity.py:50-54 | Jaro similarity is in [0, 1], 1 only for equal texts, and 0 exactly if no two characters are matchable |
| TextSimilarity.SimilarityInRange | nexus_spark_lib/util/text_similarity.py:56-64 | up to a scale of 1/4 the prefix bonus stays in [0, 1] without the final cap, and below 1/4 it reaches 1 only for equal texts |
| TextSimilarity.CappedInRange | nexus_spark_lib/util/text_similarity.py:56-64 | with the cap the similarity is in [0, 1] for every scale from 0 on |
| TextSimilarity.TellsTextsApartIff | nexus_spark_lib/util/text_similarity.py:56-64 | for scales from 0 on, the similarity is 1 exactly for equal texts if and only if the scale is below 1/4 |
| TextSimilarity.CapIsIdleIff | nexus_spark_lib/util/text_similarity.py:64 | the cap is never needed if and only if the scale is at most 1/4 |
| TextSimilarity.ZeroIffNothingMatchable | nexus_spark_lib/util/text_similarity.py:37-38 | the similarity is 0 exactly for different texts of which no two characters are matchable |
| ResolveIndex.EntitiesAreLatest | nexus_spark_lib/models/er_resolve_index.py:31-47 | after any registrations the index holds the latest fields of each entity, and nothing else |
| ResolveIndex.GetFieldsIsLatest | nexus_spark_lib/models/er_resolve_index.py:49-53 | an id registered in one tenant and type only is found with its latest fields |
| ResolveIndex.PhonesAreCovered | nexus_spark_lib/db/er_broadcast_loader.py:37-47 | each entity is in the buckets of both its current phone fields |
| ResolveIndex.BucketsStayDistinct | nexus_spark_lib/db/er_broadcast_loader.py:45-47 | no bucket names an entity twice |
| ResolveIndexTables.ErResolveIndex.PutEntity | nexus_spark_lib/models/er_resolve_index.py:31-47 | the entity's fields are replaced and its deterministic keys written, in the order of the columns |
| ResolveIndexTables.ErResolveIndex.RegisterEntityFields | nexus_spark_lib/db/er_broadcast_loader.py:18-47 | a registration has the specified effect on the whole index |
| ResolveIndexTables.ErResolveIndex.GetFieldsOf | nexus_spark_lib/models/er_resolve_index.py:49-53 | the first scope that holds the entity is the one returned |
| SignalB.BlockingNeverMisses | nexus_spark_lib/transform/stage2_resolve/lsh/blocking.py:71-91 | the best score is at least that of every entity of the tenant and type with a current phone that normalises to the incoming one |
| SignalB.BestIsBest | nexus_spark_lib/transform/stage2_resolve/signals/signal_b_probabilistic.py:59-69 | the best score is the highest of all candidates, and its id is a candidate that has it; without an id it is 0 |
| SignalB.ScoreInRange | nexus_spark_lib/transform/stage2_resolve/signals/signal_b_probabilistic.py:72-99 | a score is in [0, 1] whatever the weights |
| SignalB.ScorePair | nexus_spark_lib/transform/stage2_resolve/signals/signal_b_probabilistic.py:72-99 | the loop computes the weighted mean over the attributes that count |
| SignalB.RunSignalB | nexus_spark_lib/transform/stage2_resolve/signals/signal_b_probabilistic.py:37-69 | the loop returns the first candidate with the highest positive score |
| SignalA.ComputeChangedAttributes | nexus_spark_lib/transform/stage1_normalise.py:526-536 | the diff names exactly the attributes whose values differ |
| SignalA.UpdateRequiresReresolution | nexus_spark_lib/transform/stage2_resolve/er_outcomes.py:20-55 | re-resolution is required exactly for updates of which some changed attribute matches a deterministic or a heavily weighted one |
| SignalA.MatchesAnyAttribute | nexus_spark_lib/transform/stage2_resolve/er_outcomes.py:99-111 | the loop finds a match exactly if there is one, ignoring empty configured names |
| SignalA.CollectMatches | nexus_spark_lib/transform/stage2_resolve/signals/signal_a_deterministic.py:31-52 | the matches collected are the ids found under any column's hashed or legacy key, each once |
| SignalA.RunSignalA | nexus_spark_lib/transform/stage2_resolve/signals/signal_a_deterministic.py:22-73 | the answer is the least non-empty id found under any column's hashed or legacy key |
| SignalA.AppendMatches | nexus_spark_lib/transform/stage2_resolve/signals/signal_a_deterministic.py:48-52 | the ids under both keys are added, each once |
| SignalA.SkipLosesNothing | nexus_spark_lib/transform/stage2_resolve/er_outcomes.py:20-55 | if the diff does not trigger, Signal A answers the same on the fields before and after |
| SignalA.SkippingIsSafeIff | nexus_spark_lib/transform/stage2_resolve/er_outcomes.py:99-111 | skipping is safe for all records and snapshots if and only if no column name is empty, or an empty name matches a configured one |
| SignalA.AlwaysAgreeIff | nexus_spark_lib/transform/stage2_resolve/signals/signal_a_deterministic.py:34-52 | Signal A answers alike on two records, whatever the index holds, if and only if they show the same in every deterministic column |
| SignalA.EqualNumbersMayDiffer | nexus_spark_lib/transform/stage1_normalise.py:526-542 | equal numbers that print differently are no change to the diff, yet Signal A may answer differently |

## Left out

- BatchEquivalence.StoredRowsAreElected: asks of the history what `Comparable` says for the attribute's rule; `ElectedThroughoutIff` is the form without that. UPDATE records are the subject of `StaysElectedIff`.
- BatchEquivalence.ArrivalKeepsAgreement: likewise; `ArrivalKeepsElectedIff` is the form without that.
- UpdateEquivalence.UpdateAgreesIff: takes the diff to name what changed, as `ComputeChangedAttributes` does.
- TextSimilarity.JaroWinkler: computes over the reals, so floating-point rounding is not modelled.
- SignalB.BlockingNeverMisses: assumes, as the index does, that an entity id belongs to one tenant and type.
- PredicateMeaning.EveryTreeMeans: literals hold no quotes, which the language cannot escape; BETWEEN bounds hold no line break, and low bounds no AND between blanks (`BetweenReadsIff`); how a leaf compares its literal with a field's value, as a number, date, text or regular expression, is a parameter, but for IN.
- Publication.RawArchive.Persist: the object store is reduced to "confirmed or raised"; object names, digests and metadata are not modelled.
- BackfillWindows.LengthIsRead: how `int` reads a numeral is a parameter.
- Case mapping, white space and digits are those of ASCII.
- A JSON message is decoded by a parameter; a key that is missing, or holds no string, decodes to nothing.
- Values are kept as the text they print, or as a number with the form it prints in; other types, and false or empty collections, are not modelled.
- One golden record in Stage 3, one tenant in the lifecycle tables and one table's cursor in the window planner; the other keys of the maps are independent.
- SQL text, connections, timestamps of rows and state-change reasons: each table operation is one atomic update. `apply_synthesis_result` and the survivorship rebuild are not modelled.
- Cursors are dates, as the planner writes them; a stored cursor in another spelling is not modelled.
- The list of heavily weighted attributes is given; reading weights and thresholds is not modelled.
- The MinHash index, Signal C and the order in which signals are tried.
- `MaterializationRuntimeConfig` assignments, FX conversion, Spark DataFrames and UDFs, Kafka readers and writers, vendor extraction, credentials, metrics, tracing, logging and settings.
