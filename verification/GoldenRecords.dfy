/** Golden records, redirects, the ER index and the provenance table of one tenant, as values. */
module Lifecycle {
  import opened Text
  import opened MergeGraph
  import opened Sources

  datatype RecordState = Active | Provisional | Superseded | Tombstoned

  /** A row of `golden_records_index`. */
  datatype GoldenRecord = GoldenRecord(state: RecordState, successor: Option<Id>)

  datatype ResolutionMethod = Deterministic | Probabilistic | Graph | Human | MergeInheritance

  datatype IndexEntry = IndexEntry(entityId: Id, confidence: real, how: ResolutionMethod, provisional: bool)

  /** The primary key of the provenance table. */
  datatype AttributeKey = AttributeKey(entityId: Id, attribute: string)

  /** The source record an attribute's value comes from. */
  datatype WinningSource = WinningSource(connectorId: string, recordId: string)

  datatype Tables = Tables(records: map<Id, GoldenRecord>,
                           redirects: Links,
                           index: map<SourceKey, IndexEntry>,
                           provenance: map<AttributeKey, WinningSource>)

  const NO_TABLES := Tables(map[], map[], map[], map[])

  datatype ErOperation = Upsert | MergeOperation | Remove

  // ---- State transitions ----------------------------------------------------------

  function Successors(records: map<Id, GoldenRecord>): Links {
    map id | id in records && records[id].successor.Some? :: records[id].successor.value
  }

  /** The state `create_or_activate` leaves a record in. */
  function ActivatedState(records: map<Id, GoldenRecord>, id: Id): RecordState {
    if id !in records then Active
    else if records[id].state in {Tombstoned, Superseded} then Active
    else records[id].state
  }

  function Activated(t: Tables, id: Id): Tables {
    t.(records := t.records[id := GoldenRecord(ActivatedState(t.records, id), None)])
  }

  function MadeProvisional(t: Tables, id: Id): Tables {
    t.(records := t.records[id := GoldenRecord(Provisional, None)])
  }

  function Buried(t: Tables, id: Id): Tables {
    t.(records := t.records[id := GoldenRecord(Tombstoned, None)])
  }

  /** The end of the survivor's successor chain takes the loser over. */
  function Merged(t: Tables, loser: Id, survivor: Id): Tables {
    var ultimate := Resolve(Successors(t.records), survivor);
    t.(records := t.records[loser := GoldenRecord(Superseded, Some(ultimate))],
       redirects := t.redirects[loser := ultimate])
  }

  // ---- Source changes ---------------------------------------------------------------

  function Repointed(index: map<SourceKey, IndexEntry>, loser: Id, survivor: Id): map<SourceKey, IndexEntry> {
    map key | key in index ::
      if index[key].entityId == loser then index[key].(entityId := survivor, how := MergeInheritance)
      else index[key]
  }

  /** The attribute of the given entity is won by the given source record of the given entity. */
  predicate WonBy(provenance: map<AttributeKey, WinningSource>, key: AttributeKey, id: Id, source: SourceKey) {
    && key in provenance && key.entityId == id
    && provenance[key] == WinningSource(source.connectorId, source.recordId)
  }

  function WithoutSource(provenance: map<AttributeKey, WinningSource>, id: Id, source: SourceKey)
    : map<AttributeKey, WinningSource>
  {
    map key | key in provenance && !WonBy(provenance, key, id, source) :: provenance[key]
  }

  predicate HasProvenance(provenance: map<AttributeKey, WinningSource>, id: Id) {
    exists key :: key in provenance && key.entityId == id
  }

  function BuriedIfEmpty(t: Tables, id: Id): Tables {
    if HasProvenance(t.provenance, id) then t else Buried(t, id)
  }

  function Inserted(t: Tables, source: SourceKey, entry: IndexEntry): Tables {
    var known := if entry.provisional then MadeProvisional(t, entry.entityId) else Activated(t, entry.entityId);
    known.(index := t.index[source := entry])
  }

  function SourceDropped(t: Tables, id: Id, source: SourceKey): Tables {
    BuriedIfEmpty(t.(provenance := WithoutSource(t.provenance, id, source)), id)
  }

  function Removed(t: Tables, source: SourceKey): Tables {
    if source !in t.index then t
    else SourceDropped(t.(index := t.index - {source}), t.index[source].entityId, source)
  }

  function Migrated(t: Tables, source: SourceKey, prior: Id, entry: IndexEntry): Tables {
    Inserted(SourceDropped(t, prior, source), source, entry)
  }

  function MergePropagated(t: Tables, loser: Id, survivor: Id): Tables {
    var merged := Merged(t, loser, survivor);
    merged.(index := Repointed(t.index, loser, survivor))
  }

  // ---- Runs ------------------------------------------------------------------------------

  datatype Event =
    | CreateOrActivate(id: Id)
    | MakeProvisional(id: Id)
    | Tombstone(id: Id)
    | Merge(loser: Id, survivor: Id)
    | PropagateInsert(source: SourceKey, entry: IndexEntry)
    | PropagateDelete(source: SourceKey)
    | PropagateSplit(source: SourceKey, prior: Id, entry: IndexEntry)
    | PropagateMerge(loser: Id, survivor: Id)
    | RecordWinners(provenance: map<AttributeKey, WinningSource>) // Stage 3 rewrites the provenance table

  function Step(t: Tables, e: Event): Tables {
    match e
    case CreateOrActivate(id) => Activated(t, id)
    case MakeProvisional(id) => MadeProvisional(t, id)
    case Tombstone(id) => Buried(t, id)
    case Merge(loser, survivor) => Merged(t, loser, survivor)
    case PropagateInsert(source, entry) => Inserted(t, source, entry)
    case PropagateDelete(source) => Removed(t, source)
    case PropagateSplit(source, prior, entry) => Migrated(t, source, prior, entry)
    case PropagateMerge(loser, survivor) => MergePropagated(t, loser, survivor)
    case RecordWinners(provenance) => t.(provenance := provenance)
  }

  function Run(t: Tables, events: seq<Event>): Tables
    decreases |events|
  {
    if events == [] then t else Run(Step(t, events[0]), events[1..])
  }

  // ---- The shape of the successor graph -------------------------------------------------------

  predicate SuccessorsAreSupersessions(records: map<Id, GoldenRecord>) {
    forall id :: id in records ==> (records[id].state == Superseded <==> records[id].successor.Some?)
  }

  ghost predicate WellFormed(t: Tables) {
    && SuccessorsAreSupersessions(t.records)
    && CyclesAreSelfLoops(Successors(t.records))
  }

  /** The records whose successor the event clears. */
  function Cleared(t: Tables, e: Event): set<Id> {
    match e
    case CreateOrActivate(id) => {id}
    case MakeProvisional(id) => {id}
    case Tombstone(id) => {id}
    case PropagateInsert(_, entry) => {entry.entityId}
    case PropagateDelete(source) =>
      if source in t.index then Emptied(t, t.index[source].entityId, source) else {}
    case PropagateSplit(source, prior, entry) => Emptied(t, prior, source) + {entry.entityId}
    case _ => {}
  }

  /** The entity, if the source won all it has. */
  function Emptied(t: Tables, id: Id, source: SourceKey): set<Id> {
    if HasProvenance(WithoutSource(t.provenance, id, source), id) then {} else {id}
  }

  predicate IsMerge(e: Event) {
    e.Merge? || e.PropagateMerge?
  }

  lemma DroppedOnLinks(t: Tables, id: Id, source: SourceKey)
    ensures Successors(SourceDropped(t, id, source).records) == Successors(t.records) - Emptied(t, id, source)
    ensures SourceDropped(t, id, source).redirects == t.redirects
  {
  }

  lemma InsertedOnLinks(t: Tables, source: SourceKey, entry: IndexEntry)
    ensures Successors(Inserted(t, source, entry).records) == Successors(t.records) - {entry.entityId}
    ensures Inserted(t, source, entry).redirects == t.redirects
  {
  }

  /** Every other event drops the links of the records it clears. */
  lemma ClearingOnLinks(t: Tables, e: Event)
    requires !IsMerge(e)
    ensures Successors(Step(t, e).records) == Successors(t.records) - Cleared(t, e)
    ensures Step(t, e).redirects == t.redirects
  {
    match e
    case PropagateInsert(source, entry) => InsertedOnLinks(t, source, entry);
    case PropagateDelete(source) =>
      if source in t.index {
        DroppedOnLinks(t.(index := t.index - {source}), t.index[source].entityId, source);
      }
    case PropagateSplit(source, prior, entry) =>
      DroppedOnLinks(t, prior, source);
      InsertedOnLinks(SourceDropped(t, prior, source), source, entry);
    case CreateOrActivate(_) =>
    case MakeProvisional(_) =>
    case Tombstone(_) =>
    case RecordWinners(_) =>
  }

  /** A merge adds one link, to the end of a chain. */
  lemma MergeOnLinks(t: Tables, e: Event)
    requires WellFormed(t) && IsMerge(e)
    ensures var links := Successors(t.records);
            var ultimate := Resolve(links, e.survivor);
            && Terminal(links, ultimate)
            && Successors(Step(t, e).records) == links[e.loser := ultimate]
            && Step(t, e).redirects == t.redirects[e.loser := ultimate]
  {
    ResolveEnds(Successors(t.records), e.survivor);
  }

  lemma StepKeepsSupersessions(t: Tables, e: Event)
    requires SuccessorsAreSupersessions(t.records)
    ensures SuccessorsAreSupersessions(Step(t, e).records)
  {
    match e
    case PropagateInsert(source, entry) => InsertKeepsSupersessions(t, source, entry);
    case PropagateDelete(source) =>
    case PropagateSplit(source, prior, entry) =>
      InsertKeepsSupersessions(SourceDropped(t, prior, source), source, entry);
    case CreateOrActivate(_) =>
    case MakeProvisional(_) =>
    case Tombstone(_) =>
    case Merge(_, _) =>
    case PropagateMerge(_, _) =>
    case RecordWinners(_) =>
  }

  lemma InsertKeepsSupersessions(t: Tables, source: SourceKey, entry: IndexEntry)
    requires SuccessorsAreSupersessions(t.records)
    ensures SuccessorsAreSupersessions(Inserted(t, source, entry).records)
  {
  }

  lemma StepKeepsShape(t: Tables, e: Event)
    requires WellFormed(t)
    ensures WellFormed(Step(t, e))
  {
    StepKeepsSupersessions(t, e);
    if IsMerge(e) {
      MergeOnLinks(t, e);
      LinkKeepsSelfLoops(Successors(t.records), e.loser, Resolve(Successors(t.records), e.survivor));
    } else {
      ClearingOnLinks(t, e);
      UnlinkKeepsSelfLoops(Successors(t.records), Cleared(t, e));
    }
  }

  /** From empty tables, a record is superseded exactly when it has a successor, and every cycle of
      successors is a self-loop. */
  lemma {:induction false} RunsKeepShape(t: Tables, events: seq<Event>)
    requires WellFormed(t)
    ensures WellFormed(Run(t, events))
    decreases |events|
  {
    if events != [] {
      StepKeepsShape(t, events[0]);
      RunsKeepShape(Step(t, events[0]), events[1..]);
    }
  }

  /** Resolution ends at a record without a row, one that is not superseded, or one that succeeds itself. */
  lemma ResolutionEnds(events: seq<Event>, id: Id)
    ensures var t := Run(NO_TABLES, events);
            var end := Resolve(Successors(t.records), id);
            && Reaches(Successors(t.records), id, end)
            && (|| end !in t.records
                || t.records[end].state != Superseded
                || t.records[end].successor == Some(end))
  {
    RunsKeepShape(NO_TABLES, events);
    ResolveEnds(Successors(Run(NO_TABLES, events).records), id);
  }

  // ---- What a merge moves --------------------------------------------------------------------

  /** A merge moves exactly the records whose chain passes through the loser, and moves them to the
      survivor's ultimate successor. */
  lemma MergeMovesFollowers(t: Tables, loser: Id, survivor: Id, id: Id)
    requires WellFormed(t)
    ensures var before, after := Successors(t.records), Successors(MergePropagated(t, loser, survivor).records);
            Resolve(after, id) == if Reaches(before, id, loser) then Resolve(before, survivor) else Resolve(before, id)
  {
    MergeOnLinks(t, PropagateMerge(loser, survivor));
    LinkRedirectsFollowers(Successors(t.records), loser, Resolve(Successors(t.records), survivor), id);
  }

  /** What each index entry resolves to moves likewise, though the loser's entries now name the survivor
      the merge was called with. */
  lemma MergeMovesEntries(t: Tables, loser: Id, survivor: Id, source: SourceKey)
    requires WellFormed(t) && source in t.index
    ensures var before, after := Successors(t.records), MergePropagated(t, loser, survivor);
            var named := t.index[source].entityId;
            && after.index.Keys == t.index.Keys
            && Resolve(Successors(after.records), after.index[source].entityId)
               == if Reaches(before, named, loser) then Resolve(before, survivor) else Resolve(before, named)
  {
    var before, named := Successors(t.records), t.index[source].entityId;
    if named == loser {
      assert Nth(before, named, 0) == loser;
      MergeMovesFollowers(t, loser, survivor, survivor);
    } else {
      MergeMovesFollowers(t, loser, survivor, named);
    }
  }

  /** The sources indexed at an entity. */
  function SourcesAt(index: map<SourceKey, IndexEntry>, id: Id): set<SourceKey> {
    set source | source in index && index[source].entityId == id
  }

  /** Repointing moves the loser's sources to the survivor and keeps every other entry. */
  lemma RepointMovesSources(index: map<SourceKey, IndexEntry>, loser: Id, survivor: Id)
    ensures var after := Repointed(index, loser, survivor);
            && after.Keys == index.Keys
            && SourcesAt(after, survivor) == SourcesAt(index, survivor) + SourcesAt(index, loser)
            && (loser != survivor ==>
                  && SourcesAt(after, loser) == {}
                  && |SourcesAt(after, survivor)| == |SourcesAt(index, survivor)| + |SourcesAt(index, loser)|)
            && (forall id :: id != loser && id != survivor ==> SourcesAt(after, id) == SourcesAt(index, id))
  {
    var after := Repointed(index, loser, survivor);
    assert SourcesAt(after, survivor) == SourcesAt(index, survivor) + SourcesAt(index, loser);
    if loser != survivor {
      SizesAdd(SourcesAt(index, survivor), SourcesAt(index, loser));
    }
  }

  lemma SizesAdd<T>(a: set<T>, b: set<T>)
    requires a !! b
    ensures |a + b| == |a| + |b|
  {
  }

  predicate Names(t: Tables, id: Id) {
    exists source :: source in t.index && t.index[source].entityId == id
  }

  predicate IsSuperseded(t: Tables, id: Id) {
    id in t.records && t.records[id].state == Superseded
  }

  predicate NoEntryIsSuperseded(t: Tables) {
    forall source :: source in t.index ==> !IsSuperseded(t, t.index[source].entityId)
  }

  /** A merge leaves index entries at a superseded record exactly if the loser has entries, and is its
      own survivor or has a survivor that was merged away earlier. */
  lemma EntriesLeaveSupersededIff(t: Tables, loser: Id, survivor: Id)
    requires NoEntryIsSuperseded(t)
    ensures NoEntryIsSuperseded(MergePropagated(t, loser, survivor))
            <==> (Names(t, loser) ==> survivor != loser && !IsSuperseded(t, survivor))
  {
    var after := MergePropagated(t, loser, survivor);
    if source :| source in t.index && t.index[source].entityId == loser {
      assert after.index[source].entityId == survivor;
      if survivor != loser && !IsSuperseded(t, survivor) {
        forall s | s in after.index ensures !IsSuperseded(after, after.index[s].entityId) {
          assert !IsSuperseded(t, t.index[s].entityId);
        }
      }
    } else {
      forall s | s in after.index ensures !IsSuperseded(after, after.index[s].entityId) {
        assert !IsSuperseded(t, t.index[s].entityId);
      }
    }
  }

  /** After merging b into c, merging a into b leaves a's entry at b, which is superseded. */
  lemma MergeIntoMergedLeavesEntry(source: SourceKey, entry: IndexEntry)
    requires entry.entityId == "a"
    ensures var t := Run(NO_TABLES, [PropagateInsert(source, entry), PropagateMerge("b", "c")]);
            NoEntryIsSuperseded(t) && !NoEntryIsSuperseded(MergePropagated(t, "a", "b"))
  {
    var first, second := PropagateInsert(source, entry), PropagateMerge("b", "c");
    RunOfTwo(NO_TABLES, first, second);
    var t := Step(Step(NO_TABLES, first), second);
    assert t.index[source].entityId == "a" && IsSuperseded(t, "b");
    EntriesLeaveSupersededIff(t, "a", "b");
  }

  lemma RunOfTwo(t: Tables, first: Event, second: Event)
    ensures Run(t, [first, second]) == Step(Step(t, first), second)
  {
    assert [first, second][1..] == [second];
    assert Run(Step(t, first), [second]) == Run(Step(Step(t, first), second), []);
  }

  // ---- Redirects against successors -----------------------------------------------------------

  /** Both loops find the same record for every id. */
  ghost predicate RedirectsAgree(t: Tables) {
    Agree(Successors(t.records), t.redirects)
  }

  /** The redirect table holds all successors, and else only self-loops. */
  ghost predicate RedirectsMatch(t: Tables) {
    SameUpToSelfLoops(Successors(t.records), t.redirects)
  }

  /** The event clears no record that another one has superseded. */
  predicate KeepsMergedRecords(t: Tables, e: Event) {
    forall id :: id in Cleared(t, e) ==> Terminal(Successors(t.records), id)
  }

  /** While the tables match, the next event keeps both loops in agreement exactly if it re-activates,
      tombstones and makes provisional no record that another one has superseded. */
  lemma StepKeepsAgreementIff(t: Tables, e: Event)
    requires WellFormed(t) && RedirectsMatch(t)
    ensures RedirectsAgree(Step(t, e)) <==> KeepsMergedRecords(t, e)
    ensures KeepsMergedRecords(t, e) ==> RedirectsMatch(Step(t, e))
  {
    if IsMerge(e) {
      MergeOnLinks(t, e);
      StepKeepsShape(t, e);
      assert RedirectsMatch(Step(t, e));
      forall id ensures Resolve(Step(t, e).redirects, id) == Resolve(Successors(Step(t, e).records), id) {
        SameResolution(Successors(Step(t, e).records), Step(t, e).redirects, id);
      }
    } else {
      ClearingOnLinks(t, e);
      DroppedLinksAgreeIff(Successors(t.records), t.redirects, Cleared(t, e));
    }
  }

  /** After merging a into b and re-activating a, its redirect still leads to b, but it succeeds itself. */
  lemma ReactivationDisagrees()
    ensures var t := Run(NO_TABLES, [Merge("a", "b"), CreateOrActivate("a")]);
            Resolve(t.redirects, "a") == "b" && Resolve(Successors(t.records), "a") == "a"
  {
    RunOfTwo(NO_TABLES, Merge("a", "b"), CreateOrActivate("a"));
    var merged := Merged(NO_TABLES, "a", "b");
    assert Resolve(Successors(NO_TABLES.records), "b") == "b";
    assert merged.redirects == map["a" := "b"];
    assert Successors(Activated(merged, "a").records) == map[];
  }

  predicate RunKeepsMergedRecords(t: Tables, events: seq<Event>)
    decreases |events|
  {
    events != [] ==>
      KeepsMergedRecords(t, events[0]) && RunKeepsMergedRecords(Step(t, events[0]), events[1..])
  }

  lemma {:induction false} RunsMatch(t: Tables, events: seq<Event>)
    requires WellFormed(t) && RedirectsMatch(t) && RunKeepsMergedRecords(t, events)
    ensures RedirectsMatch(Run(t, events))
    decreases |events|
  {
    if events != [] {
      StepKeepsAgreementIff(t, events[0]);
      StepKeepsShape(t, events[0]);
      RunsMatch(Step(t, events[0]), events[1..]);
    }
  }

  /** In every run that clears no merged record, `resolve_redirect` and `resolve_successor` agree. */
  lemma RedirectsFollowSuccessors(events: seq<Event>, id: Id)
    requires RunKeepsMergedRecords(NO_TABLES, events)
    ensures var t := Run(NO_TABLES, events); Resolve(t.redirects, id) == Resolve(Successors(t.records), id)
  {
    RunsKeepShape(NO_TABLES, events);
    RunsMatch(NO_TABLES, events);
    var t := Run(NO_TABLES, events);
    SameResolution(Successors(t.records), t.redirects, id);
  }

  // ---- Repeating a step ---------------------------------------------------------------------------

  /** Every write is idempotent: an event processed twice in a row leaves what processing it once leaves. */
  lemma StepTwiceIsOnce(t: Tables, e: Event)
    requires WellFormed(t)
    ensures Step(Step(t, e), e) == Step(t, e)
  {
    match e
    case Merge(loser, survivor) => MergeTwice(t, loser, survivor);
    case PropagateMerge(loser, survivor) => MergeTwice(t, loser, survivor);
    case PropagateSplit(source, prior, entry) => MigrateTwice(t, source, prior, entry);
    case PropagateInsert(source, entry) => InsertTwice(t, source, entry);
    case PropagateDelete(source) => RemoveTwice(t, source);
    case CreateOrActivate(_) =>
    case MakeProvisional(_) =>
    case Tombstone(_) =>
    case RecordWinners(_) =>
  }

  lemma RemoveTwice(t: Tables, source: SourceKey)
    ensures Removed(Removed(t, source), source) == Removed(t, source)
  {
    assert source !in Removed(t, source).index;
  }

  lemma MergeTwice(t: Tables, loser: Id, survivor: Id)
    requires WellFormed(t)
    ensures Merged(Merged(t, loser, survivor), loser, survivor) == Merged(t, loser, survivor)
  {
    MergeOnLinks(t, Merge(loser, survivor));
    var before := Successors(t.records);
    LinkRedirectsFollowers(before, loser, Resolve(before, survivor), survivor);
  }

  lemma InsertTwice(t: Tables, source: SourceKey, entry: IndexEntry)
    ensures Inserted(Inserted(t, source, entry), source, entry) == Inserted(t, source, entry)
  {
  }

  lemma InsertAfterBurial(t: Tables, source: SourceKey, prior: Id, entry: IndexEntry)
    requires prior in t.records && t.records[prior] == GoldenRecord(Tombstoned, None)
    ensures Inserted(Buried(Inserted(t, source, entry), prior), source, entry) == Inserted(t, source, entry)
  {
    var once := Inserted(t, source, entry);
    var again := Inserted(Buried(once, prior), source, entry);
    forall id | id in again.records ensures id in once.records && again.records[id] == once.records[id] {}
    assert again.records == once.records;
  }

  lemma MigrateTwice(t: Tables, source: SourceKey, prior: Id, entry: IndexEntry)
    ensures Migrated(Migrated(t, source, prior, entry), source, prior, entry) == Migrated(t, source, prior, entry)
  {
    var left := WithoutSource(t.provenance, prior, source);
    assert WithoutSource(left, prior, source) == left;
    var dropped := SourceDropped(t, prior, source);
    InsertTwice(dropped, source, entry);
    if !HasProvenance(left, prior) {
      InsertAfterBurial(dropped, source, prior, entry);
    }
  }

  // ---- Tombstones ----------------------------------------------------------------------------------

  /** Some other source record won an attribute of the entity. */
  predicate OthersWon(t: Tables, id: Id, source: SourceKey) {
    exists key :: key in t.provenance && key.entityId == id && !WonBy(t.provenance, key, id, source)
  }

  /** Some other source record is indexed at the entity. */
  predicate OthersIndexed(t: Tables, id: Id, source: SourceKey) {
    exists other :: other in t.index && other != source && t.index[other].entityId == id
  }

  /** Deleting an indexed source tombstones its entity exactly if no other source had won anything there, and
      not, as documented, when its last indexed source goes: it is tombstoned with a source left if nothing
      else was won but another source is indexed, and kept without any in the opposite case. */
  lemma DeleteTombstonesIff(t: Tables, source: SourceKey)
    requires source in t.index
    ensures var id := t.index[source].entityId;
            var after := Removed(t, source);
            var kept := HasProvenance(after.provenance, id);
            && after.records == (if kept then t.records else t.records[id := GoldenRecord(Tombstoned, None)])
            && (kept <==> OthersWon(t, id, source))
            && (!kept && Names(after, id) <==> !OthersWon(t, id, source) && OthersIndexed(t, id, source))
            && (kept && !Names(after, id) <==> OthersWon(t, id, source) && !OthersIndexed(t, id, source))
  {
    var id := t.index[source].entityId;
    var after := Removed(t, source);
    if key :| key in t.provenance && key.entityId == id && !WonBy(t.provenance, key, id, source) {
      assert key in WithoutSource(t.provenance, id, source);
    }
    if other :| other in t.index && other != source && t.index[other].entityId == id {
      assert other in after.index && after.index[other].entityId == id;
    }
    if other :| other in after.index && after.index[other].entityId == id {
      assert other in t.index && other != source;
    }
  }

  /** Two sources are indexed at an entity and the first wins its only attribute: deleting the first
      tombstones the entity while the second is still indexed at it. */
  lemma TombstoneWithSourceLeft(source: SourceKey, other: SourceKey, entry: IndexEntry)
    requires source != other
    ensures var winners := map[AttributeKey(entry.entityId, "name")
                               := WinningSource(source.connectorId, source.recordId)];
            var t := Run(NO_TABLES, [PropagateInsert(source, entry), PropagateInsert(other, entry),
                                     RecordWinners(winners)]);
            var after := Step(t, PropagateDelete(source));
            && source in t.index && other in after.index && after.index[other] == entry
            && entry.entityId in after.records && after.records[entry.entityId].state == Tombstoned
  {
    var winners := map[AttributeKey(entry.entityId, "name") := WinningSource(source.connectorId, source.recordId)];
    var first, second := PropagateInsert(source, entry), PropagateInsert(other, entry);
    assert [first, second, RecordWinners(winners)][1..] == [second, RecordWinners(winners)];
    RunOfTwo(Step(NO_TABLES, first), second, RecordWinners(winners));
    var t := Step(Step(Step(NO_TABLES, first), second), RecordWinners(winners));
    assert t.provenance == winners && t.index == map[source := entry, other := entry];
    DeleteTombstonesIff(t, source);
  }

  /** A source is indexed at an entity of which another one, indexed elsewhere by now, still wins an attribute:
      deleting it keeps the entity as it was, without any source. */
  lemma KeptWithoutSources(source: SourceKey, other: WinningSource, entry: IndexEntry)
    requires other != WinningSource(source.connectorId, source.recordId) && !entry.provisional
    ensures var winners := map[AttributeKey(entry.entityId, "name") := other];
            var t := Run(NO_TABLES, [PropagateInsert(source, entry), RecordWinners(winners)]);
            var after := Step(t, PropagateDelete(source));
            && source in t.index && !Names(after, entry.entityId)
            && entry.entityId in after.records && after.records[entry.entityId].state == Active
  {
    var key := AttributeKey(entry.entityId, "name");
    RunOfTwo(NO_TABLES, PropagateInsert(source, entry), RecordWinners(map[key := other]));
    var t := Step(Step(NO_TABLES, PropagateInsert(source, entry)), RecordWinners(map[key := other]));
    assert t.index == map[source := entry] && t.provenance == map[key := other];
    assert key in t.provenance && !WonBy(t.provenance, key, entry.entityId, source);
    DeleteTombstonesIff(t, source);
  }
}

/** The tables of one tenant, changed in place by the state machine and the CRUD steps. */
module GoldenRecordTables {
  import opened Text
  import opened MergeGraph
  import opened Sources
  import opened Lifecycle

  class GoldenRecordStore {
    var records: map<Id, GoldenRecord>
    var redirects: Links
    var index: map<SourceKey, IndexEntry>
    var provenance: map<AttributeKey, WinningSource>

    function Contents(): Tables
      reads this
    {
      Tables(records, redirects, index, provenance)
    }

    constructor ()
      ensures Contents() == NO_TABLES
    {
      records, redirects, index, provenance := map[], map[], map[], map[];
    }

    // ---- Table operations ---------------------------------------------------------

    method UpsertGoldenRecord(id: Id, state: RecordState, successor: Option<Id>)
      modifies this`records
      ensures records == old(records)[id := GoldenRecord(state, successor)]
    {
      records := records[id := GoldenRecord(state, successor)];
    }

    /** Follows successors until one has none, or was met before. */
    method ResolveSuccessor(id: Id) returns (survivor: Id)
      ensures survivor == Resolve(Successors(records), id)
    {
      ghost var links := Successors(records);
      var visited: set<Id> := {};
      survivor := id;
      while survivor !in visited
        invariant Follow(links, survivor, visited) == Resolve(links, id)
        decreases links.Keys - visited, survivor !in visited
      {
        if survivor !in records || records[survivor].successor.None? {
          return;
        }
        visited := visited + {survivor};
        survivor := records[survivor].successor.value;
      }
    }

    method InsertRedirect(loser: Id, survivor: Id)
      modifies this`redirects
      ensures redirects == old(redirects)[loser := survivor]
    {
      redirects := redirects[loser := survivor];
    }

    method ResolveRedirect(id: Id) returns (survivor: Id)
      ensures survivor == Resolve(redirects, id)
    {
      var visited: set<Id> := {};
      survivor := id;
      while survivor !in visited
        invariant Follow(redirects, survivor, visited) == Resolve(redirects, id)
        decreases redirects.Keys - visited, survivor !in visited
      {
        if survivor !in redirects {
          return;
        }
        visited := visited + {survivor};
        survivor := redirects[survivor];
      }
    }

    method UpsertEntry(source: SourceKey, entry: IndexEntry)
      modifies this`index
      ensures index == old(index)[source := entry]
    {
      index := index[source := entry];
    }

    method DeleteBySource(source: SourceKey) returns (id: Option<Id>)
      modifies this`index
      ensures index == old(index) - {source}
      ensures id == if source in old(index) then Some(old(index)[source].entityId) else None
    {
      if source !in index {
        return None;
      }
      id := Some(index[source].entityId);
      index := index - {source};
    }

    method RepointToSurvivor(loser: Id, survivor: Id) returns (count: nat)
      modifies this`index
      ensures index == Repointed(old(index), loser, survivor)
      ensures loser != survivor ==>
                && SourcesAt(index, loser) == {}
                && |SourcesAt(index, survivor)| == |SourcesAt(old(index), survivor)| + count
      ensures forall id :: id != loser && id != survivor ==> SourcesAt(index, id) == SourcesAt(old(index), id)
    {
      RepointMovesSources(index, loser, survivor);
      count := |SourcesAt(index, loser)|;
      index := Repointed(index, loser, survivor);
    }

    method DeleteProvenanceForSource(id: Id, source: SourceKey) returns (affected: set<string>)
      modifies this`provenance
      ensures provenance == WithoutSource(old(provenance), id, source)
      ensures forall name :: name in affected
                             <==> AttributeKey(id, name) in old(provenance)
                                  && AttributeKey(id, name) !in provenance
    {
      affected := set key | key in provenance && WonBy(provenance, key, id, source) :: key.attribute;
      provenance := WithoutSource(provenance, id, source);
      assert forall name :: AttributeKey(id, name) in old(provenance) && AttributeKey(id, name) !in provenance
                            ==> AttributeKey(id, name).attribute in affected;
    }

    // ---- The state machine ------------------------------------------------------------

    method CreateOrActivate(id: Id) returns (state: RecordState)
      modifies this
      ensures Contents() == Step(old(Contents()), Event.CreateOrActivate(id))
      ensures state == records[id].state
    {
      if id !in records {
        state := Active;
      } else if records[id].state in {Tombstoned, Superseded} {
        state := Active;
      } else {
        state := records[id].state;
      }
      UpsertGoldenRecord(id, state, None);
    }

    method Merge(loser: Id, survivor: Id)
      modifies this
      ensures Contents() == Step(old(Contents()), Event.Merge(loser, survivor))
    {
      var ultimate := ResolveSuccessor(survivor);
      UpsertGoldenRecord(loser, Superseded, Some(ultimate));
      InsertRedirect(loser, ultimate);
    }

    method Tombstone(id: Id)
      modifies this
      ensures Contents() == Step(old(Contents()), Event.Tombstone(id))
    {
      UpsertGoldenRecord(id, Tombstoned, None);
    }

    method MakeProvisional(id: Id)
      modifies this
      ensures Contents() == Step(old(Contents()), Event.MakeProvisional(id))
    {
      UpsertGoldenRecord(id, Provisional, None);
    }

    // ---- Propagation of source changes ---------------------------------------------------

    method PropagateInsert(source: SourceKey, entry: IndexEntry) returns (operation: ErOperation)
      modifies this
      ensures Contents() == Step(old(Contents()), Event.PropagateInsert(source, entry))
      ensures operation == Upsert
    {
      if entry.provisional {
        MakeProvisional(entry.entityId);
      } else {
        var _ := CreateOrActivate(entry.entityId);
      }
      UpsertEntry(source, entry);
      operation := Upsert;
    }

    method PropagateDelete(source: SourceKey) returns (operation: ErOperation, id: Option<Id>)
      modifies this
      ensures Contents() == Step(old(Contents()), Event.PropagateDelete(source))
      ensures id == if source in old(index) then Some(old(index)[source].entityId) else None
      ensures operation == if id.Some? && HasProvenance(provenance, id.value) then Upsert else Remove
    {
      id := DeleteBySource(source);
      if id.None? {
        assert index == old(index);
        return Remove, None;
      }
      var _ := DeleteProvenanceForSource(id.value, source);
      if !HasProvenance(provenance, id.value) {
        Tombstone(id.value);
        return Remove, id;
      }
      operation := Upsert;
    }

    method PropagateResolutionSplit(source: SourceKey, prior: Id, entry: IndexEntry) returns (operation: ErOperation)
      modifies this
      ensures Contents() == Step(old(Contents()), PropagateSplit(source, prior, entry))
      ensures operation == Upsert
    {
      var _ := DeleteProvenanceForSource(prior, source);
      if !HasProvenance(provenance, prior) {
        Tombstone(prior);
      }
      operation := PropagateInsert(source, entry);
    }

    method PropagateMerge(loser: Id, survivor: Id) returns (operation: ErOperation)
      modifies this
      ensures Contents() == Step(old(Contents()), Event.PropagateMerge(loser, survivor))
      ensures operation == MergeOperation
    {
      Merge(loser, survivor);
      var _ := RepointToSurvivor(loser, survivor);
      operation := MergeOperation;
    }
  }
}
