/** The failing sides of the exact conditions on Stage 3, each met by small inputs in a state that the code
    reaches from a new golden record: a single attribute, and one or two sources. */
module Counterexamples {
  import opened Text
  import opened Sources
  import ProvenanceHash
  import opened Survivorship
  import opened SynthesisSteps
  import opened BatchEquivalence
  import opened DocumentedRules
  import HashTracking
  import UpdateEquivalence

  /** The record has the one attribute. */
  predicate Holds(r: Record, attr: string, value: FieldValue) {
    r.fieldNames == [attr] && r.fields == map[attr := value]
  }

  /** A new entity's first record, with a value of the one attribute. */
  predicate IsFirst(e: Event, attr: string, value: string) {
    e.Arrive? && e.isNewEntity && Upper(e.record.sourceOp) != "UPDATE" && Holds(e.record, attr, Plain(value))
  }

  lemma OneRowAfter(judge: string -> Outcome, attr: string, row: Row)
    requires judge(attr) == Put(row, true)
    ensures RowsAfter(judge, map[], [attr]) == map[attr := row]
  {
  }

  lemma AbsorbOne(c: Config, st: State, judge: string -> Outcome, attr: string, row: Row)
    requires st.rows == map[] && judge(attr) == Put(row, true)
    ensures Absorbed(c, st, judge, [attr], true).0
         == st.(rows := map[attr := row], recordedHash := HashOf(c, map[attr := row]))
  {
    OneRowAfter(judge, attr, row);
    AbsorbedAs(c, st, judge, [attr], true, HashOf(c, map[attr := row]));
  }

  lemma FirstSynthesis(c: Config, st: State, r: Record, confidence: real, attr: string, value: string)
    requires st.rows == map[] && Upper(r.sourceOp) != "UPDATE" && Holds(r, attr, Plain(value))
    ensures var rows := map[attr := MadeRow(c, r, attr, value)];
            Synthesised(c, st, r, Resolution(confidence, false, true)).0
            == st.(rows := rows, recordedHash := HashOf(c, rows))
  {
    var judge := Judge(c, st, r, confidence);
    assert judge(attr) == Put(MadeRow(c, r, attr, value), true);
    AbsorbOne(c, st, judge, attr, MadeRow(c, r, attr, value));
  }

  /** A history of first arrivals leads from a new golden record to the state. */
  ghost predicate Reachable(c: Config, st: State) {
    exists history :: IsHistory(c, NEW_GOLDEN_RECORD, history) && Run(c, NEW_GOLDEN_RECORD, history) == st
  }

  /** The state after a first record. */
  function FirstState(c: Config, first: Event, attr: string, value: string): State
    requires first.Arrive?
  {
    var rows := map[attr := MadeRow(c, first.record, attr, value)];
    Indexing(NEW_GOLDEN_RECORD, first).(rows := rows, recordedHash := HashOf(c, rows))
  }

  lemma AfterIsFirstState(c: Config, first: Event, attr: string, value: string)
    requires IsFirst(first, attr, value)
    ensures After(c, NEW_GOLDEN_RECORD, first) == FirstState(c, first, attr, value)
  {
    FirstSynthesis(c, Indexing(NEW_GOLDEN_RECORD, first), first.record, first.confidence, attr, value);
  }

  lemma FirstStateHolds(c: Config, first: Event, attr: string, value: string)
    requires first.Arrive?
    ensures var st := FirstState(c, first, attr, value);
            && st.rows == map[attr := MadeRow(c, first.record, attr, value)] && st.entries == [EntryOf(first)]
            && st.lake == map[first.record.source := PresentValues(first.record)] && st.completeness == map[]
            && RowsNamed(st) && HashTracking.InSync(c, st)
  {
  }

  lemma FirstArrivalIsStored(c: Config, first: Event, attr: string, value: string) returns (st: State)
    requires IsFirst(first, attr, value)
    ensures Reachable(c, st)
    ensures st.rows == map[attr := MadeRow(c, first.record, attr, value)] && st.entries == [EntryOf(first)]
    ensures st.lake == map[first.record.source := PresentValues(first.record)] && st.completeness == map[]
    ensures RowsNamed(st) && HashTracking.InSync(c, st)
    ensures Elected(c, st, attr) <==> RuleFor(c, attr).kind != Manual
  {
    st := FirstState(c, first, attr, value);
    FirstStateHolds(c, first, attr, value);
    FirstStateIsReached(c, first, st, attr, value);
  }

  lemma FirstStateIsReached(c: Config, first: Event, st: State, attr: string, value: string)
    requires IsFirst(first, attr, value) && st == FirstState(c, first, attr, value)
    ensures Reachable(c, st)
    ensures Elected(c, st, attr) <==> RuleFor(c, attr).kind != Manual
  {
    AfterIsFirstState(c, first, attr, value);
    ReachedInOne(c, first, st, attr);
  }

  lemma ReachedInOne(c: Config, first: Event, st: State, attr: string)
    requires FirstArrival(NEW_GOLDEN_RECORD, first) && ValueOf(first.record, attr).Some?
    requires st == After(c, NEW_GOLDEN_RECORD, first)
    ensures Reachable(c, st)
    ensures Elected(c, st, attr) <==> RuleFor(c, attr).kind != Manual
  {
    RunOfOne(c, NEW_GOLDEN_RECORD, first);
    OnlySourceIsElectedIff(c, first, attr);
  }

  lemma RunOfOne(c: Config, st: State, first: Event)
    requires FirstArrival(st, first)
    ensures Run(c, st, [first]) == After(c, st, first) && IsHistory(c, st, [first])
  {
    assert Run(c, st, [first]) == Run(c, After(c, st, first), []);
    assert IsHistory(c, After(c, st, first), []);
  }

  lemma OnlySourceIsElectedIff(c: Config, first: Event, attr: string)
    requires FirstArrival(NEW_GOLDEN_RECORD, first) && ValueOf(first.record, attr).Some?
    ensures Elected(c, After(c, NEW_GOLDEN_RECORD, first), attr) <==> RuleFor(c, attr).kind != Manual
  {
    assert Elected(c, NEW_GOLDEN_RECORD, attr) by { assert Candidates(map[], [], attr) == []; }
    ArrivalKeepsElectedIff(c, NEW_GOLDEN_RECORD, first, attr);
  }

  // ---- A second source ------------------------------------------------------------------------

  /** The second record's connector or record id is another one. */
  predicate Apart(first: Event, second: Event) {
    first.Arrive? && second.Arrive? && !SameConnectorAndId(first.record.source, second.record.source)
  }

  /** What two first arrivals leave, of which the second one does not beat the first. */
  ghost predicate SecondStaysOut(c: Config, st: State, first: Event, second: Event, attr: string, value: string,
                                 other: string)
    requires first.Arrive? && second.Arrive?
  {
    && Elected(c, st, attr) && Stored(st, attr) == Some(MadeRow(c, first.record, attr, value))
    && st.entries == [EntryOf(first), EntryOf(second)]
    && Candidates(st.lake, st.entries, attr) == [Candidate(EntryOf(first), value), Candidate(EntryOf(second), other)]
  }

  lemma SecondArrival(c: Config, first: Event, second: Event, attr: string, value: string, other: string)
    returns (st: State)
    requires IsFirst(first, attr, value) && IsFirst(second, attr, other) && Apart(first, second)
    requires RuleFor(c, attr).kind == MostRecent || IsUnapplied(RuleFor(c, attr).kind)
    requires RuleFor(c, attr).kind == MostRecent ==> !Less(first.record.sourceTs, second.record.sourceTs)
    ensures Reachable(c, st) && SecondStaysOut(c, st, first, second, attr, value, other)
    ensures st.lake == map[first.record.source := PresentValues(first.record),
                           second.record.source := PresentValues(second.record)]
  {
    var before := FirstArrivalIsStored(c, first, attr, value);
    st := SecondFrom(c, before, first, second, attr, value, other);
  }

  lemma SecondFrom(c: Config, before: State, first: Event, second: Event, attr: string, value: string, other: string)
    returns (st: State)
    requires IsFirst(first, attr, value) && IsFirst(second, attr, other) && Apart(first, second)
    requires RuleFor(c, attr).kind == MostRecent || IsUnapplied(RuleFor(c, attr).kind)
    requires RuleFor(c, attr).kind == MostRecent ==> !Less(first.record.sourceTs, second.record.sourceTs)
    requires before.rows == map[attr := MadeRow(c, first.record, attr, value)] && before.entries == [EntryOf(first)]
    requires before.lake == map[first.record.source := PresentValues(first.record)]
    requires Reachable(c, before) && Elected(c, before, attr)
    ensures Reachable(c, st) && SecondStaysOut(c, st, first, second, attr, value, other)
    ensures st.lake == map[first.record.source := PresentValues(first.record),
                           second.record.source := PresentValues(second.record)]
  {
    st := SecondAfter(c, before, first, second, attr, value, other);
    SecondIndexed(before, first, second);
    TwoCandidates(before, first, second, attr, value, other);
  }

  lemma SecondIndexed(before: State, first: Event, second: Event)
    requires first.Arrive? && second.Arrive? && before.entries == [EntryOf(first)] && Apart(first, second)
    requires before.lake == map[first.record.source := PresentValues(first.record)]
    ensures var next := Indexing(before, second);
            && next.entries == [EntryOf(first), EntryOf(second)]
            && next.lake == map[first.record.source := PresentValues(first.record),
                                second.record.source := PresentValues(second.record)]
  {
  }

  lemma SecondAfter(c: Config, before: State, first: Event, second: Event, attr: string, value: string, other: string)
    returns (st: State)
    requires IsFirst(first, attr, value) && IsFirst(second, attr, other) && Apart(first, second)
    requires RuleFor(c, attr).kind == MostRecent || IsUnapplied(RuleFor(c, attr).kind)
    requires RuleFor(c, attr).kind == MostRecent ==> !Less(first.record.sourceTs, second.record.sourceTs)
    requires before.rows == map[attr := MadeRow(c, first.record, attr, value)] && before.entries == [EntryOf(first)]
    requires Reachable(c, before) && Elected(c, before, attr)
    ensures Reachable(c, st) && Elected(c, st, attr) && Stored(st, attr) == Stored(before, attr)
    ensures st.entries == Indexing(before, second).entries && st.lake == Indexing(before, second).lake
  {
    st := After(c, before, second);
    SecondIsFirstArrival(before, first, second, attr, other);
    SecondLoses(c, before, first, second, attr, value, other);
    ReachedNext(c, before, second);
    LoserStaysOut(c, before, second, attr, other);
    ArrivalAt(c, before, second, attr);
  }

  lemma ReachedNext(c: Config, st: State, e: Event)
    requires Reachable(c, st) && FirstArrival(st, e)
    ensures Reachable(c, After(c, st, e))
  {
    var history :| IsHistory(c, NEW_GOLDEN_RECORD, history) && Run(c, NEW_GOLDEN_RECORD, history) == st;
    HistoryThen(c, NEW_GOLDEN_RECORD, history, e);
  }

  lemma {:induction false} HistoryThen(c: Config, st: State, history: seq<Event>, e: Event)
    requires IsHistory(c, st, history) && FirstArrival(Run(c, st, history), e)
    ensures IsHistory(c, st, history + [e])
    ensures Run(c, st, history + [e]) == After(c, Run(c, st, history), e)
    decreases |history|
  {
    if history == [] {
      assert history + [e] == [e];
      RunOfOne(c, st, e);
    } else {
      assert (history + [e])[0] == history[0] && (history + [e])[1..] == history[1..] + [e];
      HistoryThen(c, After(c, st, history[0]), history[1..], e);
    }
  }

  lemma SecondIsFirstArrival(before: State, first: Event, second: Event, attr: string, other: string)
    requires IsFirst(second, attr, other) && Apart(first, second) && before.entries == [EntryOf(first)]
    ensures FirstArrival(before, second) && KeysDistinct(before.entries) && ValueOf(second.record, attr) == Some(other)
  {
  }

  lemma SecondLoses(c: Config, before: State, first: Event, second: Event, attr: string, value: string, other: string)
    requires IsFirst(first, attr, value) && IsFirst(second, attr, other)
    requires RuleFor(c, attr).kind == MostRecent || IsUnapplied(RuleFor(c, attr).kind)
    requires RuleFor(c, attr).kind == MostRecent ==> !Less(first.record.sourceTs, second.record.sourceTs)
    requires before.rows == map[attr := MadeRow(c, first.record, attr, value)] && before.entries == [EntryOf(first)]
    ensures LosesTo(c, before, second, attr)
  {
  }

  /** The arriving record beats the standing winner in neither measure. */
  predicate LosesTo(c: Config, before: State, second: Event, attr: string)
    requires second.Arrive? && attr in before.rows
  {
    && MeasuresAgree(c, before, second, attr)
    && !IncomingWins(RuleFor(c, attr), Indexing(before, second), second.record, second.confidence, before.rows[attr])
  }

  lemma LoserStaysOut(c: Config, before: State, second: Event, attr: string, other: string)
    requires FirstArrival(before, second) && ValueOf(second.record, attr) == Some(other)
    requires Elected(c, before, attr) && KeysDistinct(before.entries) && attr in before.rows
    requires LosesTo(c, before, second, attr)
    ensures Elected(c, After(c, before, second), attr)
    ensures Stored(After(c, before, second), attr) == Stored(before, attr)
  {
    ArrivalAt(c, before, second, attr);
    JudgedRow(c, Indexing(before, second), second.record, second.confidence, attr, other);
    ArrivalKeepsElectedIff(c, before, second, attr);
  }

  lemma TwoCandidates(before: State, first: Event, second: Event, attr: string, value: string, other: string)
    requires IsFirst(first, attr, value) && IsFirst(second, attr, other) && Apart(first, second)
    requires before.entries == [EntryOf(first)]
    requires before.lake == map[first.record.source := PresentValues(first.record)]
    ensures var next := Indexing(before, second);
            Candidates(next.lake, next.entries, attr)
            == [Candidate(EntryOf(first), value), Candidate(EntryOf(second), other)]
  {
    CandidatesGrow(before, second, attr);
    assert [EntryOf(first)][..0] == [];
    assert Candidates(before.lake, before.entries, attr) == [Candidate(EntryOf(first), value)];
  }

  /** first_observed keeps the first arrival although a later one from another source is older. */
  lemma OlderArrivalIsMissed(c: Config, first: Event, late: Event, attr: string, value: string, other: string)
    returns (st: State)
    requires RuleFor(c, attr).kind == FirstObserved
    requires IsFirst(first, attr, value) && IsFirst(late, attr, other)
    requires Apart(first, late) && Less(late.record.sourceTs, first.record.sourceTs)
    ensures Reachable(c, st) && Elected(c, st, attr) && !Elected(c, After(c, st, late), attr)
  {
    st := FirstArrivalIsStored(c, first, attr, value);
    OlderIsMissedIn(c, st, late, attr, other);
  }

  lemma OlderIsMissedIn(c: Config, st: State, late: Event, attr: string, other: string)
    requires RuleFor(c, attr).kind == FirstObserved && Elected(c, st, attr) && IsFirst(late, attr, other)
    requires KeysDistinct(st.entries)
    requires forall x :: x in st.entries ==> !SameConnectorAndId(x.source, late.record.source)
    requires attr in st.rows && Less(late.record.sourceTs, st.rows[attr].observedAt)
    ensures !Elected(c, After(c, st, late), attr)
  {
    OlderIsMeasuredApart(c, st, late, attr, other);
    ArrivalKeepsElectedIff(c, st, late, attr);
  }

  lemma OlderIsMeasuredApart(c: Config, st: State, late: Event, attr: string, other: string)
    requires RuleFor(c, attr).kind == FirstObserved && Elected(c, st, attr) && IsFirst(late, attr, other)
    requires attr in st.rows && Less(late.record.sourceTs, st.rows[attr].observedAt)
    ensures !MeasuresAgree(c, st, late, attr)
  {
    OlderComesFirst(c, st, late, attr);
  }

  lemma OlderComesFirst(c: Config, st: State, late: Event, attr: string)
    requires RuleFor(c, attr).kind == FirstObserved && Elected(c, st, attr) && late.Arrive?
    requires attr in st.rows && Less(late.record.sourceTs, st.rows[attr].observedAt)
    ensures ComesFirst(c, st, late, attr)
  {
    StandingWinnerIsBest(c, st, attr);
  }

  /** source_priority does not record an update of the winner itself. */
  lemma OwnUpdateIsMissed(c: Config, first: Event, update: Event, attr: string, value: string, other: string)
    returns (st: State)
    requires RuleFor(c, attr).kind == SourcePriority
    requires IsFirst(first, attr, value) && update.Arrive? && Holds(update.record, attr, Plain(other))
    requires Upper(update.record.sourceOp) == "UPDATE" && AttributeNames(update.record) == [attr]
    requires update.record.source == first.record.source && update.record.sourceTs != first.record.sourceTs
    ensures Reachable(c, st) && Elected(c, st, attr) && !Elected(c, UpdateEquivalence.Updated(c, st, update), attr)
  {
    st := FirstArrivalIsStored(c, first, attr, value);
    OwnUpdateIsMissedIn(c, st, update, attr, other);
  }

  lemma OwnUpdateIsMissedIn(c: Config, st: State, update: Event, attr: string, other: string)
    requires RuleFor(c, attr).kind == SourcePriority && Elected(c, st, attr)
    requires update.Arrive? && Upper(update.record.sourceOp) == "UPDATE" && AttributeNames(update.record) == [attr]
    requires ValueOf(update.record, attr) == Some(other)
    requires |st.entries| == 1 && st.entries[0].source == update.record.source
    requires attr in st.rows && st.rows[attr].source == update.record.source
    requires st.rows[attr].observedAt != update.record.sourceTs
    ensures !Elected(c, UpdateEquivalence.Updated(c, st, update), attr)
  {
    assert st.entries[0] in st.entries;
    UpdateEquivalence.UpdateAgreesIff(c, st, update, attr);
  }

  /** Deleting the only source of a synthesised golden record leaves the hash of the rows that went. */
  lemma TombstonedHashIsStale(c: Config, first: Event, attr: string, value: string) returns (st: State)
    requires IsFirst(first, attr, value) && ProvenanceHash.CollisionFree(c.sha256)
    requires ProvenanceHash.Separable(map[attr := ProvenanceHash.Winner(first.record.source.recordId, c.sha256(value))])
    ensures Reachable(c, st) && HashTracking.InSync(c, st)
    ensures var (after, result) := Deleted(c, st, first.record.source);
            result == Tombstoned && !HashTracking.InSync(c, after)
  {
    st := FirstArrivalIsStored(c, first, attr, value);
    NothingWithout(st.entries, first.record.source);
    OneWinner(st.rows, attr);
    HashTracking.TombstoneLeavesStaleHash(c, st, first.record.source);
  }

  lemma NothingWithout(entries: seq<Entry>, source: SourceKey)
    requires |entries| == 1 && entries[0].source == source
    ensures Without(entries, source) == [] && Indexed(entries, source)
  {
    assert entries[..0] == [] && entries[0] in entries;
  }

  lemma OneWinner(rows: map<string, Row>, attr: string)
    requires rows.Keys == {attr}
    ensures Winners(rows) == map[attr := ProvenanceHash.Winner(rows[attr].source.recordId, rows[attr].valueHash)]
  {
  }

  // ---- A replay that is not silent ------------------------------------------------------

  /** Two tables hold a record under one connector and record id, both with a value of the attribute. */
  predicate TwoTables(e: HashTracking.Event, attr: string, one: Entry, two: Entry) {
    && e.Environment? && e.entries == [one, two]
    && one.source != two.source && SameConnectorAndId(one.source, two.source)
    && LakeValue(e.lake, two.source, attr).Some?
  }

  /** A run of Stage 3, with changes elsewhere, leads from a new golden record to the state. */
  ghost predicate Tracked(c: Config, st: State) {
    exists events :: HashTracking.Run(c, NEW_GOLDEN_RECORD, events) == st
  }

  /** The state after indexing both tables and synthesising the first one's record. */
  lemma FirstTableWins(c: Config, tables: HashTracking.Event, first: Record, res: Resolution, attr: string,
                       value: string, one: Entry, two: Entry)
    returns (st: State)
    requires TwoTables(tables, attr, one, two) && Holds(first, attr, Plain(value))
    requires Upper(first.sourceOp) != "UPDATE" && first.source == one.source && !res.isProvisional && res.isNewEntity
    ensures Tracked(c, st)
    ensures st.entries == [one, two] && LakeValue(st.lake, two.source, attr).Some?
    ensures RowsNamed(st) && attr in st.rows && st.rows[attr].source == one.source
  {
    var indexed := NEW_GOLDEN_RECORD.(entries := tables.entries, lake := tables.lake,
                                      completeness := tables.completeness);
    FirstSynthesis(c, indexed, first, res.confidence, attr, value);
    var rows := map[attr := MadeRow(c, first, attr, value)];
    st := indexed.(rows := rows, recordedHash := HashOf(c, rows));
    ReachedInTwo(c, tables, first, res, indexed, st);
  }

  lemma ReachedInTwo(c: Config, tables: HashTracking.Event, first: Record, res: Resolution, indexed: State, st: State)
    requires indexed == HashTracking.After(c, NEW_GOLDEN_RECORD, tables) && st == Synthesised(c, indexed, first, res).0
    ensures Tracked(c, st)
  {
    RunOfTwo(c, NEW_GOLDEN_RECORD, tables, HashTracking.Arrival(first, res));
  }

  predicate ReplaySilent(c: Config, st: State, r: Record, res: Resolution) {
    var (once, _) := Synthesised(c, st, r, res);
    var (twice, result) := Synthesised(c, once, r, res);
    twice == once && result.rowsToUpsert == [] && result.rowsToDelete == [] && !result.hashChanged
  }

  /** The standing winner clears the attribute. The other source is elected, whose connector and record id
      are the winner's own, so that replaying the cleared record unwinds the row again and reports a change. */
  lemma ReplayReportsAgain(c: Config, st: State, cleared: Record, res: Resolution, attr: string, one: Entry, two: Entry)
    requires RuleFor(c, attr).kind != Manual && st.entries == [one, two] && LakeValue(st.lake, two.source, attr).Some?
    requires one.source != two.source && SameConnectorAndId(one.source, two.source) && one.source == cleared.source
    requires RowsNamed(st) && attr in st.rows && st.rows[attr].source == cleared.source
    requires Holds(cleared, attr, Null) && Upper(cleared.sourceOp) != "UPDATE" && !res.isProvisional
    ensures !ReplaySilent(c, st, cleared, res)
  {
    SecondIsElected(c, st, attr, one, two);
    assert HashTracking.Reinstated(c, st, cleared, attr) && attr in AttributeNames(cleared);
    HashTracking.ReplayIsSilent(c, st, cleared, res);
  }

  lemma RunOfTwo(c: Config, st: State, first: HashTracking.Event, second: HashTracking.Event)
    ensures HashTracking.Run(c, st, [first, second])
         == HashTracking.After(c, HashTracking.After(c, st, first), second)
  {
    var next := HashTracking.After(c, st, first);
    assert [first, second][1..] == [second];
    assert HashTracking.Run(c, next, [second]) == HashTracking.Run(c, HashTracking.After(c, next, second), []);
  }

  lemma SecondIsElected(c: Config, st: State, attr: string, one: Entry, two: Entry)
    requires RuleFor(c, attr).kind != Manual && st.entries == [one, two] && one.source != two.source
    requires LakeValue(st.lake, two.source, attr).Some?
    ensures var w := Elect(c, st.lake, Without(st.entries, one.source), attr); w.Some? && w.value.source == two.source
  {
    NothingWithout([one], one.source);
    assert [one, two][..1] == [one];
    var rest := Without(st.entries, one.source);
    assert rest == [two] && rest[..0] == [];
    ElectIsBest(c, st.lake, rest, attr);
  }

  // ---- Such inputs exist -----------------------------------------------------------------

  function NameRecord(source: SourceKey, ts: string, name: FieldValue, op: string): Record {
    Record(source, ts, ["name"], map["name" := name], op, Names(["name"]))
  }

  function NameArrival(source: SourceKey, ts: string, name: string): Event {
    Arrive(NameRecord(source, ts, Plain(name), "I"), 1.0, true, 1.0)
  }

  function ConfigWith(kind: RuleKind): Config {
    Config(map["name" := Rule(kind, [])], s => s)
  }

  /** An account of 2 January, and then a partner of 1 January. */
  lemma OlderArrivalExists()
    ensures exists c: Config, st: State, late: Event ::
              && Reachable(c, st) && RuleFor(c, "name").kind == FirstObserved && Elected(c, st, "name")
              && late.Arrive? && !Elected(c, After(c, st, late), "name")
  {
    var c := ConfigWith(FirstObserved);
    var first := NameArrival(SourceKey("crm", "accounts", "1"), "2", "a");
    var late := NameArrival(SourceKey("erp", "partners", "7"), "1", "b");
    var st := OlderArrivalIsMissed(c, first, late, "name", "a", "b");
  }

  /** An account, and then its own update. */
  lemma OwnUpdateExists()
    ensures exists c: Config, st: State, update: Event ::
              && Reachable(c, st) && RuleFor(c, "name").kind == SourcePriority && Elected(c, st, "name")
              && update.Arrive? && !Elected(c, UpdateEquivalence.Updated(c, st, update), "name")
  {
    var c, source := ConfigWith(SourcePriority), SourceKey("crm", "accounts", "1");
    var update := Arrive(NameRecord(source, "2", Plain("b"), "UPDATE"), 1.0, false, 1.0);
    NamesKept("name");
    var st := OwnUpdateIsMissed(c, NameArrival(source, "1", "a"), update, "name", "a", "b");
  }

  lemma NamesKept(name: string)
    requires name != ""
    ensures NonEmptyNames([name]) == [name]
  {
    assert [name][1..] == [];
  }

  /** An account, deleted. */
  lemma StaleHashExists()
    ensures exists c: Config, st: State, source: SourceKey ::
              && Reachable(c, st) && HashTracking.InSync(c, st)
              && Deleted(c, st, source).1.Tombstoned? && !HashTracking.InSync(c, Deleted(c, st, source).0)
  {
    var c, source := ConfigWith(MostRecent), SourceKey("crm", "accounts", "1");
    var st := TombstonedHashIsStale(c, NameArrival(source, "1", "a"), "name", "a");
  }

  /** An account and a contact of one connector and record id; the account clears its name. */
  lemma LoudReplayExists()
    ensures exists c: Config, st: State, r: Record, res: Resolution ::
              Tracked(c, st) && !ReplaySilent(c, st, r, res)
  {
    var c, res := ConfigWith(MostRecent), Resolution(1.0, false, true);
    var account, contact := SourceKey("crm", "accounts", "1"), SourceKey("crm", "contacts", "1");
    var one, two := Entry(account, "1", 1.0, 1.0), Entry(contact, "1", 1.0, 1.0);
    var tables := HashTracking.Environment([one, two], map[contact := map["name" := "b"]], map[]);
    var cleared := NameRecord(account, "2", Null, "I");
    var st := FirstTableWins(c, tables, NameRecord(account, "1", Plain("a"), "I"), res, "name", "a", one, two);
    ReplayReportsAgain(c, st, cleared, res, "name", one, two);
  }

  /** A short name first, and then a longer one. */
  lemma ShorterFirstExists()
    ensures exists c: Config, st: State ::
              && Reachable(c, st) && RuleFor(c, "name").kind == LongestValue
              && CandidatesOf(st, "name") != [] && !StoresLongest(c, st, "name")
  {
    var c := ConfigWith(LongestValue);
    var first, second := NameArrival(SourceKey("crm", "accounts", "1"), "1", "a"),
                         NameArrival(SourceKey("erp", "partners", "7"), "2", "bb");
    var st := SecondArrival(c, first, second, "name", "a", "bb");
    ShorterIsStored(c, st, first, second, "name", "a", "bb");
  }

  lemma ShorterIsStored(c: Config, st: State, first: Event, second: Event, attr: string, value: string, other: string)
    requires first.Arrive? && second.Arrive? && Apart(first, second) && RuleFor(c, attr).kind == LongestValue
    requires SecondStaysOut(c, st, first, second, attr, value, other) && |value| < |other|
    ensures !StoresLongest(c, st, attr)
  {
    ElectedLongestIff(c, st, attr);
    assert CandidatesOf(st, attr)[1] in CandidatesOf(st, attr);
  }

  /** Two names that differ. */
  lemma DisagreementStoredExists()
    ensures exists c: Config, st: State ::
              && Reachable(c, st) && RuleFor(c, "name").kind == ExactMatch
              && Stored(st, "name").Some? && !AllAgree(CandidatesOf(st, "name"))
  {
    var c := ConfigWith(ExactMatch);
    var first, second := NameArrival(SourceKey("crm", "accounts", "1"), "1", "a"),
                         NameArrival(SourceKey("erp", "partners", "7"), "2", "b");
    var st := SecondArrival(c, first, second, "name", "a", "b");
    DisagreementIsStored(c, st, first, second, "name", "a", "b");
  }

  lemma DisagreementIsStored(c: Config, st: State, first: Event, second: Event, attr: string, value: string,
                             other: string)
    requires first.Arrive? && second.Arrive?
    requires SecondStaysOut(c, st, first, second, attr, value, other) && value != other
    ensures Stored(st, attr).Some? && !AllAgree(CandidatesOf(st, attr))
  {
    assert CandidatesOf(st, attr)[1] in CandidatesOf(st, attr);
  }

  /** Two names of one day: whichever arrives first is stored. */
  lemma TiedArrivalsExist()
    ensures exists c: Config, st: State, other: State ::
              && Reachable(c, st) && Reachable(c, other) && RuleFor(c, "name").kind == MostRecent
              && multiset(st.entries) == multiset(other.entries) && st.lake == other.lake
              && Stored(st, "name") != Stored(other, "name")
  {
    var c := ConfigWith(MostRecent);
    var first, second := NameArrival(SourceKey("crm", "accounts", "1"), "1", "a"),
                         NameArrival(SourceKey("erp", "partners", "7"), "1", "b");
    var st := SecondArrival(c, first, second, "name", "a", "b");
    var other := SecondArrival(c, second, first, "name", "b", "a");
    TiedDiffer(c, st, other, first, second, "name", "a", "b");
    SameLake(first.record, second.record);
  }

  lemma SameLake(r: Record, s: Record)
    requires r.source != s.source
    ensures map[r.source := PresentValues(r), s.source := PresentValues(s)]
         == map[s.source := PresentValues(s), r.source := PresentValues(r)]
  {
  }

  lemma TiedDiffer(c: Config, st: State, other: State, first: Event, second: Event, attr: string, a: string, b: string)
    requires Apart(first, second)
    requires SecondStaysOut(c, st, first, second, attr, a, b) && SecondStaysOut(c, other, second, first, attr, b, a)
    ensures multiset(st.entries) == multiset(other.entries) && Stored(st, attr) != Stored(other, attr)
  {
    Swapped(EntryOf(first), EntryOf(second));
  }

  lemma Swapped(x: Entry, y: Entry)
    ensures multiset([x, y]) == multiset([y, x])
  {
  }

  /** A value of a manual attribute is stored, and no election would pick it. */
  lemma ManualValueExists()
    ensures exists c: Config, st: State ::
              Reachable(c, st) && RuleFor(c, "name").kind == Manual && !Elected(c, st, "name")
  {
    var c := ConfigWith(Manual);
    var st := FirstArrivalIsStored(c, NameArrival(SourceKey("crm", "accounts", "1"), "1", "a"), "name", "a");
  }

  /** Two records of one field each: the cache does not know the first one's connector, and so the second one
      wins although the ER index scores it as less complete. */
  lemma CompletenessDisagreesExists()
    ensures exists c: Config, st: State, second: Event ::
              && Reachable(c, st) && RuleFor(c, "name").kind == MostComplete && Elected(c, st, "name")
              && FirstArrival(st, second) && !Elected(c, After(c, st, second), "name")
  {
    var c := ConfigWith(MostComplete);
    var first := NameArrival(SourceKey("crm", "accounts", "1"), "1", "a");
    var second := Arrive(NameRecord(SourceKey("erp", "partners", "7"), "2", Plain("b"), "I"), 1.0, true, 0.5);
    var st := FirstArrivalIsStored(c, first, "name", "a");
    LessCompleteWins(c, st, first, second, "name", "a", "b");
  }

  lemma LessCompleteWins(c: Config, st: State, first: Event, second: Event, attr: string, value: string, other: string)
    requires IsFirst(first, attr, value) && IsFirst(second, attr, other) && Apart(first, second)
    requires RuleFor(c, attr).kind == MostComplete && second.completeness < first.completeness
    requires st.rows == map[attr := MadeRow(c, first.record, attr, value)] && st.entries == [EntryOf(first)]
    requires st.completeness == map[] && Elected(c, st, attr)
    ensures FirstArrival(st, second) && !Elected(c, After(c, st, second), attr)
  {
    UncachedIsBeaten(c, st, second, attr, other);
    ArrivalKeepsElectedIff(c, st, second, attr);
  }

  /** One present field beats a connector that the cache does not know. */
  lemma UncachedIsBeaten(c: Config, st: State, second: Event, attr: string, other: string)
    requires IsFirst(second, attr, other) && RuleFor(c, attr).kind == MostComplete
    requires attr in st.rows && st.completeness == map[]
    ensures IncomingWins(RuleFor(c, attr), Indexing(st, second), second.record, second.confidence, st.rows[attr])
  {
    assert second.record.fieldNames[1..] == [];
    assert CountPresent(second.record, []) == 0;
  }
}
