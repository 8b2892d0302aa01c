/** The recorded provenance hash over whole runs of Stage 3, and what a replay of a record reports. */
module HashTracking {
  import opened Text
  import opened Sources
  import StableSort
  import ProvenanceHash
  import opened Survivorship
  import opened SynthesisSteps

  // ---- A record that touches nothing -------------------------------------------------

  lemma {:induction false} UntouchedReportsNothing(judge: string -> Outcome, rows: map<string, Row>,
                                                   clears: string -> bool, names: seq<string>)
    requires Sound(judge, rows, clears) && !AnyTouched(judge, names)
    ensures RowsAfter(judge, rows, names) == rows
    ensures ChangedRows(Changes(judge, names)) == []
    ensures Deletions(judge, names) == []
  {
    forall n | n in names ensures !Touches(judge(n)) {}
    NothingChanged(judge, names);
  }

  lemma {:induction false} NothingChanged(judge: string -> Outcome, names: seq<string>)
    requires forall n | n in names :: !Touches(judge(n))
    ensures ChangedRows(Changes(judge, names)) == [] && Deletions(judge, names) == []
  {
    if names != [] {
      var init, attr := names[..|names| - 1], names[|names| - 1];
      NothingChanged(judge, init);
      assert names == init + [attr] && !Touches(judge(attr));
      LastChange(judge, init, attr);
    }
  }

  lemma {:induction false} TouchedIsReported(judge: string -> Outcome, names: seq<string>, attr: string)
    requires attr in names && judge(attr).Put? && judge(attr).changed
    ensures ChangedRows(Changes(judge, names)) != []
  {
    var init, last := names[..|names| - 1], names[|names| - 1];
    assert names == init + [last];
    LastChange(judge, init, last);
    if last != attr {
      TouchedIsReported(judge, init, attr);
    }
  }

  // ---- The recorded hash over runs ------------------------------------------------------

  /** The recorded hash is the hash of the stored rows. */
  predicate InSync(c: Config, st: State) {
    st.recordedHash == HashOf(c, st.rows)
  }

  /** One step of a run. Between Stage 3 calls other stages may change the ER index, the lake and the
      completeness cache at will. */
  datatype Event =
    | Arrival(record: Record, resolution: Resolution)
    | SourceDelete(source: SourceKey)
    | Environment(entries: seq<Entry>, lake: Lake, completeness: map<string, int>)

  function After(c: Config, st: State, e: Event): State {
    match e
    case Arrival(r, res) => Synthesised(c, st, r, res).0
    case SourceDelete(source) => Deleted(c, st, source).0
    case Environment(entries, lake, completeness) =>
      st.(entries := entries, lake := lake, completeness := completeness)
  }

  function Run(c: Config, st: State, events: seq<Event>): State
    decreases |events|
  {
    if events == [] then st else Run(c, After(c, st, events[0]), events[1..])
  }

  predicate Tombstones(c: Config, st: State, e: Event) {
    e.SourceDelete? && Deleted(c, st, e.source).1.Tombstoned?
  }

  ghost predicate NeverTombstones(c: Config, st: State, events: seq<Event>)
    decreases |events|
  {
    events != [] ==> !Tombstones(c, st, events[0]) && NeverTombstones(c, After(c, st, events[0]), events[1..])
  }

  /** A call that synthesises attributes of a record flagged as a new entity. */
  predicate Establishes(e: Event) {
    && e.Arrival? && !e.resolution.isProvisional && e.resolution.isNewEntity
    && ChangedScope(e.record) != Some([])
  }

  lemma SynthesiseKeepsNames(c: Config, st: State, r: Record, res: Resolution)
    requires RowsNamed(st)
    ensures RowsNamed(Synthesised(c, st, r, res).0)
  {
    SynthesisSettles(c, st, r, res.confidence, AttributeNames(r));
  }

  lemma ElectedRowIsNamed(c: Config, lake: Lake, sources: seq<Entry>, attr: string)
    ensures var w := Elect(c, lake, sources, attr); w.Some? ==> w.value.attribute == attr
  {
  }

  lemma StepKeepsNames(c: Config, st: State, e: Event)
    requires RowsNamed(st)
    ensures RowsNamed(After(c, st, e))
  {
    match e
    case Arrival(r, res) => SynthesiseKeepsNames(c, st, r, res);
    case SourceDelete(source) =>
      forall a { ElectedRowIsNamed(c, st.lake, Without(st.entries, source), a); }
    case Environment(_, _, _) =>
  }

  /** A synthesise call leaves the hash in step with the rows: always when it touched an attribute or
      was flagged new, and otherwise if it was in step before. */
  lemma SynthesiseSync(c: Config, st: State, r: Record, res: Resolution)
    requires RowsNamed(st)
    ensures InSync(c, st) || Establishes(Arrival(r, res)) ==> InSync(c, Synthesised(c, st, r, res).0)
    ensures Synthesised(c, st, r, res).0.rows != st.rows ==> InSync(c, Synthesised(c, st, r, res).0)
  {
    if !res.isProvisional && ChangedScope(r) != Some([]) {
      var judge, names := Judge(c, st, r, res.confidence), AttributeNames(r);
      if !AnyTouched(judge, names) {
        JudgeIsSound(c, st, r, res.confidence);
        UntouchedReportsNothing(judge, st.rows, Clearing(st, r), names);
      }
    }
  }

  lemma {:induction false} RunStaysInSync(c: Config, st: State, events: seq<Event>)
    requires RowsNamed(st) && InSync(c, st) && NeverTombstones(c, st, events)
    ensures InSync(c, Run(c, st, events))
    decreases |events|
  {
    if events != [] {
      var e := events[0];
      StepKeepsNames(c, st, e);
      assert InSync(c, After(c, st, e)) by {
        match e
        case Arrival(r, res) => SynthesiseSync(c, st, r, res);
        case SourceDelete(source) =>
        case Environment(_, _, _) =>
      }
      RunStaysInSync(c, After(c, st, e), events[1..]);
    }
  }

  /** From the first synthesis of a new entity on, until a tombstone, the recorded hash is the hash of
      the stored provenance, whatever was stored and recorded before. */
  lemma HashTracksProvenance(c: Config, st: State, first: Event, events: seq<Event>)
    requires RowsNamed(st) && Establishes(first)
    requires NeverTombstones(c, After(c, st, first), events)
    ensures InSync(c, Run(c, st, [first] + events))
  {
    SynthesiseSync(c, st, first.record, first.resolution);
    StepKeepsNames(c, st, first);
    RunStaysInSync(c, After(c, st, first), events);
    assert ([first] + events)[1..] == events;
  }

  /** What a non-provisional call returns describes the store it leaves behind. */
  lemma ResultDescribesStore(c: Config, st: State, r: Record, res: Resolution)
    requires !res.isProvisional
    ensures var (after, result) := Synthesised(c, st, r, res);
            && Describes(result.attributeProvenance, result.contributingSources, after.rows)
            && result.provenanceHash == after.recordedHash
            && (result.hashChanged <==> after.recordedHash != st.recordedHash)
  {
    PointersDescribe(st.rows);
    if ChangedScope(r) != Some([]) {
      AbsorbedDescribes(c, st, Judge(c, st, r, res.confidence), AttributeNames(r), res.isNewEntity);
    }
  }

  lemma AbsorbedDescribes(c: Config, st: State, judge: string -> Outcome, names: seq<string>, isNewEntity: bool)
    ensures var (after, result) := Absorbed(c, st, judge, names, isNewEntity);
            Describes(result.attributeProvenance, result.contributingSources, after.rows)
  {
    PointersDescribe(RowsAfter(judge, st.rows, names));
  }

  /** `pointers` name the winning connector and record of every stored attribute, and `contributors` are
      the connectors that win something. */
  ghost predicate Describes(pointers: map<string, string>, contributors: seq<string>, rows: map<string, Row>) {
    && pointers.Keys == rows.Keys
    && (forall a :: a in rows ==> pointers[a] == rows[a].source.connectorId + ":" + rows[a].source.recordId)
    && (forall k :: k in contributors <==> exists a :: a in rows && rows[a].source.connectorId == k)
  }

  lemma PointersDescribe(rows: map<string, Row>)
    ensures Describes(Pointers(rows), Contributors(rows), rows)
  {
  }

  /** With a collision-free hash and separable names, `hash_changed` reports exactly the changes of some
      winning record id or value hash; a move between connectors that keeps both goes unreported. */
  lemma HashChangedMeansWinnersChanged(c: Config, st: State, r: Record, res: Resolution)
    requires RowsNamed(st) && InSync(c, st) && ProvenanceHash.CollisionFree(c.sha256)
    requires ProvenanceHash.Separable(Winners(st.rows))
    ensures var (after, result) := Synthesised(c, st, r, res);
            ProvenanceHash.Separable(Winners(after.rows)) ==>
              (result.hashChanged <==> Winners(after.rows) != Winners(st.rows))
  {
    SynthesiseSync(c, st, r, res);
    HashChangedIsHashMove(c, st, r, res);
    if ProvenanceHash.Separable(Winners(Synthesised(c, st, r, res).0.rows)) {
      SyncedHashesCompare(c, st, Synthesised(c, st, r, res).0);
    }
  }

  lemma HashChangedIsHashMove(c: Config, st: State, r: Record, res: Resolution)
    ensures Synthesised(c, st, r, res).1.hashChanged
       <==> Synthesised(c, st, r, res).0.recordedHash != st.recordedHash
  {
  }

  lemma SyncedHashesCompare(c: Config, a: State, b: State)
    requires InSync(c, a) && InSync(c, b) && ProvenanceHash.CollisionFree(c.sha256)
    requires ProvenanceHash.Separable(Winners(a.rows)) && ProvenanceHash.Separable(Winners(b.rows))
    ensures a.recordedHash == b.recordedHash <==> Winners(a.rows) == Winners(b.rows)
  {
    ProvenanceHash.DigestInjective(c.sha256, Winners(a.rows), Winners(b.rows));
  }

  /** The tombstone branch empties the store and leaves the hash: an in-step hash is stale afterwards
      exactly when there was something to delete. */
  lemma TombstoneLeavesStaleHash(c: Config, st: State, source: SourceKey)
    requires InSync(c, st) && Tombstones(c, st, SourceDelete(source))
    requires ProvenanceHash.CollisionFree(c.sha256) && ProvenanceHash.Separable(Winners(st.rows))
    ensures InSync(c, Deleted(c, st, source).0) <==> st.rows == map[]
  {
    var after := Deleted(c, st, source).0;
    assert after.rows == map[] && after.recordedHash == st.recordedHash;
    assert Winners(map[]) == map[];
    ProvenanceHash.DigestInjective(c.sha256, Winners(st.rows), map[]);
    assert st.rows.Keys == Winners(st.rows).Keys;
  }

  // ---- Replaying a record -----------------------------------------------------------------

  lemma ElectedSourceIsIndexed(c: Config, lake: Lake, sources: seq<Entry>, attr: string)
    ensures var w := Elect(c, lake, sources, attr);
            w.Some? ==> exists e :: e in sources && e.source == w.value.source
  {
    var candidates, order := Candidates(lake, sources, attr), Order(RuleFor(c, attr));
    CandidatesAreEntries(lake, sources, attr);
    if candidates != [] {
      StableSort.SortMembers(candidates, order);
      assert StableSort.Sort(candidates, order)[0].entry in sources;
    }
  }

  /** A cleared attribute whose re-elected winner carries the clearing record's own connector and id. */
  predicate Reinstated(c: Config, st: State, r: Record, attr: string) {
    Clears(st, r, attr)
    && var w := Elect(c, st.lake, Without(st.entries, r.source), attr);
       w.Some? && SameConnectorAndId(w.value.source, r.source)
  }

  /** On replay an attribute is touched exactly if it was reinstated. */
  lemma SecondVerdict(c: Config, st: State, r: Record, confidence: real, names: seq<string>, attr: string)
    requires RowsNamed(st) && attr in names
    ensures var judge := Judge(c, st, r, confidence);
            var again := OutcomeOf(c, st.(rows := RowsAfter(judge, st.rows, names)), r, confidence, attr);
            Touches(again) <==> Reinstated(c, st, r, attr)
    ensures var judge := Judge(c, st, r, confidence);
            var again := OutcomeOf(c, st.(rows := RowsAfter(judge, st.rows, names)), r, confidence, attr);
            Reinstated(c, st, r, attr) ==> again.Put? && again.changed
  {
    var judge := Judge(c, st, r, confidence);
    var first := OutcomeOf(c, st, r, confidence, attr);
    assert judge(attr) == first;
    var next := st.(rows := RowsAfter(judge, st.rows, names));
    match ValueOf(r, attr)
    case Some(value) =>
      if first.Untouched? {
        assert next.rows[attr] == st.rows[attr];
      }
    case None =>
      assert first.Put? ==> next.rows[attr] == first.row;
      assert first.Removed? ==> attr !in next.rows;
      if first.Untouched? {
        assert Clears(next, r, attr) == Clears(st, r, attr);
      }
  }

  /** Replaying a record at once is silent, and changes neither store nor hash, exactly when no cleared
      attribute was reinstated from a second table under the same connector and record id. */
  lemma ReplayIsSilent(c: Config, st: State, r: Record, res: Resolution)
    requires RowsNamed(st) && !res.isProvisional && ChangedScope(r) != Some([])
    ensures var (once, _) := Synthesised(c, st, r, res);
            var (twice, result) := Synthesised(c, once, r, res);
            (twice == once && result.rowsToUpsert == [] && result.rowsToDelete == [] && !result.hashChanged)
            <==> !exists a :: a in AttributeNames(r) && Reinstated(c, st, r, a)
  {
    var names, conf := AttributeNames(r), res.confidence;
    var once := Synthesised(c, st, r, res).0;
    var judge, again := Judge(c, st, r, conf), Judge(c, once, r, conf);
    forall a | a in names
      ensures Touches(again(a)) <==> Reinstated(c, st, r, a)
      ensures Reinstated(c, st, r, a) ==> again(a).Put? && again(a).changed
    {
      SecondVerdict(c, st, r, conf, names, a);
      VerdictIgnoresHash(c, st.(rows := once.rows), once, r, conf, a);
    }
    SynthesiseKeepsNames(c, st, r, res);
    if exists a :: a in names && Reinstated(c, st, r, a) {
      var a :| a in names && Reinstated(c, st, r, a);
      TouchedIsReported(again, names, a);
    } else {
      assert !AnyTouched(again, names);
      JudgeIsSound(c, once, r, conf);
      UntouchedReportsNothing(again, once.rows, Clearing(once, r), names);
    }
  }

  lemma VerdictIgnoresHash(c: Config, a: State, b: State, r: Record, confidence: real, attr: string)
    requires a == b.(recordedHash := a.recordedHash)
    ensures OutcomeOf(c, a, r, confidence, attr) == OutcomeOf(c, b, r, confidence, attr)
  {
  }

  /** When a connector and record id name one source, every replay is silent: for every rule kind,
      for INSERT and UPDATE, for provisional and empty-diff records, and with cleared attributes. */
  lemma ReplayOfNamedSourceIsSilent(c: Config, st: State, r: Record, res: Resolution)
    requires RowsNamed(st)
    requires forall e :: e in st.entries && SameConnectorAndId(e.source, r.source) ==> e.source == r.source
    ensures var (once, _) := Synthesised(c, st, r, res);
            var (twice, result) := Synthesised(c, once, r, res);
            twice == once && result.rowsToUpsert == [] && result.rowsToDelete == [] && !result.hashChanged
  {
    if !res.isProvisional && ChangedScope(r) != Some([]) {
      forall a ensures !Reinstated(c, st, r, a) {
        ElectedSourceIsIndexed(c, st.lake, Without(st.entries, r.source), a);
      }
      ReplayIsSilent(c, st, r, res);
    }
  }
}
