/** Incremental survivorship agrees with the full election: after any history of first arrivals and
    source deletes, every stored row is the one a full re-election would pick. */
module BatchEquivalence {
  import opened Text
  import opened Sources
  import StableSort
  import opened Survivorship
  import opened SynthesisSteps

  // ---- Histories --------------------------------------------------------------------

  datatype Event =
    | Arrive(record: Record, confidence: real, isNewEntity: bool, completeness: real)
    | Depart(source: SourceKey)

  function PresentValues(r: Record): map<string, string> {
    map n | n in r.fields && Extract(r.fields[n]).Some? :: Extract(r.fields[n]).value
  }

  function EntryOf(e: Event): Entry
    requires e.Arrive?
  {
    Entry(e.record.source, e.record.sourceTs, e.confidence, e.completeness)
  }

  /** The stages before synthesis: the lake takes the record's values, the ER index its entry. */
  function Indexing(st: State, e: Event): State
    requires e.Arrive?
  {
    st.(entries := st.entries + [EntryOf(e)], lake := st.lake[e.record.source := PresentValues(e.record)])
  }

  function After(c: Config, st: State, e: Event): State {
    match e
    case Arrive(r, confidence, isNewEntity, _) =>
      Synthesised(c, Indexing(st, e), r, Resolution(confidence, false, isNewEntity)).0
    case Depart(source) => Deleted(c, st, source).0
  }

  function Run(c: Config, st: State, history: seq<Event>): State
    decreases |history|
  {
    if history == [] then st else Run(c, After(c, st, history[0]), history[1..])
  }

  /** A source arrives for the first time: nothing indexed has its connector and record id. */
  ghost predicate FirstArrival(st: State, e: Event) {
    && e.Arrive?
    && WellFormed(e.record)
    && Upper(e.record.sourceOp) != "UPDATE"
    && (forall x | x in st.entries :: !SameConnectorAndId(x.source, e.record.source))
  }

  // ---- The agreement ------------------------------------------------------------------

  function Stored(st: State, attr: string): Option<Row> {
    if attr in st.rows then Some(st.rows[attr]) else None
  }

  ghost predicate Elected(c: Config, st: State, attr: string) {
    Stored(st, attr) == Elect(c, st.lake, st.entries, attr)
  }

  /** The arriving source comes before the standing winner under the attribute's rule. */
  predicate ComesFirst(c: Config, st: State, e: Event, attr: string)
    requires e.Arrive? && attr in st.rows
  {
    exists x | x in st.entries :: x.source == st.rows[attr].source && Precedes(RuleFor(c, attr), EntryOf(e), x)
  }

  /** Beating the standing row, in the measure of the incremental rule, is coming before the standing winner,
      in that of the full election. A manual attribute must not get a value at all: the election knows none. */
  predicate MeasuresAgree(c: Config, st: State, e: Event, attr: string)
    requires e.Arrive?
  {
    var rule := RuleFor(c, attr);
    ValueOf(e.record, attr).Some? ==>
      && rule.kind != Manual
      && (attr in st.rows ==>
            (IncomingWins(rule, Indexing(st, e), e.record, e.confidence, st.rows[attr])
             <==> ComesFirst(c, st, e, attr)))
  }

  /** Confidences are looked up per connector, so a connector must name one entry where they decide. */
  ghost predicate ConnectorsDistinct(entries: seq<Entry>) {
    forall x, y :: x in entries && y in entries && x.source.connectorId == y.source.connectorId ==> x == y
  }

  /** The measures agree of themselves, but for: most_confident, where the connector must be new too;
      first_observed, where nothing indexed may be later; and most_complete, which compares a count with a
      cache here and index scores there. */
  ghost predicate Comparable(c: Config, st: State, e: Event, attr: string)
    requires e.Arrive?
  {
    match RuleFor(c, attr).kind
    case MostConfident => forall x | x in st.entries :: x.source.connectorId != e.record.source.connectorId
    case FirstObserved => forall x | x in st.entries :: !Less(e.record.sourceTs, x.sourceTs)
    case MostComplete => MeasuresAgree(c, st, e, attr)
    case Manual => ValueOf(e.record, attr).None?
    case _ => true
  }

  ghost predicate Admissible(c: Config, st: State, history: seq<Event>, attr: string)
    decreases |history|
  {
    history != [] ==>
      && (history[0].Depart? || (FirstArrival(st, history[0]) && Comparable(c, st, history[0], attr)))
      && Admissible(c, After(c, st, history[0]), history[1..], attr)
  }

  ghost predicate Agrees(c: Config, st: State, attr: string) {
    && Elected(c, st, attr) && KeysDistinct(st.entries)
    && (RuleFor(c, attr).kind == MostConfident ==> ConnectorsDistinct(st.entries))
  }

  lemma OrderIsStrictWeak(rule: Rule)
    ensures StableSort.StrictWeakOrder(Order(rule))
  {
    var before := Order(rule);
    forall a, b: Candidate | before(a, b) ensures !before(b, a) {
      if Less(a.entry.sourceTs, b.entry.sourceTs) { LessAsymmetric(a.entry.sourceTs, b.entry.sourceTs); }
      if Less(b.entry.sourceTs, a.entry.sourceTs) { LessAsymmetric(b.entry.sourceTs, a.entry.sourceTs); }
    }
    forall a, b, c: Candidate | before(a, b) && before(b, c) ensures before(a, c) {
      LessIsWeak(a.entry.sourceTs, b.entry.sourceTs, c.entry.sourceTs);
      LessIsWeak(c.entry.sourceTs, b.entry.sourceTs, a.entry.sourceTs);
    }
    forall a, b, c: Candidate | !before(a, b) && !before(b, c) ensures !before(a, c) {
      LessIsWeak(a.entry.sourceTs, b.entry.sourceTs, c.entry.sourceTs);
      LessIsWeak(c.entry.sourceTs, b.entry.sourceTs, a.entry.sourceTs);
    }
  }

  lemma LessIsWeak(x: string, y: string, z: string)
    ensures Less(x, y) && Less(y, z) ==> Less(x, z)
    ensures !Less(x, y) && !Less(y, z) ==> !Less(x, z)
  {
    if Less(x, y) && Less(y, z) { LessTransitive(x, y, z); }
    if Less(x, z) && !Less(x, y) {
      LessTotal(x, y);
      if x != y { LessTransitive(y, x, z); }
    }
  }

  /** The election without its sort. */
  lemma ElectIsBest(c: Config, lake: Lake, sources: seq<Entry>, attr: string)
    ensures var xs, rule := Candidates(lake, sources, attr), RuleFor(c, attr);
            Elect(c, lake, sources, attr)
            == if xs == [] || rule.kind == Manual then None
               else Some(RowOf(c, attr, rule.kind, StableSort.Best(xs, Order(rule))))
  {
    if Candidates(lake, sources, attr) != [] {
      StableSort.SortHead(Candidates(lake, sources, attr), Order(RuleFor(c, attr)));
    }
  }

  // ---- Arrivals ---------------------------------------------------------------------------

  lemma {:induction false} CandidatesKeepLake(lake: Lake, other: Lake, sources: seq<Entry>, attr: string)
    requires forall e :: e in sources ==> LakeValue(lake, e.source, attr) == LakeValue(other, e.source, attr)
    ensures Candidates(lake, sources, attr) == Candidates(other, sources, attr)
  {
    if sources != [] {
      var init, last := sources[..|sources| - 1], sources[|sources| - 1];
      assert sources == init + [last];
      CandidatesKeepLake(lake, other, init, attr);
    }
  }

  /** The arriving source joins the candidates for exactly the attributes it has a value for. */
  lemma CandidatesGrow(st: State, e: Event, attr: string)
    requires e.Arrive? && forall x :: x in st.entries ==> x.source != e.record.source
    ensures var next := Indexing(st, e);
            Candidates(next.lake, next.entries, attr)
            == Candidates(st.lake, st.entries, attr)
               + match ValueOf(e.record, attr) {
                   case Some(v) => [Candidate(EntryOf(e), v)]
                   case None => []
                 }
  {
    var next := Indexing(st, e);
    assert next.entries[..|next.entries| - 1] == st.entries;
    CandidatesKeepLake(st.lake, next.lake, st.entries, attr);
  }

  lemma {:induction false} KnownConfidenceOf(entries: seq<Entry>, e: Entry)
    requires e in entries && ConnectorsDistinct(entries)
    ensures KnownConfidence(entries, e.source.connectorId) == e.confidence
  {
    if entries[0].source.connectorId == e.source.connectorId {
      assert entries[0] in entries;
    } else {
      KnownConfidenceOf(entries[1..], e);
    }
  }

  /** The measures agree under the conditions on the attribute's rule. */
  lemma ComparableMeasuresAgree(c: Config, st: State, e: Event, attr: string)
    requires FirstArrival(st, e) && Comparable(c, st, e, attr) && Agrees(c, st, attr)
    ensures MeasuresAgree(c, st, e, attr)
  {
    if attr in st.rows && RuleFor(c, attr).kind != Manual {
      StandingWinnerIsBest(c, st, attr);
      var rule := RuleFor(c, attr);
      var best := StableSort.Best(Candidates(st.lake, st.entries, attr), Order(rule)).entry;
      ComesFirstIs(c, st, e, attr, best);
      if rule.kind == MostConfident {
        KnownConfidenceOf(Indexing(st, e).entries, best);
      }
    }
  }

  lemma ComesFirstIs(c: Config, st: State, e: Event, attr: string, winner: Entry)
    requires e.Arrive? && attr in st.rows && KeysDistinct(st.entries)
    requires winner in st.entries && winner.source == st.rows[attr].source
    ensures ComesFirst(c, st, e, attr) <==> Precedes(RuleFor(c, attr), EntryOf(e), winner)
  {
    forall x | x in st.entries && x.source == winner.source ensures x == winner {
      KeysTellEntries(st.entries, x, winner);
    }
  }

  /** The full election after an arrival, from the election before it. */
  lemma ElectionAfterArrival(c: Config, st: State, e: Event, attr: string, value: string)
    requires e.Arrive? && (forall x :: x in st.entries ==> x.source != e.record.source)
    requires RuleFor(c, attr).kind != Manual && ValueOf(e.record, attr) == Some(value)
    ensures var next, rule := Indexing(st, e), RuleFor(c, attr);
            var xs, newcomer := Candidates(st.lake, st.entries, attr), Candidate(EntryOf(e), value);
            Elect(c, next.lake, next.entries, attr)
            == Some(RowOf(c, attr, rule.kind,
                 if xs == [] || Precedes(rule, EntryOf(e), StableSort.Best(xs, Order(rule)).entry)
                 then newcomer else StableSort.Best(xs, Order(rule))))
  {
    var next, rule := Indexing(st, e), RuleFor(c, attr);
    var xs, newcomer := Candidates(st.lake, st.entries, attr), Candidate(EntryOf(e), value);
    CandidatesGrow(st, e, attr);
    ElectIsBest(c, next.lake, next.entries, attr);
    if xs == [] {
      assert xs + [newcomer] == [newcomer];
    } else {
      OrderIsStrictWeak(rule);
      StableSort.BestSnoc(xs, newcomer, Order(rule));
    }
  }

  /** A value that is present: the made row is stored if there is none, or if it beats the standing one and is
      not the same source's same value. */
  lemma JudgedRow(c: Config, st: State, r: Record, confidence: real, attr: string, value: string)
    requires ValueOf(r, attr) == Some(value) && RuleFor(c, attr).kind != Manual
    ensures var made := MadeRow(c, r, attr, value);
            RowAfter(Judge(c, st, r, confidence), st.rows, attr)
            == Some(if attr !in st.rows then made
                    else
                      var standing := st.rows[attr];
                      if && IncomingWins(RuleFor(c, attr), st, r, confidence, standing)
                         && !(standing.valueHash == made.valueHash && SameConnectorAndId(standing.source, r.source))
                      then made else standing)
  {
  }

  lemma StandingWinnerIsBest(c: Config, st: State, attr: string)
    requires Elected(c, st, attr) && attr in st.rows
    ensures var xs, rule := Candidates(st.lake, st.entries, attr), RuleFor(c, attr);
            && xs != []
            && var best := StableSort.Best(xs, Order(rule));
               best.entry in st.entries && st.rows[attr] == RowOf(c, attr, rule.kind, best)
  {
    assert Stored(st, attr) == Elect(c, st.lake, st.entries, attr);
    ElectIsBest(c, st.lake, st.entries, attr);
    CandidatesAreEntries(st.lake, st.entries, attr);
  }

  /** After a first arrival with a value the judged row is the elected one if and only if the measures agree. */
  lemma ArrivalElectsIff(c: Config, st: State, e: Event, attr: string, value: string)
    requires FirstArrival(st, e) && Elected(c, st, attr) && KeysDistinct(st.entries)
    requires RuleFor(c, attr).kind != Manual && ValueOf(e.record, attr) == Some(value)
    ensures var next := Indexing(st, e);
            RowAfter(Judge(c, next, e.record, e.confidence), st.rows, attr) == Elect(c, next.lake, next.entries, attr)
            <==> MeasuresAgree(c, st, e, attr)
  {
    ElectionAfterArrival(c, st, e, attr, value);
    JudgedRow(c, Indexing(st, e), e.record, e.confidence, attr, value);
    if attr in st.rows {
      StandingWinnerIsBest(c, st, attr);
      ComesFirstIs(c, st, e, attr,
                   StableSort.Best(Candidates(st.lake, st.entries, attr), Order(RuleFor(c, attr))).entry);
    } else {
      NothingStoredNoCandidates(c, st, attr);
    }
  }

  lemma NothingStoredNoCandidates(c: Config, st: State, attr: string)
    requires RuleFor(c, attr).kind != Manual && Elected(c, st, attr) && attr !in st.rows
    ensures Candidates(st.lake, st.entries, attr) == []
  {
    ElectIsBest(c, st.lake, st.entries, attr);
  }

  /** A manual attribute stores its first value, and the election knows none. */
  lemma ManualValueDisagrees(c: Config, st: State, e: Event, attr: string, value: string)
    requires e.Arrive? && Elected(c, st, attr)
    requires RuleFor(c, attr).kind == Manual && ValueOf(e.record, attr) == Some(value)
    ensures var next := Indexing(st, e);
            && Elect(c, next.lake, next.entries, attr) == None
            && RowAfter(Judge(c, next, e.record, e.confidence), st.rows, attr) != None
  {
  }

  lemma AbsentValueElectsAsBefore(c: Config, st: State, e: Event, attr: string)
    requires FirstArrival(st, e) && Elected(c, st, attr) && ValueOf(e.record, attr).None?
    ensures var next := Indexing(st, e);
            && Stored(st, attr) == Elect(c, next.lake, next.entries, attr)
            && RowAfter(Judge(c, next, e.record, e.confidence), st.rows, attr) == Stored(st, attr)
  {
    var next, xs := Indexing(st, e), Candidates(st.lake, st.entries, attr);
    assert Candidates(next.lake, next.entries, attr) == xs by {
      CandidatesGrow(st, e, attr);
      assert xs + [] == xs;
    }
    ElectIsBest(c, st.lake, st.entries, attr);
    ElectIsBest(c, next.lake, next.entries, attr);
    if attr in st.rows {
      StandingWinnerIsBest(c, st, attr);
    }
  }

  lemma RowsAfterAt(judge: string -> Outcome, st: State, names: seq<string>, attr: string)
    ensures Stored(st.(rows := RowsAfter(judge, st.rows, names)), attr)
         == if attr in names then RowAfter(judge, st.rows, attr) else Stored(st, attr)
  {
  }

  lemma ArrivalAt(c: Config, st: State, e: Event, attr: string)
    requires FirstArrival(st, e)
    ensures var next, after := Indexing(st, e), After(c, st, e);
            && Stored(after, attr)
               == (if attr in e.record.fieldNames then RowAfter(Judge(c, next, e.record, e.confidence), st.rows, attr)
                   else Stored(st, attr))
            && after.entries == next.entries && after.lake == next.lake
  {
    var next, names := Indexing(st, e), e.record.fieldNames;
    var judge := Judge(c, next, e.record, e.confidence);
    assert After(c, st, e) == Absorbed(c, next, judge, names, e.isNewEntity).0;
    AbsorbedAt(c, next, judge, names, e.isNewEntity, attr);
  }

  /** One comparison with the standing winner gives what the full election over all sources does, if and only
      if the measures of the two agree on it. */
  lemma ArrivalKeepsElectedIff(c: Config, st: State, e: Event, attr: string)
    requires FirstArrival(st, e) && Elected(c, st, attr) && KeysDistinct(st.entries)
    ensures Elected(c, After(c, st, e), attr) <==> MeasuresAgree(c, st, e, attr)
  {
    ArrivalAt(c, st, e, attr);
    match ValueOf(e.record, attr)
    case Some(value) =>
      if RuleFor(c, attr).kind == Manual {
        ManualValueDisagrees(c, st, e, attr, value);
      } else {
        ArrivalElectsIff(c, st, e, attr, value);
      }
    case None => AbsentValueElectsAsBefore(c, st, e, attr);
  }

  lemma ArrivalKeepsAgreement(c: Config, st: State, e: Event, attr: string)
    requires Agrees(c, st, attr) && FirstArrival(st, e) && Comparable(c, st, e, attr)
    ensures Agrees(c, After(c, st, e), attr)
  {
    ComparableMeasuresAgree(c, st, e, attr);
    ArrivalKeepsElectedIff(c, st, e, attr);
    ArrivalAt(c, st, e, attr);
    StepKeepsKeys(c, st, e);
  }

  lemma AbsorbedAt(c: Config, st: State, judge: string -> Outcome, names: seq<string>, isNewEntity: bool, attr: string)
    ensures var after := Absorbed(c, st, judge, names, isNewEntity).0;
            && Stored(after, attr) == (if attr in names then RowAfter(judge, st.rows, attr) else Stored(st, attr))
            && after.entries == st.entries && after.lake == st.lake
  {
    RowsAfterAt(judge, st, names, attr);
  }

  /** Why first_observed needs timestamp order: a later arrival leaves the stored row where the full
      election wants it exactly if it is not older than the standing winner. */
  lemma FirstObservedAgreesInOrder(c: Config, st: State, e: Event, attr: string, value: string)
    requires e.Arrive? && (forall x :: x in st.entries ==> x.source != e.record.source)
    requires RuleFor(c, attr).kind == FirstObserved && Elected(c, st, attr)
    requires ValueOf(e.record, attr) == Some(value) && attr in st.rows
    ensures var next := Indexing(st, e);
            RowAfter(Judge(c, next, e.record, e.confidence), st.rows, attr) == Elect(c, next.lake, next.entries, attr)
            <==> !Less(e.record.sourceTs, st.rows[attr].observedAt)
  {
    JudgedRow(c, Indexing(st, e), e.record, e.confidence, attr, value);
    ElectionAfterArrival(c, st, e, attr, value);
    StandingWinnerIsBest(c, st, attr);
  }

  // ---- Departures ------------------------------------------------------------------------------

  function NotFrom(source: SourceKey): Candidate -> bool {
    (x: Candidate) => x.entry.source != source
  }

  lemma {:induction false} CandidatesWithout(lake: Lake, sources: seq<Entry>, source: SourceKey, attr: string)
    ensures Candidates(lake, Without(sources, source), attr)
         == StableSort.Keep(Candidates(lake, sources, attr), NotFrom(source))
  {
    if sources != [] {
      var init, last := sources[..|sources| - 1], sources[|sources| - 1];
      CandidatesWithout(lake, init, source, attr);
      var rest, before := Without(init, source), Candidates(lake, init, attr);
      if last.source == source {
        assert rest + [] == rest;
      } else {
        assert (rest + [last])[..|rest|] == rest;
      }
      match LakeValue(lake, last.source, attr)
      case Some(v) => assert (before + [Candidate(last, v)])[..|before|] == before;
      case None => assert before + [] == before;
    }
  }

  lemma KeptWinnerStays(c: Config, st: State, source: SourceKey, attr: string)
    requires Elected(c, st, attr) && attr !in WonBy(st.rows, source)
    ensures Elect(c, st.lake, Without(st.entries, source), attr) == Stored(st, attr)
  {
    CandidatesWithout(st.lake, st.entries, source, attr);
    ElectIsBest(c, st.lake, Without(st.entries, source), attr);
    if attr in st.rows {
      StandingWinnerIsBest(c, st, attr);
      BestStays(Candidates(st.lake, st.entries, attr), source, RuleFor(c, attr));
    } else {
      ElectIsBest(c, st.lake, st.entries, attr);
    }
  }

  lemma BestStays(all: seq<Candidate>, source: SourceKey, rule: Rule)
    requires all != [] && StableSort.Best(all, Order(rule)).entry.source != source
    ensures var kept := StableSort.Keep(all, NotFrom(source));
            kept != [] && StableSort.Best(kept, Order(rule)) == StableSort.Best(all, Order(rule))
  {
    OrderIsStrictWeak(rule);
    assert NotFrom(source)(StableSort.Best(all, Order(rule)));
    StableSort.BestOfKept(all, NotFrom(source), Order(rule));
  }

  lemma DepartureKeepsAgreement(c: Config, st: State, source: SourceKey, attr: string)
    requires Agrees(c, st, attr)
    ensures Agrees(c, After(c, st, Depart(source)), attr)
  {
    StepKeepsKeys(c, st, Depart(source));
    if Indexed(st.entries, source) {
      DepartureElects(c, st, source, attr);
    }
  }

  lemma DepartureElects(c: Config, st: State, source: SourceKey, attr: string)
    requires Elected(c, st, attr) && Indexed(st.entries, source)
    ensures var after := Deleted(c, st, source).0;
            Stored(after, attr) == Elect(c, after.lake, after.entries, attr)
  {
    var remaining, lost := Without(st.entries, source), WonBy(st.rows, source);
    if remaining == [] {
      assert Candidates(st.lake, [], attr) == [];
    } else {
      var elect := Election(c, st.lake, remaining);
      assert elect(attr) == Elect(c, st.lake, remaining, attr);
      RowsAfterDeleteAt(elect, st, lost, attr);
      if attr !in lost {
        KeptWinnerStays(c, st, source, attr);
      }
    }
  }

  lemma RowsAfterDeleteAt(elect: string -> Option<Row>, st: State, lost: set<string>, attr: string)
    requires lost <= st.rows.Keys
    ensures Stored(st.(rows := RowsAfterDelete(elect, st.rows, lost)), attr)
         == if attr in lost then elect(attr) else Stored(st, attr)
  {
  }

  // ---- Whole histories ----------------------------------------------------------------------------

  lemma {:induction false} HistoryKeepsAgreement(c: Config, st: State, history: seq<Event>, attr: string)
    requires Agrees(c, st, attr) && Admissible(c, st, history, attr)
    ensures Agrees(c, Run(c, st, history), attr)
    decreases |history|
  {
    if history != [] {
      match history[0] {
        case Arrive(_, _, _, _) => ArrivalKeepsAgreement(c, st, history[0], attr);
        case Depart(source) => DepartureKeepsAgreement(c, st, source, attr);
      }
      HistoryKeepsAgreement(c, After(c, st, history[0]), history[1..], attr);
    }
  }

  const NEW_GOLDEN_RECORD := State(map[], "", [], map[], map[], false)

  /** After any history of first arrivals and deletes the stored row of an attribute is the winner of a full
      election over the sources now indexed, whatever rules the other attributes have. */
  lemma StoredRowsAreElected(c: Config, history: seq<Event>, attr: string)
    requires Admissible(c, NEW_GOLDEN_RECORD, history, attr)
    ensures Elected(c, Run(c, NEW_GOLDEN_RECORD, history), attr)
  {
    assert Candidates(map[], [], attr) == [];
    HistoryKeepsAgreement(c, NEW_GOLDEN_RECORD, history, attr);
  }

  ghost predicate IsHistory(c: Config, st: State, history: seq<Event>)
    decreases |history|
  {
    history != [] ==>
      && (history[0].Depart? || FirstArrival(st, history[0]))
      && IsHistory(c, After(c, st, history[0]), history[1..])
  }

  /** The stored row is the elected one all along. */
  ghost predicate ElectedThroughout(c: Config, st: State, history: seq<Event>, attr: string)
    decreases |history|
  {
    Elected(c, st, attr)
    && (history != [] ==> ElectedThroughout(c, After(c, st, history[0]), history[1..], attr))
  }

  ghost predicate MeasuresAgreeThroughout(c: Config, st: State, history: seq<Event>, attr: string)
    decreases |history|
  {
    history != [] ==>
      && (history[0].Arrive? ==> MeasuresAgree(c, st, history[0], attr))
      && MeasuresAgreeThroughout(c, After(c, st, history[0]), history[1..], attr)
  }

  /** Through any history of first arrivals and deletes, and under any rule, the stored row is the elected one
      all along if and only if the measures agree at every arrival. */
  lemma {:induction false} ElectedThroughoutIff(c: Config, st: State, history: seq<Event>, attr: string)
    requires Elected(c, st, attr) && KeysDistinct(st.entries) && IsHistory(c, st, history)
    ensures ElectedThroughout(c, st, history, attr) <==> MeasuresAgreeThroughout(c, st, history, attr)
    decreases |history|
  {
    if history != [] {
      var e := history[0];
      StepKeepsKeys(c, st, e);
      match e {
        case Arrive(_, _, _, _) => ArrivalKeepsElectedIff(c, st, e, attr);
        case Depart(source) => DepartureKeepsElected(c, st, source, attr);
      }
      if Elected(c, After(c, st, e), attr) {
        ElectedThroughoutIff(c, After(c, st, e), history[1..], attr);
      }
    }
  }

  lemma DepartureKeepsElected(c: Config, st: State, source: SourceKey, attr: string)
    requires Elected(c, st, attr)
    ensures Elected(c, After(c, st, Depart(source)), attr)
  {
    if Indexed(st.entries, source) {
      DepartureElects(c, st, source, attr);
    }
  }

  // ---- One entry each -------------------------------------------------------------------------------

  /** Each entry has a connector and record id of its own. */
  ghost predicate KeysDistinct(entries: seq<Entry>) {
    forall i, j :: 0 <= i < j < |entries| ==> !SameConnectorAndId(entries[i].source, entries[j].source)
  }

  lemma {:induction false} WithoutKeepsKeys(entries: seq<Entry>, source: SourceKey)
    requires KeysDistinct(entries)
    ensures KeysDistinct(Without(entries, source))
  {
    if entries != [] {
      var init, last := entries[..|entries| - 1], entries[|entries| - 1];
      WithoutKeepsKeys(init, source);
      forall x | x in Without(init, source) ensures !SameConnectorAndId(x.source, last.source) {
        var i :| 0 <= i < |init| && init[i] == x;
        assert entries[i] == x;
      }
    }
  }

  lemma StepKeepsKeys(c: Config, st: State, e: Event)
    requires KeysDistinct(st.entries) && (e.Depart? || FirstArrival(st, e))
    ensures KeysDistinct(After(c, st, e).entries)
  {
    match e
    case Arrive(_, _, _, _) =>
      forall i | 0 <= i < |st.entries| ensures !SameConnectorAndId(st.entries[i].source, e.record.source) {
        assert st.entries[i] in st.entries;
      }
      ArrivalAt(c, st, e, "");
    case Depart(source) => WithoutKeepsKeys(st.entries, source);
  }

  /** No two entries share a connector and record id after any history of first arrivals and deletes. */
  lemma {:induction false} HistoryKeepsKeys(c: Config, st: State, history: seq<Event>, attr: string)
    requires KeysDistinct(st.entries) && Admissible(c, st, history, attr)
    ensures KeysDistinct(Run(c, st, history).entries)
    decreases |history|
  {
    if history != [] {
      StepKeepsKeys(c, st, history[0]);
      HistoryKeepsKeys(c, After(c, st, history[0]), history[1..], attr);
    }
  }

  lemma KeysTellEntries(entries: seq<Entry>, x: Entry, y: Entry)
    requires KeysDistinct(entries) && x in entries && y in entries && SameConnectorAndId(x.source, y.source)
    ensures x == y
  {
    var i :| 0 <= i < |entries| && entries[i] == x;
    var j :| 0 <= j < |entries| && entries[j] == y;
    assert SameConnectorAndId(entries[i].source, entries[j].source);
    assert SameConnectorAndId(entries[j].source, entries[i].source);
  }

  // ---- Order independence ---------------------------------------------------------------------------

  /** No candidate ties with the winner. */
  ghost predicate ElectsClearly(c: Config, lake: Lake, entries: seq<Entry>, attr: string) {
    var xs := Candidates(lake, entries, attr);
    xs != [] ==> StableSort.WinsClearly(xs, Order(RuleFor(c, attr)))
  }

  lemma {:induction false} CandidateCounts(lake: Lake, sources: seq<Entry>, attr: string, x: Candidate)
    ensures multiset(Candidates(lake, sources, attr))[x]
         == if LakeValue(lake, x.entry.source, attr) == Some(x.value) then multiset(sources)[x.entry] else 0
  {
    if sources != [] {
      var init, last := sources[..|sources| - 1], sources[|sources| - 1];
      assert sources == init + [last];
      CandidateCounts(lake, init, attr, x);
    }
  }

  /** The lake holds the same values of the attribute for the sources indexed in `a`. */
  ghost predicate SameValues(a: State, b: State, attr: string) {
    forall e :: e in a.entries ==> LakeValue(a.lake, e.source, attr) == LakeValue(b.lake, e.source, attr)
  }

  /** Histories that end with the same sources store the same row, however they got there. */
  lemma ArrivalOrderIsIrrelevant(c: Config, history: seq<Event>, other: seq<Event>, attr: string)
    requires Admissible(c, NEW_GOLDEN_RECORD, history, attr) && Admissible(c, NEW_GOLDEN_RECORD, other, attr)
    requires var a, b := Run(c, NEW_GOLDEN_RECORD, history), Run(c, NEW_GOLDEN_RECORD, other);
             multiset(a.entries) == multiset(b.entries) && SameValues(a, b, attr)
             && ElectsClearly(c, a.lake, a.entries, attr)
    ensures Stored(Run(c, NEW_GOLDEN_RECORD, history), attr) == Stored(Run(c, NEW_GOLDEN_RECORD, other), attr)
  {
    StoredRowsAreElected(c, history, attr);
    StoredRowsAreElected(c, other, attr);
    SameSourcesElectAlike(c, Run(c, NEW_GOLDEN_RECORD, history), Run(c, NEW_GOLDEN_RECORD, other), attr);
  }

  lemma SameSourcesElectAlike(c: Config, a: State, b: State, attr: string)
    requires multiset(a.entries) == multiset(b.entries) && SameValues(a, b, attr)
    requires ElectsClearly(c, a.lake, a.entries, attr)
    ensures Elect(c, a.lake, a.entries, attr) == Elect(c, b.lake, b.entries, attr)
  {
    var xs, ys, order := Candidates(a.lake, a.entries, attr), Candidates(b.lake, b.entries, attr),
                         Order(RuleFor(c, attr));
    SameCandidates(a, b, attr);
    ElectIsBest(c, a.lake, a.entries, attr);
    ElectIsBest(c, b.lake, b.entries, attr);
    if xs == [] {
      assert |multiset(ys)| == 0;
    } else {
      OrderIsStrictWeak(RuleFor(c, attr));
      StableSort.ClearWinnerStays(xs, ys, order);
    }
  }

  lemma SameCandidates(a: State, b: State, attr: string)
    requires multiset(a.entries) == multiset(b.entries)
    requires SameValues(a, b, attr)
    ensures multiset(Candidates(a.lake, a.entries, attr)) == multiset(Candidates(b.lake, b.entries, attr))
  {
    var xs, ys := Candidates(a.lake, a.entries, attr), Candidates(b.lake, b.entries, attr);
    forall x ensures multiset(xs)[x] == multiset(ys)[x] {
      CandidateCounts(a.lake, a.entries, attr, x);
      CandidateCounts(b.lake, b.entries, attr, x);
      assert multiset(a.entries)[x.entry] > 0 ==> x.entry in a.entries;
    }
  }

  lemma {:induction false} CandidatesJoined(lake: Lake, some: seq<Entry>, more: seq<Entry>, attr: string)
    ensures Candidates(lake, some + more, attr) == Candidates(lake, some, attr) + Candidates(lake, more, attr)
  {
    if more == [] {
      assert some + more == some && Candidates(lake, some, attr) + [] == Candidates(lake, some, attr);
    } else {
      var init, last := more[..|more| - 1], more[|more| - 1];
      assert (some + more)[..|some + more| - 1] == some + init && (some + more)[|some + more| - 1] == last;
      CandidatesJoined(lake, some, init, attr);
    }
  }

  lemma {:induction false} CandidateMembers(lake: Lake, sources: seq<Entry>, attr: string, x: Candidate)
    ensures x in Candidates(lake, sources, attr)
       <==> x.entry in sources && LakeValue(lake, x.entry.source, attr) == Some(x.value)
  {
    if sources != [] {
      var init, last := sources[..|sources| - 1], sources[|sources| - 1];
      assert sources == init + [last];
      CandidateMembers(lake, init, attr, x);
    }
  }

  /** The full election gives the same row for every listing of the sources. */
  ghost predicate ElectIgnoresOrder(c: Config, lake: Lake, entries: seq<Entry>, attr: string) {
    forall other: seq<Entry> :: multiset(other) == multiset(entries) ==>
      Elect(c, lake, other, attr) == Elect(c, lake, entries, attr)
  }

  /** The row stored does not depend on the order of arrival, for given sources, if and only if no candidate
      ties with the winner. */
  lemma ElectIgnoresOrderIff(c: Config, lake: Lake, entries: seq<Entry>, attr: string)
    requires RuleFor(c, attr).kind != Manual && KeysDistinct(entries)
    ensures ElectIgnoresOrder(c, lake, entries, attr) <==> ElectsClearly(c, lake, entries, attr)
  {
    var st := NEW_GOLDEN_RECORD.(lake := lake, entries := entries);
    if ElectsClearly(c, lake, entries, attr) {
      forall other: seq<Entry> | multiset(other) == multiset(entries)
        ensures Elect(c, lake, other, attr) == Elect(c, lake, entries, attr)
      {
        SameSourcesElectAlike(c, st, st.(entries := other), attr);
      }
    } else {
      var xs, order := Candidates(lake, entries, attr), Order(RuleFor(c, attr));
      var x :| x in xs && x != StableSort.Best(xs, order) && !order(StableSort.Best(xs, order), x);
      var other := TiedIsElected(c, lake, entries, attr, x);
    }
  }

  /** Listing a candidate that ties with the winner first elects it instead. */
  lemma TiedIsElected(c: Config, lake: Lake, entries: seq<Entry>, attr: string, x: Candidate)
    returns (other: seq<Entry>)
    requires RuleFor(c, attr).kind != Manual && KeysDistinct(entries)
    requires var xs, order := Candidates(lake, entries, attr), Order(RuleFor(c, attr));
             x in xs && x != StableSort.Best(xs, order) && !order(StableSort.Best(xs, order), x)
    ensures multiset(other) == multiset(entries)
    ensures Elect(c, lake, other, attr) != Elect(c, lake, entries, attr)
  {
    var xs, order := Candidates(lake, entries, attr), Order(RuleFor(c, attr));
    var best := StableSort.Best(xs, order);
    CandidateMembers(lake, entries, attr, x);
    CandidateMembers(lake, entries, attr, best);
    var rest := Others(entries, x.entry);
    other := [x.entry] + rest;
    OrderIsStrictWeak(RuleFor(c, attr));
    StableSort.BestIsBest(xs, order);
    forall y | y in Candidates(lake, rest, attr) ensures !order(y, x) {
      CandidateMembers(lake, rest, attr, y);
      CandidateMembers(lake, entries, attr, y);
      assert !order(y, best);
    }
    HeadIsElected(c, lake, x, rest, attr);
    ElectIsBest(c, lake, entries, attr);
    if x.entry.source == best.entry.source {
      KeysTellEntries(entries, x.entry, best.entry);
      assert false;
    }
  }

  lemma Others(entries: seq<Entry>, x: Entry) returns (rest: seq<Entry>)
    requires x in entries
    ensures multiset([x] + rest) == multiset(entries)
    ensures forall y :: y in rest ==> y in entries
  {
    var i :| 0 <= i < |entries| && entries[i] == x;
    rest := entries[..i] + entries[i + 1..];
    assert entries == entries[..i] + [entries[i]] + entries[i + 1..];
  }

  lemma HeadIsElected(c: Config, lake: Lake, x: Candidate, rest: seq<Entry>, attr: string)
    requires RuleFor(c, attr).kind != Manual && LakeValue(lake, x.entry.source, attr) == Some(x.value)
    requires forall y | y in Candidates(lake, rest, attr) :: !Order(RuleFor(c, attr))(y, x)
    ensures Elect(c, lake, [x.entry] + rest, attr) == Some(RowOf(c, attr, RuleFor(c, attr).kind, x))
  {
    HeadCandidate(lake, x, rest, attr);
    OrderIsStrictWeak(RuleFor(c, attr));
    StableSort.TiedTakesTheHead(Candidates(lake, rest, attr), x, Order(RuleFor(c, attr)));
    ElectIsBest(c, lake, [x.entry] + rest, attr);
  }

  lemma HeadCandidate(lake: Lake, x: Candidate, rest: seq<Entry>, attr: string)
    requires LakeValue(lake, x.entry.source, attr) == Some(x.value)
    ensures Candidates(lake, [x.entry] + rest, attr) == [x] + Candidates(lake, rest, attr)
  {
    CandidatesJoined(lake, [x.entry], rest, attr);
    assert [x.entry][..0] == [];
  }
}
