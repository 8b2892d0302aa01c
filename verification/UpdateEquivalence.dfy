/** An UPDATE of an indexed source re-judges only the attributes it changed, against the standing winner only:
    exactly when the stored row is still the one a full election would pick. */
module UpdateEquivalence {
  import opened Text
  import opened Sources
  import StableSort
  import opened Survivorship
  import opened SynthesisSteps
  import opened BatchEquivalence

  // ---- Updates -----------------------------------------------------------------------

  /** The ER index with the source's entry replaced. */
  function Reindexed(entries: seq<Entry>, entry: Entry): seq<Entry> {
    if entries == [] then []
    else
      var last := entries[|entries| - 1];
      Reindexed(entries[..|entries| - 1], entry) + [if last.source == entry.source then entry else last]
  }

  /** The stages before synthesis: the lake takes the new values, the ER index the new entry. */
  function Updating(st: State, e: Event): State
    requires e.Arrive?
  {
    st.(entries := Reindexed(st.entries, EntryOf(e)), lake := st.lake[e.record.source := PresentValues(e.record)])
  }

  function Updated(c: Config, st: State, e: Event): State
    requires e.Arrive?
  {
    Synthesised(c, Updating(st, e), e.record, Resolution(e.confidence, false, e.isNewEntity)).0
  }

  /** An UPDATE of an indexed source whose diff, as regards the attribute, names what changed. */
  ghost predicate IsUpdate(st: State, e: Event, attr: string) {
    && e.Arrive? && Upper(e.record.sourceOp) == "UPDATE"
    && Indexed(st.entries, e.record.source)
    && (attr !in AttributeNames(e.record) ==> ValueOf(e.record, attr) == LakeValue(st.lake, e.record.source, attr))
  }

  /** Another source with a value of the attribute. */
  predicate IsRival(st: State, r: Record, attr: string, x: Entry) {
    x.source != r.source && LakeValue(st.lake, x.source, attr).Some?
  }

  /** With its new value the updated source wins the full election: it comes before every rival listed earlier,
      and no rival listed later comes before it. */
  ghost predicate Takes(c: Config, st: State, e: Event, attr: string)
    requires e.Arrive?
  {
    forall p, i :: 0 <= p < |st.entries| && 0 <= i < |st.entries| ==>
      st.entries[p].source == e.record.source && IsRival(st, e.record, attr, st.entries[i]) ==>
        if i < p then Precedes(RuleFor(c, attr), EntryOf(e), st.entries[i])
        else !Precedes(RuleFor(c, attr), st.entries[i], EntryOf(e))
  }

  /** The attribute is in the diff, and the new value beats the standing row in the incremental measure. */
  predicate Beats(c: Config, st: State, e: Event, attr: string)
    requires e.Arrive? && attr in st.rows
  {
    && attr in AttributeNames(e.record)
    && IncomingWins(RuleFor(c, attr), Updating(st, e), e.record, e.confidence, st.rows[attr])
  }

  /** Nothing the update changes goes unrecorded. If the source has a value and there is a standing winner, then
      - either that is the source itself, it wins now too, and its row is the same as before or is replaced
        by one with another value;
      - or it is another source, and the updated one beats it exactly if it wins now.
      A manual attribute must not get a value. */
  ghost predicate Recorded(c: Config, st: State, e: Event, attr: string)
    requires e.Arrive?
  {
    var r := e.record;
    ValueOf(r, attr).Some? ==>
      if RuleFor(c, attr).kind == Manual then attr !in AttributeNames(r)
      else attr in st.rows ==>
        var standing, made := st.rows[attr], MadeRow(c, r, attr, ValueOf(r, attr).value);
        if standing.source == r.source then
          Takes(c, st, e, attr) && (standing == made || (Beats(c, st, e, attr) && standing.valueHash != made.valueHash))
        else Takes(c, st, e, attr) <==> Beats(c, st, e, attr)
  }

  // ---- The ER index around the updated source ----------------------------------------------

  /** The entries listed before and after the source's. */
  lemma Around(entries: seq<Entry>, entry: Entry) returns (p: nat)
    requires KeysDistinct(entries) && Indexed(entries, entry.source)
    ensures p < |entries| && entries[p].source == entry.source
    ensures Reindexed(entries, entry) == entries[..p] + [entry] + entries[p + 1..]
    ensures Without(entries, entry.source) == entries[..p] + entries[p + 1..]
    ensures forall i :: 0 <= i < |entries| && i != p ==> entries[i].source != entry.source
  {
    p :| 0 <= p < |entries| && entries[p].source == entry.source;
    forall i | 0 <= i < |entries| && i != p ensures entries[i].source != entry.source {
      KeysApart(entries, i, p);
    }
    Rebuilt(entries, entry, p);
  }

  lemma KeysApart(entries: seq<Entry>, i: nat, j: nat)
    requires KeysDistinct(entries) && i < |entries| && j < |entries| && i != j
    ensures !SameConnectorAndId(entries[i].source, entries[j].source)
  {
    assert SameConnectorAndId(entries[i].source, entries[j].source)
        == SameConnectorAndId(entries[j].source, entries[i].source);
  }

  lemma Rebuilt(entries: seq<Entry>, entry: Entry, p: nat)
    requires p < |entries| && entries[p].source == entry.source
    requires forall i :: 0 <= i < |entries| && i != p ==> entries[i].source != entry.source
    ensures Reindexed(entries, entry) == entries[..p] + [entry] + entries[p + 1..]
    ensures Without(entries, entry.source) == entries[..p] + entries[p + 1..]
  {
    var before, own, behind := entries[..p], entries[p], entries[p + 1..];
    assert entries == before + ([own] + behind);
    Untouched(before, entry);
    Untouched(behind, entry);
    OwnReplaced(own, entry);
    ReindexedJoined([own], behind, entry);
    ReindexedJoined(before, [own] + behind, entry);
    WithoutJoined([own], behind, entry.source);
    WithoutJoined(before, [own] + behind, entry.source);
    Regrouped(before, [entry], behind);
  }

  lemma Regrouped(a: seq<Entry>, b: seq<Entry>, c: seq<Entry>)
    ensures a + (b + c) == a + b + c && a + ([] + c) == a + c
  {
  }

  lemma OwnReplaced(own: Entry, entry: Entry)
    requires own.source == entry.source
    ensures Reindexed([own], entry) == [entry] && Without([own], entry.source) == []
  {
    assert [own][..0] == [];
  }

  lemma {:induction false} ReindexedJoined(some: seq<Entry>, more: seq<Entry>, entry: Entry)
    ensures Reindexed(some + more, entry) == Reindexed(some, entry) + Reindexed(more, entry)
  {
    if more == [] {
      assert some + more == some && Reindexed(some, entry) + [] == Reindexed(some, entry);
    } else {
      var init := more[..|more| - 1];
      assert (some + more)[..|some + more| - 1] == some + init;
      ReindexedJoined(some, init, entry);
    }
  }

  lemma {:induction false} WithoutJoined(some: seq<Entry>, more: seq<Entry>, source: SourceKey)
    ensures Without(some + more, source) == Without(some, source) + Without(more, source)
  {
    if more == [] {
      assert some + more == some && Without(some, source) + [] == Without(some, source);
    } else {
      var init := more[..|more| - 1];
      assert (some + more)[..|some + more| - 1] == some + init;
      WithoutJoined(some, init, source);
    }
  }

  lemma {:induction false} Untouched(entries: seq<Entry>, entry: Entry)
    requires forall i :: 0 <= i < |entries| ==> entries[i].source != entry.source
    ensures Reindexed(entries, entry) == entries && Without(entries, entry.source) == entries
  {
    if entries != [] {
      Untouched(entries[..|entries| - 1], entry);
    }
  }

  lemma {:induction false} ReindexedKeepsKeys(entries: seq<Entry>, entry: Entry)
    requires KeysDistinct(entries)
    ensures KeysDistinct(Reindexed(entries, entry))
    ensures |Reindexed(entries, entry)| == |entries|
    ensures forall i :: 0 <= i < |entries| ==> Reindexed(entries, entry)[i].source == entries[i].source
  {
    if entries != [] {
      ReindexedKeepsKeys(entries[..|entries| - 1], entry);
    }
  }

  // ---- The election after an update -----------------------------------------------------------

  /** The candidates among entries other than the source's are as before. */
  lemma RivalsAsBefore(st: State, e: Event, some: seq<Entry>, attr: string)
    requires e.Arrive? && forall x :: x in some ==> x.source != e.record.source
    ensures Candidates(Updating(st, e).lake, some, attr) == Candidates(st.lake, some, attr)
  {
    CandidatesKeepLake(st.lake, Updating(st, e).lake, some, attr);
  }

  /** The candidates are the rivals and, if it has a value, the updated source at its place among them. */
  lemma CandidatesAfterUpdate(st: State, e: Event, attr: string) returns (p: nat)
    requires e.Arrive? && KeysDistinct(st.entries) && Indexed(st.entries, e.record.source)
    ensures p < |st.entries| && st.entries[p].source == e.record.source
    ensures forall i :: 0 <= i < |st.entries| && i != p ==> st.entries[i].source != e.record.source
    ensures var next := Updating(st, e);
            var a, b := Candidates(st.lake, st.entries[..p], attr), Candidates(st.lake, st.entries[p + 1..], attr);
            && Candidates(st.lake, Without(st.entries, e.record.source), attr) == a + b
            && Candidates(next.lake, next.entries, attr)
               == match ValueOf(e.record, attr) {
                    case Some(v) => a + [Candidate(EntryOf(e), v)] + b
                    case None => a + b
                  }
  {
    p := Around(st.entries, EntryOf(e));
    var next, before, behind := Updating(st, e), st.entries[..p], st.entries[p + 1..];
    RivalsAsBefore(st, e, before, attr);
    RivalsAsBefore(st, e, behind, attr);
    CandidatesJoined(st.lake, before, behind, attr);
    CandidatesJoined(next.lake, before + [EntryOf(e)], behind, attr);
    OwnCandidate(next.lake, before, EntryOf(e), attr);
    assert LakeValue(next.lake, e.record.source, attr) == ValueOf(e.record, attr);
    var a := Candidates(st.lake, before, attr);
    assert a + [] == a;
  }

  lemma OwnCandidate(lake: Lake, before: seq<Entry>, entry: Entry, attr: string)
    ensures Candidates(lake, before + [entry], attr)
         == Candidates(lake, before, attr)
            + match LakeValue(lake, entry.source, attr) {
                case Some(v) => [Candidate(entry, v)]
                case None => []
              }
  {
    assert (before + [entry])[..|before|] == before;
  }

  /** Without a value of its own, the updated source leaves the election to the rivals. */
  lemma ElectionWithoutValue(c: Config, st: State, e: Event, attr: string)
    requires e.Arrive? && KeysDistinct(st.entries) && Indexed(st.entries, e.record.source)
    requires ValueOf(e.record, attr).None?
    ensures var next := Updating(st, e);
            Elect(c, next.lake, next.entries, attr) == Elect(c, st.lake, Without(st.entries, e.record.source), attr)
  {
    var next := Updating(st, e);
    var p := CandidatesAfterUpdate(st, e, attr);
    ElectIsBest(c, next.lake, next.entries, attr);
    ElectIsBest(c, st.lake, Without(st.entries, e.record.source), attr);
  }

  /** With a value it is elected if it takes the election, and else one of the rivals as if it were not there. */
  lemma ElectionWithValue(c: Config, st: State, e: Event, attr: string, value: string)
    requires e.Arrive? && KeysDistinct(st.entries) && Indexed(st.entries, e.record.source)
    requires ValueOf(e.record, attr) == Some(value) && RuleFor(c, attr).kind != Manual
    ensures var next := Updating(st, e);
            Elect(c, next.lake, next.entries, attr)
            == if Takes(c, st, e, attr) then Some(MadeRow(c, e.record, attr, value))
               else Elect(c, st.lake, Without(st.entries, e.record.source), attr)
    ensures !Takes(c, st, e, attr) ==> Elect(c, st.lake, Without(st.entries, e.record.source), attr).Some?
  {
    var next, rule := Updating(st, e), RuleFor(c, attr);
    var p := CandidatesAfterUpdate(st, e, attr);
    var a, b := Candidates(st.lake, st.entries[..p], attr), Candidates(st.lake, st.entries[p + 1..], attr);
    OrderIsStrictWeak(rule);
    StableSort.BestInserted(a, Candidate(EntryOf(e), value), b, Order(rule));
    TakesIsInserted(c, st, e, attr, p, value);
    ElectIsBest(c, next.lake, next.entries, attr);
    ElectIsBest(c, st.lake, Without(st.entries, e.record.source), attr);
  }

  lemma TakesIsInserted(c: Config, st: State, e: Event, attr: string, p: nat, value: string)
    requires e.Arrive? && p < |st.entries| && st.entries[p].source == e.record.source
    requires forall i :: 0 <= i < |st.entries| && i != p ==> st.entries[i].source != e.record.source
    ensures var own, before := Candidate(EntryOf(e), value), Order(RuleFor(c, attr));
            Takes(c, st, e, attr)
            <==> (forall y | y in Candidates(st.lake, st.entries[..p], attr) :: before(own, y))
                 && (forall y | y in Candidates(st.lake, st.entries[p + 1..], attr) :: !before(y, own))
  {
    var own, before := Candidate(EntryOf(e), value), Order(RuleFor(c, attr));
    var a, b := Candidates(st.lake, st.entries[..p], attr), Candidates(st.lake, st.entries[p + 1..], attr);
    if Takes(c, st, e, attr) {
      forall y | y in a ensures before(own, y) {
        CandidateMembers(st.lake, st.entries[..p], attr, y);
        var i :| 0 <= i < p && st.entries[i] == y.entry;
      }
      forall y | y in b ensures !before(y, own) {
        CandidateMembers(st.lake, st.entries[p + 1..], attr, y);
        var i :| 0 <= i < |st.entries| - p - 1 && st.entries[p + 1..][i] == y.entry;
        assert st.entries[p + 1 + i] == y.entry;
      }
    } else {
      var i :| 0 <= i < |st.entries| && IsRival(st, e.record, attr, st.entries[i])
               && !(if i < p then Precedes(RuleFor(c, attr), EntryOf(e), st.entries[i])
                    else !Precedes(RuleFor(c, attr), st.entries[i], EntryOf(e)));
      RivalIsListed(st, e.record, attr, p, i);
      var y := Candidate(st.entries[i], LakeValue(st.lake, st.entries[i].source, attr).value);
      assert before(own, y) == Precedes(RuleFor(c, attr), EntryOf(e), st.entries[i]);
      assert before(y, own) == Precedes(RuleFor(c, attr), st.entries[i], EntryOf(e));
    }
  }

  lemma RivalIsListed(st: State, r: Record, attr: string, p: nat, i: nat)
    requires p < |st.entries| && st.entries[p].source == r.source
    requires i < |st.entries| && IsRival(st, r, attr, st.entries[i])
    ensures Candidate(st.entries[i], LakeValue(st.lake, st.entries[i].source, attr).value)
            in Candidates(st.lake, if i < p then st.entries[..p] else st.entries[p + 1..], attr)
  {
    var y := Candidate(st.entries[i], LakeValue(st.lake, st.entries[i].source, attr).value);
    if i < p {
      assert st.entries[..p][i] == st.entries[i];
      CandidateMembers(st.lake, st.entries[..p], attr, y);
    } else {
      assert st.entries[p + 1..][i - p - 1] == st.entries[i];
      CandidateMembers(st.lake, st.entries[p + 1..], attr, y);
    }
  }

  // ---- What is stored ---------------------------------------------------------------------------

  /** The row the attribute ends with: judged if it is in the diff, else as it was. */
  lemma UpdatedAt(c: Config, st: State, e: Event, attr: string)
    requires e.Arrive? && Upper(e.record.sourceOp) == "UPDATE"
    ensures var next, after := Updating(st, e), Updated(c, st, e);
            && Stored(after, attr)
               == (if attr in AttributeNames(e.record)
                   then RowAfter(Judge(c, next, e.record, e.confidence), st.rows, attr)
                   else Stored(st, attr))
            && after.entries == next.entries && after.lake == next.lake
  {
    var next := Updating(st, e);
    if ChangedScope(e.record) != Some([]) {
      AbsorbedAt(c, next, Judge(c, next, e.record, e.confidence), AttributeNames(e.record), e.isNewEntity, attr);
    }
  }

  /** Beating its own standing row takes a newer timestamp under most_recent; most_complete may beat it too. */
  lemma WinsOverItself(c: Config, st: State, e: Event, attr: string)
    requires e.Arrive? && Indexed(st.entries, e.record.source)
    requires attr in st.rows && st.rows[attr].source == e.record.source
    requires RuleFor(c, attr).kind != MostComplete
    requires RuleFor(c, attr).kind == MostConfident ==> ConnectorsDistinct(Updating(st, e).entries)
    ensures Beats(c, st, e, attr)
       <==> && attr in AttributeNames(e.record) && RuleFor(c, attr).kind == MostRecent
            && Less(st.rows[attr].observedAt, e.record.sourceTs)
  {
    if RuleFor(c, attr).kind == MostConfident {
      ReindexedHolds(st.entries, EntryOf(e));
      KnownConfidenceOf(Updating(st, e).entries, EntryOf(e));
    }
  }

  lemma {:induction false} ReindexedHolds(entries: seq<Entry>, entry: Entry)
    requires Indexed(entries, entry.source)
    ensures entry in Reindexed(entries, entry)
  {
    var init, last := entries[..|entries| - 1], entries[|entries| - 1];
    if last.source != entry.source {
      assert entries == init + [last];
      ReindexedHolds(init, entry);
    }
  }

  lemma ClearedRow(c: Config, st: State, r: Record, confidence: real, attr: string)
    requires Clears(st, r, attr)
    ensures RowAfter(Judge(c, st, r, confidence), st.rows, attr)
         == Elect(c, st.lake, Without(st.entries, r.source), attr)
  {
  }

  // ---- The theorem, case by case -------------------------------------------------------------------

  /** Another standing winner is what is elected among the rivals. */
  lemma RivalsElectStanding(c: Config, st: State, e: Event, attr: string)
    requires e.Arrive? && KeysDistinct(st.entries) && Indexed(st.entries, e.record.source) && Elected(c, st, attr)
    requires attr in st.rows ==> st.rows[attr].source != e.record.source
    ensures Elect(c, st.lake, Without(st.entries, e.record.source), attr) == Stored(st, attr)
    ensures attr in st.rows ==> !SameConnectorAndId(st.rows[attr].source, e.record.source)
  {
    if attr in st.rows {
      StandingWinnerIsBest(c, st, attr);
      var winner := StableSort.Best(Candidates(st.lake, st.entries, attr), Order(RuleFor(c, attr))).entry;
      var own :| own in st.entries && own.source == e.record.source;
      if SameConnectorAndId(winner.source, e.record.source) {
        KeysTellEntries(st.entries, winner, own);
        assert false;
      }
    }
    KeptWinnerStays(c, st, e.record.source, attr);
  }

  /** What is elected among the rivals is no row of the updated source. */
  lemma RivalsElectRival(c: Config, st: State, source: SourceKey, attr: string)
    ensures var w := Elect(c, st.lake, Without(st.entries, source), attr); w.Some? ==> w.value.source != source
  {
    var rest := Without(st.entries, source);
    ElectIsBest(c, st.lake, rest, attr);
    CandidatesAreEntries(st.lake, rest, attr);
  }

  lemma NoValueAgrees(c: Config, st: State, e: Event, attr: string)
    requires IsUpdate(st, e, attr) && KeysDistinct(st.entries) && Elected(c, st, attr)
    requires ValueOf(e.record, attr).None?
    ensures Elected(c, Updated(c, st, e), attr)
  {
    var next, source := Updating(st, e), e.record.source;
    UpdatedAt(c, st, e, attr);
    ElectionWithoutValue(c, st, e, attr);
    if attr in st.rows && st.rows[attr].source == source {
      StandingHasValue(c, st, attr);
      ClearedRow(c, next, e.record, e.confidence, attr);
      WithoutReindexed(c, st, e, attr);
    } else {
      RivalsElectStanding(c, st, e, attr);
    }
  }

  lemma StandingHasValue(c: Config, st: State, attr: string)
    requires Elected(c, st, attr) && attr in st.rows
    ensures LakeValue(st.lake, st.rows[attr].source, attr).Some?
  {
    StandingWinnerIsBest(c, st, attr);
    var best := StableSort.Best(Candidates(st.lake, st.entries, attr), Order(RuleFor(c, attr)));
    CandidateMembers(st.lake, st.entries, attr, best);
  }

  /** Dropping the source after its update leaves the same election as dropping it before. */
  lemma WithoutReindexed(c: Config, st: State, e: Event, attr: string)
    requires e.Arrive? && KeysDistinct(st.entries) && Indexed(st.entries, e.record.source)
    ensures var next, source := Updating(st, e), e.record.source;
            Elect(c, next.lake, Without(next.entries, source), attr)
            == Elect(c, st.lake, Without(st.entries, source), attr)
  {
    var next, source := Updating(st, e), e.record.source;
    SameWithout(st.entries, EntryOf(e));
    RivalsAsBefore(st, e, Without(st.entries, source), attr);
    ElectIsBest(c, next.lake, Without(next.entries, source), attr);
    ElectIsBest(c, st.lake, Without(st.entries, source), attr);
  }

  lemma {:induction false} SameWithout(entries: seq<Entry>, entry: Entry)
    ensures Without(Reindexed(entries, entry), entry.source) == Without(entries, entry.source)
  {
    if entries != [] {
      var init := entries[..|entries| - 1];
      SameWithout(init, entry);
      assert Reindexed(entries, entry)[..|Reindexed(init, entry)|] == Reindexed(init, entry);
    }
  }

  lemma OwnRowAgreesIff(c: Config, st: State, e: Event, attr: string, value: string)
    requires IsUpdate(st, e, attr) && KeysDistinct(st.entries) && Elected(c, st, attr)
    requires ValueOf(e.record, attr) == Some(value) && RuleFor(c, attr).kind != Manual
    requires attr in st.rows && st.rows[attr].source == e.record.source
    ensures Elected(c, Updated(c, st, e), attr) <==> Recorded(c, st, e, attr)
  {
    UpdatedAt(c, st, e, attr);
    JudgedRow(c, Updating(st, e), e.record, e.confidence, attr, value);
    ElectionWithValue(c, st, e, attr, value);
    RivalsElectRival(c, st, e.record.source, attr);
  }

  lemma RivalRowAgreesIff(c: Config, st: State, e: Event, attr: string, value: string)
    requires IsUpdate(st, e, attr) && KeysDistinct(st.entries) && Elected(c, st, attr)
    requires ValueOf(e.record, attr) == Some(value) && RuleFor(c, attr).kind != Manual
    requires attr in st.rows && st.rows[attr].source != e.record.source
    ensures Elected(c, Updated(c, st, e), attr) <==> Recorded(c, st, e, attr)
  {
    UpdatedAt(c, st, e, attr);
    JudgedRow(c, Updating(st, e), e.record, e.confidence, attr, value);
    ElectionWithValue(c, st, e, attr, value);
    RivalsElectStanding(c, st, e, attr);
  }

  lemma FirstValueAgrees(c: Config, st: State, e: Event, attr: string, value: string)
    requires IsUpdate(st, e, attr) && KeysDistinct(st.entries) && Elected(c, st, attr)
    requires ValueOf(e.record, attr) == Some(value) && RuleFor(c, attr).kind != Manual && attr !in st.rows
    ensures Elected(c, Updated(c, st, e), attr)
  {
    UpdatedAt(c, st, e, attr);
    JudgedRow(c, Updating(st, e), e.record, e.confidence, attr, value);
    ElectionWithValue(c, st, e, attr, value);
    RivalsElectStanding(c, st, e, attr);
    if attr !in AttributeNames(e.record) {
      NothingStoredNoCandidates(c, st, attr);
      var own :| own in st.entries && own.source == e.record.source;
      CandidateMembers(st.lake, st.entries, attr, Candidate(own, value));
      assert false;
    }
  }

  lemma ManualAgreesIff(c: Config, st: State, e: Event, attr: string, value: string)
    requires IsUpdate(st, e, attr) && Elected(c, st, attr)
    requires ValueOf(e.record, attr) == Some(value) && RuleFor(c, attr).kind == Manual
    ensures Elected(c, Updated(c, st, e), attr) <==> attr !in AttributeNames(e.record)
  {
    UpdatedAt(c, st, e, attr);
  }

  /** After an UPDATE the stored row of an attribute is the winner of the full election if and only if nothing
      the update changed went unrecorded. */
  lemma UpdateAgreesIff(c: Config, st: State, e: Event, attr: string)
    requires IsUpdate(st, e, attr) && KeysDistinct(st.entries) && Elected(c, st, attr)
    ensures Elected(c, Updated(c, st, e), attr) <==> Recorded(c, st, e, attr)
  {
    match ValueOf(e.record, attr)
    case None => NoValueAgrees(c, st, e, attr);
    case Some(value) =>
      if RuleFor(c, attr).kind == Manual {
        ManualAgreesIff(c, st, e, attr, value);
      } else if attr !in st.rows {
        FirstValueAgrees(c, st, e, attr, value);
      } else if st.rows[attr].source == e.record.source {
        OwnRowAgreesIff(c, st, e, attr, value);
      } else {
        RivalRowAgreesIff(c, st, e, attr, value);
      }
  }

  // ---- Histories with updates --------------------------------------------------------------------------

  datatype Change = Plain(event: Event) | Update(event: Event)

  function AfterChange(c: Config, st: State, change: Change): State {
    match change
    case Plain(e) => After(c, st, e)
    case Update(e) => if e.Arrive? then Updated(c, st, e) else st
  }

  /** First arrivals, deletes, and updates whose diff is right about the attribute. */
  ghost predicate AreChanges(c: Config, st: State, changes: seq<Change>, attr: string)
    decreases |changes|
  {
    changes != [] ==>
      && (match changes[0]
          case Plain(e) => e.Depart? || FirstArrival(st, e)
          case Update(e) => IsUpdate(st, e, attr))
      && AreChanges(c, AfterChange(c, st, changes[0]), changes[1..], attr)
  }

  /** The change leaves the stored row the elected one. */
  ghost predicate Sound(c: Config, st: State, change: Change, attr: string) {
    change.event.Arrive? ==>
      match change
      case Plain(e) => MeasuresAgree(c, st, e, attr)
      case Update(e) => Recorded(c, st, e, attr)
  }

  ghost predicate SoundThroughout(c: Config, st: State, changes: seq<Change>, attr: string)
    decreases |changes|
  {
    changes != [] ==>
      Sound(c, st, changes[0], attr) && SoundThroughout(c, AfterChange(c, st, changes[0]), changes[1..], attr)
  }

  ghost predicate StaysElected(c: Config, st: State, changes: seq<Change>, attr: string)
    decreases |changes|
  {
    Elected(c, st, attr)
    && (changes != [] ==> StaysElected(c, AfterChange(c, st, changes[0]), changes[1..], attr))
  }

  lemma ChangeKeepsKeys(c: Config, st: State, change: Change, attr: string)
    requires KeysDistinct(st.entries) && AreChanges(c, st, [change], attr)
    ensures KeysDistinct(AfterChange(c, st, change).entries)
  {
    match change
    case Plain(e) => StepKeepsKeys(c, st, e);
    case Update(e) =>
      UpdatedAt(c, st, e, attr);
      ReindexedKeepsKeys(st.entries, EntryOf(e));
  }

  lemma ChangeKeepsElectedIff(c: Config, st: State, change: Change, attr: string)
    requires Elected(c, st, attr) && KeysDistinct(st.entries) && AreChanges(c, st, [change], attr)
    ensures Elected(c, AfterChange(c, st, change), attr) <==> Sound(c, st, change, attr)
  {
    match change
    case Plain(e) =>
      if e.Arrive? {
        ArrivalKeepsElectedIff(c, st, e, attr);
      } else {
        DepartureKeepsElected(c, st, e.source, attr);
      }
    case Update(e) => UpdateAgreesIff(c, st, e, attr);
  }

  /** Through any history of first arrivals, updates and deletes, and under any rule, the stored row is the
      elected one all along if and only if every arrival is measured alike and every update recorded. */
  lemma {:induction false} StaysElectedIff(c: Config, st: State, changes: seq<Change>, attr: string)
    requires Elected(c, st, attr) && KeysDistinct(st.entries) && AreChanges(c, st, changes, attr)
    ensures StaysElected(c, st, changes, attr) <==> SoundThroughout(c, st, changes, attr)
    decreases |changes|
  {
    if changes != [] {
      var change, after := changes[0], AfterChange(c, st, changes[0]);
      assert AreChanges(c, st, [change], attr);
      ChangeKeepsKeys(c, st, change, attr);
      ChangeKeepsElectedIff(c, st, change, attr);
      if Elected(c, after, attr) {
        StaysElectedIff(c, after, changes[1..], attr);
      }
    }
  }
}
