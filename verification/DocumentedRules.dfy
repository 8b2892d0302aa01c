/** Two rules that Stage 3 documents but does not apply: "longest non-null string value wins" and "only include
    if all sources agree exactly". Under both, the earliest indexed source with a value is stored. */
module DocumentedRules {
  import opened Text
  import opened Sources
  import StableSort
  import opened Survivorship
  import opened SynthesisSteps
  import opened BatchEquivalence

  predicate IsUnapplied(kind: RuleKind) {
    kind == LongestValue || kind == ExactMatch
  }

  function CandidatesOf(st: State, attr: string): seq<Candidate> {
    Candidates(st.lake, st.entries, attr)
  }

  lemma EarliestIsElected(c: Config, st: State, attr: string)
    requires IsUnapplied(RuleFor(c, attr).kind)
    ensures var xs := CandidatesOf(st, attr);
            Elect(c, st.lake, st.entries, attr)
            == if xs == [] then None else Some(RowOf(c, attr, RuleFor(c, attr).kind, xs[0]))
  {
    ElectIsBest(c, st.lake, st.entries, attr);
    if CandidatesOf(st, attr) != [] {
      StableSort.BestOfEquals(CandidatesOf(st, attr), Order(RuleFor(c, attr)));
    }
  }

  /** After any history of first arrivals and deletes the row of the earliest source with a value is stored. */
  lemma EarliestIsStored(c: Config, history: seq<Event>, attr: string)
    requires IsUnapplied(RuleFor(c, attr).kind) && Admissible(c, NEW_GOLDEN_RECORD, history, attr)
    ensures var st := Run(c, NEW_GOLDEN_RECORD, history);
            var xs := CandidatesOf(st, attr);
            Stored(st, attr) == if xs == [] then None else Some(RowOf(c, attr, RuleFor(c, attr).kind, xs[0]))
  {
    StoredRowsAreElected(c, history, attr);
    EarliestIsElected(c, Run(c, NEW_GOLDEN_RECORD, history), attr);
  }

  predicate IsLongest(xs: seq<Candidate>, x: Candidate) {
    forall y | y in xs :: |y.value| <= |x.value|
  }

  /** A longest value is stored. */
  ghost predicate StoresLongest(c: Config, st: State, attr: string) {
    exists x | x in CandidatesOf(st, attr) ::
      IsLongest(CandidatesOf(st, attr), x) && Stored(st, attr) == Some(RowOf(c, attr, RuleFor(c, attr).kind, x))
  }

  lemma ElectedLongestIff(c: Config, st: State, attr: string)
    requires RuleFor(c, attr).kind == LongestValue && Elected(c, st, attr) && KeysDistinct(st.entries)
    requires CandidatesOf(st, attr) != []
    ensures StoresLongest(c, st, attr) <==> IsLongest(CandidatesOf(st, attr), CandidatesOf(st, attr)[0])
  {
    var xs := CandidatesOf(st, attr);
    EarliestIsElected(c, st, attr);
    forall x | x in xs && x.entry.source == xs[0].entry.source ensures x == xs[0] {
      CandidateMembers(st.lake, st.entries, attr, x);
      CandidateMembers(st.lake, st.entries, attr, xs[0]);
      KeysTellEntries(st.entries, x.entry, xs[0].entry);
    }
  }

  /** A longest value is stored if and only if the earliest source with a value has one. */
  lemma LongestValueIff(c: Config, history: seq<Event>, attr: string)
    requires RuleFor(c, attr).kind == LongestValue && Admissible(c, NEW_GOLDEN_RECORD, history, attr)
    ensures var st := Run(c, NEW_GOLDEN_RECORD, history);
            var xs := CandidatesOf(st, attr);
            xs != [] ==> (StoresLongest(c, st, attr) <==> IsLongest(xs, xs[0]))
  {
    StoredRowsAreElected(c, history, attr);
    HistoryKeepsKeys(c, NEW_GOLDEN_RECORD, history, attr);
    if CandidatesOf(Run(c, NEW_GOLDEN_RECORD, history), attr) != [] {
      ElectedLongestIff(c, Run(c, NEW_GOLDEN_RECORD, history), attr);
    }
  }

  predicate AllAgree(xs: seq<Candidate>) {
    forall x | x in xs :: x.value == xs[0].value
  }

  /** A row is stored exactly when there are values and they all agree. */
  predicate StoresIfExact(st: State, attr: string) {
    Stored(st, attr).Some? <==> CandidatesOf(st, attr) != [] && AllAgree(CandidatesOf(st, attr))
  }

  lemma ElectedExactIff(c: Config, st: State, attr: string)
    requires RuleFor(c, attr).kind == ExactMatch && Elected(c, st, attr)
    ensures StoresIfExact(st, attr) <==> AllAgree(CandidatesOf(st, attr))
  {
    EarliestIsElected(c, st, attr);
  }

  /** A row is stored exactly when the documentation wants one if and only if all values there are agree. */
  lemma ExactMatchIff(c: Config, history: seq<Event>, attr: string)
    requires RuleFor(c, attr).kind == ExactMatch && Admissible(c, NEW_GOLDEN_RECORD, history, attr)
    ensures var st := Run(c, NEW_GOLDEN_RECORD, history);
            StoresIfExact(st, attr) <==> AllAgree(CandidatesOf(st, attr))
  {
    StoredRowsAreElected(c, history, attr);
    ElectedExactIff(c, Run(c, NEW_GOLDEN_RECORD, history), attr);
  }
}
