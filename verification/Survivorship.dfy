/** Stage 3 survivorship for one golden record: its state, the rules, the incremental evaluation of an
    arriving record, and the full election used when a winner disappears. */
module Survivorship {
  import opened Text
  import opened Sources
  import StableSort
  import ProvenanceHash

  // ---- Data model ------------------------------------------------------------

  datatype RuleKind =
    | MostRecent | MostConfident | SourcePriority | MostComplete
    | FirstObserved | Manual | LongestValue | ExactMatch

  datatype Rule = Rule(kind: RuleKind, prioritySources: seq<string>)

  /** A canonical field: absent, a bare value, or an object carrying a "value" entry. Values are kept as
      the text Python's `str` prints for them. */
  datatype FieldValue = Null | Plain(text: string) | Wrapped(inner: Option<string>)

  /** One row of golden_record_provenance. */
  datatype Row = Row(attribute: string, source: SourceKey, valueHash: string, observedAt: string,
                     ruleApplied: RuleKind)

  /** One row of entity_resolution_index for this golden record. */
  datatype Entry = Entry(source: SourceKey, sourceTs: string, confidence: real, completeness: real)

  datatype ChangedAttributes = NotJson | NotAList | Names(names: seq<string>)

  /** `fieldNames` lists the keys of `fields` in dict order. */
  datatype Record = Record(source: SourceKey, sourceTs: string, fieldNames: seq<string>,
                           fields: map<string, FieldValue>, sourceOp: string, changed: ChangedAttributes)

  datatype Resolution = Resolution(confidence: real, isProvisional: bool, isNewEntity: bool)

  datatype Config = Config(rules: map<string, Rule>, sha256: string -> string)

  /** The lake's current non-null values, per source and attribute. */
  type Lake = map<SourceKey, map<string, string>>

  /** Everything Stage 3 reads or writes for one golden record: provenance rows, the hash in
      golden_records_index, the ER index entries in listing order, the lake's current values, the
      completeness cache and the tombstone mark. */
  datatype State = State(rows: map<string, Row>, recordedHash: string, entries: seq<Entry>,
                         lake: Lake, completeness: map<string, int>,
                         tombstoned: bool)

  ghost predicate WellFormed(r: Record) {
    forall n :: n in r.fieldNames <==> n in r.fields
  }

  // ---- Reading a record --------------------------------------------------------

  function Extract(f: FieldValue): Option<string> {
    match f
    case Null => None
    case Plain(text) => Some(text)
    case Wrapped(inner) => inner
  }

  function ValueOf(r: Record, attr: string): Option<string> {
    if attr in r.fields then Extract(r.fields[attr]) else None
  }

  /** `parse_changed_canonical_attributes`: None asks for full synthesis. */
  function ChangedScope(r: Record): Option<seq<string>> {
    if Upper(r.sourceOp) != "UPDATE" then None
    else match r.changed
      case NotJson => Some([])
      case NotAList => Some([])
      case Names(names) => Some(NonEmptyNames(names))
  }

  function NonEmptyNames(names: seq<string>): seq<string> {
    if names == [] then []
    else (if names[0] == "" then [] else [names[0]]) + NonEmptyNames(names[1..])
  }

  function AttributeNames(r: Record): seq<string> {
    match ChangedScope(r)
    case Some(names) => names
    case None => r.fieldNames
  }

  // ---- Rules ---------------------------------------------------------------------

  function RuleFor(c: Config, attr: string): Rule {
    if attr in c.rules then c.rules[attr] else Rule(MostRecent, [])
  }

  /** Position in the priority list; connectors that are not listed come last, together. */
  function PriorityRank(connector: string, priority: seq<string>): (rank: nat)
    ensures rank <= |priority|
    ensures rank < |priority| ==> priority[rank] == connector
    ensures connector !in priority[..rank]
  {
    if priority == [] || priority[0] == connector then 0
    else
      var rest := PriorityRank(connector, priority[1..]);
      assert priority[..rest + 1] == [priority[0]] + priority[1..][..rest];
      rest + 1
  }

  function KnownConfidence(entries: seq<Entry>, connector: string): real {
    if entries == [] then 0.0
    else if entries[0].source.connectorId == connector then entries[0].confidence
    else KnownConfidence(entries[1..], connector)
  }

  function CountPresent(r: Record, names: seq<string>): nat {
    if names == [] then 0
    else (if ValueOf(r, names[0]).Some? then 1 else 0) + CountPresent(r, names[1..])
  }

  /** `_apply_survivorship_rule`: does the arriving record beat the standing winner? */
  predicate IncomingWins(rule: Rule, st: State, r: Record, confidence: real, standing: Row) {
    match rule.kind
    case SourcePriority =>
      PriorityRank(r.source.connectorId, rule.prioritySources)
        < PriorityRank(standing.source.connectorId, rule.prioritySources)
    case MostRecent => Less(standing.observedAt, r.sourceTs)
    case MostComplete =>
      var incoming := CountPresent(r, r.fieldNames);
      var known := if standing.source.connectorId in st.completeness
                   then st.completeness[standing.source.connectorId] else 0;
      if incoming != known then incoming > known else Less(standing.observedAt, r.sourceTs)
    case MostConfident => confidence > KnownConfidence(st.entries, standing.source.connectorId)
    case _ => false
  }

  // ---- Full election ---------------------------------------------------------------

  datatype Candidate = Candidate(entry: Entry, value: string)

  function LakeValue(lake: Lake, source: SourceKey, attr: string): Option<string> {
    if source in lake && attr in lake[source] then Some(lake[source][attr]) else None
  }

  function Candidates(lake: Lake, sources: seq<Entry>, attr: string): seq<Candidate> {
    if sources == [] then []
    else
      var last := sources[|sources| - 1];
      Candidates(lake, sources[..|sources| - 1], attr)
      + match LakeValue(lake, last.source, attr) {
          case Some(value) => [Candidate(last, value)]
          case None => []
        }
  }

  /** The sort order of `_re_elect_winner`. */
  predicate Precedes(rule: Rule, a: Entry, b: Entry) {
    match rule.kind
    case SourcePriority =>
      PriorityRank(a.source.connectorId, rule.prioritySources)
        < PriorityRank(b.source.connectorId, rule.prioritySources)
    case MostRecent => Less(b.sourceTs, a.sourceTs)
    case MostComplete => a.completeness > b.completeness
    case MostConfident => a.confidence > b.confidence
    case FirstObserved => Less(a.sourceTs, b.sourceTs)
    case _ => false
  }

  function Order(rule: Rule): (Candidate, Candidate) -> bool {
    (a: Candidate, b: Candidate) => Precedes(rule, a.entry, b.entry)
  }

  /** The election as a function of the attribute alone. */
  function Election(c: Config, lake: Lake, sources: seq<Entry>): string -> Option<Row> {
    attr => Elect(c, lake, sources, attr)
  }

  function RowOf(c: Config, attr: string, kind: RuleKind, winner: Candidate): Row {
    Row(attr, winner.entry.source, c.sha256(winner.value), winner.entry.sourceTs, kind)
  }

  /** `_re_elect_winner`: the first candidate after a stable sort; manual attributes elect nobody. */
  function Elect(c: Config, lake: Lake, sources: seq<Entry>, attr: string): Option<Row> {
    var candidates := Candidates(lake, sources, attr);
    var rule := RuleFor(c, attr);
    if candidates == [] || rule.kind == Manual then None
    else Some(RowOf(c, attr, rule.kind, StableSort.Sort(candidates, Order(rule))[0]))
  }

  // ---- One attribute of one arriving record -------------------------------------------

  datatype Outcome = Untouched | Put(row: Row, changed: bool) | Removed(connectorId: string)

  function MadeRow(c: Config, r: Record, attr: string, value: string): Row {
    Row(attr, r.source, c.sha256(value), r.sourceTs, RuleFor(c, attr).kind)
  }

  predicate SameConnectorAndId(a: SourceKey, b: SourceKey) {
    a.connectorId == b.connectorId && a.recordId == b.recordId
  }

  /** `_evaluate_survivorship`. */
  function Evaluate(c: Config, st: State, r: Record, confidence: real, attr: string, value: string): Outcome {
    var rule := RuleFor(c, attr);
    var made := MadeRow(c, r, attr, value);
    if attr !in st.rows then Put(made, true)
    else
      var standing := st.rows[attr];
      if rule.kind == Manual || !IncomingWins(rule, st, r, confidence, standing) then Untouched
      else if standing.valueHash == made.valueHash && SameConnectorAndId(standing.source, r.source)
      then Put(standing, false)
      else Put(made, true)
  }

  /** Does a cleared value unwind the standing winner? */
  predicate Clears(st: State, r: Record, attr: string) {
    ValueOf(r, attr).None? && attr in st.rows && SameConnectorAndId(st.rows[attr].source, r.source)
  }

  function Without(entries: seq<Entry>, source: SourceKey): (rest: seq<Entry>)
    ensures forall e :: e in rest <==> e in entries && e.source != source
    ensures |rest| <= |entries|
  {
    if entries == [] then []
    else
      var last := entries[|entries| - 1];
      Without(entries[..|entries| - 1], source) + if last.source == source then [] else [last]
  }

  function OutcomeOf(c: Config, st: State, r: Record, confidence: real, attr: string): Outcome {
    match ValueOf(r, attr)
    case Some(value) => Evaluate(c, st, r, confidence, attr, value)
    case None =>
      if !Clears(st, r, attr) then Untouched
      else match Elect(c, st.lake, Without(st.entries, r.source), attr)
        case Some(row) => Put(row, true)
        case None => Removed(st.rows[attr].source.connectorId)
  }

  /** The verdict on each attribute, with everything but the attribute fixed. */
  function Judge(c: Config, st: State, r: Record, confidence: real): string -> Outcome {
    attr => OutcomeOf(c, st, r, confidence, attr)
  }

  /** Each stored row carries the attribute it is stored under. */
  ghost predicate RowsNamed(st: State) {
    forall a :: a in st.rows ==> st.rows[a].attribute == a
  }

  // ---- One synthesise call, as a function of the state ---------------------------------

  datatype Change = Change(row: Row, changed: bool)

  datatype Deletion = Deletion(attribute: string, connectorId: string)

  datatype SynthesisResult = SynthesisResult(
    rowsToUpsert: seq<Row>, rowsToDelete: seq<Deletion>, provenanceHash: string, hashChanged: bool,
    contributingSources: seq<string>, attributeProvenance: map<string, string>)

  function Changes(judge: string -> Outcome, names: seq<string>): seq<Change> {
    if names == [] then []
    else
      var last := judge(names[|names| - 1]);
      Changes(judge, names[..|names| - 1]) + if last.Put? then [Change(last.row, last.changed)] else []
  }

  function Deletions(judge: string -> Outcome, names: seq<string>): seq<Deletion> {
    if names == [] then []
    else
      var attr := names[|names| - 1];
      var last := judge(attr);
      Deletions(judge, names[..|names| - 1]) + if last.Removed? then [Deletion(attr, last.connectorId)] else []
  }

  function ChangedRows(changes: seq<Change>): seq<Row> {
    if changes == [] then []
    else
      var last := changes[|changes| - 1];
      ChangedRows(changes[..|changes| - 1]) + if last.changed then [last.row] else []
  }

  /** The row an attribute ends with. */
  function RowAfter(judge: string -> Outcome, rows: map<string, Row>, attr: string): Option<Row> {
    match judge(attr)
    case Put(row, _) => Some(row)
    case Removed(_) => None
    case Untouched => if attr in rows then Some(rows[attr]) else None
  }

  function RowsAfter(judge: string -> Outcome, rows: map<string, Row>, names: seq<string>): map<string, Row> {
    map a | a in rows.Keys + (set n | n in names) && (a !in names || RowAfter(judge, rows, a).Some?)
          :: if a in names then RowAfter(judge, rows, a).value else rows[a]
  }

  predicate Touches(o: Outcome) {
    o.Removed? || (o.Put? && o.changed)
  }

  predicate AnyTouched(judge: string -> Outcome, names: seq<string>) {
    exists n | n in names :: Touches(judge(n))
  }

  function Winners(rows: map<string, Row>): map<string, ProvenanceHash.Winner> {
    map a | a in rows :: ProvenanceHash.Winner(rows[a].source.recordId, rows[a].valueHash)
  }

  /** `_compute_provenance_hash`. */
  function HashOf(c: Config, rows: map<string, Row>): string {
    ProvenanceHash.Digest(c.sha256, Winners(rows))
  }

  function Pointers(rows: map<string, Row>): map<string, string> {
    map a | a in rows :: rows[a].source.connectorId + ":" + rows[a].source.recordId
  }

  function Contributors(rows: map<string, Row>): seq<string> {
    Ascending(set a | a in rows :: rows[a].source.connectorId)
  }

  function Report(changes: seq<Change>, deletions: seq<Deletion>, hash: string, previousHash: string,
                  rows: map<string, Row>): SynthesisResult {
    SynthesisResult(ChangedRows(changes), deletions, hash, hash != previousHash, Contributors(rows), Pointers(rows))
  }

  /** The effect of judging `names` in turn. */
  function Absorbed(c: Config, st: State, judge: string -> Outcome, names: seq<string>, isNewEntity: bool)
    : (State, SynthesisResult)
  {
    var rows := RowsAfter(judge, st.rows, names);
    var hash := if isNewEntity || AnyTouched(judge, names) then HashOf(c, rows) else st.recordedHash;
    (st.(rows := rows, recordedHash := hash),
     Report(Changes(judge, names), Deletions(judge, names), hash, st.recordedHash, rows))
  }

  function Synthesised(c: Config, st: State, r: Record, res: Resolution): (State, SynthesisResult) {
    if res.isProvisional then (st, SynthesisResult([], [], "", false, [], map[]))
    else if ChangedScope(r) == Some([]) then
      (st, SynthesisResult([], [], st.recordedHash, false, Contributors(st.rows), Pointers(st.rows)))
    else Absorbed(c, st, Judge(c, st, r, res.confidence), AttributeNames(r), res.isNewEntity)
  }

  // ---- Deleting a source -----------------------------------------------------------------

  datatype DeleteResult =
    | NoOp
    | Tombstoned
    | ReElected(reElected: set<string>, removed: set<string>)

  function WonBy(rows: map<string, Row>, source: SourceKey): set<string> {
    set a | a in rows && SameConnectorAndId(rows[a].source, source)
  }

  predicate Indexed(entries: seq<Entry>, source: SourceKey) {
    exists e | e in entries :: e.source == source
  }

  function RowsAfterDelete(elect: string -> Option<Row>, rows: map<string, Row>, lost: set<string>): map<string, Row> {
    map a | a in rows && (a !in lost || elect(a).Some?) :: if a in lost then elect(a).value else rows[a]
  }

  /** `handle_source_delete`. */
  function Deleted(c: Config, st: State, source: SourceKey): (State, DeleteResult) {
    if !Indexed(st.entries, source) then (st, NoOp)
    else
      var remaining := Without(st.entries, source);
      if remaining == [] then
        (st.(rows := map[], entries := [], tombstoned := true), Tombstoned)
      else
        var lost := WonBy(st.rows, source);
        var elect := Election(c, st.lake, remaining);
        var rows := RowsAfterDelete(elect, st.rows, lost);
        (st.(rows := rows, entries := remaining, recordedHash := HashOf(c, rows)),
         ReElected(set a | a in lost && elect(a).Some?, set a | a in lost && elect(a).None?))
  }
}
