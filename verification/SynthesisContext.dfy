/** The intermediate states of one synthesise call, and how they add up to its specification. */
module SynthesisSteps {
  import opened Text
  import opened Sources
  import opened Survivorship

  function Clearing(st: State, r: Record): string -> bool {
    attr => Clears(st, r, attr)
  }

  /** What every verdict guarantees, whatever the rule. */
  ghost predicate Sound(judge: string -> Outcome, rows: map<string, Row>, clears: string -> bool) {
    forall a ::
      && (judge(a).Put? ==> judge(a).row.attribute == a)
      && (judge(a).Removed? ==> clears(a))
      && (clears(a) ==> a in rows && Touches(judge(a)))
      && (judge(a).Put? && !judge(a).changed ==> a in rows && judge(a).row == rows[a])
      && (judge(a).Put? && judge(a).changed ==> a !in rows || clears(a) || judge(a).row != rows[a])
  }

  lemma JudgeIsSound(c: Config, st: State, r: Record, confidence: real)
    requires RowsNamed(st)
    ensures Sound(Judge(c, st, r, confidence), st.rows, Clearing(st, r))
  {
  }

  /** After the attribute loop: the rows whose winner cleared its value are gone. */
  function Unwound(rows: map<string, Row>, clears: string -> bool, names: seq<string>): map<string, Row> {
    map a | a in rows && !(a in names && clears(a)) :: rows[a]
  }

  lemma UnwoundSnoc(rows: map<string, Row>, clears: string -> bool, names: seq<string>, attr: string)
    ensures Unwound(rows, clears, names + [attr])
         == if clears(attr) then Unwound(rows, clears, names) - {attr} else Unwound(rows, clears, names)
  {
  }

  lemma RowsAfterDeleteSnoc(elect: string -> Option<Row>, rows: map<string, Row>, done: set<string>, attr: string)
    requires attr in rows && attr !in done
    ensures var before, after := RowsAfterDelete(elect, rows, done), RowsAfterDelete(elect, rows, done + {attr});
            match elect(attr)
            case Some(row) => after == (before - {attr})[attr := row]
            case None => after == before - {attr}
  {
  }

  lemma {:induction false} CandidatesAreEntries(lake: Lake, sources: seq<Entry>, attr: string)
    ensures forall x :: x in Candidates(lake, sources, attr) ==> x.entry in sources
  {
    if sources != [] {
      CandidatesAreEntries(lake, sources[..|sources| - 1], attr);
      assert sources == sources[..|sources| - 1] + [sources[|sources| - 1]];
    }
  }

  function Applied(rows: map<string, Row>, changes: seq<Change>): map<string, Row> {
    if changes == [] then rows
    else
      var last := changes[|changes| - 1].row;
      Applied(rows, changes[..|changes| - 1])[last.attribute := last]
  }

  predicate Written(rows: map<string, Row>, changes: seq<Change>) {
    changes != [] && (Written(rows, changes[..|changes| - 1])
                      || Applied(rows, changes) != Applied(rows, changes[..|changes| - 1]))
  }

  function AppliedIfChanged(rows: map<string, Row>, changes: seq<Change>): map<string, Row> {
    if changes == [] then rows
    else
      var last := changes[|changes| - 1];
      var before := AppliedIfChanged(rows, changes[..|changes| - 1]);
      if last.changed then before[last.row.attribute := last.row] else before
  }

  function Popped(rows: map<string, Row>, deletions: seq<Deletion>): map<string, Row> {
    if deletions == [] then rows
    else Popped(rows, deletions[..|deletions| - 1]) - {deletions[|deletions| - 1].attribute}
  }

  lemma LastChange(judge: string -> Outcome, init: seq<string>, attr: string)
    ensures var o := judge(attr);
            var before, after := Changes(judge, init), Changes(judge, init + [attr]);
            after == if o.Put? then before + [Change(o.row, o.changed)] else before
  {
    assert (init + [attr])[..|init|] == init;
  }

  lemma AppliedSnoc(rows: map<string, Row>, changes: seq<Change>, ch: Change)
    ensures Applied(rows, changes + [ch]) == Applied(rows, changes)[ch.row.attribute := ch.row]
  {
    assert (changes + [ch])[..|changes|] == changes;
  }

  lemma {:induction false} AppliedAt(judge: string -> Outcome, rows: map<string, Row>, names: seq<string>, a: string)
    requires forall n :: judge(n).Put? ==> judge(n).row.attribute == n
    ensures var m := Applied(rows, Changes(judge, names));
            && (a in m <==> (a in names && judge(a).Put?) || a in rows)
            && (a in m ==> m[a] == if a in names && judge(a).Put? then judge(a).row else rows[a])
  {
    if names != [] {
      var init, attr := names[..|names| - 1], names[|names| - 1];
      AppliedAt(judge, rows, init, a);
      assert names == init + [attr];
      LastChange(judge, init, attr);
      if judge(attr).Put? {
        AppliedSnoc(rows, Changes(judge, init), Change(judge(attr).row, judge(attr).changed));
      }
    }
  }

  lemma AppliedIfChangedSnoc(rows: map<string, Row>, changes: seq<Change>, ch: Change)
    ensures var before := AppliedIfChanged(rows, changes);
            AppliedIfChanged(rows, changes + [ch]) == if ch.changed then before[ch.row.attribute := ch.row] else before
  {
    assert (changes + [ch])[..|changes|] == changes;
  }

  lemma {:induction false} AppliedIfChangedAt(judge: string -> Outcome, rows: map<string, Row>,
                                              names: seq<string>, a: string)
    requires forall n :: judge(n).Put? ==> judge(n).row.attribute == n
    ensures var m := AppliedIfChanged(rows, Changes(judge, names));
            && (a in m <==> (a in names && judge(a).Put? && judge(a).changed) || a in rows)
            && (a in m ==> m[a] == if a in names && judge(a).Put? && judge(a).changed then judge(a).row else rows[a])
  {
    if names != [] {
      var init, attr := names[..|names| - 1], names[|names| - 1];
      AppliedIfChangedAt(judge, rows, init, a);
      assert names == init + [attr];
      LastChange(judge, init, attr);
      if judge(attr).Put? {
        AppliedIfChangedSnoc(rows, Changes(judge, init), Change(judge(attr).row, judge(attr).changed));
      }
    }
  }

  lemma {:induction false} PoppedAt(judge: string -> Outcome, rows: map<string, Row>, names: seq<string>, a: string)
    ensures var m := Popped(rows, Deletions(judge, names));
            && (a in m <==> a in rows && !(a in names && judge(a).Removed?))
            && (a in m ==> m[a] == rows[a])
  {
    if names != [] {
      var init, attr := names[..|names| - 1], names[|names| - 1];
      PoppedAt(judge, rows, init, a);
      assert names == init + [attr];
      var before := Deletions(judge, init);
      if judge(attr).Removed? {
        assert (before + [Deletion(attr, judge(attr).connectorId)])[..|before|] == before;
      } else {
        assert before + [] == before;
      }
    }
  }

  /** The store ends with the specified rows. */
  lemma StoreEndsWithRowsAfter(judge: string -> Outcome, rows: map<string, Row>, clears: string -> bool,
                               names: seq<string>)
    requires Sound(judge, rows, clears)
    ensures Applied(Unwound(rows, clears, names), Changes(judge, names)) == RowsAfter(judge, rows, names)
  {
    var stored, specified := Applied(Unwound(rows, clears, names), Changes(judge, names)),
                             RowsAfter(judge, rows, names);
    forall a
      ensures a in stored <==> a in specified
      ensures a in stored ==> stored[a] == specified[a]
    {
      AppliedAt(judge, Unwound(rows, clears, names), names, a);
    }
  }

  /** So does the dict from which the hash and the result are computed. */
  lemma TrackedRowsAreRowsAfter(judge: string -> Outcome, rows: map<string, Row>, clears: string -> bool,
                                names: seq<string>)
    requires Sound(judge, rows, clears)
    ensures Popped(AppliedIfChanged(rows, Changes(judge, names)), Deletions(judge, names))
         == RowsAfter(judge, rows, names)
  {
    var tracked, specified := Popped(AppliedIfChanged(rows, Changes(judge, names)), Deletions(judge, names)),
                              RowsAfter(judge, rows, names);
    forall a
      ensures a in tracked <==> a in specified
      ensures a in tracked ==> tracked[a] == specified[a]
    {
      AppliedIfChangedAt(judge, rows, names, a);
      PoppedAt(judge, AppliedIfChanged(rows, Changes(judge, names)), names, a);
    }
  }

  lemma {:induction false} UnwrittenIsUnchanged(rows: map<string, Row>, changes: seq<Change>)
    requires !Written(rows, changes)
    ensures Applied(rows, changes) == rows
  {
    if changes != [] {
      UnwrittenIsUnchanged(rows, changes[..|changes| - 1]);
    }
  }

  lemma {:induction false} UntouchedIsUnwritten(judge: string -> Outcome, rows: map<string, Row>,
                                                clears: string -> bool, names: seq<string>)
    requires Sound(judge, rows, clears) && !AnyTouched(judge, names)
    ensures !Written(rows, Changes(judge, names))
    ensures Applied(rows, Changes(judge, names)) == rows
    ensures Deletions(judge, names) == []
  {
    if names != [] {
      var init, attr := names[..|names| - 1], names[|names| - 1];
      UntouchedIsUnwritten(judge, rows, clears, init);
      assert names == init + [attr];
      assert !Touches(judge(attr));
      LastChange(judge, init, attr);
      if judge(attr).Put? {
        assert rows[attr := rows[attr]] == rows;
      }
    }
  }

  lemma {:induction false} DeletionsWhenRemoved(judge: string -> Outcome, names: seq<string>, attr: string)
    requires attr in names && judge(attr).Removed?
    ensures Deletions(judge, names) != []
  {
    if names[|names| - 1] != attr {
      DeletionsWhenRemoved(judge, names[..|names| - 1], attr);
    }
  }

  /** `actually_changed` is exactly "some attribute was touched". */
  lemma ChangedExactlyWhenTouched(judge: string -> Outcome, rows: map<string, Row>, clears: string -> bool,
                                  names: seq<string>)
    requires Sound(judge, rows, clears)
    ensures AnyTouched(judge, names)
       <==> Deletions(judge, names) != [] || Written(Unwound(rows, clears, names), Changes(judge, names))
  {
    var unwound, changes := Unwound(rows, clears, names), Changes(judge, names);
    if AnyTouched(judge, names) {
      var n :| n in names && Touches(judge(n));
      if judge(n).Removed? {
        DeletionsWhenRemoved(judge, names, n);
      } else if !Written(unwound, changes) {
        UnwrittenIsUnchanged(unwound, changes);
        AppliedAt(judge, unwound, names, n);
        assert false;
      }
    } else {
      UntouchedIsUnwritten(judge, rows, clears, names);
      assert unwound == rows;
    }
  }

  /** What the writes of one synthesise call add up to. */
  lemma Settlement(judge: string -> Outcome, rows: map<string, Row>, clears: string -> bool, names: seq<string>)
    requires Sound(judge, rows, clears)
    requires forall a :: a in rows ==> rows[a].attribute == a
    ensures var changes, deletions, after := Changes(judge, names), Deletions(judge, names),
                                             RowsAfter(judge, rows, names);
            && Applied(Unwound(rows, clears, names), changes) == after
            && Popped(AppliedIfChanged(rows, changes), deletions) == after
            && (AnyTouched(judge, names) <==> deletions != [] || Written(Unwound(rows, clears, names), changes))
            && forall a :: a in after ==> after[a].attribute == a
  {
    StoreEndsWithRowsAfter(judge, rows, clears, names);
    TrackedRowsAreRowsAfter(judge, rows, clears, names);
    ChangedExactlyWhenTouched(judge, rows, clears, names);
  }

  lemma AbsorbedAs(c: Config, st: State, judge: string -> Outcome, names: seq<string>, isNewEntity: bool, hash: string)
    requires hash == if isNewEntity || AnyTouched(judge, names) then HashOf(c, RowsAfter(judge, st.rows, names))
                     else st.recordedHash
    ensures var rows := RowsAfter(judge, st.rows, names);
            Absorbed(c, st, judge, names, isNewEntity)
            == (st.(rows := rows, recordedHash := hash),
                Report(Changes(judge, names), Deletions(judge, names), hash, st.recordedHash, rows))
  {
  }

  lemma SynthesisSettles(c: Config, st: State, r: Record, confidence: real, names: seq<string>)
    requires RowsNamed(st)
    ensures var judge, clears := Judge(c, st, r, confidence), Clearing(st, r);
            var changes, deletions, after := Changes(judge, names), Deletions(judge, names),
                                             RowsAfter(judge, st.rows, names);
            && Applied(Unwound(st.rows, clears, names), changes) == after
            && Popped(AppliedIfChanged(st.rows, changes), deletions) == after
            && (AnyTouched(judge, names) <==> deletions != [] || Written(Unwound(st.rows, clears, names), changes))
            && RowsNamed(st.(rows := after))
  {
    JudgeIsSound(c, st, r, confidence);
    Settlement(Judge(c, st, r, confidence), st.rows, Clearing(st, r), names);
  }

  /** What is to be written and reported, for the changes and deletions the loop has collected. */
  lemma SettledAs(c: Config, st: State, r: Record, confidence: real, names: seq<string>, isNewEntity: bool,
                   changes: seq<Change>, deletions: seq<Deletion>)
    returns (after: map<string, Row>, touched: bool, hash: string)
    requires RowsNamed(st)
    requires changes == Changes(Judge(c, st, r, confidence), names)
    requires deletions == Deletions(Judge(c, st, r, confidence), names)
    ensures Applied(Unwound(st.rows, Clearing(st, r), names), changes) == after
    ensures Popped(AppliedIfChanged(st.rows, changes), deletions) == after
    ensures touched <==> deletions != [] || Written(Unwound(st.rows, Clearing(st, r), names), changes)
    ensures hash == if isNewEntity || touched then HashOf(c, after) else st.recordedHash
    ensures RowsNamed(st.(rows := after, recordedHash := hash))
    ensures Absorbed(c, st, Judge(c, st, r, confidence), names, isNewEntity)
         == (st.(rows := after, recordedHash := hash), Report(changes, deletions, hash, st.recordedHash, after))
  {
    SynthesisSettles(c, st, r, confidence, names);
    var judge := Judge(c, st, r, confidence);
    after, touched := RowsAfter(judge, st.rows, names), AnyTouched(judge, names);
    hash := if isNewEntity || touched then HashOf(c, after) else st.recordedHash;
    AbsorbedAs(c, st, judge, names, isNewEntity, hash);
  }
}

/** Stage 3 as it runs: loops over attributes that write the provenance store, the ER index and the
    recorded hash of one golden record in place. Each method is proved equal to its specification in
    module Survivorship. */
module Synthesis {
  import opened Text
  import opened Sources
  import StableSort
  import opened Survivorship
  import opened SynthesisSteps

  class SynthesisContext {
    const config: Config
    var rows: map<string, Row>
    var recordedHash: string
    var entries: seq<Entry>
    var lake: Lake
    var completeness: map<string, int>
    var tombstoned: bool

    constructor (config: Config)
      ensures this.config == config
      ensures Snapshot() == State(map[], "", [], map[], map[], false)
    {
      this.config := config;
      rows, recordedHash, entries := map[], "", [];
      lake, completeness, tombstoned := map[], map[], false;
    }

    function Snapshot(): State
      reads this
    {
      State(rows, recordedHash, entries, lake, completeness, tombstoned)
    }

    /** Store the row; say whether the stored row is different from before. */
    method UpsertReturningChanged(row: Row) returns (changed: bool)
      modifies this`rows
      ensures rows == old(rows)[row.attribute := row]
      ensures changed <==> rows != old(rows)
    {
      changed := row.attribute !in rows || rows[row.attribute] != row;
      rows := rows[row.attribute := row];
      if changed {
        assert row.attribute in rows;
      } else {
        assert rows == old(rows);
      }
    }

    /** `_re_elect_winner`. */
    method ReElectWinner(attr: string, sources: seq<Entry>) returns (winner: Option<Row>)
      ensures winner == Elect(config, lake, sources, attr)
    {
      var candidates: seq<Candidate> := [];
      for i := 0 to |sources|
        invariant candidates == Candidates(lake, sources[..i], attr)
      {
        assert sources[..i + 1][..i] == sources[..i];
        match LakeValue(lake, sources[i].source, attr)
        case Some(value) => candidates := candidates + [Candidate(sources[i], value)];
        case None =>
      }
      assert sources[..|sources|] == sources;
      var rule := RuleFor(config, attr);
      if candidates == [] || rule.kind == Manual {
        return None;
      }
      candidates := StableSort.Sort(candidates, Order(rule));
      winner := Some(RowOf(config, attr, rule.kind, candidates[0]));
    }

    /** The ER index entries other than `source`, in listing order. */
    method RemainingSources(source: SourceKey) returns (remaining: seq<Entry>)
      ensures remaining == Without(entries, source)
    {
      remaining := [];
      for i := 0 to |entries|
        invariant remaining == Without(entries[..i], source)
      {
        assert entries[..i + 1][..i] == entries[..i];
        if entries[i].source != source {
          remaining := remaining + [entries[i]];
        }
      }
      assert entries[..|entries|] == entries;
    }

    /** `_handle_cleared_attribute_on_update`; `existing` is the provenance read before the loop. */
    method HandleClearedAttribute(existing: map<string, Row>, r: Record, ghost confidence: real, attr: string)
      returns (outcome: Outcome)
      requires ValueOf(r, attr).None?
      modifies this`rows
      ensures outcome == OutcomeOf(config, old(Snapshot()).(rows := existing), r, confidence, attr)
      ensures rows == if Clears(old(Snapshot()).(rows := existing), r, attr) then old(rows) - {attr} else old(rows)
    {
      if attr !in existing || !SameConnectorAndId(existing[attr].source, r.source) {
        return Untouched;
      }
      rows := rows - {attr};
      var remaining := RemainingSources(r.source);
      var winner := ReElectWinner(attr, remaining);
      match winner
      case Some(row) => outcome := Put(row, true);
      case None => outcome := Removed(existing[attr].source.connectorId);
    }

    /** `_synthesise_record`. */
    method Synthesise(r: Record, res: Resolution) returns (result: SynthesisResult)
      requires RowsNamed(Snapshot())
      modifies this`rows, this`recordedHash
      ensures (Snapshot(), result) == Synthesised(config, old(Snapshot()), r, res)
      ensures RowsNamed(Snapshot())
    {
      if res.isProvisional {
        return SynthesisResult([], [], "", false, [], map[]);
      }
      if ChangedScope(r) == Some([]) {
        return SynthesisResult([], [], recordedHash, false, Contributors(rows), Pointers(rows));
      }
      result := SynthesiseAttributes(r, res.confidence, res.isNewEntity, AttributeNames(r));
    }

    method SynthesiseAttributes(r: Record, confidence: real, isNewEntity: bool, names: seq<string>)
      returns (result: SynthesisResult)
      requires RowsNamed(Snapshot())
      modifies this`rows, this`recordedHash
      ensures var st := old(Snapshot());
              (Snapshot(), result) == Absorbed(config, st, Judge(config, st, r, confidence), names, isNewEntity)
      ensures RowsNamed(Snapshot())
    {
      var existing := rows;
      var changes, deletions;
      ghost var after, touched, hash;
      changes, deletions, after, touched, hash := CollectChanges(r, confidence, isNewEntity, names);
      result := Settle(existing, changes, deletions, isNewEntity, after, touched);
    }

    /** The attribute loop, with what is to be written and reported for what it collects. */
    method CollectChanges(r: Record, confidence: real, ghost isNewEntity: bool, names: seq<string>)
      returns (changes: seq<Change>, deletions: seq<Deletion>, ghost after: map<string, Row>, ghost touched: bool,
               ghost hash: string)
      requires RowsNamed(Snapshot())
      modifies this`rows
      ensures Snapshot() == old(Snapshot()).(rows := rows)
      ensures Applied(rows, changes) == after
      ensures Popped(AppliedIfChanged(old(rows), changes), deletions) == after
      ensures touched <==> deletions != [] || Written(rows, changes)
      ensures hash == if isNewEntity || touched then HashOf(config, after) else recordedHash
      ensures var st := old(Snapshot());
              && RowsNamed(st.(rows := after, recordedHash := hash))
              && Absorbed(config, st, Judge(config, st, r, confidence), names, isNewEntity)
                 == (st.(rows := after, recordedHash := hash),
                     Report(changes, deletions, hash, st.recordedHash, after))
    {
      ghost var st := Snapshot();
      changes, deletions := EvaluateAttributes(rows, r, confidence, names);
      after, touched, hash := SettledAs(config, st, r, confidence, names, isNewEntity, changes, deletions);
    }

    /** Write the collected changes, then hash and report the rows that result. */
    method Settle(existing: map<string, Row>, changes: seq<Change>, deletions: seq<Deletion>, isNewEntity: bool,
                  ghost specified: map<string, Row>, ghost touched: bool)
      returns (result: SynthesisResult)
      requires Applied(rows, changes) == specified
      requires Popped(AppliedIfChanged(existing, changes), deletions) == specified
      requires touched <==> deletions != [] || Written(rows, changes)
      modifies this`rows, this`recordedHash
      ensures Snapshot() == old(Snapshot()).(rows := specified, recordedHash := recordedHash)
      ensures recordedHash == if isNewEntity || touched then HashOf(config, specified) else old(recordedHash)
      ensures result == Report(changes, deletions, recordedHash, old(recordedHash), specified)
    {
      var changed := WriteChanges(changes);
      changed := changed || deletions != [];
      var updated := TrackRows(existing, changes, deletions);
      result := RecordAndReport(updated, changes, deletions, changed || isNewEntity);
    }

    method RecordAndReport(updated: map<string, Row>, changes: seq<Change>, deletions: seq<Deletion>, rehash: bool)
      returns (result: SynthesisResult)
      modifies this`recordedHash
      ensures recordedHash == if rehash then HashOf(config, updated) else old(recordedHash)
      ensures result == Report(changes, deletions, recordedHash, old(recordedHash), updated)
    {
      var hash, hashChanged := recordedHash, false;
      if rehash {
        hash := HashOf(config, updated);
        hashChanged := hash != recordedHash;
        if hashChanged {
          recordedHash := hash;
        }
      }
      result := SynthesisResult(ChangedRows(changes), deletions, hash, hashChanged,
                                Contributors(updated), Pointers(updated));
    }

    /** One pass of the attribute loop: a winner that cleared its value is unwound at once. */
    method EvaluateAttribute(existing: map<string, Row>, r: Record, confidence: real, attr: string)
      returns (outcome: Outcome)
      modifies this`rows
      ensures var st := old(Snapshot()).(rows := existing);
              && outcome == Judge(config, st, r, confidence)(attr)
              && rows == if Clearing(st, r)(attr) then old(rows) - {attr} else old(rows)
    {
      match ValueOf(r, attr)
      case None =>
        outcome := HandleClearedAttribute(existing, r, confidence, attr);
      case Some(value) =>
        outcome := Evaluate(config, Snapshot().(rows := existing), r, confidence, attr, value);
    }

    method EvaluateAttributes(existing: map<string, Row>, r: Record, confidence: real, names: seq<string>)
      returns (changes: seq<Change>, deletions: seq<Deletion>)
      requires existing == rows
      modifies this`rows
      ensures var st := old(Snapshot());
              && changes == Changes(Judge(config, st, r, confidence), names)
              && deletions == Deletions(Judge(config, st, r, confidence), names)
              && rows == Unwound(existing, Clearing(st, r), names)
    {
      ghost var st := Snapshot();
      ghost var judge, clears := Judge(config, st, r, confidence), Clearing(st, r);
      changes, deletions := [], [];
      for i := 0 to |names|
        invariant changes == Changes(judge, names[..i])
        invariant deletions == Deletions(judge, names[..i])
        invariant rows == Unwound(existing, clears, names[..i])
      {
        var attr := names[i];
        assert names[..i + 1] == names[..i] + [attr] && names[..i + 1][..i] == names[..i];
        UnwoundSnoc(existing, clears, names[..i], attr);
        assert Snapshot().(rows := existing) == st;
        var outcome := EvaluateAttribute(existing, r, confidence, attr);
        match outcome {
          case Put(row, changed) => changes := changes + [Change(row, changed)];
          case Removed(connectorId) => deletions := deletions + [Deletion(attr, connectorId)];
          case Untouched =>
        }
      }
      assert names[..|names|] == names;
    }

    /** Upsert every collected row; report whether any upsert changed the store. */
    method WriteChanges(changes: seq<Change>) returns (written: bool)
      modifies this`rows
      ensures rows == Applied(old(rows), changes)
      ensures written <==> Written(old(rows), changes)
    {
      written := false;
      for k := 0 to |changes|
        invariant rows == Applied(old(rows), changes[..k])
        invariant written <==> Written(old(rows), changes[..k])
      {
        assert changes[..k + 1][..k] == changes[..k];
        var w := UpsertReturningChanged(changes[k].row);
        if w {
          written := true;
        }
      }
      assert changes[..|changes|] == changes;
    }

    method TrackRows(existing: map<string, Row>, changes: seq<Change>, deletions: seq<Deletion>)
      returns (updated: map<string, Row>)
      ensures updated == Popped(AppliedIfChanged(existing, changes), deletions)
    {
      updated := existing;
      for k := 0 to |changes|
        invariant updated == AppliedIfChanged(existing, changes[..k])
      {
        assert changes[..k + 1][..k] == changes[..k];
        if changes[k].changed {
          updated := updated[changes[k].row.attribute := changes[k].row];
        }
      }
      assert changes[..|changes|] == changes;
      for k := 0 to |deletions|
        invariant updated == Popped(AppliedIfChanged(existing, changes), deletions[..k])
      {
        assert deletions[..k + 1][..k] == deletions[..k];
        updated := updated - {deletions[k].attribute};
      }
      assert deletions[..|deletions|] == deletions;
    }

    /** `handle_source_delete`. */
    method HandleSourceDelete(source: SourceKey) returns (result: DeleteResult)
      modifies this`rows, this`recordedHash, this`entries, this`tombstoned
      ensures (Snapshot(), result) == Deleted(config, old(Snapshot()), source)
    {
      if !Indexed(entries, source) {
        return NoOp;
      }
      var lost := WonBy(rows, source);
      var remaining := RemainingSources(source);
      entries := remaining;
      if remaining == [] {
        tombstoned := true;
        rows := map[];
        return Tombstoned;
      }
      var reElected, removed := ReElectAttributes(lost, remaining);
      recordedHash := HashOf(config, rows);
      result := ReElected(reElected, removed);
    }

    /** Unwind and re-elect each lost attribute, in any order. */
    method ReElectAttributes(lost: set<string>, remaining: seq<Entry>)
      returns (reElected: set<string>, removed: set<string>)
      requires lost <= rows.Keys
      modifies this`rows
      ensures var elect := Election(config, lake, remaining);
              && rows == RowsAfterDelete(elect, old(rows), lost)
              && reElected == (set a | a in lost && elect(a).Some?)
              && removed == (set a | a in lost && elect(a).None?)
    {
      ghost var elect := Election(config, lake, remaining);
      var done: set<string> := {};
      reElected, removed := {}, {};
      while done != lost
        invariant done <= lost
        invariant reElected == set a | a in done && elect(a).Some?
        invariant removed == set a | a in done && elect(a).None?
        invariant rows == RowsAfterDelete(elect, old(rows), done)
        decreases lost - done
      {
        assert lost - done != {};
        var attr :| attr in lost - done;
        RowsAfterDeleteSnoc(elect, old(rows), done, attr);
        rows := rows - {attr};
        var winner := ReElectWinner(attr, remaining);
        match winner {
          case Some(row) =>
            var _ := UpsertReturningChanged(row);
            reElected := reElected + {attr};
          case None =>
            removed := removed + {attr};
        }
        done := done + {attr};
      }
    }
  }
}
