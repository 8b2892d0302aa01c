/** Deterministic matching, the Stage 1 diff, and when an update may skip being resolved again. */
module SignalA {
  import opened Text
  import opened Fields
  import opened ResolveIndex

  // ---- The Stage 1 diff -------------------------------------------------------------

  predicate Differs(before: FieldMap, after: FieldMap, name: string) {
    !Same(ValueOf(before, name), ValueOf(after, name))
  }

  function Filtered(before: FieldMap, after: FieldMap, names: seq<string>): seq<string> {
    if names == [] then []
    else
      var name := names[|names| - 1];
      Filtered(before, after, names[..|names| - 1]) + if Differs(before, after, name) then [name] else []
  }

  function Changed(before: FieldMap, after: FieldMap): seq<string> {
    Filtered(before, after, Ascending(before.Keys + after.Keys))
  }

  lemma {:induction false} FilteredHolds(before: FieldMap, after: FieldMap, names: seq<string>, name: string)
    ensures name in Filtered(before, after, names) <==> name in names && Differs(before, after, name)
  {
    if names != [] {
      FilteredHolds(before, after, names[..|names| - 1], name);
    }
  }

  lemma ChangedIsDiffering(before: FieldMap, after: FieldMap)
    ensures forall name :: name in Changed(before, after) <==> Differs(before, after, name)
  {
    forall name ensures name in Changed(before, after) <==> Differs(before, after, name) {
      FilteredHolds(before, after, Ascending(before.Keys + after.Keys), name);
      assert name in Ascending(before.Keys + after.Keys) <==> name in before.Keys + after.Keys;
    }
  }

  /** The attributes whose values differ, in ascending order. */
  method ComputeChangedAttributes(before: FieldMap, after: FieldMap) returns (changed: seq<string>)
    ensures forall name :: name in changed <==> Differs(before, after, name)
    ensures changed == Changed(before, after)
  {
    var names := Ascending(before.Keys + after.Keys);
    changed := [];
    for i := 0 to |names|
      invariant changed == Filtered(before, after, names[..i])
    {
      assert names[..i + 1][..i] == names[..i];
      if !Same(ValueOf(before, names[i]), ValueOf(after, names[i])) {
        changed := changed + [names[i]];
      }
    }
    assert names[..|names|] == names;
    ChangedIsDiffering(before, after);
  }

  // ---- Whether an update is resolved again ----------------------------------------------

  predicate EndsWith(s: string, suffix: string) {
    |suffix| <= |s| && s[|s| - |suffix|..] == suffix
  }

  /** The names are equal but for case, or one is the other behind a dot; an empty configured name is ignored. */
  predicate NameMatches(attribute: string, configured: string) {
    var a, c := Lower(attribute), Lower(configured);
    c != "" && (a == c || EndsWith(a, "." + c) || EndsWith(c, "." + a))
  }

  predicate MatchesAny(attribute: string, configured: seq<string>) {
    exists i :: 0 <= i < |configured| && NameMatches(attribute, configured[i])
  }

  method MatchesAnyAttribute(attribute: string, configured: seq<string>) returns (r: bool)
    ensures r == MatchesAny(attribute, configured)
  {
    var normalised := Lower(attribute);
    for i := 0 to |configured|
      invariant forall k :: 0 <= k < i ==> !NameMatches(attribute, configured[k])
    {
      var name := Lower(configured[i]);
      if name == "" {
        continue;
      }
      if normalised == name || EndsWith(normalised, "." + name) || EndsWith(name, "." + normalised) {
        assert NameMatches(attribute, configured[i]);
        return true;
      }
    }
    r := false;
  }

  predicate Triggers(changed: seq<string>, columns: seq<string>, weighted: seq<string>) {
    exists i :: 0 <= i < |changed| && (MatchesAny(changed[i], columns) || MatchesAny(changed[i], weighted))
  }

  /** Whether an update's diff touches a deterministic column or a heavily weighted attribute. */
  method UpdateRequiresReresolution(sourceOp: string, changed: seq<string>, columns: seq<string>, weighted: seq<string>)
    returns (r: bool)
    ensures r == (Upper(sourceOp) == "UPDATE" && Triggers(changed, columns, weighted))
  {
    if Upper(sourceOp) != "UPDATE" {
      return false;
    }
    for i := 0 to |changed|
      invariant forall k :: 0 <= k < i ==> !MatchesAny(changed[k], columns) && !MatchesAny(changed[k], weighted)
    {
      var deterministic := MatchesAnyAttribute(changed[i], columns);
      if deterministic {
        return true;
      }
      var relevant := MatchesAnyAttribute(changed[i], weighted);
      if relevant {
        return true;
      }
    }
    r := false;
  }

  // ---- Signal A ---------------------------------------------------------------------------

  /** The index as Signal A sees it: the configured columns, the snapshot, and a hash of printed values. */
  datatype Lookup = Lookup(scope: Scope, columns: seq<string>, snapshot: map<string, Id>, hash: string -> string)

  function HashedKeyOf(scope: Scope, column: string, hash: string): string {
    "det:" + scope.tenant + "\0" + scope.entityType + "\0" + column + "\0" + hash
  }

  function HashedKey(lookup: Lookup, column: string, value: Value): string {
    HashedKeyOf(lookup.scope, column, lookup.hash(Printed(value)))
  }

  /** The non-empty ids found under a key. */
  function At(snapshot: map<string, Id>, key: string): set<Id> {
    if key in snapshot && snapshot[key] != "" then {snapshot[key]} else {}
  }

  /** The ids a column's value finds, under its hashed key and its legacy key. */
  function Found(lookup: Lookup, column: string, value: Option<Value>): set<Id> {
    if Truthy(value) then
      At(lookup.snapshot, HashedKey(lookup, column, value.value))
      + At(lookup.snapshot, LegacyKey(lookup.scope, column, value.value))
    else {}
  }

  function FoundByAll(lookup: Lookup, columns: seq<string>, fields: FieldMap): set<Id> {
    if columns == [] then {}
    else
      var column := columns[|columns| - 1];
      FoundByAll(lookup, columns[..|columns| - 1], fields) + Found(lookup, column, ValueOf(fields, column))
  }

  /** The least of the ids found by any column. */
  function Answer(lookup: Lookup, fields: FieldMap): Option<Id> {
    var found := FoundByAll(lookup, lookup.columns, fields);
    if found == {} then None else Some(Least(found))
  }

  ghost predicate Lists(ids: seq<Id>, found: set<Id>) {
    && Distinct(ids)
    && forall id :: id in ids <==> id in found
  }

  /** Collects the ids found under both keys, each once. */
  method AppendMatches(lookup: Lookup, column: string, value: Value, matches: seq<Id>, ghost found: set<Id>)
    returns (r: seq<Id>)
    requires Lists(matches, found) && Truthy(Some(value))
    ensures Lists(r, found + Found(lookup, column, Some(value)))
  {
    r := matches;
    var keys := [HashedKey(lookup, column, value), LegacyKey(lookup.scope, column, value)];
    ghost var seen := found;
    for k := 0 to |keys|
      invariant Lists(r, seen)
      invariant seen == found + (if k >= 1 then At(lookup.snapshot, keys[0]) else {})
                              + (if k >= 2 then At(lookup.snapshot, keys[1]) else {})
    {
      if keys[k] in lookup.snapshot {
        var id := lookup.snapshot[keys[k]];
        if id != "" && id !in r {
          r := r + [id];
        }
      }
      seen := seen + At(lookup.snapshot, keys[k]);
    }
  }

  method CollectMatches(lookup: Lookup, fields: FieldMap) returns (matches: seq<Id>)
    ensures Lists(matches, FoundByAll(lookup, lookup.columns, fields))
  {
    matches := [];
    for i := 0 to |lookup.columns|
      invariant Lists(matches, FoundByAll(lookup, lookup.columns[..i], fields))
    {
      assert lookup.columns[..i + 1][..i] == lookup.columns[..i];
      var value := ValueOf(fields, lookup.columns[i]);
      if !Truthy(value) {
        continue;
      }
      matches := AppendMatches(lookup, lookup.columns[i], value.value, matches,
                               FoundByAll(lookup, lookup.columns[..i], fields));
    }
    assert lookup.columns[..|lookup.columns|] == lookup.columns;
  }

  method RunSignalA(lookup: Lookup, fields: FieldMap) returns (r: Option<Id>)
    ensures r == Answer(lookup, fields)
  {
    var matches := CollectMatches(lookup, fields);
    r := PickSignalAMatch(matches);
    FoundIsNamed(lookup, lookup.columns, fields);
    PickIsLeast(matches, FoundByAll(lookup, lookup.columns, fields));
  }

  lemma PickIsLeast(matches: seq<Id>, found: set<Id>)
    requires Lists(matches, found) && "" !in found
    ensures PickSignalAMatch(matches) == if found == {} then None else Some(Least(found))
  {
    assert (set id | id in matches && id != "") == found;
  }

  /** The least non-empty id. */
  function PickSignalAMatch(matches: seq<Id>): Option<Id> {
    var cleaned := set id | id in matches && id != "";
    if cleaned == {} then None else Some(Ascending(cleaned)[0])
  }

  lemma {:induction false} FoundIsNamed(lookup: Lookup, columns: seq<string>, fields: FieldMap)
    ensures "" !in FoundByAll(lookup, columns, fields)
  {
    if columns != [] {
      FoundIsNamed(lookup, columns[..|columns| - 1], fields);
    }
  }

  // ---- Skipping is safe ------------------------------------------------------------------------

  /** Values that are equal print alike. */
  predicate PrintAlike(before: FieldMap, after: FieldMap) {
    forall name :: name in before && name in after && Same(before[name].value, after[name].value)
                   ==> before[name].value == after[name].value
  }

  lemma {:induction false} SameFound(lookup: Lookup, columns: seq<string>, before: FieldMap, after: FieldMap)
    requires forall i :: 0 <= i < |columns| ==> ValueOf(before, columns[i]) == ValueOf(after, columns[i])
    ensures FoundByAll(lookup, columns, before) == FoundByAll(lookup, columns, after)
  {
    if columns != [] {
      SameFound(lookup, columns[..|columns| - 1], before, after);
    }
  }

  /** A changed column triggers, unless its name is empty and no configured name ends in a dot. */
  lemma ChangedColumnTriggers(before: FieldMap, after: FieldMap, columns: seq<string>, weighted: seq<string>, i: nat)
    requires i < |columns| && Differs(before, after, columns[i])
    requires columns[i] != "" || MatchesAny("", columns) || MatchesAny("", weighted)
    ensures Triggers(Changed(before, after), columns, weighted)
  {
    ChangedIsDiffering(before, after);
    var k :| 0 <= k < |Changed(before, after)| && Changed(before, after)[k] == columns[i];
    if columns[i] != "" {
      assert NameMatches(columns[i], columns[i]);
    }
  }

  /** No update whose diff does not trigger changes what Signal A answers. */
  ghost predicate SkippingIsSafe(columns: seq<string>, weighted: seq<string>) {
    forall lookup: Lookup, before, after ::
      lookup.columns == columns && PrintAlike(before, after) && !Triggers(Changed(before, after), columns, weighted)
      ==> Answer(lookup, before) == Answer(lookup, after)
  }

  /** That holds exactly if no column name is empty, or an empty name matches a configured one. */
  lemma SkippingIsSafeIff(columns: seq<string>, weighted: seq<string>)
    ensures SkippingIsSafe(columns, weighted)
            <==> ("" in columns ==> MatchesAny("", columns) || MatchesAny("", weighted))
  {
    if "" in columns && !MatchesAny("", columns) && !MatchesAny("", weighted) {
      EmptyColumnIsMissed(columns, weighted);
    } else {
      forall lookup: Lookup, before, after
        | lookup.columns == columns && PrintAlike(before, after) && !Triggers(Changed(before, after), columns, weighted)
        ensures Answer(lookup, before) == Answer(lookup, after)
      {
        SkipLosesNothing(lookup, weighted, before, after);
      }
    }
  }

  lemma SkipLosesNothing(lookup: Lookup, weighted: seq<string>, before: FieldMap, after: FieldMap)
    requires "" in lookup.columns ==> MatchesAny("", lookup.columns) || MatchesAny("", weighted)
    requires PrintAlike(before, after) && !Triggers(Changed(before, after), lookup.columns, weighted)
    ensures Answer(lookup, before) == Answer(lookup, after)
  {
    var columns := lookup.columns;
    forall i | 0 <= i < |columns| ensures ValueOf(before, columns[i]) == ValueOf(after, columns[i]) {
      if Differs(before, after, columns[i]) {
        ChangedColumnTriggers(before, after, columns, weighted, i);
        assert false;
      }
    }
    SameFound(lookup, columns, before, after);
  }

  /** With an empty column name that nothing matches, a change of the field of that name goes unnoticed. */
  lemma EmptyColumnIsMissed(columns: seq<string>, weighted: seq<string>)
    requires "" in columns && !MatchesAny("", columns) && !MatchesAny("", weighted)
    ensures !SkippingIsSafe(columns, weighted)
  {
    var value, scope := Number(1.0, ""), Scope("", "");
    var lookup := Lookup(scope, columns, map[LegacyKey(scope, "", value) := "gr"], s => s);
    ChangeUnnoticed(lookup, weighted, map[], map["" := Field(None, Some(value))], value);
  }

  lemma Unsafe(lookup: Lookup, weighted: seq<string>, before: FieldMap, after: FieldMap)
    ensures PrintAlike(before, after) && !Triggers(Changed(before, after), lookup.columns, weighted)
            && Answer(lookup, before) != Answer(lookup, after)
            ==> !SkippingIsSafe(lookup.columns, weighted)
  {
  }

  lemma OnlyEmptyNames(changed: seq<string>, columns: seq<string>, weighted: seq<string>)
    requires forall name :: name in changed ==> name == ""
    requires !MatchesAny("", columns) && !MatchesAny("", weighted)
    ensures !Triggers(changed, columns, weighted)
  {
    forall i | 0 <= i < |changed| ensures changed[i] == "" {
      assert changed[i] in changed;
    }
  }

  lemma ChangeUnnoticed(lookup: Lookup, weighted: seq<string>, before: FieldMap, after: FieldMap, value: Value)
    requires "" in lookup.columns && !MatchesAny("", lookup.columns) && !MatchesAny("", weighted)
    requires before == map[] && after == map["" := Field(None, Some(value))] && Truthy(Some(value))
    requires At(lookup.snapshot, LegacyKey(lookup.scope, "", value)) != {}
    ensures !SkippingIsSafe(lookup.columns, weighted)
  {
    ChangedIsDiffering(before, after);
    OnlyEmptyNames(Changed(before, after), lookup.columns, weighted);
    NothingFound(lookup, lookup.columns, before);
    SomethingFound(lookup, lookup.columns, after, "");
    Unsafe(lookup, weighted, before, after);
  }

  lemma {:induction false} NothingFound(lookup: Lookup, columns: seq<string>, fields: FieldMap)
    requires fields == map[]
    ensures FoundByAll(lookup, columns, fields) == {}
  {
    if columns != [] {
      NothingFound(lookup, columns[..|columns| - 1], fields);
    }
  }

  lemma {:induction false} SomethingFound(lookup: Lookup, columns: seq<string>, fields: FieldMap, column: string)
    requires column in columns && Found(lookup, column, ValueOf(fields, column)) != {}
    ensures FoundByAll(lookup, columns, fields) != {}
  {
    if column != columns[|columns| - 1] {
      SomethingFound(lookup, columns[..|columns| - 1], fields, column);
    }
  }

  // ---- What Signal A can tell apart ------------------------------------------------------------

  /** What a value is looked up by: nothing if it is falsy. */
  function Shown(value: Option<Value>): Option<string> {
    if Truthy(value) then Some(Printed(value.value)) else None
  }

  ghost predicate AlwaysAgree(columns: seq<string>, before: FieldMap, after: FieldMap) {
    forall lookup: Lookup :: lookup.columns == columns ==> Answer(lookup, before) == Answer(lookup, after)
  }

  /** Signal A answers alike on two records, whatever the index holds, if and only if they show the same in
      every deterministic column. */
  lemma AlwaysAgreeIff(columns: seq<string>, before: FieldMap, after: FieldMap)
    ensures AlwaysAgree(columns, before, after)
            <==> forall column :: column in columns ==> Shown(ValueOf(before, column)) == Shown(ValueOf(after, column))
  {
    if column :| column in columns && Shown(ValueOf(before, column)) != Shown(ValueOf(after, column)) {
      if Truthy(ValueOf(before, column)) {
        ColumnTellsApart(columns, before, after, column);
      } else {
        ColumnTellsApart(columns, after, before, column);
      }
    } else {
      forall lookup: Lookup | lookup.columns == columns ensures Answer(lookup, before) == Answer(lookup, after) {
        SameShownSameFound(lookup, columns, before, after);
      }
    }
  }

  lemma {:induction false} SameShownSameFound(lookup: Lookup, columns: seq<string>, before: FieldMap, after: FieldMap)
    requires forall column :: column in columns ==> Shown(ValueOf(before, column)) == Shown(ValueOf(after, column))
    ensures FoundByAll(lookup, columns, before) == FoundByAll(lookup, columns, after)
  {
    if columns != [] {
      var column := columns[|columns| - 1];
      SameShownSameFound(lookup, columns[..|columns| - 1], before, after);
      assert Shown(ValueOf(before, column)) == Shown(ValueOf(after, column));
    }
  }

  /** An index that holds only the hashed key of one column's value, under a hash that marks that value. */
  function Telling(columns: seq<string>, column: string, shown: string): Lookup {
    var hash := (s: string) => if s == shown then "1" else "0";
    Lookup(Scope("", ""), columns, map[HashedKeyOf(Scope("", ""), column, "1") := "gr"], hash)
  }

  lemma ColumnTellsApart(columns: seq<string>, before: FieldMap, after: FieldMap, column: string)
    requires column in columns && Truthy(ValueOf(before, column))
    requires Shown(ValueOf(before, column)) != Shown(ValueOf(after, column))
    ensures !AlwaysAgree(columns, before, after)
  {
    var value := ValueOf(before, column).value;
    var lookup := Telling(columns, column, Printed(value));
    assert HashedKey(lookup, column, value) in lookup.snapshot;
    SomethingFound(lookup, columns, before, column);
    NothingElseFound(lookup, columns, after, column, Printed(value));
    assert Answer(lookup, before) != Answer(lookup, after);
  }

  lemma {:induction false} NothingElseFound(lookup: Lookup, columns: seq<string>, fields: FieldMap, column: string,
                                            shown: string)
    requires lookup == Telling(lookup.columns, column, shown) && Shown(ValueOf(fields, column)) != Some(shown)
    ensures FoundByAll(lookup, columns, fields) == {}
  {
    if columns != [] {
      var other := columns[|columns| - 1];
      NothingElseFound(lookup, columns[..|columns| - 1], fields, column, shown);
      var value := ValueOf(fields, other);
      if Truthy(value) {
        KeysApart(lookup.scope, column, other, value.value, lookup.hash(Printed(value.value)));
        assert other == column ==> Printed(value.value) != shown;
      }
    }
  }

  /** A key of another column, another hash or the legacy form is another key. */
  lemma KeysApart(scope: Scope, column: string, other: string, value: Value, hash: string)
    requires scope == Scope("", "") && (hash == "0" || hash == "1")
    ensures HashedKeyOf(scope, other, hash) == HashedKeyOf(scope, column, "1") <==> other == column && hash == "1"
    ensures LegacyKey(scope, other, value) != HashedKeyOf(scope, column, "1")
  {
    var key, wanted := HashedKeyOf(scope, other, hash), HashedKeyOf(scope, column, "1");
    assert key[|key| - 1] == hash[0] && wanted[|wanted| - 1] == '1';
    assert key[6..|key| - 2] == other && wanted[6..|wanted| - 2] == column;
    assert LegacyKey(scope, other, value)[0] == '|' && wanted[0] == 'd';
  }

  /** Equal numbers that print differently are no change to Stage 1, but Signal A may answer differently. */
  lemma EqualNumbersMayDiffer(column: string, before: FieldMap, after: FieldMap, x: Value, y: Value)
    requires before == map[column := Field(None, Some(x))] && after == map[column := Field(None, Some(y))]
    requires x.Number? && y.Number? && x.amount == y.amount != 0.0 && x.printed != y.printed
    ensures Changed(before, after) == []
    ensures !AlwaysAgree([column], before, after)
  {
    ChangedIsDiffering(before, after);
    NoneListed(Changed(before, after));
    assert column in [column] && Shown(ValueOf(before, column)) != Shown(ValueOf(after, column));
    AlwaysAgreeIff([column], before, after);
  }

  lemma NoneListed(names: seq<string>)
    ensures (forall name :: name !in names) <==> names == []
  {
    if names != [] {
      assert names[0] in names;
    }
  }
}
