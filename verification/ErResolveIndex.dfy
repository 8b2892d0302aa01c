/** Field values as the matching signals see them. */
module Fields {
  import opened Text

  /** A normalised value: a text, or a number with the form it prints in. */
  datatype Value = Str(text: string) | Number(amount: real, printed: string)

  datatype Field = Field(kind: Option<string>, value: Option<Value>)

  type FieldMap = map<string, Field>

  predicate Truthy(value: Option<Value>) {
    value.Some? && match value.value
                   case Str(text) => text != ""
                   case Number(amount, _) => amount != 0.0
  }

  function Printed(value: Value): string {
    match value
    case Str(text) => text
    case Number(_, printed) => printed
  }

  function ValueOf(fields: FieldMap, name: string): Option<Value> {
    if name in fields then fields[name].value else None
  }

  /** Python's `==`: numbers are equal by amount, however they print. */
  predicate Same(x: Option<Value>, y: Option<Value>) {
    if x.Some? && y.Some? && x.value.Number? && y.value.Number? then x.value.amount == y.value.amount
    else x == y
  }
}

/** The in-memory index of registered entities, their deterministic keys and their phone buckets. */
module ResolveIndex {
  import opened Text
  import opened Fields

  type Id = string

  datatype Scope = Scope(tenant: string, entityType: string)

  /** `order` lists the scopes as they were first used, which is how the entity table is searched. */
  datatype Index = Index(order: seq<Scope>,
                         entities: map<Scope, map<Id, FieldMap>>,
                         columns: map<Scope, seq<string>>,
                         snapshot: map<string, Id>,
                         phones: map<string, seq<Id>>)

  const EMPTY_INDEX := Index([], map[], map[], map[], map[])

  const DEFAULT_DETERMINISTIC := ["tax_id", "domain", "duns_number"]

  // ---- Keys -----------------------------------------------------------------------

  function Digits(s: string): string {
    if s == [] then []
    else (if '0' <= s[0] <= '9' then [s[0]] else []) + Digits(s[1..])
  }

  function NormalizePhone(value: string): string {
    var digits := Digits(value);
    if |digits| >= 2 && digits[0] == '0' && digits[1] == '0' then digits[2..] else digits
  }

  /** The digits a field value is blocked on; empty where there are none. */
  function PhoneDigits(value: Option<Value>): string {
    if Truthy(value) then NormalizePhone(Printed(value.value)) else ""
  }

  function PhoneBlockingKey(scope: Scope, digits: string): string {
    if digits == "" then "" else scope.tenant + "|" + scope.entityType + "|phone:" + digits
  }

  function LegacyKey(scope: Scope, column: string, value: Value): string {
    scope.tenant + "|" + scope.entityType + "|" + column + ":" + Printed(value)
  }

  // ---- Registration ------------------------------------------------------------------

  datatype Registration = Registration(scope: Scope, id: Id, fields: FieldMap, columns: seq<string>)

  function Bucket(phones: map<string, seq<Id>>, key: string): seq<Id> {
    if key in phones then phones[key] else []
  }

  function WithPhone(phones: map<string, seq<Id>>, key: string, id: Id): map<string, seq<Id>> {
    if key == "" then phones
    else
      var bucket := Bucket(phones, key);
      phones[key := if id in bucket then bucket else bucket + [id]]
  }

  function PhoneKeyOf(scope: Scope, fields: FieldMap, name: string): string {
    PhoneBlockingKey(scope, PhoneDigits(ValueOf(fields, name)))
  }

  function WithKeys(snapshot: map<string, Id>, scope: Scope, id: Id, fields: FieldMap, columns: seq<string>)
    : map<string, Id>
  {
    if columns == [] then snapshot
    else
      var n := |columns| - 1;
      var before := WithKeys(snapshot, scope, id, fields, columns[..n]);
      var value := ValueOf(fields, columns[n]);
      if Truthy(value) then before[LegacyKey(scope, columns[n], value.value) := id] else before
  }

  function Entities(entities: map<Scope, map<Id, FieldMap>>, scope: Scope): map<Id, FieldMap> {
    if scope in entities then entities[scope] else map[]
  }

  function WithColumns(index: Index, scope: Scope, columns: seq<string>): Index {
    if scope in index.columns then index
    else index.(columns := index.columns[scope := if columns == [] then DEFAULT_DETERMINISTIC else columns])
  }

  function WithEntity(index: Index, scope: Scope, id: Id, fields: FieldMap): Index {
    index.(order := if scope in index.entities then index.order else index.order + [scope],
           entities := index.entities[scope := Entities(index.entities, scope)[id := fields]],
           snapshot := WithKeys(index.snapshot, scope, id, fields,
                                if scope in index.columns then index.columns[scope] else []))
  }

  function Registered(index: Index, r: Registration): Index {
    var known := WithEntity(WithColumns(index, r.scope, r.columns), r.scope, r.id, r.fields);
    known.(phones := WithPhone(WithPhone(index.phones, PhoneKeyOf(r.scope, r.fields, "phone"), r.id),
                               PhoneKeyOf(r.scope, r.fields, "phone_number"), r.id))
  }

  function RegisteredAll(index: Index, registrations: seq<Registration>): Index {
    if registrations == [] then index
    else
      var n := |registrations| - 1;
      Registered(RegisteredAll(index, registrations[..n]), registrations[n])
  }

  // ---- Reading the index -----------------------------------------------------------------

  /** The first scope, in the order searched, that holds the entity. */
  function GetFields(order: seq<Scope>, entities: map<Scope, map<Id, FieldMap>>, id: Id): Option<FieldMap> {
    if order == [] then None
    else if id in Entities(entities, order[0]) then Some(Entities(entities, order[0])[id])
    else GetFields(order[1..], entities, id)
  }

  /** The digits of an incoming record: of its `phone` if it has that field at all, else of its
      `phone_number`. */
  function IncomingDigits(fields: FieldMap): string {
    PhoneDigits(ValueOf(fields, if "phone" in fields then "phone" else "phone_number"))
  }

  function PhoneBlockingCandidates(phones: map<string, seq<Id>>, scope: Scope, fields: FieldMap): seq<Id> {
    Bucket(phones, PhoneBlockingKey(scope, IncomingDigits(fields)))
  }

  // ---- What registration keeps ----------------------------------------------------------------

  /** The fields an entity was registered with last. */
  function Latest(registrations: seq<Registration>, scope: Scope, id: Id): Option<FieldMap> {
    if registrations == [] then None
    else
      var n := |registrations| - 1;
      if registrations[n].scope == scope && registrations[n].id == id then Some(registrations[n].fields)
      else Latest(registrations[..n], scope, id)
  }

  predicate InBucket(phones: map<string, seq<Id>>, key: string, id: Id) {
    key != "" ==> id in Bucket(phones, key)
  }

  predicate Distinct(ids: seq<Id>) {
    forall i, j :: 0 <= i < j < |ids| ==> ids[i] != ids[j]
  }

  predicate BucketsDistinct(phones: map<string, seq<Id>>) {
    forall key :: key in phones ==> Distinct(phones[key])
  }

  lemma WithPhoneKeeps(phones: map<string, seq<Id>>, key: string, id: Id)
    ensures InBucket(WithPhone(phones, key, id), key, id)
    ensures forall k, x :: InBucket(phones, k, x) ==> InBucket(WithPhone(phones, key, id), k, x)
    ensures BucketsDistinct(phones) ==> BucketsDistinct(WithPhone(phones, key, id))
  {
  }

  lemma RegisteredEntities(index: Index, r: Registration, scope: Scope)
    ensures var after := Registered(index, r);
            && Entities(after.entities, scope)
               == (if scope == r.scope then Entities(index.entities, scope)[r.id := r.fields]
                   else Entities(index.entities, scope))
            && after.entities.Keys == index.entities.Keys + {r.scope}
            && after.order == if r.scope in index.entities then index.order else index.order + [r.scope]
  {
  }

  /** After any registrations the index holds each entity's latest fields, and nothing else. */
  lemma {:induction false} EntitiesAreLatest(registrations: seq<Registration>, scope: Scope, id: Id)
    ensures var index := RegisteredAll(EMPTY_INDEX, registrations);
            var known := Entities(index.entities, scope);
            Latest(registrations, scope, id) == if id in known then Some(known[id]) else None
  {
    if registrations != [] {
      var n := |registrations| - 1;
      EntitiesAreLatest(registrations[..n], scope, id);
      RegisteredEntities(RegisteredAll(EMPTY_INDEX, registrations[..n]), registrations[n], scope);
    }
  }

  lemma {:induction false} ScopesAreListed(registrations: seq<Registration>, scope: Scope)
    ensures var index := RegisteredAll(EMPTY_INDEX, registrations);
            scope in index.entities <==> scope in index.order
  {
    if registrations != [] {
      var n := |registrations| - 1;
      ScopesAreListed(registrations[..n], scope);
      RegisteredEntities(RegisteredAll(EMPTY_INDEX, registrations[..n]), registrations[n], scope);
    }
  }

  /** No bucket names an entity twice. */
  lemma {:induction false} BucketsStayDistinct(registrations: seq<Registration>)
    ensures BucketsDistinct(RegisteredAll(EMPTY_INDEX, registrations).phones)
  {
    if registrations != [] {
      var n := |registrations| - 1;
      BucketsStayDistinct(registrations[..n]);
      var index, r := RegisteredAll(EMPTY_INDEX, registrations[..n]), registrations[n];
      WithPhoneKeeps(index.phones, PhoneKeyOf(r.scope, r.fields, "phone"), r.id);
      WithPhoneKeeps(WithPhone(index.phones, PhoneKeyOf(r.scope, r.fields, "phone"), r.id),
                     PhoneKeyOf(r.scope, r.fields, "phone_number"), r.id);
    }
  }

  /** Each entity is in the buckets of both its current phone fields. */
  lemma {:induction false} PhonesAreCovered(registrations: seq<Registration>, scope: Scope, id: Id, name: string)
    requires name == "phone" || name == "phone_number"
    requires Latest(registrations, scope, id).Some?
    ensures InBucket(RegisteredAll(EMPTY_INDEX, registrations).phones,
                     PhoneKeyOf(scope, Latest(registrations, scope, id).value, name), id)
  {
    var n := |registrations| - 1;
    var index, r := RegisteredAll(EMPTY_INDEX, registrations[..n]), registrations[n];
    var once := WithPhone(index.phones, PhoneKeyOf(r.scope, r.fields, "phone"), r.id);
    WithPhoneKeeps(index.phones, PhoneKeyOf(r.scope, r.fields, "phone"), r.id);
    WithPhoneKeeps(once, PhoneKeyOf(r.scope, r.fields, "phone_number"), r.id);
    if r.scope != scope || r.id != id {
      PhonesAreCovered(registrations[..n], scope, id, name);
    }
  }

  /** Every entity id is registered in one tenant and type only. */
  predicate OneScopeEach(registrations: seq<Registration>) {
    forall i, j :: 0 <= i < |registrations| && 0 <= j < |registrations| && registrations[i].id == registrations[j].id
                   ==> registrations[i].scope == registrations[j].scope
  }

  lemma {:induction false} LatestWasRegistered(registrations: seq<Registration>, scope: Scope, id: Id)
    requires Latest(registrations, scope, id).Some?
    ensures exists i :: 0 <= i < |registrations| && registrations[i].scope == scope && registrations[i].id == id
  {
    var n := |registrations| - 1;
    if registrations[n].scope != scope || registrations[n].id != id {
      LatestWasRegistered(registrations[..n], scope, id);
      var i :| 0 <= i < n && registrations[..n][i].scope == scope && registrations[..n][i].id == id;
      assert registrations[i].scope == scope && registrations[i].id == id;
    }
  }

  lemma {:induction false} FoundWhereItIs(order: seq<Scope>, entities: map<Scope, map<Id, FieldMap>>, scope: Scope,
                                          id: Id)
    requires scope in order && id in Entities(entities, scope)
    requires forall s :: id in Entities(entities, s) ==> s == scope
    ensures GetFields(order, entities, id) == Some(entities[scope][id])
  {
    if order[0] != scope {
      FoundWhereItIs(order[1..], entities, scope, id);
    }
  }

  /** An id registered in one scope only is found with its latest fields. */
  lemma GetFieldsIsLatest(registrations: seq<Registration>, scope: Scope, id: Id)
    requires OneScopeEach(registrations) && Latest(registrations, scope, id).Some?
    ensures var index := RegisteredAll(EMPTY_INDEX, registrations);
            GetFields(index.order, index.entities, id) == Latest(registrations, scope, id)
  {
    var index := RegisteredAll(EMPTY_INDEX, registrations);
    EntitiesAreLatest(registrations, scope, id);
    ScopesAreListed(registrations, scope);
    LatestWasRegistered(registrations, scope, id);
    forall s | id in Entities(index.entities, s) ensures s == scope {
      EntitiesAreLatest(registrations, s, id);
      LatestWasRegistered(registrations, s, id);
    }
    FoundWhereItIs(index.order, index.entities, scope, id);
  }
}

/** The index as an object that registration changes in place. */
module ResolveIndexTables {
  import opened Text
  import opened Fields
  import opened ResolveIndex

  class ErResolveIndex {
    var order: seq<Scope>
    var entities: map<Scope, map<Id, FieldMap>>
    var columns: map<Scope, seq<string>>
    var snapshot: map<string, Id>
    var phones: map<string, seq<Id>>

    function Contents(): Index
      reads this
    {
      Index(order, entities, columns, snapshot, phones)
    }

    constructor ()
      ensures Contents() == EMPTY_INDEX
    {
      order, entities, columns, snapshot, phones := [], map[], map[], map[], map[];
    }

    method PutEntity(scope: Scope, id: Id, fields: FieldMap)
      modifies this
      ensures Contents() == WithEntity(old(Contents()), scope, id, fields)
    {
      if scope !in entities {
        order := order + [scope];
      }
      entities := entities[scope := Entities(entities, scope)[id := fields]];
      var cols := if scope in columns then columns[scope] else [];
      for i := 0 to |cols|
        invariant order == old(order) + (if scope in old(entities) then [] else [scope])
        invariant entities == old(entities)[scope := Entities(old(entities), scope)[id := fields]]
        invariant columns == old(columns) && phones == old(phones)
        invariant snapshot == WithKeys(old(snapshot), scope, id, fields, cols[..i])
      {
        assert cols[..i + 1][..i] == cols[..i];
        var value := ValueOf(fields, cols[i]);
        if Truthy(value) {
          snapshot := snapshot[LegacyKey(scope, cols[i], value.value) := id];
        }
      }
      assert cols[..|cols|] == cols;
    }

    method RegisterPhone(scope: Scope, id: Id, fields: FieldMap, name: string)
      modifies this`phones
      ensures phones == WithPhone(old(phones), PhoneKeyOf(scope, fields, name), id)
    {
      var value := ValueOf(fields, name);
      if !Truthy(value) {
        return;
      }
      var key := PhoneBlockingKey(scope, NormalizePhone(Printed(value.value)));
      if key == "" {
        return;
      }
      var bucket := if key in phones then phones[key] else [];
      phones := phones[key := if id in bucket then bucket else bucket + [id]];
    }

    /** Registers an entity's fields, replacing those it was registered with before. Phone buckets only grow. */
    method RegisterEntityFields(r: Registration)
      modifies this
      ensures Contents() == Registered(old(Contents()), r)
    {
      if r.scope !in columns {
        columns := columns[r.scope := if r.columns == [] then DEFAULT_DETERMINISTIC else r.columns];
      }
      PutEntity(r.scope, r.id, r.fields);
      RegisterPhone(r.scope, r.id, r.fields, "phone");
      RegisterPhone(r.scope, r.id, r.fields, "phone_number");
    }

    method GetFieldsOf(id: Id) returns (fields: Option<FieldMap>)
      ensures fields == GetFields(order, entities, id)
    {
      for i := 0 to |order|
        invariant GetFields(order, entities, id) == GetFields(order[i..], entities, id)
      {
        if id in Entities(entities, order[i]) {
          return Some(Entities(entities, order[i])[id]);
        }
        assert order[i..][1..] == order[i + 1..];
      }
      fields := None;
    }
  }
}
