/** Scoring the candidates that phone blocking finds. */
module SignalB {
  import opened Text
  import opened Fields
  import opened ResolveIndex
  import opened ResolveIndexTables

  datatype Weight = Weight(attribute: string, weight: real)

  /** Similarity of an attribute's two fields; how it is computed is left open. */
  type Similarity = (string, Field, Field) -> real

  ghost predicate InUnitRange(similarity: Similarity) {
    forall name, a, b :: 0.0 <= similarity(name, a, b) <= 1.0
  }

  /** The weight counts: it is positive and both records have a value. */
  predicate Counts(w: Weight, a: FieldMap, b: FieldMap) {
    w.weight > 0.0 && ValueOf(a, w.attribute).Some? && ValueOf(b, w.attribute).Some?
  }

  function TotalWeight(weights: seq<Weight>, a: FieldMap, b: FieldMap): (r: real)
    ensures r >= 0.0
  {
    if weights == [] then 0.0
    else
      var w := weights[|weights| - 1];
      TotalWeight(weights[..|weights| - 1], a, b) + if Counts(w, a, b) then w.weight else 0.0
  }

  function Share(w: Weight, a: FieldMap, b: FieldMap, similarity: Similarity): real {
    if Counts(w, a, b) then similarity(w.attribute, a[w.attribute], b[w.attribute]) * w.weight else 0.0
  }

  function WeightedScore(weights: seq<Weight>, a: FieldMap, b: FieldMap, similarity: Similarity): real {
    if weights == [] then 0.0
    else
      var w := weights[|weights| - 1];
      WeightedScore(weights[..|weights| - 1], a, b, similarity)
      + Share(w, a, b, similarity)
  }

  /** The weighted mean of the similarities that count. */
  function Score(weights: seq<Weight>, a: FieldMap, b: FieldMap, similarity: Similarity): real {
    if TotalWeight(weights, a, b) == 0.0 then 0.0
    else WeightedScore(weights, a, b, similarity) / TotalWeight(weights, a, b)
  }

  lemma PartOfWeight(part: real, weight: real)
    requires 0.0 <= part <= 1.0 && weight > 0.0
    ensures 0.0 <= part * weight <= weight
  {
  }

  lemma ShareInRange(w: Weight, a: FieldMap, b: FieldMap, similarity: Similarity)
    requires InUnitRange(similarity)
    ensures 0.0 <= Share(w, a, b, similarity) <= if Counts(w, a, b) then w.weight else 0.0
  {
    if Counts(w, a, b) {
      PartOfWeight(similarity(w.attribute, a[w.attribute], b[w.attribute]), w.weight);
    }
  }

  lemma MeanOfShares(score: real, total: real)
    requires 0.0 <= score <= total && total > 0.0
    ensures 0.0 <= score / total <= 1.0
  {
    var mean := score / total;
    assert mean * total == score;
  }

  lemma {:induction false} WeightedScoreInRange(weights: seq<Weight>, a: FieldMap, b: FieldMap, similarity: Similarity)
    requires InUnitRange(similarity)
    ensures 0.0 <= WeightedScore(weights, a, b, similarity) <= TotalWeight(weights, a, b)
  {
    if weights != [] {
      WeightedScoreInRange(weights[..|weights| - 1], a, b, similarity);
      ShareInRange(weights[|weights| - 1], a, b, similarity);
    }
  }

  /** A score lies in [0, 1] whatever the weights, negative and missing ones included. */
  lemma ScoreInRange(weights: seq<Weight>, a: FieldMap, b: FieldMap, similarity: Similarity)
    requires InUnitRange(similarity)
    ensures 0.0 <= Score(weights, a, b, similarity) <= 1.0
  {
    WeightedScoreInRange(weights, a, b, similarity);
    var score, total := WeightedScore(weights, a, b, similarity), TotalWeight(weights, a, b);
    if total != 0.0 {
      MeanOfShares(score, total);
    }
  }

  // ---- The best candidate ---------------------------------------------------------------

  datatype Best = Best(score: real, id: Option<Id>)

  /** The first candidate with the highest positive score. */
  function BestOf(candidates: seq<Id>, score: Id -> real): Best {
    if candidates == [] then Best(0.0, None)
    else
      var before, last := BestOf(candidates[..|candidates| - 1], score), candidates[|candidates| - 1];
      if score(last) > before.score then Best(score(last), Some(last)) else before
  }

  lemma {:induction false} BestIsBest(candidates: seq<Id>, score: Id -> real)
    ensures var best := BestOf(candidates, score);
            && (forall id :: id in candidates ==> score(id) <= best.score)
            && (if best.id.Some? then best.id.value in candidates && score(best.id.value) == best.score > 0.0
                else best.score == 0.0)
  {
    if candidates != [] {
      BestIsBest(candidates[..|candidates| - 1], score);
    }
  }

  /** An entity's score against the incoming record; an unknown entity has no fields. */
  function CandidateScore(index: Index, fields: FieldMap, weights: seq<Weight>, similarity: Similarity): Id -> real {
    (id: Id) =>
      var known := GetFields(index.order, index.entities, id);
      Score(weights, fields, if known.Some? then known.value else map[], similarity)
  }

  function SignalB(index: Index, scope: Scope, fields: FieldMap, weights: seq<Weight>, similarity: Similarity): Best {
    BestOf(PhoneBlockingCandidates(index.phones, scope, fields), CandidateScore(index, fields, weights, similarity))
  }

  /** After any registrations and re-registrations, the best score is at least that of every entity of the
      tenant and type with a current phone that normalises to the incoming one. */
  lemma BlockingNeverMisses(registrations: seq<Registration>, scope: Scope, id: Id, name: string,
                            fields: FieldMap, weights: seq<Weight>, similarity: Similarity)
    requires OneScopeEach(registrations) && Latest(registrations, scope, id).Some?
    requires name == "phone" || name == "phone_number"
    requires var current := Latest(registrations, scope, id).value;
             IncomingDigits(fields) != "" && PhoneDigits(ValueOf(current, name)) == IncomingDigits(fields)
    ensures var index := RegisteredAll(EMPTY_INDEX, registrations);
            && id in PhoneBlockingCandidates(index.phones, scope, fields)
            && Score(weights, fields, Latest(registrations, scope, id).value, similarity)
               <= SignalB(index, scope, fields, weights, similarity).score
  {
    var index := RegisteredAll(EMPTY_INDEX, registrations);
    PhonesAreCovered(registrations, scope, id, name);
    GetFieldsIsLatest(registrations, scope, id);
    assert PhoneBlockingKey(scope, IncomingDigits(fields)) != "";
    assert id in PhoneBlockingCandidates(index.phones, scope, fields);
    BestIsBest(PhoneBlockingCandidates(index.phones, scope, fields),
               CandidateScore(index, fields, weights, similarity));
    assert CandidateScore(index, fields, weights, similarity)(id)
        == Score(weights, fields, Latest(registrations, scope, id).value, similarity);
  }

  // ---- The loops ---------------------------------------------------------------------------

  method ScorePair(a: FieldMap, b: FieldMap, weights: seq<Weight>, similarity: Similarity) returns (score: real)
    ensures score == Score(weights, a, b, similarity)
    ensures InUnitRange(similarity) ==> 0.0 <= score <= 1.0
  {
    if InUnitRange(similarity) {
      ScoreInRange(weights, a, b, similarity);
    }
    var totalWeight, weightedScore := 0.0, 0.0;
    for i := 0 to |weights|
      invariant totalWeight == TotalWeight(weights[..i], a, b)
      invariant weightedScore == WeightedScore(weights[..i], a, b, similarity)
    {
      assert weights[..i + 1][..i] == weights[..i];
      var w := weights[i];
      if w.weight <= 0.0 || ValueOf(a, w.attribute).None? || ValueOf(b, w.attribute).None? {
        continue;
      }
      weightedScore := weightedScore + similarity(w.attribute, a[w.attribute], b[w.attribute]) * w.weight;
      totalWeight := totalWeight + w.weight;
    }
    assert weights[..|weights|] == weights;
    score := if totalWeight == 0.0 then 0.0 else weightedScore / totalWeight;
  }

  method ScoreCandidate(index: ErResolveIndex, fields: FieldMap, weights: seq<Weight>, similarity: Similarity, id: Id)
    returns (score: real)
    ensures score == CandidateScore(index.Contents(), fields, weights, similarity)(id)
  {
    var known := index.GetFieldsOf(id);
    score := ScorePair(fields, if known.Some? then known.value else map[], weights, similarity);
  }

  method BestCandidate(index: ErResolveIndex, candidates: seq<Id>, fields: FieldMap, weights: seq<Weight>,
                       similarity: Similarity)
    returns (best: Best)
    ensures best == BestOf(candidates, CandidateScore(index.Contents(), fields, weights, similarity))
  {
    best := Best(0.0, None);
    ghost var rate := CandidateScore(index.Contents(), fields, weights, similarity);
    for i := 0 to |candidates|
      invariant best == BestOf(candidates[..i], rate)
    {
      assert candidates[..i + 1][..i] == candidates[..i];
      var score := ScoreCandidate(index, fields, weights, similarity, candidates[i]);
      if score > best.score {
        best := Best(score, Some(candidates[i]));
      }
    }
    assert candidates[..|candidates|] == candidates;
  }

  method RunSignalB(index: ErResolveIndex, scope: Scope, fields: FieldMap, weights: seq<Weight>, similarity: Similarity)
    returns (best: Best)
    ensures best == SignalB(index.Contents(), scope, fields, weights, similarity)
  {
    best := BestCandidate(index, PhoneBlockingCandidates(index.phones, scope, fields), fields, weights, similarity);
  }
}
