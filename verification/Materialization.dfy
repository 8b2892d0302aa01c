/** Stage 0: learning more field values never undoes a definite predicate, nor worsens the winning rule. */
module Materialization {
  import opened Text
  import opened Predicate
  import opened LeafForms
  import StableSort

  // ---- More fields, more knowledge ----------------------------------------------

  /** `more` keeps every known field and may know others. */
  ghost predicate Extends(fields: Fields, more: Fields) {
    forall k :: k in fields ==> k in more && more[k] == fields[k]
  }

  /** A definite result stays; an unknown one may become anything. */
  predicate Refines(r: Truth, s: Truth) {
    r == Unknown || r == s
  }

  /** No occurrence of COHORT, in any case mix. */
  ghost predicate NoCohort(text: string) {
    forall j :: 0 <= j <= |text| ==> !StartsWith(text[j..], "COHORT")
  }

  lemma NoCohortSlice(s: string, i: nat, j: nat)
    requires NoCohort(s) && i <= j <= |s|
    ensures NoCohort(s[i..j])
  {
    forall k | 0 <= k <= j - i ensures !StartsWith(s[i..j][k..], "COHORT") {
      assert !StartsWith(s[i + k..], "COHORT");
      assert forall n :: 0 <= n < j - i - k ==> s[i..j][k..][n] == s[i + k..][n];
    }
  }

  lemma NoCohortStrip(s: string)
    requires NoCohort(s)
    ensures NoCohort(Strip(s))
  {
    var l := LeftStrip(s);
    NoCohortSlice(s, |s| - |l|, |s|);
    assert l == s[|s| - |l|..|s|];
    NoCohortSlice(l, 0, |RightStrip(l)|);
    assert RightStrip(l) == l[0..|RightStrip(l)|];
  }

  lemma NoCohortHalves(a: string, b: string)
    requires NoCohort(a + b)
    ensures NoCohort(a) && NoCohort(b)
  {
    NoCohortSlice(a + b, 0, |a|);
    NoCohortSlice(a + b, |a|, |a + b|);
    assert (a + b)[0..|a|] == a && (a + b)[|a|..|a + b|] == b;
  }

  ghost predicate NoneCohort(parts: seq<string>) {
    forall i :: 0 <= i < |parts| ==> NoCohort(parts[i])
  }

  /** The parts of a split are pieces of the text. */
  lemma {:induction false} PartsHaveNoCohort(todo: string, part: string, keyword: string, depth: int, inQuote: bool,
                                             between: bool)
    requires |keyword| >= 2 && NoCohort(part + todo)
    ensures NoneCohort(Scan(todo, part, keyword, depth, inQuote, between))
    decreases |todo|, 1
  {
    NoCohortHalves(part, todo);
    if todo == "" {
      NoCohortStrip(part);
    } else {
      ResumedPartsHaveNoCohort(NextMove(todo, keyword, depth, inQuote, between), todo, part, keyword);
    }
  }

  lemma {:induction false} ResumedPartsHaveNoCohort(m: Move, todo: string, part: string, keyword: string)
    requires |keyword| >= 2 && 1 <= m.length <= |todo| && NoCohort(part + todo)
    ensures NoneCohort(Resume(m, todo, part, keyword))
    decreases |todo|, 0
  {
    NoCohortHalves(part, todo);
    if m.cut {
      NoCohortStrip(part);
      NoCohortSlice(todo, m.length, |todo|);
      assert "" + todo[m.length..] == todo[m.length..|todo|];
      PartsHaveNoCohort(todo[m.length..], "", keyword, m.depth, m.inQuote, m.between);
    } else {
      assert (part + todo[..m.length]) + todo[m.length..] == part + todo;
      PartsHaveNoCohort(todo[m.length..], part + todo[..m.length], keyword, m.depth, m.inQuote, m.between);
    }
  }

  lemma SplitHasNoCohort(text: string, keyword: string)
    requires |keyword| >= 2 && NoCohort(text)
    ensures NoneCohort(Split(text, keyword))
  {
    assert "" + text == text;
    PartsHaveNoCohort(text, "", keyword, 0, false, false);
  }

  // ---- Monotonicity ---------------------------------------------------------------------

  ghost predicate AllRefine(rs: seq<Truth>, ss: seq<Truth>) {
    |rs| == |ss| && forall i :: 0 <= i < |rs| ==> Refines(rs[i], ss[i])
  }

  lemma ConnectivesRefine(rs: seq<Truth>, ss: seq<Truth>)
    requires AllRefine(rs, ss)
    ensures Refines(Disjunction(rs), Disjunction(ss)) && Refines(Conjunction(rs), Conjunction(ss))
  {
    if Holds in rs {
      var i :| 0 <= i < |rs| && rs[i] == Holds;
      assert ss[i] == Holds;
    }
    if Fails in rs {
      var i :| 0 <= i < |rs| && rs[i] == Fails;
      assert ss[i] == Fails;
    }
  }

  lemma LeafRefines(leaves: Leaves, fields: Fields, more: Fields, text: string)
    requires Extends(fields, more) && NoCohort(text)
    ensures Refines(EvalLeaf(leaves, fields, text), EvalLeaf(leaves, more, text))
  {
    NoCohortForm(text);
    JudgedRefines(leaves, fields, more, ReadForm(text));
  }

  lemma NoCohortForm(text: string)
    requires NoCohort(text)
    ensures !(ReadForm(text).Some? && ReadForm(text).value.CohortForm?)
  {
    if AfterCall(text, "COHORT").Some? {
      CohortCallStarts(text);
      assert false;
    }
  }

  lemma JudgedRefines(leaves: Leaves, fields: Fields, more: Fields, form: Option<Form>)
    requires Extends(fields, more) && !(form.Some? && form.value.CohortForm?)
    ensures Refines(Judge(leaves, fields, form), Judge(leaves, more, form))
  {
  }

  lemma CohortCallStarts(text: string)
    requires AfterCall(text, "COHORT").Some?
    ensures StartsWith(text[0..], "COHORT")
  {
    var n := WordLength(text);
    assert |Upper(text[..n])| == 6;
    assert forall i :: 0 <= i < 6 ==> UpperChar(text[..n][i]) == "COHORT"[i];
  }

  /** A definite truth value survives learning more fields, for any text without COHORT. */
  lemma {:induction false} MoreFieldsKeepDefiniteResults(leaves: Leaves, fields: Fields, more: Fields,
                                                         predicateText: string)
    requires Extends(fields, more) && NoCohort(predicateText)
    ensures Refines(Eval(leaves, fields, predicateText), Eval(leaves, more, predicateText))
    decreases |predicateText|, 1, 0
  {
    var text := Strip(predicateText);
    NoCohortStrip(predicateText);
    if text != "" && text != "*" && Upper(text) != "TRUE" && Upper(text) != "FALSE" {
      if |Split(text, OR)| > 1 {
        SplitRefines(leaves, fields, more, text, OR);
      } else if |Split(text, AND)| > 1 {
        SplitRefines(leaves, fields, more, text, AND);
      } else {
        UnitRefines(leaves, fields, more, text);
      }
    }
  }

  lemma {:induction false} SplitRefines(leaves: Leaves, fields: Fields, more: Fields, text: string, keyword: string)
    requires Extends(fields, more) && NoCohort(text) && |keyword| >= 2 && |Split(text, keyword)| > 1
    ensures var parts := Split(text, keyword);
            var rs, ss := EvalEach(leaves, fields, parts, |text|), EvalEach(leaves, more, parts, |text|);
            Refines(Disjunction(rs), Disjunction(ss)) && Refines(Conjunction(rs), Conjunction(ss))
    decreases |text|, 1, -1
  {
    var parts := Split(text, keyword);
    SplitHasNoCohort(text, keyword);
    EachRefines(leaves, fields, more, parts, |text|);
    ConnectivesRefine(EvalEach(leaves, fields, parts, |text|), EvalEach(leaves, more, parts, |text|));
  }

  lemma {:induction false} UnitRefines(leaves: Leaves, fields: Fields, more: Fields, text: string)
    requires Extends(fields, more) && NoCohort(text) && text != ""
    ensures Refines(EvalUnit(leaves, fields, text), EvalUnit(leaves, more, text))
    decreases |text|, 0, 0
  {
    if StartsWith(text, "NOT ") {
      NoCohortSlice(text, 4, |text|);
      assert text[4..] == text[4..|text|];
      NoCohortStrip(text[4..]);
      MoreFieldsKeepDefiniteResults(leaves, fields, more, Strip(text[4..]));
    } else if text[0] == '(' && CloseFrom(text, 0, 0) == |text| - 1 && |text| > 1 {
      NoCohortSlice(text, 1, |text| - 1);
      NoCohortStrip(text[1..|text| - 1]);
      MoreFieldsKeepDefiniteResults(leaves, fields, more, Strip(text[1..|text| - 1]));
    } else {
      LeafRefines(leaves, fields, more, text);
    }
  }

  lemma {:induction false} EachRefines(leaves: Leaves, fields: Fields, more: Fields, parts: seq<string>, bound: nat)
    requires Extends(fields, more) && NoneCohort(parts) && Shorter(parts, bound)
    ensures AllRefine(EvalEach(leaves, fields, parts, bound), EvalEach(leaves, more, parts, bound))
    decreases bound, 0, |parts|
  {
    forall i | 0 <= i < |parts|
      ensures Refines(EvalEach(leaves, fields, parts, bound)[i], EvalEach(leaves, more, parts, bound)[i])
    {
      assert NoCohort(parts[i]) && |parts[i]| < bound;
      MoreFieldsKeepDefiniteResults(leaves, fields, more, parts[i]);
      EachAt(leaves, fields, parts, bound, i);
      EachAt(leaves, more, parts, bound, i);
    }
  }

  lemma {:induction false} EachAt(leaves: Leaves, fields: Fields, parts: seq<string>, bound: nat, i: nat)
    requires Shorter(parts, bound) && i < |parts|
    ensures EvalEach(leaves, fields, parts, bound)[i] == Eval(leaves, fields, parts[i])
    decreases i
  {
    if i > 0 {
      EachAt(leaves, fields, parts[1..], bound, i - 1);
    }
  }

  // ---- Policies ------------------------------------------------------------------------------

  datatype Level = Hot | Warm | Cold

  /** Instants are integers on one clock. */
  datatype PolicyRule = PolicyRule(ruleId: string, predicateText: string, targetLevel: Level, priority: int,
                                   ruleType: string, validFrom: Option<int>, validUntil: Option<int>)

  datatype Scope = Scope(tenant: string, entityType: string)

  datatype Decision = Decision(level: Level, appliedRule: Option<string>)

  type Policy = map<Scope, seq<PolicyRule>>

  function RulesAt(policy: Policy, scope: Scope): seq<PolicyRule> {
    if scope in policy then policy[scope] else []
  }

  /** `get_rules`: exact scope, tenant-wide, global for the type, global for everything. */
  function GetRules(policy: Policy, tenant: string, entityType: string): seq<PolicyRule> {
    RulesAt(policy, Scope(tenant, entityType)) + RulesAt(policy, Scope(tenant, "*"))
    + RulesAt(policy, Scope("*", entityType)) + RulesAt(policy, Scope("*", "*"))
  }

  function RuleTypeRank(ruleType: string): nat {
    if ruleType == "manual" then 5
    else if ruleType == "boost" then 4
    else if ruleType == "learned" then 3
    else if ruleType == "decay" then 2
    else if ruleType == "base" then 1
    else 0
  }

  predicate InForce(rule: PolicyRule, now: int) {
    && (rule.validFrom.Some? ==> rule.validFrom.value <= now)
    && (rule.validUntil.Some? ==> now < rule.validUntil.value)
  }

  predicate Fires(leaves: Leaves, fields: Fields, now: int, rule: PolicyRule) {
    InForce(rule, now) && Eval(leaves, fields, rule.predicateText) == Holds
  }

  function Firing(leaves: Leaves, fields: Fields, now: int): PolicyRule -> bool {
    rule => Fires(leaves, fields, now, rule)
  }

  /** 31 December 9999 stands in for "no expiry". */
  function Expiry(rule: PolicyRule, never: int): int {
    if rule.validUntil.Some? then rule.validUntil.value else never
  }

  /** Higher priority first, then rule type, then the sooner expiry. */
  predicate Outranks(a: PolicyRule, b: PolicyRule, never: int) {
    if a.priority != b.priority then a.priority > b.priority
    else if RuleTypeRank(a.ruleType) != RuleTypeRank(b.ruleType)
    then RuleTypeRank(a.ruleType) > RuleTypeRank(b.ruleType)
    else Expiry(a, never) < Expiry(b, never)
  }

  function Ranking(never: int): (PolicyRule, PolicyRule) -> bool {
    (a, b) => Outranks(a, b, never)
  }

  function Winner(matching: seq<PolicyRule>, never: int): Option<PolicyRule> {
    if matching == [] then None else Some(StableSort.Sort(matching, Ranking(never))[0])
  }

  function Decide(leaves: Leaves, policy: Policy, tenant: string, entityType: string, fields: Fields, now: int,
                  never: int): Decision {
    var matching := StableSort.Keep(GetRules(policy, tenant, entityType), Firing(leaves, fields, now));
    match Winner(matching, never)
    case Some(rule) => Decision(rule.targetLevel, Some(rule.ruleId))
    case None => Decision(Warm, None)
  }

  /** `MaterializationPolicy.evaluate`. */
  method Evaluate(leaves: Leaves, policy: Policy, tenant: string, entityType: string, fields: Fields, now: int,
                  never: int) returns (decision: Decision)
    ensures decision == Decide(leaves, policy, tenant, entityType, fields, now, never)
  {
    var rules := GetRules(policy, tenant, entityType);
    var matching: seq<PolicyRule> := [];
    for i := 0 to |rules|
      invariant matching == StableSort.Keep(rules[..i], Firing(leaves, fields, now))
    {
      assert rules[..i + 1][..i] == rules[..i];
      if InForce(rules[i], now) {
        var truth := Eval(leaves, fields, rules[i].predicateText);
        if truth == Holds {
          matching := matching + [rules[i]];
        }
      }
    }
    assert rules[..|rules|] == rules;
    matching := StableSort.Sort(matching, Ranking(never));
    if matching == [] {
      return Decision(Warm, None);
    }
    decision := Decision(matching[0].targetLevel, Some(matching[0].ruleId));
  }

  ghost predicate CohortFree(policy: Policy, tenant: string, entityType: string) {
    forall r :: r in GetRules(policy, tenant, entityType) ==> NoCohort(r.predicateText)
  }

  /** The rule that decides, for given fields. */
  function Deciding(leaves: Leaves, policy: Policy, tenant: string, entityType: string, fields: Fields, now: int,
                    never: int): Option<PolicyRule> {
    Winner(StableSort.Keep(GetRules(policy, tenant, entityType), Firing(leaves, fields, now)), never)
  }

  /** The deciding rule fires, and no firing rule outranks it; without one nothing fires. */
  lemma DecidingRuleIsBest(leaves: Leaves, policy: Policy, tenant: string, entityType: string, fields: Fields,
                           now: int, never: int)
    ensures var winner := Deciding(leaves, policy, tenant, entityType, fields, now, never);
            var rules := GetRules(policy, tenant, entityType);
            && (winner.Some? ==> winner.value in rules && Fires(leaves, fields, now, winner.value))
            && forall r :: r in rules && Fires(leaves, fields, now, r) ==>
                 winner.Some? && !Outranks(r, winner.value, never)
  {
    var rules := GetRules(policy, tenant, entityType);
    var matching := StableSort.Keep(rules, Firing(leaves, fields, now));
    if matching != [] {
      StableSort.SortHead(matching, Ranking(never));
      StableSort.BestIsBest(matching, Ranking(never));
    }
    forall r | r in rules && Fires(leaves, fields, now, r) ensures r in matching {
      assert Firing(leaves, fields, now)(r);
    }
  }

  /** For a policy without COHORT predicates, learning more fields loses no firing rule, and the deciding
      rule's (priority, rule type, expiry) key never gets worse. */
  lemma MoreFieldsNeverWorsenTheDecision(leaves: Leaves, policy: Policy, tenant: string, entityType: string,
                                         fields: Fields, more: Fields, now: int, never: int)
    requires Extends(fields, more) && CohortFree(policy, tenant, entityType)
    ensures forall r :: r in GetRules(policy, tenant, entityType) && Fires(leaves, fields, now, r)
              ==> Fires(leaves, more, now, r)
    ensures var before := Deciding(leaves, policy, tenant, entityType, fields, now, never);
            var after := Deciding(leaves, policy, tenant, entityType, more, now, never);
            before.Some? ==> after.Some? && !Outranks(before.value, after.value, never)
  {
    forall r | r in GetRules(policy, tenant, entityType) && Fires(leaves, fields, now, r)
      ensures Fires(leaves, more, now, r)
    {
      MoreFieldsKeepDefiniteResults(leaves, fields, more, r.predicateText);
    }
    DecidingRuleIsBest(leaves, policy, tenant, entityType, fields, now, never);
    DecidingRuleIsBest(leaves, policy, tenant, entityType, more, now, never);
  }
}
