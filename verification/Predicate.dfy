/** The Stage 0 predicate language: the top-level splitter, the parenthesis matcher and the recursive
    three-valued evaluator, on character sequences. */
module Predicate {
  import opened Text
  import opened LeafForms

  datatype Truth = Holds | Fails | Unknown

  // ---- Splitting at a connective ----------------------------------------------

  const BETWEEN := " BETWEEN "
  const OR := " OR "
  const AND := " AND "

  /** What the scanner does at a position: take `length` characters, perhaps after cutting there. */
  datatype Move = Move(length: nat, cut: bool, depth: int, inQuote: bool, between: bool)

  /** One turn of `_split_top_level`. A BETWEEN at depth 0 makes the next AND part of it. */
  function NextMove(todo: string, keyword: string, depth: int, inQuote: bool, between: bool): (m: Move)
    requires todo != "" && |keyword| >= 2
    ensures 1 <= m.length <= |todo|
  {
    var c := todo[0];
    if c == '\'' then Move(1, false, depth, !inQuote, between)
    else if inQuote then Move(1, false, depth, true, between)
    else if c == '(' then Move(1, false, depth + 1, false, between)
    else if c == ')' then Move(1, false, depth - 1, false, between)
    else if depth == 0 && StartsWith(todo, BETWEEN) then Move(1, false, depth, false, true)
    else if depth == 0 && StartsWith(todo, keyword) then
      if keyword == AND && between then Move(|keyword| - 1, false, depth, false, false)
      else Move(|keyword|, true, depth, false, between)
    else Move(1, false, depth, false, between)
  }

  predicate Shorter(parts: seq<string>, bound: nat) {
    forall i :: 0 <= i < |parts| ==> |parts[i]| < bound
  }

  /** The scan from a point on: `todo` is the text still ahead, `part` the text since the last cut. */
  function Scan(todo: string, part: string, keyword: string, depth: int, inQuote: bool, between: bool)
    : (parts: seq<string>)
    requires |keyword| >= 2
    ensures |parts| >= 1
    decreases |todo|, 1
  {
    if todo == "" then [Strip(part)]
    else Resume(NextMove(todo, keyword, depth, inQuote, between), todo, part, keyword)
  }

  function Resume(m: Move, todo: string, part: string, keyword: string): (parts: seq<string>)
    requires |keyword| >= 2 && 1 <= m.length <= |todo|
    ensures |parts| >= 1
    decreases |todo|, 0
  {
    if m.cut then [Strip(part)] + Scan(todo[m.length..], "", keyword, m.depth, m.inQuote, m.between)
    else Scan(todo[m.length..], part + todo[..m.length], keyword, m.depth, m.inQuote, m.between)
  }

  /** Every part is no longer than the text, and shorter once there has been a cut. */
  lemma {:induction false} ScanShortens(todo: string, part: string, keyword: string, depth: int, inQuote: bool,
                                        between: bool)
    requires |keyword| >= 2
    ensures var parts := Scan(todo, part, keyword, depth, inQuote, between);
            Shorter(parts, |part| + |todo| + 1) && (|parts| > 1 ==> Shorter(parts, |part| + |todo|))
    decreases |todo|, 1
  {
    if todo != "" {
      ResumeShortens(NextMove(todo, keyword, depth, inQuote, between), todo, part, keyword);
    }
  }

  lemma {:induction false} ResumeShortens(m: Move, todo: string, part: string, keyword: string)
    requires |keyword| >= 2 && 1 <= m.length <= |todo|
    ensures var parts := Resume(m, todo, part, keyword);
            Shorter(parts, |part| + |todo| + 1) && (|parts| > 1 ==> Shorter(parts, |part| + |todo|))
    decreases |todo|, 0
  {
    if m.cut {
      ScanShortens(todo[m.length..], "", keyword, m.depth, m.inQuote, m.between);
    } else {
      ScanShortens(todo[m.length..], part + todo[..m.length], keyword, m.depth, m.inQuote, m.between);
    }
  }

  function Split(text: string, keyword: string): (parts: seq<string>)
    requires |keyword| >= 2
    ensures |parts| >= 1
    ensures |parts| > 1 ==> Shorter(parts, |text|)
  {
    var parts := Scan(text, "", keyword, 0, false, false);
    ScanShortens(text, "", keyword, 0, false, false);
    if |parts| > 1 then parts else [text]
  }

  /** `_split_top_level`. */
  method SplitTopLevel(text: string, keyword: string) returns (result: seq<string>)
    requires |keyword| >= 2
    ensures result == Split(text, keyword)
  {
    var depth, inQuote, between := 0, false, false;
    var parts: seq<string> := [];
    var start, i := 0, 0;
    ScanStarts(text, keyword);
    while i < |text|
      invariant 0 <= start <= i <= |text|
      invariant SplitSoFar(text, keyword, parts, start, i, depth, inQuote, between)
      decreases |text| - i
    {
      parts, start, i, depth, inQuote, between := Turn(text, keyword, parts, start, i, depth, inQuote, between);
    }
    ScanEnds(text, keyword, parts, start, depth, inQuote, between);
    parts := parts + [Strip(text[start..])];
    result := if |parts| > 1 then parts else [text];
  }

  /** The parts cut so far and the rest of the scan make up the whole scan. */
  ghost predicate SplitSoFar(text: string, keyword: string, parts: seq<string>, start: nat, i: nat,
                             depth: int, inQuote: bool, between: bool)
    requires |keyword| >= 2
  {
    && start <= i <= |text|
    && parts + Scan(text[i..], text[start..i], keyword, depth, inQuote, between)
       == Scan(text, "", keyword, 0, false, false)
  }

  /** One turn of the loop. */
  method Turn(text: string, keyword: string, parts: seq<string>, start: nat, i: nat,
              depth: int, inQuote: bool, between: bool)
    returns (parts': seq<string>, start': nat, i': nat, depth': int, inQuote': bool, between': bool)
    requires i < |text| && |keyword| >= 2 && SplitSoFar(text, keyword, parts, start, i, depth, inQuote, between)
    ensures i < i' <= |text| && start' <= i'
    ensures SplitSoFar(text, keyword, parts', start', i', depth', inQuote', between')
  {
    var m := ReadMove(text, keyword, i, depth, inQuote, between);
    ScanGoesOn(m, text, keyword, parts, start, i, depth, inQuote, between);
    i', depth', inQuote', between' := i + m.length, m.depth, m.inQuote, m.between;
    if m.cut {
      parts' := parts + [Strip(text[start..i])];
      start' := i + m.length;
    } else {
      parts', start' := parts, start;
    }
  }

  /** The branches of the loop body. */
  method ReadMove(text: string, keyword: string, i: nat, depth: int, inQuote: bool, between: bool)
    returns (m: Move)
    requires i < |text| && |keyword| >= 2
    ensures m == NextMove(text[i..], keyword, depth, inQuote, between)
  {
    var c := text[i];
    m := Move(1, false, depth, inQuote, between);
    if c == '\'' {
      m := m.(inQuote := !inQuote);
    } else if !inQuote {
      if c == '(' {
        m := m.(depth := depth + 1);
      } else if c == ')' {
        m := m.(depth := depth - 1);
      } else if depth == 0 && StartsWith(text[i..], BETWEEN) {
        m := m.(between := true);
      } else if depth == 0 && StartsWith(text[i..], keyword) {
        if keyword == AND && between {
          m := m.(between := false, length := |keyword| - 1);
        } else {
          m := m.(length := |keyword|, cut := true);
        }
      }
    }
  }

  lemma ScanStarts(text: string, keyword: string)
    requires |keyword| >= 2
    ensures SplitSoFar(text, keyword, [], 0, 0, 0, false, false)
  {
    assert text[0..] == text && text[0..0] == "";
  }

  lemma ScanGoesOn(m: Move, text: string, keyword: string, parts: seq<string>, start: nat, i: nat,
                   depth: int, inQuote: bool, between: bool)
    requires i < |text| && |keyword| >= 2 && m == NextMove(text[i..], keyword, depth, inQuote, between)
    requires SplitSoFar(text, keyword, parts, start, i, depth, inQuote, between)
    ensures if m.cut
            then SplitSoFar(text, keyword, parts + [Strip(text[start..i])], i + m.length, i + m.length,
                            m.depth, m.inQuote, m.between)
            else SplitSoFar(text, keyword, parts, start, i + m.length, m.depth, m.inQuote, m.between)
  {
    ResumeAt(m, text, start, i, keyword);
    if m.cut {
      PartsAssociate(parts, Strip(text[start..i]),
                     Scan(text[i + m.length..], "", keyword, m.depth, m.inQuote, m.between));
    }
  }

  lemma ScanEnds(text: string, keyword: string, parts: seq<string>, start: nat,
                 depth: int, inQuote: bool, between: bool)
    requires |keyword| >= 2 && SplitSoFar(text, keyword, parts, start, |text|, depth, inQuote, between)
    ensures parts + [Strip(text[start..])] == Scan(text, "", keyword, 0, false, false)
  {
    assert text[|text|..] == "" && text[start..|text|] == text[start..];
  }

  lemma ResumeAt(m: Move, text: string, start: nat, i: nat, keyword: string)
    requires start <= i && i + m.length <= |text| && m.length >= 1 && |keyword| >= 2
    ensures var next := i + m.length;
            Resume(m, text[i..], text[start..i], keyword)
            == if m.cut then [Strip(text[start..i])] + Scan(text[next..], "", keyword, m.depth, m.inQuote, m.between)
               else Scan(text[next..], text[start..next], keyword, m.depth, m.inQuote, m.between)
    ensures text[i + m.length..i + m.length] == ""
  {
    assert text[i..][m.length..] == text[i + m.length..];
    assert text[start..i] + text[i..][..m.length] == text[start..i + m.length];
  }

  lemma PartsAssociate(parts: seq<string>, part: string, rest: seq<string>)
    ensures parts + ([part] + rest) == (parts + [part]) + rest
  {
  }

  // ---- Matching parentheses ------------------------------------------------------

  /** The scan of `_matching_close_paren`: `at` is the index of the next character; quotes are ignored. */
  function CloseFrom(todo: string, at: nat, depth: int): int
    decreases |todo|
  {
    if todo == "" then -1
    else if todo[0] == '(' then CloseFrom(todo[1..], at + 1, depth + 1)
    else if todo[0] == ')' then if depth == 1 then at else CloseFrom(todo[1..], at + 1, depth - 1)
    else CloseFrom(todo[1..], at + 1, depth)
  }

  /** `_matching_close_paren`. */
  method MatchingCloseParen(text: string, open: nat) returns (index: int)
    requires open <= |text|
    ensures index == CloseFrom(text[open..], open, 0)
  {
    var depth := 0;
    for i := open to |text|
      invariant CloseFrom(text[i..], i, depth) == CloseFrom(text[open..], open, 0)
    {
      assert text[i..][1..] == text[i + 1..];
      if text[i] == '(' {
        depth := depth + 1;
      } else if text[i] == ')' {
        depth := depth - 1;
        if depth == 0 {
          return i;
        }
      }
    }
    return -1;
  }

  // ---- Leaves -----------------------------------------------------------------------

  /** The value tests of the leaves: what the leaf says and the field's value give a truth value. */
  datatype Leaves = Leaves(
    age: (string, string, string) -> Truth,
    inRange: (string, string, string) -> Truth,
    matches: (string, string) -> Truth,
    compare: (string, string, string) -> Truth,
    truthy: string -> bool)

  /** Field values that are not null. */
  type Fields = map<string, string>

  function ReadField(fields: Fields, attr: string, judge: string -> Truth): Truth {
    if attr in fields then judge(fields[attr]) else Unknown
  }

  function Holding(b: bool): Truth {
    if b then Holds else Fails
  }

  /** The truth value of a leaf that has been read; a text that is no leaf is unknown. */
  function Judge(leaves: Leaves, fields: Fields, form: Option<Form>): Truth {
    match form
    case None => Unknown
    case Some(AgeForm(attr, symbol, interval)) => ReadField(fields, attr, v => leaves.age(symbol, interval, v))
    case Some(CohortForm(id)) =>
      var member := "__cohort_" + id + "__";
      Holding(member in fields && leaves.truthy(fields[member]))
    case Some(InForm(attr, list)) => ReadField(fields, attr, v => Holding(v in Literals(list)))
    case Some(BetweenForm(attr, low, high)) => ReadField(fields, attr, v => leaves.inRange(low, high, v))
    case Some(MatchesForm(attr, pattern)) => ReadField(fields, attr, v => leaves.matches(pattern, v))
    case Some(CompareForm(attr, symbol, literal)) =>
      ReadField(fields, attr, v => leaves.compare(symbol, literal, v))
  }

  /** The leaf cases of `_eval_predicate`. */
  function EvalLeaf(leaves: Leaves, fields: Fields, text: string): Truth {
    Judge(leaves, fields, ReadForm(text))
  }

  // ---- The evaluator -------------------------------------------------------------------

  /** SQL's three-valued connectives (section 8.12 of ISO/IEC 9075:1992), over lists. */
  function Disjunction(rs: seq<Truth>): Truth {
    if Holds in rs then Holds
    else if forall i :: 0 <= i < |rs| ==> rs[i] == Fails then Fails
    else Unknown
  }

  function Conjunction(rs: seq<Truth>): Truth {
    if Fails in rs then Fails
    else if forall i :: 0 <= i < |rs| ==> rs[i] == Holds then Holds
    else Unknown
  }

  function Negation(r: Truth): Truth {
    match r
    case Holds => Fails
    case Fails => Holds
    case Unknown => Unknown
  }

  /** `_eval_predicate`. Every recursive call is on a strictly shorter text, whatever the text. */
  function Eval(leaves: Leaves, fields: Fields, predicateText: string): Truth
    decreases |predicateText|, 1, 0
  {
    var text := Strip(predicateText);
    if text == "" || text == "*" then Holds
    else if Upper(text) == "TRUE" then Holds
    else if Upper(text) == "FALSE" then Fails
    else
      var ors := Split(text, OR);
      if |ors| > 1 then Disjunction(EvalEach(leaves, fields, ors, |text|))
      else
        var ands := Split(text, AND);
        if |ands| > 1 then Conjunction(EvalEach(leaves, fields, ands, |text|))
        else EvalUnit(leaves, fields, text)
  }

  /** The cases without a top-level AND or OR. */
  function EvalUnit(leaves: Leaves, fields: Fields, text: string): Truth
    requires text != ""
    decreases |text|, 0, 0
  {
    if StartsWith(text, "NOT ") then
      Negation(Eval(leaves, fields, Strip(text[4..])))
    else if text[0] == '(' && CloseFrom(text, 0, 0) == |text| - 1 && |text| > 1 then
      Eval(leaves, fields, Strip(text[1..|text| - 1]))
    else EvalLeaf(leaves, fields, text)
  }

  function EvalEach(leaves: Leaves, fields: Fields, parts: seq<string>, bound: nat): (rs: seq<Truth>)
    requires Shorter(parts, bound)
    ensures |rs| == |parts|
    decreases bound, 0, |parts|
  {
    if parts == [] then []
    else [Eval(leaves, fields, parts[0])] + EvalEach(leaves, fields, parts[1..], bound)
  }
}
