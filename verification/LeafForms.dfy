/** The leaves of the Stage 0 predicate language: the regular expressions of the six leaf forms, read as
    functions on text without blanks at its ends. */
module LeafForms {
  import opened Text

  // ---- Pieces of the expressions ------------------------------------------------------

  predicate IsWordChar(c: char) {
    'a' <= c <= 'z' || 'A' <= c <= 'Z' || '0' <= c <= '9' || c == '_'
  }

  /** `\w*` */
  function WordLength(s: string): (n: nat)
    ensures n <= |s| && (forall i :: 0 <= i < n ==> IsWordChar(s[i])) && (n < |s| ==> !IsWordChar(s[n]))
  {
    if s == "" || !IsWordChar(s[0]) then 0 else 1 + WordLength(s[1..])
  }

  /** `\s*` */
  function SpaceLength(s: string): (n: nat)
    ensures n <= |s| && (forall i :: 0 <= i < n ==> IsSpace(s[i])) && (n < |s| ==> !IsSpace(s[n]))
  {
    if s == "" || !IsSpace(s[0]) then 0 else 1 + SpaceLength(s[1..])
  }

  function AfterSpace(s: string): string {
    s[SpaceLength(s)..]
  }

  /** `<=?|>=?|!=|=`, or 0 for none of them. */
  function SymbolLength(s: string): (n: nat)
    ensures n <= |s|
  {
    if s == "" then 0
    else if s[0] == '<' || s[0] == '>' then if |s| > 1 && s[1] == '=' then 2 else 1
    else if s[0] == '!' then if |s| > 1 && s[1] == '=' then 2 else 0
    else if s[0] == '=' then 1
    else 0
  }

  /** `'[^']+'$` */
  predicate IsQuoted(s: string) {
    |s| >= 3 && s[0] == '\'' && s[|s| - 1] == '\'' && '\'' !in s[1..|s| - 1]
  }

  predicate IsQuoteMark(c: char) {
    c == '\'' || c == '"'
  }

  /** `['"]?` */
  function AfterQuoteMark(s: string): string {
    if s != "" && IsQuoteMark(s[0]) then s[1..] else s
  }

  /** What follows `^(\w+)\s+KEYWORD`. */
  function AfterWord(text: string, keyword: string): Option<string> {
    var n := WordLength(text);
    var gap := SpaceLength(text[n..]);
    var rest := AfterSpace(text[n..]);
    if n > 0 && gap > 0 && StartsWith(rest, keyword) then Some(rest[|keyword|..]) else None
  }

  /** What follows `^NAME\s*\(\s*`. */
  function AfterCall(text: string, name: string): Option<string> {
    var n := WordLength(text);
    var rest := AfterSpace(text[n..]);
    if Upper(text[..n]) == name && rest != "" && rest[0] == '(' then Some(AfterSpace(rest[1..])) else None
  }

  // ---- The six forms --------------------------------------------------------------------

  datatype Form =
    | AgeForm(attribute: string, symbol: string, interval: string)
    | CohortForm(id: string)
    | InForm(attribute: string, list: string)
    | BetweenForm(attribute: string, low: string, high: string)
    | MatchesForm(attribute: string, pattern: string)
    | CompareForm(attribute: string, symbol: string, literal: string)

  /** `^AGE\s*\(\s*(\w+)\s*\)\s*(<=?|>=?|!=|=)\s*'([^']+)'$` */
  function MatchAge(text: string): (form: Option<Form>)
    ensures form.Some? ==> form.value.AgeForm?
  {
    match AfterCall(text, "AGE")
    case None => None
    case Some(argument) => AgeCall(argument)
  }

  function AgeCall(argument: string): (form: Option<Form>)
    ensures form.Some? ==> form.value.AgeForm?
  {
    var n := WordLength(argument);
    var closing := AfterSpace(argument[n..]);
    if n == 0 || closing == "" || closing[0] != ')' then None
    else AgeTest(argument[..n], AfterSpace(closing[1..]))
  }

  function AgeTest(attribute: string, rest: string): (form: Option<Form>)
    ensures form.Some? ==> form.value.AgeForm?
  {
    var k := SymbolLength(rest);
    var literal := AfterSpace(rest[k..]);
    if k > 0 && IsQuoted(literal) then Some(AgeForm(attribute, rest[..k], literal[1..|literal| - 1])) else None
  }

  /** `^COHORT\s*\(\s*['"]?(\w+)['"]?\s*\)$` */
  function MatchCohort(text: string): (form: Option<Form>)
    ensures form.Some? ==> form.value.CohortForm?
  {
    match AfterCall(text, "COHORT")
    case None => None
    case Some(argument) => CohortCall(argument)
  }

  function CohortCall(argument: string): (form: Option<Form>)
    ensures form.Some? ==> form.value.CohortForm?
  {
    var id := AfterQuoteMark(argument);
    var n := WordLength(id);
    if n > 0 && AfterSpace(AfterQuoteMark(id[n..])) == ")" then Some(CohortForm(id[..n])) else None
  }

  /** `^(\w+)\s+IN\s*\((.+)\)$` */
  function MatchIn(text: string): (form: Option<Form>)
    ensures form.Some? ==> form.value.InForm?
  {
    match AfterWord(text, "IN")
    case None => None
    case Some(rest) => ListAt(text[..WordLength(text)], AfterSpace(rest))
  }

  function ListAt(attribute: string, s: string): (form: Option<Form>)
    ensures form.Some? ==> form.value.InForm?
  {
    if |s| >= 3 && s[0] == '(' && s[|s| - 1] == ')' && '\n' !in s[1..|s| - 1]
    then Some(InForm(attribute, s[1..|s| - 1]))
    else None
  }

  /** `^AND\s+.+$`, for a text without blanks at its end */
  predicate AndFirst(s: string) {
    && StartsWith(s, "AND")
    && var blank := SpaceLength(s[3..]);
       blank > 0 && |s| > 3 + blank && '\n' !in s[3 + blank..]
  }

  /** Does `\s+AND\s+.+$` match at position `at`? */
  predicate AndAt(s: string, at: nat) {
    at <= |s| && SpaceLength(s[at..]) > 0 && AndFirst(AfterSpace(s[at..]))
  }

  /** The first place from `from` on, but 0, that passes the test; a line break ends the search. */
  function FirstEnd(s: string, from: nat, ends: nat -> bool): (end: Option<nat>)
    requires from <= |s|
    ensures end.Some? ==> from <= end.value <= |s| && 0 < end.value && ends(end.value)
    ensures end.Some? ==> forall k :: from <= k < end.value && 0 < k ==> !ends(k)
    ensures end.None? && '\n' !in s ==> forall k :: from <= k <= |s| && 0 < k ==> !ends(k)
    decreases |s| - from
  {
    if from > 0 && ends(from) then Some(from)
    else if from == |s| || s[from] == '\n' then None
    else FirstEnd(s, from + 1, ends)
  }

  function AndPlaces(s: string): nat -> bool {
    (at: nat) => AndAt(s, at)
  }

  /** The end of the shortest low bound. */
  function LowEnd(s: string): Option<nat> {
    FirstEnd(s, 0, AndPlaces(s))
  }

  /** The two bounds, stripped; `gap` blanks follow BETWEEN at first, fewer if the match has to give some
      back. */
  function RangeAfter(attribute: string, body: string, gap: nat): (form: Option<Form>)
    requires gap <= |body|
    ensures form.Some? ==> form.value.BetweenForm?
  {
    if gap == 0 then None
    else
      var s := body[gap..];
      match LowEnd(s)
      case Some(n) =>
        Some(Bounds(attribute, s[..n], AfterSpace(s[n..])))
      case None => RangeAfter(attribute, body, gap - 1)
  }

  function Bounds(attribute: string, low: string, behind: string): (form: Form)
    requires StartsWith(behind, "AND")
    ensures form.BetweenForm?
  {
    BetweenForm(attribute, Strip(low), Strip(behind[3..]))
  }

  /** `^(\w+)\s+BETWEEN\s+(.+?)\s+AND\s+(.+)$` */
  function MatchBetween(text: string): (form: Option<Form>)
    ensures form.Some? ==> form.value.BetweenForm?
  {
    match AfterWord(text, "BETWEEN")
    case None => None
    case Some(body) => RangeAfter(text[..WordLength(text)], body, SpaceLength(body))
  }

  /** `^(\w+)\s+MATCHES\s+'([^']+)'$` */
  function MatchMatches(text: string): (form: Option<Form>)
    ensures form.Some? ==> form.value.MatchesForm?
  {
    match AfterWord(text, "MATCHES")
    case None => None
    case Some(rest) => PatternAt(text[..WordLength(text)], rest)
  }

  function PatternAt(attribute: string, rest: string): (form: Option<Form>)
    ensures form.Some? ==> form.value.MatchesForm?
  {
    var literal := AfterSpace(rest);
    if SpaceLength(rest) > 0 && IsQuoted(literal)
    then Some(MatchesForm(attribute, literal[1..|literal| - 1]))
    else None
  }

  /** `^(\w+)\s*(<=?|>=?|!=|=)\s*(.+)$`, literal stripped */
  function MatchCompare(text: string): (form: Option<Form>)
    ensures form.Some? ==> form.value.CompareForm?
  {
    var n := WordLength(text);
    if n == 0 then None else ComparisonAt(text[..n], AfterSpace(text[n..]))
  }

  /** Where nothing follows `<=` or `>=`, the expression gives the equals sign back to the literal. */
  function ComparisonAt(attribute: string, s: string): (form: Option<Form>)
    ensures form.Some? ==> form.value.CompareForm?
  {
    var k := SymbolLength(s);
    var literal := AfterSpace(s[k..]);
    if k == 0 || '\n' in literal then None
    else if literal != "" then Some(CompareForm(attribute, s[..k], Strip(literal)))
    else if k == 2 && s[0] != '!' then Some(CompareForm(attribute, s[..1], "="))
    else None
  }

  function FirstOf(a: Option<Form>, b: Option<Form>): Option<Form> {
    if a.Some? then a else b
  }

  /** The forms in the order in which they are tried. */
  function ReadForm(text: string): Option<Form> {
    FirstOf(MatchAge(text),
    FirstOf(MatchCohort(text),
    FirstOf(MatchIn(text),
    FirstOf(MatchBetween(text),
    FirstOf(MatchMatches(text), MatchCompare(text))))))
  }

  // ---- The literals of a list ---------------------------------------------------------------

  /** `list.split(",")` */
  function Cells(list: string): (cells: seq<string>)
    ensures |cells| >= 1
  {
    if list == "" then [""]
    else
      var cells := Cells(list[1..]);
      if list[0] == ',' then [""] + cells else [[list[0]] + cells[0]] + cells[1..]
  }

  /** `s.strip("'\"")` */
  function Unquoted(s: string): string {
    if s != "" && IsQuoteMark(s[0]) then Unquoted(s[1..])
    else if s != "" && IsQuoteMark(s[|s| - 1]) then Unquoted(s[..|s| - 1])
    else s
  }

  function UnquotedAll(cells: seq<string>): (r: seq<string>)
    ensures |r| == |cells|
  {
    if cells == [] then [] else [Unquoted(Strip(cells[0]))] + UnquotedAll(cells[1..])
  }

  function Literals(list: string): seq<string> {
    UnquotedAll(Cells(list))
  }
}
