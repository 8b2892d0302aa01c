/** The documented predicate grammar as trees, their printed text, and the proof that evaluating the text
    gives the tree's three-valued meaning. */
module PredicateGrammar {
  import opened Text
  import opened Predicate
  import opened LeafForms

  // ---- Trees and their text -----------------------------------------------------

  datatype Operand = Bare(word: string) | Quoted(text: string)

  datatype Relation = Equal | NotEqual | Less | AtMost | Greater | AtLeast

  datatype Tree =
    | Or(left: Tree, right: Tree)
    | And(left: Tree, right: Tree)
    | Not(inner: Tree)
    | Paren(inner: Tree)
    | Always(value: bool)
    | Compare(attr: string, relation: Relation, operand: Operand)
    | In(attr: string, items: seq<Operand>)
    | Between(attr: string, low: Operand, high: Operand)
    | Age(attr: string, relation: Relation, interval: string)
    | Matches(attr: string, pattern: string)
    | Cohort(id: string)

  function Symbol(r: Relation): string {
    match r
    case Equal => "="
    case NotEqual => "!="
    case Less => "<"
    case AtMost => "<="
    case Greater => ">"
    case AtLeast => ">="
  }

  /** What stands between the single blanks of a leaf. */
  datatype Chunk =
    | Word(word: string)
    | Quote(text: string)
    | Call(name: string, arg: string)
    | List(items: seq<Operand>)

  function OperandText(o: Operand): string {
    match o
    case Bare(word) => word
    case Quoted(text) => "'" + text + "'"
  }

  function ItemsText(items: seq<Operand>): string {
    if |items| == 0 then ""
    else if |items| == 1 then OperandText(items[0])
    else OperandText(items[0]) + ", " + ItemsText(items[1..])
  }

  function ChunkText(c: Chunk): string {
    match c
    case Word(word) => word
    case Quote(text) => "'" + text + "'"
    case Call(name, arg) => name + "(" + arg + ")"
    case List(items) => "(" + ItemsText(items) + ")"
  }

  function ChunksText(cs: seq<Chunk>): string {
    if |cs| == 0 then ""
    else if |cs| == 1 then ChunkText(cs[0])
    else ChunkText(cs[0]) + " " + ChunksText(cs[1..])
  }

  function OperandChunk(o: Operand): Chunk {
    match o
    case Bare(word) => Word(word)
    case Quoted(text) => Quote(text)
  }

  predicate IsLeaf(t: Tree) {
    t.Compare? || t.In? || t.Between? || t.Age? || t.Matches? || t.Cohort?
  }

  function LeafChunks(t: Tree): seq<Chunk>
    requires IsLeaf(t) && !t.Between?
  {
    match t
    case Compare(attr, r, o) => [Word(attr), Word(Symbol(r)), OperandChunk(o)]
    case In(attr, items) => [Word(attr), Word("IN"), List(items)]
    case Age(attr, r, interval) => [Call("AGE", attr), Word(Symbol(r)), Quote(interval)]
    case Matches(attr, pattern) => [Word(attr), Word("MATCHES"), Quote(pattern)]
    case Cohort(id) => [Call("COHORT", id)]
  }

  function Print(t: Tree): string {
    match t
    case Or(l, r) => Print(l) + OR + Print(r)
    case And(l, r) => Print(l) + AND + Print(r)
    case Not(e) => "NOT " + Print(e)
    case Paren(e) => "(" + Print(e) + ")"
    case Always(v) => if v then "TRUE" else "FALSE"
    case Between(attr, lo, hi) => attr + BETWEEN + OperandText(lo) + AND + OperandText(hi)
    case _ => ChunksText(LeafChunks(t))
  }

  // ---- Which trees are printable -----------------------------------------------------

  predicate Plain(c: char) {
    c != '\'' && c != '(' && c != ')'
  }

  /** A run of characters that are neither blank, quote nor parenthesis. */
  predicate Solid(w: string) {
    w != "" && forall i :: 0 <= i < |w| ==> Plain(w[i]) && !IsSpace(w[i])
  }

  /** Literal contents: no quotes. */
  predicate Contents(s: string) {
    forall i :: 0 <= i < |s| ==> s[i] != '\''
  }

  predicate PlainRun(s: string) {
    forall i :: 0 <= i < |s| ==> Plain(s[i])
  }

  /** `w.upper() == word`. */
  predicate Spells(w: string, word: string) {
    |w| == |word| && StartsWith(w, word)
  }

  predicate Reserved(w: string) {
    Spells(w, "AND") || Spells(w, "OR") || Spells(w, "NOT") || Spells(w, "BETWEEN")
  }

  predicate AttributeOk(attr: string) {
    attr != "" && !Reserved(attr) && forall i :: 0 <= i < |attr| ==> IsWordChar(attr[i])
  }

  predicate OperandOk(o: Operand) {
    match o
    case Bare(word) => Solid(word) && !Reserved(word)
    case Quoted(text) => Contents(text)
  }

  /** No AND between blanks in the text: the lazy expression for a low bound would stop there. */
  ghost predicate NoAndWord(s: string) {
    forall k :: 0 <= k < |s| ==> !AndPlaces(s)(k)
  }

  /** What the splitter passes over, on one line. */
  predicate BoundOk(o: Operand) {
    OperandOk(o) && '\n' !in OperandText(o)
  }

  /** The side conditions of the leaves, and parentheses wherever the grammar asks for them: an AND takes
      no OR, and a NOT neither. */
  ghost predicate Printable(t: Tree) {
    match t
    case Or(l, r) => Printable(l) && Printable(r)
    case And(l, r) => Printable(l) && Printable(r) && !l.Or? && !r.Or?
    case Not(e) => Printable(e) && !e.Or? && !e.And?
    case Paren(e) => Printable(e)
    case Always(_) => true
    case Compare(attr, _, o) => AttributeOk(attr) && OperandOk(o)
    case In(attr, items) => AttributeOk(attr) && forall i :: 0 <= i < |items| ==> OperandOk(items[i])
    case Between(attr, lo, hi) => AttributeOk(attr) && BoundOk(lo) && BoundOk(hi) && NoAndWord(OperandText(lo))
    case Age(attr, _, interval) => AttributeOk(attr) && Contents(interval)
    case Matches(attr, pattern) => AttributeOk(attr) && Contents(pattern)
    case Cohort(id) => AttributeOk(id)
  }

  // ---- Meaning ---------------------------------------------------------------------------

  /** What a leaf says. No form holds an empty list, an empty literal in quotes, or a line break in a list
      or in the literal of a comparison. */
  function FormOf(t: Tree): Option<Form>
    requires IsLeaf(t)
  {
    match t
    case Compare(attr, r, o) =>
      if '\n' in OperandText(o) then None else Some(CompareForm(attr, Symbol(r), OperandText(o)))
    case In(attr, items) =>
      if items == [] || '\n' in ItemsText(items) then None else Some(InForm(attr, ItemsText(items)))
    case Between(attr, lo, hi) => Some(BetweenForm(attr, OperandText(lo), OperandText(hi)))
    case Age(attr, r, interval) => if interval == "" then None else Some(AgeForm(attr, Symbol(r), interval))
    case Matches(attr, pattern) => if pattern == "" then None else Some(MatchesForm(attr, pattern))
    case Cohort(id) => Some(CohortForm(id))
  }

  /** Kleene's connectives (section 8.12 of ISO/IEC 9075:1992), two operands at a time. */
  function Meaning(leaves: Leaves, fields: Fields, t: Tree): Truth {
    match t
    case Or(l, r) =>
      var a, b := Meaning(leaves, fields, l), Meaning(leaves, fields, r);
      if a == Holds || b == Holds then Holds else if a == Fails && b == Fails then Fails else Unknown
    case And(l, r) =>
      var a, b := Meaning(leaves, fields, l), Meaning(leaves, fields, r);
      if a == Fails || b == Fails then Fails else if a == Holds && b == Holds then Holds else Unknown
    case Not(e) => Negation(Meaning(leaves, fields, e))
    case Paren(e) => Meaning(leaves, fields, e)
    case Always(v) => if v then Holds else Fails
    case _ => Judge(leaves, fields, FormOf(t))
  }

  // ---- The scanner passes over text ----------------------------------------------------------

  predicate Connective(keyword: string) {
    keyword == OR || keyword == AND
  }

  predicate KeywordAt(todo: string, keyword: string) {
    StartsWith(todo, BETWEEN) || StartsWith(todo, keyword)
  }

  lemma PassChar(c: char, rest: string, part: string, keyword: string, depth: int, between: bool)
    requires Connective(keyword) && Plain(c)
    requires c == ' ' ==> depth != 0 || !KeywordAt([c] + rest, keyword)
    ensures Scan([c] + rest, part, keyword, depth, false, between)
         == Scan(rest, part + [c], keyword, depth, false, between)
  {
    var todo := [c] + rest;
    assert todo[1..] == rest && todo[..1] == [c];
    assert NextMove(todo, keyword, depth, false, between) == Move(1, false, depth, false, between);
  }

  lemma {:induction false} PassRun(w: string, rest: string, part: string, keyword: string, depth: int, between: bool)
    requires Connective(keyword) && PlainRun(w)
    requires depth != 0 || forall i :: 0 <= i < |w| ==> w[i] != ' '
    ensures Scan(w + rest, part, keyword, depth, false, between)
         == Scan(rest, part + w, keyword, depth, false, between)
    decreases |w|
  {
    if w == "" {
      assert w + rest == rest && part + w == part;
    } else {
      assert w + rest == [w[0]] + (w[1..] + rest);
      assert part + w == (part + [w[0]]) + w[1..];
      PassChar(w[0], w[1..] + rest, part, keyword, depth, between);
      PassRun(w[1..], rest, part + [w[0]], keyword, depth, between);
    }
  }

  lemma PassOpen(rest: string, part: string, keyword: string, depth: int, between: bool)
    requires |keyword| >= 2
    ensures Scan("(" + rest, part, keyword, depth, false, between)
         == Scan(rest, part + "(", keyword, depth + 1, false, between)
  {
    var todo := "(" + rest;
    assert todo[1..] == rest && todo[..1] == "(";
    assert NextMove(todo, keyword, depth, false, between) == Move(1, false, depth + 1, false, between);
  }

  lemma PassClose(rest: string, part: string, keyword: string, depth: int, between: bool)
    requires |keyword| >= 2
    ensures Scan(")" + rest, part, keyword, depth, false, between)
         == Scan(rest, part + ")", keyword, depth - 1, false, between)
  {
    var todo := ")" + rest;
    assert todo[1..] == rest && todo[..1] == ")";
    assert NextMove(todo, keyword, depth, false, between) == Move(1, false, depth - 1, false, between);
  }

  lemma PassMark(rest: string, part: string, keyword: string, depth: int, inQuote: bool, between: bool)
    requires |keyword| >= 2
    ensures Scan("'" + rest, part, keyword, depth, inQuote, between)
         == Scan(rest, part + "'", keyword, depth, !inQuote, between)
  {
    var todo := "'" + rest;
    assert todo[1..] == rest && todo[..1] == "'";
    assert NextMove(todo, keyword, depth, inQuote, between) == Move(1, false, depth, !inQuote, between);
  }

  lemma {:induction false} PassQuotedRun(w: string, rest: string, part: string, keyword: string, depth: int,
                                         between: bool)
    requires |keyword| >= 2 && Contents(w)
    ensures Scan(w + rest, part, keyword, depth, true, between)
         == Scan(rest, part + w, keyword, depth, true, between)
    decreases |w|
  {
    if w == "" {
      assert w + rest == rest && part + w == part;
    } else {
      var todo := [w[0]] + (w[1..] + rest);
      assert w + rest == todo && todo[1..] == w[1..] + rest && todo[..1] == [w[0]];
      assert part + w == (part + [w[0]]) + w[1..];
      assert NextMove(todo, keyword, depth, true, between) == Move(1, false, depth, true, between);
      PassQuotedRun(w[1..], rest, part + [w[0]], keyword, depth, between);
    }
  }

  lemma PassQuote(w: string, rest: string, part: string, keyword: string, depth: int, between: bool)
    requires |keyword| >= 2 && Contents(w)
    ensures Scan("'" + w + "'" + rest, part, keyword, depth, false, between)
         == Scan(rest, part + ("'" + w + "'"), keyword, depth, false, between)
  {
    assert "'" + w + "'" + rest == "'" + (w + ("'" + rest));
    assert part + ("'" + w + "'") == part + "'" + w + "'";
    PassMark(w + ("'" + rest), part, keyword, depth, false, between);
    PassQuotedRun(w, "'" + rest, part + "'", keyword, depth, between);
    PassMark(rest, part + "'" + w, keyword, depth, true, between);
  }

  lemma PassOperand(o: Operand, rest: string, part: string, keyword: string, depth: int, between: bool)
    requires Connective(keyword) && OperandOk(o)
    ensures Scan(OperandText(o) + rest, part, keyword, depth, false, between)
         == Scan(rest, part + OperandText(o), keyword, depth, false, between)
  {
    match o
    case Bare(word) =>
      assert forall i :: 0 <= i < |word| ==> !IsSpace(word[i]);
      PassRun(word, rest, part, keyword, depth, between);
    case Quoted(text) => PassQuote(text, rest, part, keyword, depth, between);
  }

  lemma {:induction false} PassItems(items: seq<Operand>, rest: string, part: string, keyword: string, depth: int,
                                     between: bool)
    requires Connective(keyword) && depth != 0 && forall i :: 0 <= i < |items| ==> OperandOk(items[i])
    ensures Scan(ItemsText(items) + rest, part, keyword, depth, false, between)
         == Scan(rest, part + ItemsText(items), keyword, depth, false, between)
    decreases |items|
  {
    if |items| == 0 {
      assert ItemsText(items) + rest == rest && part + ItemsText(items) == part;
    } else if |items| == 1 {
      PassOperand(items[0], rest, part, keyword, depth, between);
    } else {
      var first, tail := OperandText(items[0]), ItemsText(items[1..]);
      Reassociate(first, ", ", tail, rest);
      Reassociate(first, ", ", tail, part);
      PassOperand(items[0], ", " + (tail + rest), part, keyword, depth, between);
      PassRun(", ", tail + rest, part + first, keyword, depth, between);
      PassItems(items[1..], rest, (part + first) + ", ", keyword, depth, between);
    }
  }

  predicate ChunkOk(c: Chunk) {
    match c
    case Word(word) => Solid(word)
    case Quote(text) => Contents(text)
    case Call(name, arg) => Solid(name) && Solid(arg)
    case List(items) => forall i :: 0 <= i < |items| ==> OperandOk(items[i])
  }

  lemma GroupText(name: string, inner: string, rest: string, part: string)
    ensures (name + "(" + inner + ")") + rest == name + ("(" + (inner + (")" + rest)))
    ensures part + (name + "(" + inner + ")") == part + name + "(" + inner + ")"
  {
  }

  lemma PassGroup(name: string, inner: string, rest: string, part: string, keyword: string, depth: int, between: bool)
    requires Connective(keyword) && (name == "" || Solid(name)) && depth >= 0
    requires Scan(inner + (")" + rest), part + name + "(", keyword, depth + 1, false, between)
          == Scan(")" + rest, part + name + "(" + inner, keyword, depth + 1, false, between)
    ensures Scan((name + "(" + inner + ")") + rest, part, keyword, depth, false, between)
         == Scan(rest, part + (name + "(" + inner + ")"), keyword, depth, false, between)
  {
    GroupText(name, inner, rest, part);
    assert forall i :: 0 <= i < |name| ==> !IsSpace(name[i]);
    PassRun(name, "(" + (inner + (")" + rest)), part, keyword, depth, between);
    PassOpen(inner + (")" + rest), part + name, keyword, depth, between);
    PassClose(rest, part + name + "(" + inner, keyword, depth + 1, between);
  }

  lemma PassList(items: seq<Operand>, rest: string, part: string, keyword: string, depth: int, between: bool)
    requires Connective(keyword) && depth >= 0 && forall i :: 0 <= i < |items| ==> OperandOk(items[i])
    ensures Scan(("(" + ItemsText(items) + ")") + rest, part, keyword, depth, false, between)
         == Scan(rest, part + ("(" + ItemsText(items) + ")"), keyword, depth, false, between)
  {
    var inner := ItemsText(items);
    assert part + "" + "(" == part + "(" && "" + "(" + inner + ")" == "(" + inner + ")";
    PassItems(items, ")" + rest, part + "(", keyword, depth + 1, between);
    PassGroup("", inner, rest, part, keyword, depth, between);
  }

  lemma PassChunk(c: Chunk, rest: string, part: string, keyword: string, depth: int, between: bool)
    requires Connective(keyword) && ChunkOk(c) && depth >= 0
    ensures Scan(ChunkText(c) + rest, part, keyword, depth, false, between)
         == Scan(rest, part + ChunkText(c), keyword, depth, false, between)
  {
    match c
    case Word(word) =>
      PassOperandRun(word, rest, part, keyword, depth, between);
    case Quote(text) => PassQuote(text, rest, part, keyword, depth, between);
    case Call(name, arg) =>
      PassOperandRun(arg, ")" + rest, part + name + "(", keyword, depth + 1, between);
      PassGroup(name, arg, rest, part, keyword, depth, between);
    case List(items) => PassList(items, rest, part, keyword, depth, between);
  }

  lemma PassOperandRun(w: string, rest: string, part: string, keyword: string, depth: int, between: bool)
    requires Connective(keyword) && Solid(w)
    ensures Scan(w + rest, part, keyword, depth, false, between)
         == Scan(rest, part + w, keyword, depth, false, between)
  {
    assert forall i :: 0 <= i < |w| ==> !IsSpace(w[i]);
    PassRun(w, rest, part, keyword, depth, between);
  }

  // ---- No connective starts at the blanks of a leaf ----------------------------------------

  /** What may follow a printed tree at depth 0. */
  predicate Boundary(rest: string) {
    rest == "" || rest[0] == ' '
  }

  /** The text does not begin with a reserved word and a blank. */
  predicate HeadSafe(s: string) {
    !StartsWith(s, "AND ") && !StartsWith(s, "OR ") && !StartsWith(s, "BETWEEN ")
  }

  lemma SpaceBeforeSafeHead(s: string, keyword: string)
    requires Connective(keyword) && HeadSafe(s)
    ensures !KeywordAt(" " + s, keyword)
  {
    BlankPrefix(s, "AND ");
    BlankPrefix(s, "OR ");
    BlankPrefix(s, "BETWEEN ");
  }

  lemma BlankPrefix(s: string, word: string)
    ensures StartsWith(" " + s, " " + word) == StartsWith(s, word)
  {
    var t, w := " " + s, " " + word;
    assert forall i :: 0 <= i < |s| ==> t[i + 1] == s[i];
    assert forall i :: 0 <= i < |word| ==> w[i + 1] == word[i];
    if StartsWith(s, word) {
      forall i | 0 <= i < |w| ensures UpperChar(t[i]) == w[i] {
        if i > 0 { assert UpperChar(s[i - 1]) == word[i - 1]; }
      }
    }
    if StartsWith(t, w) {
      forall i | 0 <= i < |word| ensures UpperChar(s[i]) == word[i] {
        assert UpperChar(t[i + 1]) == w[i + 1];
      }
    }
  }

  /** A solid word that is not reserved is a safe head before any boundary. */
  lemma SolidHead(w: string, rest: string, reserved: string)
    requires Solid(w) && !Spells(w, reserved) && Boundary(rest)
    requires reserved != "" && forall i :: 0 <= i < |reserved| ==> reserved[i] != ' '
    ensures !StartsWith(w + rest, reserved + " ")
  {
    var s, k := w + rest, reserved + " ";
    assert forall i :: 0 <= i < |w| ==> s[i] == w[i];
    assert forall i :: 0 <= i < |reserved| ==> k[i] == reserved[i];
    assert k[|reserved|] == ' ';
    if |w| > |reserved| {
      assert !IsSpace(w[|reserved|]) && s[|reserved|] == w[|reserved|];
    } else if |w| < |reserved| {
      assert rest != "" ==> s[|w|] == ' ' && k[|w|] != ' ';
    } else {
      var i :| 0 <= i < |w| && UpperChar(w[i]) != reserved[i];
      assert s[i] == w[i] && k[i] == reserved[i];
    }
  }

  lemma WordHead(w: string, rest: string)
    requires Solid(w) && !Reserved(w) && Boundary(rest)
    ensures HeadSafe(w + rest) && !StartsWith(w + rest, "NOT ")
  {
    SolidHead(w, rest, "AND");
    SolidHead(w, rest, "OR");
    SolidHead(w, rest, "NOT");
    SolidHead(w, rest, "BETWEEN");
  }

  lemma MarkHead(s: string)
    requires s != "" && (s[0] == '\'' || s[0] == '(')
    ensures HeadSafe(s) && !StartsWith(s, "NOT ")
  {
  }

  /** A call such as AGE(x): its fourth or seventh character is no blank. */
  lemma CallHead(name: string, tail: string)
    requires name == "AGE" || name == "COHORT"
    ensures HeadSafe(name + tail) && !StartsWith(name + tail, "NOT ")
  {
    assert (name + tail)[0] == name[0] && (name + tail)[1] == name[1];
  }

  lemma PassBlank(rest: string, part: string, keyword: string, depth: int, between: bool)
    requires Connective(keyword) && (depth != 0 || HeadSafe(rest))
    ensures Scan(" " + rest, part, keyword, depth, false, between)
         == Scan(rest, part + " ", keyword, depth, false, between)
  {
    if depth == 0 { SpaceBeforeSafeHead(rest, keyword); }
    PassChar(' ', rest, part, keyword, depth, between);
  }

  // ---- Leaves ----------------------------------------------------------------------------------

  /** The chunk cannot be read as a connective. */
  predicate ChunkSafe(c: Chunk) {
    match c
    case Word(word) => !Reserved(word)
    case Call(name, _) => name == "AGE" || name == "COHORT"
    case _ => true
  }

  lemma ChunkHead(c: Chunk, tail: string)
    requires ChunkOk(c) && ChunkSafe(c) && Boundary(tail)
    ensures HeadSafe(ChunkText(c) + tail) && !StartsWith(ChunkText(c) + tail, "NOT ")
  {
    match c
    case Word(word) => WordHead(word, tail);
    case Call(name, arg) => CallHeadText(name, arg, tail);
    case Quote(text) => MarkHeadText('\'', text + "'", tail);
    case List(items) => MarkHeadText('(', ItemsText(items) + ")", tail);
  }

  lemma CallHeadText(name: string, arg: string, tail: string)
    requires name == "AGE" || name == "COHORT"
    ensures var s := (name + "(" + arg + ")") + tail; HeadSafe(s) && !StartsWith(s, "NOT ")
  {
    assert (name + "(" + arg + ")") + tail == name + ("(" + arg + ")" + tail);
    CallHead(name, "(" + arg + ")" + tail);
  }

  lemma MarkHeadText(mark: char, inner: string, tail: string)
    requires mark == '\'' || mark == '('
    ensures forall text :: text == [mark] + inner ==> HeadSafe(text + tail) && !StartsWith(text + tail, "NOT ")
  {
    MarkHead(([mark] + inner) + tail);
  }

  predicate ChunksOk(cs: seq<Chunk>) {
    cs != [] && forall i :: 0 <= i < |cs| ==> ChunkOk(cs[i]) && ChunkSafe(cs[i])
  }

  lemma ChunksSplit(cs: seq<Chunk>, rest: string)
    requires |cs| >= 2
    ensures ChunksText(cs) + rest == ChunkText(cs[0]) + (" " + (ChunksText(cs[1..]) + rest))
  {
    Reassociate(ChunkText(cs[0]), " ", ChunksText(cs[1..]), rest);
  }

  lemma Reassociate(a: string, b: string, c: string, d: string)
    ensures (a + b + c) + d == a + (b + (c + d))
    ensures d + (a + b + c) == ((d + a) + b) + c
  {
  }

  lemma ChunksHead(cs: seq<Chunk>, rest: string)
    requires ChunksOk(cs) && Boundary(rest)
    ensures HeadSafe(ChunksText(cs) + rest) && !StartsWith(ChunksText(cs) + rest, "NOT ")
  {
    if |cs| == 1 {
      ChunkHead(cs[0], rest);
    } else {
      ChunksSplit(cs, rest);
      ChunkHead(cs[0], " " + (ChunksText(cs[1..]) + rest));
    }
  }

  lemma {:induction false} PassChunks(cs: seq<Chunk>, rest: string, part: string, keyword: string, depth: int,
                                      between: bool)
    requires Connective(keyword) && ChunksOk(cs) && depth >= 0 && (depth == 0 ==> Boundary(rest))
    ensures Scan(ChunksText(cs) + rest, part, keyword, depth, false, between)
         == Scan(rest, part + ChunksText(cs), keyword, depth, false, between)
    decreases |cs|
  {
    if |cs| == 1 {
      PassChunk(cs[0], rest, part, keyword, depth, between);
    } else {
      var first, tail := ChunkText(cs[0]), ChunksText(cs[1..]);
      Reassociate(first, " ", tail, rest);
      Reassociate(first, " ", tail, part);
      PassChunk(cs[0], " " + (tail + rest), part, keyword, depth, between);
      if depth == 0 { ChunksHead(cs[1..], rest); }
      PassBlank(tail + rest, part + first, keyword, depth, between);
      PassChunks(cs[1..], rest, (part + first) + " ", keyword, depth, between);
    }
  }

  lemma AttributeSolid(attr: string)
    requires AttributeOk(attr)
    ensures Solid(attr)
  {
  }

  lemma OperandChunkOk(o: Operand)
    requires OperandOk(o)
    ensures ChunkOk(OperandChunk(o)) && ChunkSafe(OperandChunk(o)) && ChunkText(OperandChunk(o)) == OperandText(o)
  {
  }

  lemma LeafChunksOk(t: Tree)
    requires IsLeaf(t) && !t.Between? && Printable(t)
    ensures ChunksOk(LeafChunks(t))
  {
    match t
    case Compare(attr, r, o) =>
      AttributeSolid(attr);
      SymbolOk(r);
      OperandChunkOk(o);
      ThreeChunksOk(Word(attr), Word(Symbol(r)), OperandChunk(o));
    case In(attr, items) =>
      AttributeSolid(attr);
      WordsOk();
      ThreeChunksOk(Word(attr), Word("IN"), List(items));
    case Age(attr, r, interval) =>
      AgeChunksOk(attr, r, interval);
    case Matches(attr, pattern) =>
      AttributeSolid(attr);
      WordsOk();
      ThreeChunksOk(Word(attr), Word("MATCHES"), Quote(pattern));
    case Cohort(id) =>
      AttributeSolid(id);
  }

  lemma AgeChunksOk(attr: string, r: Relation, interval: string)
    requires AttributeOk(attr) && Contents(interval)
    ensures ChunksOk([Call("AGE", attr), Word(Symbol(r)), Quote(interval)])
  {
    AttributeSolid(attr);
    SymbolOk(r);
    ThreeChunksOk(Call("AGE", attr), Word(Symbol(r)), Quote(interval));
  }

  lemma ThreeChunksText(a: Chunk, b: Chunk, c: Chunk)
    ensures ChunksText([a, b, c]) == ChunkText(a) + " " + (ChunkText(b) + " " + ChunkText(c))
  {
    assert [a, b, c][1..] == [b, c] && [b, c][1..] == [c];
    assert ChunksText([b, c]) == ChunkText(b) + " " + ChunksText([c]);
  }

  lemma ThreeChunksOk(a: Chunk, b: Chunk, c: Chunk)
    requires ChunkOk(a) && ChunkOk(b) && ChunkOk(c)
    requires ChunkSafe(a) && ChunkSafe(b) && ChunkSafe(c)
    ensures ChunksOk([a, b, c])
  {
  }

  lemma SymbolOk(r: Relation)
    ensures ChunkOk(Word(Symbol(r))) && ChunkSafe(Word(Symbol(r)))
  {
    assert UpperChar(Symbol(r)[0]) in {'=', '!', '<', '>'};
  }

  lemma WordsOk()
    ensures ChunkOk(Word("IN")) && ChunkSafe(Word("IN"))
    ensures ChunkOk(Word("MATCHES")) && ChunkSafe(Word("MATCHES"))
  {
    assert "IN"[0] == 'I' && "MATCHES"[0] == 'M';
  }

  // ---- BETWEEN ------------------------------------------------------------------------------------

  lemma OperandHead(o: Operand, rest: string)
    requires OperandOk(o) && Boundary(rest)
    ensures HeadSafe(OperandText(o) + rest)
  {
    OperandChunkOk(o);
    ChunkHead(OperandChunk(o), rest);
  }

  /** A BETWEEN at depth 0 raises the flag. */
  lemma PassBetweenWord(rest: string, part: string, keyword: string, between: bool)
    requires Connective(keyword) && HeadSafe(rest)
    ensures Scan(BETWEEN + rest, part, keyword, 0, false, between)
         == Scan(rest, part + BETWEEN, keyword, 0, false, true)
  {
    var todo := BETWEEN + rest;
    assert todo[1..] == "BETWEEN" + (" " + rest) && todo[..1] == " ";
    assert StartsWith(todo, BETWEEN);
    assert NextMove(todo, keyword, 0, false, between) == Move(1, false, 0, false, true);
    assert part + BETWEEN == part + " " + "BETWEEN" + " ";
    PassOperandRun("BETWEEN", " " + rest, part + " ", keyword, 0, true);
    PassBlank(rest, part + " " + "BETWEEN", keyword, 0, true);
  }

  /** The AND after it lowers the flag instead of splitting. */
  lemma PassBetweenAnd(rest: string, part: string)
    requires HeadSafe(rest)
    ensures Scan(AND + rest, part, AND, 0, false, true) == Scan(rest, part + AND, AND, 0, false, false)
  {
    var todo := AND + rest;
    assert todo[4..] == " " + rest && todo[..4] == " AND";
    assert StartsWith(todo, AND) && todo[1] != 'B';
    assert !StartsWith(todo, BETWEEN);
    assert NextMove(todo, AND, 0, false, true) == Move(4, false, 0, false, false);
    assert part + AND == part + " AND" + " ";
    PassBlank(rest, part + " AND", AND, 0, false);
  }

  /** An AND is no place to split at OR. */
  lemma PassAndWord(rest: string, part: string, between: bool)
    requires HeadSafe(rest)
    ensures Scan(AND + rest, part, OR, 0, false, between) == Scan(rest, part + AND, OR, 0, false, between)
  {
    assert AND + rest == [' '] + ("AND" + (" " + rest));
    var todo := [' '] + ("AND" + (" " + rest));
    assert todo[1] == 'A';
    assert !KeywordAt(todo, OR);
    assert part + AND == part + [' '] + "AND" + " ";
    PassChar(' ', "AND" + (" " + rest), part, OR, 0, between);
    PassOperandRun("AND", " " + rest, part + [' '], OR, 0, between);
    PassBlank(rest, part + [' '] + "AND", OR, 0, between);
  }

  lemma BetweenText(attr: string, lo: string, hi: string, rest: string, part: string)
    ensures (attr + BETWEEN + lo + AND + hi) + rest == attr + (BETWEEN + (lo + (AND + (hi + rest))))
    ensures part + (attr + BETWEEN + lo + AND + hi) == part + attr + BETWEEN + lo + AND + hi
  {
  }

  lemma PassBetween(t: Tree, rest: string, part: string, keyword: string)
    requires t.Between? && Printable(t) && Connective(keyword) && Boundary(rest)
    ensures Scan(Print(t) + rest, part, keyword, 0, false, false)
         == Scan(rest, part + Print(t), keyword, 0, false, keyword == OR)
  {
    var attr, lo, hi := t.attr, OperandText(t.low), OperandText(t.high);
    BetweenText(attr, lo, hi, rest, part);
    AttributeSolid(attr);
    PassOperandRun(attr, BETWEEN + (lo + (AND + (hi + rest))), part, keyword, 0, false);
    OperandHead(t.low, AND + (hi + rest));
    PassBetweenWord(lo + (AND + (hi + rest)), part + attr, keyword, false);
    PassOperand(t.low, AND + (hi + rest), part + attr + BETWEEN, keyword, 0, true);
    OperandHead(t.high, rest);
    if keyword == OR {
      PassAndWord(hi + rest, part + attr + BETWEEN + lo, true);
    } else {
      PassBetweenAnd(hi + rest, part + attr + BETWEEN + lo);
    }
    PassOperand(t.high, rest, part + attr + BETWEEN + lo + AND, keyword, 0, keyword == OR);
  }

  /** The flag matters to AND only. */
  lemma {:induction false} FlagIrrelevant(todo: string, part: string, depth: int, inQuote: bool, a: bool, b: bool)
    ensures Scan(todo, part, OR, depth, inQuote, a) == Scan(todo, part, OR, depth, inQuote, b)
    decreases |todo|, 1
  {
    if todo != "" {
      var m, n := NextMove(todo, OR, depth, inQuote, a), NextMove(todo, OR, depth, inQuote, b);
      assert n == m.(between := n.between);
      FlagStep(m, n, todo, part);
    }
  }

  lemma {:induction false} FlagStep(m: Move, n: Move, todo: string, part: string)
    requires 1 <= m.length <= |todo| && n == m.(between := n.between)
    ensures Resume(m, todo, part, OR) == Resume(n, todo, part, OR)
    decreases |todo|, 0
  {
    if m.cut {
      FlagIrrelevant(todo[m.length..], "", m.depth, m.inQuote, m.between, n.between);
    } else {
      FlagIrrelevant(todo[m.length..], part + todo[..m.length], m.depth, m.inQuote, m.between, n.between);
    }
  }

  // ---- Trees ---------------------------------------------------------------------------------------

  lemma {:induction false} TreeHead(t: Tree, rest: string)
    requires Printable(t) && Boundary(rest)
    ensures HeadSafe(Print(t) + rest)
  {
    match t
    case Or(l, r) =>
      Reassociate(Print(l), OR, Print(r), rest);
      TreeHead(l, OR + (Print(r) + rest));
    case And(l, r) =>
      Reassociate(Print(l), AND, Print(r), rest);
      TreeHead(l, AND + (Print(r) + rest));
    case Not(e) => assert (Print(t) + rest)[0] == 'N';
    case Paren(e) => assert (Print(t) + rest)[0] == '(';
    case Always(v) => assert (Print(t) + rest)[0] == if v then 'T' else 'F';
    case Between(attr, lo, hi) =>
      BetweenText(attr, OperandText(lo), OperandText(hi), rest, "");
      AttributeSolid(attr);
      WordHead(attr, BETWEEN + (OperandText(lo) + (AND + (OperandText(hi) + rest))));
    case _ =>
      LeafChunksOk(t);
      ChunksHead(LeafChunks(t), rest);
  }

  lemma PassBetweenNested(t: Tree, rest: string, part: string, keyword: string, depth: int, between: bool)
    requires t.Between? && Printable(t) && Connective(keyword) && depth > 0
    ensures Scan(Print(t) + rest, part, keyword, depth, false, between)
         == Scan(rest, part + Print(t), keyword, depth, false, between)
  {
    var attr, lo, hi := t.attr, OperandText(t.low), OperandText(t.high);
    BetweenText(attr, lo, hi, rest, part);
    AttributeSolid(attr);
    PassOperandRun(attr, BETWEEN + (lo + (AND + (hi + rest))), part, keyword, depth, between);
    PassRun(BETWEEN, lo + (AND + (hi + rest)), part + attr, keyword, depth, between);
    PassOperand(t.low, AND + (hi + rest), part + attr + BETWEEN, keyword, depth, between);
    PassRun(AND, hi + rest, part + attr + BETWEEN + lo, keyword, depth, between);
    PassOperand(t.high, rest, part + attr + BETWEEN + lo + AND, keyword, depth, between);
  }

  lemma PrefixText(word: string, s: string, rest: string, part: string)
    ensures (word + s) + rest == word + (s + rest) && part + (word + s) == (part + word) + s
  {
  }

  lemma ParenText(s: string, rest: string, part: string)
    ensures ("(" + s + ")") + rest == "(" + (s + (")" + rest))
    ensures part + ("(" + s + ")") == ((part + "(") + s) + ")"
  {
  }

  ghost function Size(t: Tree): nat {
    match t
    case Or(l, r) => 1 + Size(l) + Size(r)
    case And(l, r) => 1 + Size(l) + Size(r)
    case Not(e) => 1 + Size(e)
    case Paren(e) => 1 + Size(e)
    case _ => 1
  }

  lemma SizePositive(t: Tree)
    ensures Size(t) >= 1
  {
  }

  /** Inside parentheses the scanner passes over a whole tree. */
  lemma {:induction false} PassNested(t: Tree, rest: string, part: string, keyword: string, depth: int, between: bool)
    requires Printable(t) && Connective(keyword) && depth > 0
    ensures Scan(Print(t) + rest, part, keyword, depth, false, between)
         == Scan(rest, part + Print(t), keyword, depth, false, between)
    decreases Size(t)
  {
    match t
    case Or(l, r) => PassJoined(l, OR, r, rest, part, keyword, depth, between);
    case And(l, r) => PassJoined(l, AND, r, rest, part, keyword, depth, between);
    case Not(e) =>
      PrefixText("NOT ", Print(e), rest, part);
      PassRun("NOT ", Print(e) + rest, part, keyword, depth, between);
      PassNested(e, rest, part + "NOT ", keyword, depth, between);
    case Paren(e) =>
      ParenText(Print(e), rest, part);
      PassOpen(Print(e) + (")" + rest), part, keyword, depth, between);
      PassNested(e, ")" + rest, part + "(", keyword, depth + 1, between);
      PassClose(rest, (part + "(") + Print(e), keyword, depth + 1, between);
    case Always(v) => PassRun(Print(t), rest, part, keyword, depth, between);
    case Between(_, _, _) => PassBetweenNested(t, rest, part, keyword, depth, between);
    case _ =>
      LeafChunksOk(t);
      PassChunks(LeafChunks(t), rest, part, keyword, depth, between);
  }

  lemma {:induction false} PassJoined(l: Tree, word: string, r: Tree, rest: string, part: string, keyword: string,
                                      depth: int, between: bool)
    requires Printable(l) && Printable(r) && Connective(keyword) && depth > 0 && (word == OR || word == AND)
    ensures Scan((Print(l) + word + Print(r)) + rest, part, keyword, depth, false, between)
         == Scan(rest, part + (Print(l) + word + Print(r)), keyword, depth, false, between)
    decreases Size(l) + Size(r)
  {
    Reassociate(Print(l), word, Print(r), rest);
    Reassociate(Print(l), word, Print(r), part);
    SizePositive(l);
    SizePositive(r);
    PassNested(l, word + (Print(r) + rest), part, keyword, depth, between);
    PassRun(word, Print(r) + rest, part + Print(l), keyword, depth, between);
    PassNested(r, rest, part + Print(l) + word, keyword, depth, between);
  }

  /** At depth 0 it passes over a tree that has no such connective on top. */
  lemma {:induction false} PassTop(t: Tree, rest: string, part: string, keyword: string)
    requires Printable(t) && Connective(keyword) && Boundary(rest) && !t.Or? && (keyword == AND ==> !t.And?)
    ensures Scan(Print(t) + rest, part, keyword, 0, false, false)
         == Scan(rest, part + Print(t), keyword, 0, false, false)
    decreases t
  {
    if t.And? {
      var l, r := t.left, t.right;
      Reassociate(Print(l), AND, Print(r), rest);
      Reassociate(Print(l), AND, Print(r), part);
      PassTop(l, AND + (Print(r) + rest), part, keyword);
      TreeHead(r, rest);
      PassAndWord(Print(r) + rest, part + Print(l), false);
      PassTop(r, rest, part + Print(l) + AND, keyword);
    } else if t.Not? {
      PrefixText("NOT ", Print(t.inner), rest, part);
      TreeHead(t.inner, rest);
      PassNotWord(Print(t.inner) + rest, part, keyword);
      PassTop(t.inner, rest, part + "NOT ", keyword);
    } else if t.Paren? {
      PassParen(t.inner, rest, part, keyword);
    } else if t.Always? {
      PassOperandRun(Print(t), rest, part, keyword, 0, false);
    } else if t.Between? {
      PassBetween(t, rest, part, keyword);
      if keyword == OR { FlagIrrelevant(rest, part + Print(t), 0, false, true, false); }
    } else {
      LeafChunksOk(t);
      PassChunks(LeafChunks(t), rest, part, keyword, 0, false);
    }
  }

  lemma PassParen(e: Tree, rest: string, part: string, keyword: string)
    requires Printable(e) && Connective(keyword)
    ensures Scan(("(" + Print(e) + ")") + rest, part, keyword, 0, false, false)
         == Scan(rest, part + ("(" + Print(e) + ")"), keyword, 0, false, false)
  {
    ParenText(Print(e), rest, part);
    PassOpen(Print(e) + (")" + rest), part, keyword, 0, false);
    PassNested(e, ")" + rest, part + "(", keyword, 1, false);
    PassClose(rest, (part + "(") + Print(e), keyword, 1, false);
  }

  lemma PassNotWord(rest: string, part: string, keyword: string)
    requires Connective(keyword) && HeadSafe(rest)
    ensures Scan("NOT " + rest, part, keyword, 0, false, false)
         == Scan(rest, part + "NOT ", keyword, 0, false, false)
  {
    assert "NOT " + rest == "NOT" + (" " + rest) && part + "NOT " == (part + "NOT") + " ";
    PassOperandRun("NOT", " " + rest, part, keyword, 0, false);
    PassBlank(rest, part + "NOT", keyword, 0, false);
  }

  // ---- Printed texts are trimmed and no constants --------------------------------------------------

  predicate Trimmed(s: string) {
    s != "" && !IsSpace(s[0]) && !IsSpace(s[|s| - 1])
  }

  lemma TrimmedJoin(a: string, word: string, b: string)
    requires Trimmed(a) && Trimmed(b)
    ensures Trimmed(a + word + b)
  {
  }

  lemma {:induction false} ChunksTrimmed(cs: seq<Chunk>)
    requires ChunksOk(cs)
    ensures Trimmed(ChunksText(cs))
    decreases |cs|
  {
    ChunkTrimmed(cs[0]);
    if |cs| > 1 {
      ChunksTrimmed(cs[1..]);
      TrimmedJoin(ChunkText(cs[0]), " ", ChunksText(cs[1..]));
    }
  }

  lemma ChunkTrimmed(c: Chunk)
    requires ChunkOk(c)
    ensures Trimmed(ChunkText(c))
  {
  }

  lemma {:induction false} PrintTrimmed(t: Tree)
    requires Printable(t)
    ensures Trimmed(Print(t))
  {
    match t
    case Or(l, r) =>
      PrintTrimmed(l);
      PrintTrimmed(r);
      TrimmedJoin(Print(l), OR, Print(r));
    case And(l, r) =>
      PrintTrimmed(l);
      PrintTrimmed(r);
      TrimmedJoin(Print(l), AND, Print(r));
    case Not(e) =>
      PrintTrimmed(e);
      TrimmedJoin("NOT", " ", Print(e));
      assert "NOT " + Print(e) == "NOT" + " " + Print(e);
    case Paren(e) => TrimmedJoin("(", Print(e), ")");
    case Always(v) =>
    case _ => LeafTrimmed(t);
  }

  lemma LeafTrimmed(t: Tree)
    requires IsLeaf(t) && Printable(t)
    ensures Trimmed(Print(t))
  {
    if t.Between? {
      BetweenTrimmed(t.attr, BETWEEN + OperandText(t.low) + AND, t.high);
      BetweenRegrouped(t.attr, OperandText(t.low), OperandText(t.high));
    } else {
      LeafChunksOk(t);
      ChunksTrimmed(LeafChunks(t));
    }
  }

  lemma BetweenRegrouped(attr: string, lo: string, hi: string)
    ensures attr + BETWEEN + lo + AND + hi == attr + (BETWEEN + lo + AND) + hi
  {
  }

  lemma BetweenTrimmed(attr: string, middle: string, hi: Operand)
    requires AttributeOk(attr) && OperandOk(hi)
    ensures Trimmed(attr + middle + OperandText(hi))
  {
    AttributeSolid(attr);
    OperandChunkOk(hi);
    ChunkTrimmed(OperandChunk(hi));
    TrimmedJoin(attr, middle, OperandText(hi));
  }

  /** Some character of every other text is no letter. */
  predicate Marked(s: string) {
    exists i :: 0 <= i < |s| && (s[i] == ' ' || s[i] == '(')
  }

  lemma MarkedIsNoConstant(s: string)
    requires Marked(s)
    ensures s != "*" && Upper(s) != "TRUE" && Upper(s) != "FALSE"
  {
    var i :| 0 <= i < |s| && (s[i] == ' ' || s[i] == '(');
    assert Upper(s)[i] == s[i];
  }

  lemma MarkedIn(a: string, mark: char, b: string)
    requires mark == ' ' || mark == '('
    ensures Marked(a + [mark] + b)
  {
    assert (a + [mark] + b)[|a|] == mark;
  }

  lemma LeafMarked(t: Tree)
    requires IsLeaf(t) && Printable(t)
    ensures Marked(Print(t))
  {
    if t.Between? {
      assert Print(t)[|t.attr|] == ' ';
    } else if t.Cohort? {
      assert Print(t) == ChunkText(Call("COHORT", t.id)) && Print(t)[6] == '(';
    } else {
      var cs := LeafChunks(t);
      assert ChunksText(cs) == ChunkText(cs[0]) + [' '] + ChunksText(cs[1..]);
      MarkedIn(ChunkText(cs[0]), ' ', ChunksText(cs[1..]));
    }
  }

  lemma TreeMarked(t: Tree)
    requires Printable(t) && !t.Always?
    ensures Marked(Print(t))
  {
    match t
    case Or(l, r) => assert Print(t)[|Print(l)|] == ' ';
    case And(l, r) => assert Print(t)[|Print(l)|] == ' ';
    case Not(e) => assert Print(t)[3] == ' ';
    case Paren(e) => assert Print(t)[0] == '(';
    case _ => LeafMarked(t);
  }

  // ---- Splitting printed trees ----------------------------------------------------------------------

  function OrOperands(t: Tree): (ts: seq<Tree>)
    ensures |ts| >= 1 && (t.Or? <==> |ts| > 1)
  {
    match t
    case Or(l, r) => OrOperands(l) + OrOperands(r)
    case _ => [t]
  }

  function AndOperands(t: Tree): (ts: seq<Tree>)
    ensures |ts| >= 1 && (t.And? <==> |ts| > 1)
  {
    match t
    case And(l, r) => AndOperands(l) + AndOperands(r)
    case _ => [t]
  }

  function Texts(ts: seq<Tree>): (r: seq<string>)
    ensures |r| == |ts|
  {
    if ts == [] then [] else [Print(ts[0])] + Texts(ts[1..])
  }

  lemma {:induction false} TextsAppend(a: seq<Tree>, b: seq<Tree>)
    ensures Texts(a + b) == Texts(a) + Texts(b)
  {
    if a == [] {
      assert a + b == b;
    } else {
      assert (a + b)[1..] == a[1..] + b;
      TextsAppend(a[1..], b);
    }
  }

  lemma ListsAssociate(a: seq<string>, b: seq<string>, c: seq<string>)
    ensures a + (b + c) == (a + b) + c
  {
  }

  /** A cut between two operands. */
  lemma Cut(keyword: string, rest: string, part: string)
    requires Connective(keyword) && Stripped(part)
    ensures Scan(keyword + rest, part, keyword, 0, false, false)
         == [part] + Scan(rest, "", keyword, 0, false, false)
  {
    var todo := keyword + rest;
    assert todo[|keyword|..] == rest && todo[1] == keyword[1];
    assert StartsWith(todo, keyword) && !StartsWith(todo, BETWEEN);
    assert NextMove(todo, keyword, 0, false, false) == Move(|keyword|, true, 0, false, false);
  }

  /** What follows an operand: nothing, or a connective and more text. */
  function Following(more: bool, keyword: string, rest: string): string {
    if more then keyword + rest else ""
  }

  lemma ScanOperand(t: Tree, keyword: string, more: bool, rest: string)
    requires Printable(t) && Connective(keyword) && !t.Or? && (keyword == AND ==> !t.And?)
    ensures Scan(Print(t) + Following(more, keyword, rest), "", keyword, 0, false, false)
         == [Print(t)] + if more then Scan(rest, "", keyword, 0, false, false) else []
  {
    PassTop(t, Following(more, keyword, rest), "", keyword);
    PrintTrimmed(t);
    assert "" + Print(t) == Print(t);
    if more { Cut(keyword, rest, Print(t)); }
  }

  lemma OrText(t: Tree, rest: string)
    requires t.Or?
    ensures Print(t) + rest == Print(t.left) + Following(true, OR, Print(t.right) + rest)
  {
    Reassociate(Print(t.left), OR, Print(t.right), rest);
  }

  lemma OrTexts(t: Tree, more: seq<string>)
    requires t.Or?
    ensures Texts(OrOperands(t)) + more == Texts(OrOperands(t.left)) + (Texts(OrOperands(t.right)) + more)
  {
    TextsAppend(OrOperands(t.left), OrOperands(t.right));
    ListsAssociate(Texts(OrOperands(t.left)), Texts(OrOperands(t.right)), more);
  }

  lemma {:induction false} ScanOr(t: Tree, more: bool, rest: string)
    requires Printable(t)
    ensures Scan(Print(t) + Following(more, OR, rest), "", OR, 0, false, false)
         == Texts(OrOperands(t)) + if more then Scan(rest, "", OR, 0, false, false) else []
    decreases t
  {
    if t.Or? {
      var tail := Following(more, OR, rest);
      OrText(t, tail);
      ScanOr(t.left, true, Print(t.right) + tail);
      ScanOr(t.right, more, rest);
      OrTexts(t, if more then Scan(rest, "", OR, 0, false, false) else []);
    } else {
      ScanOperand(t, OR, more, rest);
    }
  }

  lemma AndText(t: Tree, rest: string)
    requires t.And?
    ensures Print(t) + rest == Print(t.left) + Following(true, AND, Print(t.right) + rest)
  {
    Reassociate(Print(t.left), AND, Print(t.right), rest);
  }

  lemma AndTexts(t: Tree, more: seq<string>)
    requires t.And?
    ensures Texts(AndOperands(t)) + more == Texts(AndOperands(t.left)) + (Texts(AndOperands(t.right)) + more)
  {
    TextsAppend(AndOperands(t.left), AndOperands(t.right));
    ListsAssociate(Texts(AndOperands(t.left)), Texts(AndOperands(t.right)), more);
  }

  lemma {:induction false} ScanAnd(t: Tree, more: bool, rest: string)
    requires Printable(t) && !t.Or?
    ensures Scan(Print(t) + Following(more, AND, rest), "", AND, 0, false, false)
         == Texts(AndOperands(t)) + if more then Scan(rest, "", AND, 0, false, false) else []
    decreases t
  {
    if t.And? {
      var tail := Following(more, AND, rest);
      AndText(t, tail);
      ScanAnd(t.left, true, Print(t.right) + tail);
      ScanAnd(t.right, more, rest);
      AndTexts(t, if more then Scan(rest, "", AND, 0, false, false) else []);
    } else {
      ScanOperand(t, AND, more, rest);
    }
  }

  /** Splitting at OR recovers the operands, and nothing else is split. */
  lemma SplitOr(t: Tree)
    requires Printable(t)
    ensures Split(Print(t), OR) == Texts(OrOperands(t))
  {
    ScanOr(t, false, "");
    assert Print(t) + "" == Print(t) && Texts(OrOperands(t)) + [] == Texts(OrOperands(t));
    if !t.Or? { assert Texts([t]) == [Print(t)]; }
  }

  lemma SplitAnd(t: Tree)
    requires Printable(t) && !t.Or?
    ensures Split(Print(t), AND) == Texts(AndOperands(t))
  {
    ScanAnd(t, false, "");
    assert Print(t) + "" == Print(t) && Texts(AndOperands(t)) + [] == Texts(AndOperands(t));
    if !t.And? { assert Texts([t]) == [Print(t)]; }
  }
}
