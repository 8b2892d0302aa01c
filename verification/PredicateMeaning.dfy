/** Evaluating the printed text of a predicate tree gives the tree's meaning. */
module PredicateMeaning {
  import opened Text
  import opened Predicate
  import opened PredicateGrammar
  import opened LeafForms
  import LeafReading

  // ---- Balanced texts ------------------------------------------------------------------

  /** The nesting depth after the text, unless it falls below zero on the way. Quotes make no difference. */
  function Level(s: string, depth: nat): Option<nat>
    decreases |s|
  {
    if s == "" then Some(depth)
    else if s[0] == '(' then Level(s[1..], depth + 1)
    else if s[0] == ')' then if depth == 0 then None else Level(s[1..], depth - 1)
    else Level(s[1..], depth)
  }

  predicate Balanced(s: string) {
    Level(s, 0) == Some(0)
  }

  lemma {:induction false} LevelJoin(a: string, b: string, depth: nat)
    ensures Level(a + b, depth) == match Level(a, depth) {
              case Some(d) => Level(b, d)
              case None => None
            }
    decreases |a|
  {
    if a == "" {
      assert a + b == b;
    } else {
      assert (a + b)[0] == a[0] && (a + b)[1..] == a[1..] + b;
      if a[0] == '(' {
        LevelJoin(a[1..], b, depth + 1);
      } else if a[0] == ')' {
        if depth > 0 {
          LevelJoin(a[1..], b, depth - 1);
        }
      } else {
        LevelJoin(a[1..], b, depth);
      }
    }
  }

  lemma {:induction false} LevelDeeper(s: string, depth: nat, more: nat)
    requires Level(s, depth).Some?
    ensures Level(s, depth + more) == Some(Level(s, depth).value + more)
    decreases |s|
  {
    if s != "" {
      if s[0] == '(' {
        LevelDeeper(s[1..], depth + 1, more);
      } else if s[0] == ')' {
        LevelDeeper(s[1..], depth - 1, more);
      } else {
        LevelDeeper(s[1..], depth, more);
      }
    }
  }

  predicate NoParens(w: string) {
    forall i :: 0 <= i < |w| ==> w[i] != '(' && w[i] != ')'
  }

  lemma {:induction false} NoParensLevel(w: string, depth: nat)
    requires NoParens(w)
    ensures Level(w, depth) == Some(depth)
    decreases |w|
  {
    if w != "" {
      NoParensLevel(w[1..], depth);
    }
  }

  lemma BalancedJoin(a: string, b: string)
    requires Balanced(a) && Balanced(b)
    ensures Balanced(a + b)
  {
    LevelJoin(a, b, 0);
  }

  lemma BalancedBetween(a: string, word: string, b: string)
    requires Balanced(a) && NoParens(word) && Balanced(b)
    ensures Balanced(a + word + b)
  {
    NoParensLevel(word, 0);
    BalancedJoin(a, word);
    BalancedJoin(a + word, b);
  }

  lemma BalancedParens(name: string, inner: string)
    requires NoParens(name) && Balanced(inner)
    ensures Balanced(name + "(" + inner + ")")
  {
    NoParensLevel(name, 0);
    LevelJoin(name, "(", 0);
    LevelDeeper(inner, 0, 1);
    LevelJoin(name + "(", inner, 0);
    LevelJoin(name + "(" + inner, ")", 0);
  }

  // ---- Printed trees are balanced --------------------------------------------------------

  predicate OperandBalanced(o: Operand) {
    o.Quoted? ==> Balanced(o.text)
  }

  /** Every literal of the tree is balanced. */
  predicate LiteralsBalanced(t: Tree) {
    match t
    case Or(l, r) => LiteralsBalanced(l) && LiteralsBalanced(r)
    case And(l, r) => LiteralsBalanced(l) && LiteralsBalanced(r)
    case Not(e) => LiteralsBalanced(e)
    case Paren(e) => LiteralsBalanced(e)
    case Compare(_, _, o) => OperandBalanced(o)
    case In(_, items) => forall i :: 0 <= i < |items| ==> OperandBalanced(items[i])
    case Between(_, lo, hi) => OperandBalanced(lo) && OperandBalanced(hi)
    case Age(_, _, interval) => Balanced(interval)
    case Matches(_, pattern) => Balanced(pattern)
    case Always(_) => true
    case Cohort(_) => true
  }

  lemma QuoteIsBalanced(s: string)
    requires Balanced(s)
    ensures Balanced("'" + s + "'")
  {
    NoParensLevel("'", 0);
    BalancedJoin("'", s);
    BalancedJoin("'" + s, "'");
  }

  lemma OperandIsBalanced(o: Operand)
    requires OperandOk(o) && OperandBalanced(o)
    ensures Balanced(OperandText(o))
  {
    match o
    case Bare(word) => NoParensLevel(word, 0);
    case Quoted(text) => QuoteIsBalanced(text);
  }

  lemma {:induction false} ItemsAreBalanced(items: seq<Operand>)
    requires forall i :: 0 <= i < |items| ==> OperandOk(items[i]) && OperandBalanced(items[i])
    ensures Balanced(ItemsText(items))
    decreases |items|
  {
    if |items| > 0 {
      OperandIsBalanced(items[0]);
      if |items| > 1 {
        ItemsAreBalanced(items[1..]);
        BalancedBetween(OperandText(items[0]), ", ", ItemsText(items[1..]));
      }
    }
  }

  /** The literals of a chunk are balanced. */
  predicate ChunkBalanced(c: Chunk) {
    match c
    case Word(_) => true
    case Quote(text) => Balanced(text)
    case Call(_, _) => true
    case List(items) => forall i :: 0 <= i < |items| ==> OperandBalanced(items[i])
  }

  lemma ChunkIsBalanced(c: Chunk)
    requires ChunkOk(c) && ChunkBalanced(c)
    ensures Balanced(ChunkText(c))
  {
    match c
    case Word(word) => NoParensLevel(word, 0);
    case Quote(text) => QuoteIsBalanced(text);
    case Call(name, arg) => CallIsBalanced(name, arg);
    case List(items) =>
      ItemsAreBalanced(items);
      ParenthesisedIsBalanced(ItemsText(items));
  }

  lemma CallIsBalanced(name: string, arg: string)
    requires Solid(name) && Solid(arg)
    ensures Balanced(name + "(" + arg + ")")
  {
    NoParensLevel(arg, 0);
    BalancedParens(name, arg);
  }

  lemma ParenthesisedIsBalanced(s: string)
    requires Balanced(s)
    ensures Balanced("(" + s + ")")
  {
    BalancedParens("", s);
    assert "" + "(" + s + ")" == "(" + s + ")";
  }

  lemma {:induction false} ChunksAreBalanced(cs: seq<Chunk>)
    requires ChunksOk(cs) && forall i :: 0 <= i < |cs| ==> ChunkBalanced(cs[i])
    ensures Balanced(ChunksText(cs))
    decreases |cs|
  {
    ChunkIsBalanced(cs[0]);
    if |cs| > 1 {
      ChunksAreBalanced(cs[1..]);
      BalancedBetween(ChunkText(cs[0]), " ", ChunksText(cs[1..]));
    }
  }

  lemma BetweenIsBalanced(t: Tree)
    requires t.Between? && Printable(t) && LiteralsBalanced(t)
    ensures Balanced(Print(t))
  {
    var lo, hi := OperandText(t.low), OperandText(t.high);
    OperandIsBalanced(t.low);
    OperandIsBalanced(t.high);
    AttributeSolid(t.attr);
    NoParensLevel(t.attr, 0);
    BalancedBetween(t.attr, BETWEEN, lo);
    BalancedBetween(t.attr + BETWEEN + lo, AND, hi);
  }

  lemma PrefixedIsBalanced(word: string, s: string)
    requires NoParens(word) && Balanced(s)
    ensures Balanced(word + s)
  {
    NoParensLevel(word, 0);
    BalancedJoin(word, s);
  }

  lemma UnitIsBalanced(t: Tree)
    requires (IsLeaf(t) || t.Always?) && Printable(t) && LiteralsBalanced(t)
    ensures Balanced(Print(t))
  {
    if t.Always? {
      NoParensLevel(Print(t), 0);
    } else if t.Between? {
      BetweenIsBalanced(t);
    } else {
      LeafChunksOk(t);
      ChunksAreBalanced(LeafChunks(t));
    }
  }

  lemma {:induction false} TreeIsBalanced(t: Tree)
    requires Printable(t) && LiteralsBalanced(t)
    ensures Balanced(Print(t))
  {
    if t.Or? {
      TreeIsBalanced(t.left);
      TreeIsBalanced(t.right);
      BalancedBetween(Print(t.left), OR, Print(t.right));
    } else if t.And? {
      TreeIsBalanced(t.left);
      TreeIsBalanced(t.right);
      BalancedBetween(Print(t.left), AND, Print(t.right));
    } else if t.Not? {
      TreeIsBalanced(t.inner);
      PrefixedIsBalanced("NOT ", Print(t.inner));
    } else if t.Paren? {
      TreeIsBalanced(t.inner);
      ParenthesisedIsBalanced(Print(t.inner));
    } else {
      UnitIsBalanced(t);
    }
  }

  /** What stands in each pair of parentheses is balanced as text. */
  predicate ParensMatch(t: Tree) {
    match t
    case Or(l, r) => ParensMatch(l) && ParensMatch(r)
    case And(l, r) => ParensMatch(l) && ParensMatch(r)
    case Not(e) => ParensMatch(e)
    case Paren(e) => ParensMatch(e) && Balanced(Print(e))
    case _ => true
  }

  /** Balanced literals are enough, and outside parentheses they are not needed. */
  lemma {:induction false} BalancedLiteralsMatch(t: Tree)
    requires Printable(t) && LiteralsBalanced(t)
    ensures ParensMatch(t)
  {
    if t.Or? || t.And? {
      BalancedLiteralsMatch(t.left);
      BalancedLiteralsMatch(t.right);
    } else if t.Not? {
      BalancedLiteralsMatch(t.inner);
    } else if t.Paren? {
      BalancedLiteralsMatch(t.inner);
      TreeIsBalanced(t.inner);
    }
  }

  // ---- The parenthesis matcher -------------------------------------------------------------

  /** The matcher passes over text that does not close more than it opens. */
  lemma {:induction false} CloseOver(w: string, rest: string, at: nat, level: nat, below: nat)
    requires Level(w, level).Some?
    ensures CloseFrom(w + rest, at, level + below + 1)
         == CloseFrom(rest, at + |w|, Level(w, level).value + below + 1)
    decreases |w|
  {
    if w == "" {
      assert w + rest == rest;
    } else {
      assert (w + rest)[0] == w[0] && (w + rest)[1..] == w[1..] + rest;
      if w[0] == '(' {
        CloseOver(w[1..], rest, at + 1, level + 1, below);
      } else if w[0] == ')' {
        CloseOver(w[1..], rest, at + 1, level - 1, below);
      } else {
        CloseOver(w[1..], rest, at + 1, level, below);
      }
    }
  }

  /** It stops within text that does. */
  lemma {:induction false} CloseWithin(w: string, rest: string, at: nat, level: nat)
    requires Level(w, level).None?
    ensures at <= CloseFrom(w + rest, at, level + 1) < at + |w|
    decreases |w|
  {
    assert (w + rest)[0] == w[0] && (w + rest)[1..] == w[1..] + rest;
    if w[0] == '(' {
      CloseWithin(w[1..], rest, at + 1, level + 1);
    } else if w[0] == ')' {
      if level > 0 {
        CloseWithin(w[1..], rest, at + 1, level - 1);
      }
    } else {
      CloseWithin(w[1..], rest, at + 1, level);
    }
  }

  /** The matcher passes over a printed tree. */
  lemma CloseTree(t: Tree, rest: string, at: nat, depth: nat)
    requires Printable(t) && LiteralsBalanced(t) && depth >= 1
    ensures CloseFrom(Print(t) + rest, at, depth) == CloseFrom(rest, at + |Print(t)|, depth)
  {
    TreeIsBalanced(t);
    CloseOver(Print(t), rest, at, 0, depth - 1);
  }

  /** An opening parenthesis is matched by the last character if and only if what is between is balanced. */
  lemma OuterParensMatchIff(inner: string)
    ensures var s := "(" + inner + ")"; CloseFrom(s, 0, 0) == |s| - 1 <==> Balanced(inner)
  {
    var s := "(" + inner + ")";
    assert s[1..] == inner + ")" && s[0] == '(';
    assert CloseFrom(s, 0, 0) == CloseFrom(inner + ")", 1, 1);
    if Level(inner, 0).None? {
      CloseWithin(inner, ")", 1, 0);
    } else {
      var level := Level(inner, 0).value;
      CloseOver(inner, ")", 1, 0, 0);
      assert ")"[1..] == "";
      assert CloseFrom(")", 1 + |inner|, level + 1) == if level == 0 then 1 + |inner| else -1;
    }
  }

  // ---- Evaluating printed trees -----------------------------------------------------------

  function Meanings(leaves: Leaves, fields: Fields, ts: seq<Tree>): (rs: seq<Truth>)
    ensures |rs| == |ts|
  {
    if ts == [] then [] else [Meaning(leaves, fields, ts[0])] + Meanings(leaves, fields, ts[1..])
  }

  lemma {:induction false} MeaningsAppend(leaves: Leaves, fields: Fields, a: seq<Tree>, b: seq<Tree>)
    ensures Meanings(leaves, fields, a + b) == Meanings(leaves, fields, a) + Meanings(leaves, fields, b)
  {
    if a == [] {
      assert a + b == b;
    } else {
      assert (a + b)[1..] == a[1..] + b;
      MeaningsAppend(leaves, fields, a[1..], b);
    }
  }

  lemma DisjunctionAppend(a: seq<Truth>, b: seq<Truth>)
    ensures Disjunction(a + b)
         == var x, y := Disjunction(a), Disjunction(b);
            if x == Holds || y == Holds then Holds else if x == Fails && y == Fails then Fails else Unknown
  {
    assert forall i :: 0 <= i < |a| ==> (a + b)[i] == a[i];
    assert forall i :: 0 <= i < |b| ==> (a + b)[|a| + i] == b[i];
  }

  lemma ConjunctionAppend(a: seq<Truth>, b: seq<Truth>)
    ensures Conjunction(a + b)
         == var x, y := Conjunction(a), Conjunction(b);
            if x == Fails || y == Fails then Fails else if x == Holds && y == Holds then Holds else Unknown
  {
    assert forall i :: 0 <= i < |a| ==> (a + b)[i] == a[i];
    assert forall i :: 0 <= i < |b| ==> (a + b)[|a| + i] == b[i];
  }

  /** A chain of ORs means the disjunction of its operands, however it is nested. */
  lemma {:induction false} OrMeaning(leaves: Leaves, fields: Fields, t: Tree)
    ensures Disjunction(Meanings(leaves, fields, OrOperands(t))) == Meaning(leaves, fields, t)
  {
    if t.Or? {
      OrMeaning(leaves, fields, t.left);
      OrMeaning(leaves, fields, t.right);
      MeaningsAppend(leaves, fields, OrOperands(t.left), OrOperands(t.right));
      DisjunctionAppend(Meanings(leaves, fields, OrOperands(t.left)), Meanings(leaves, fields, OrOperands(t.right)));
    } else {
      assert Meanings(leaves, fields, [t]) == [Meaning(leaves, fields, t)];
      ListOfOne(Meaning(leaves, fields, t));
    }
  }

  lemma ListOfOne(r: Truth)
    ensures Disjunction([r]) == r && Conjunction([r]) == r
  {
    assert [r][0] == r;
  }

  lemma {:induction false} AndMeaning(leaves: Leaves, fields: Fields, t: Tree)
    ensures Conjunction(Meanings(leaves, fields, AndOperands(t))) == Meaning(leaves, fields, t)
  {
    if t.And? {
      AndMeaning(leaves, fields, t.left);
      AndMeaning(leaves, fields, t.right);
      MeaningsAppend(leaves, fields, AndOperands(t.left), AndOperands(t.right));
      ConjunctionAppend(Meanings(leaves, fields, AndOperands(t.left)), Meanings(leaves, fields, AndOperands(t.right)));
    } else {
      assert Meanings(leaves, fields, [t]) == [Meaning(leaves, fields, t)];
      ListOfOne(Meaning(leaves, fields, t));
    }
  }

  /** The evaluator up to its first recursive case, on text that is no constant. */
  lemma EvalOfMarked(leaves: Leaves, fields: Fields, text: string)
    requires Trimmed(text) && Marked(text)
    ensures var ors, ands := Split(text, OR), Split(text, AND);
            Eval(leaves, fields, text)
            == if |ors| > 1 then Disjunction(EvalEach(leaves, fields, ors, |text|))
               else if |ands| > 1 then Conjunction(EvalEach(leaves, fields, ands, |text|))
               else EvalUnit(leaves, fields, text)
  {
    MarkedIsNoConstant(text);
    assert Strip(text) == text;
  }

  lemma EvalConstant(leaves: Leaves, fields: Fields, v: bool)
    ensures Eval(leaves, fields, if v then "TRUE" else "FALSE") == if v then Holds else Fails
  {
    var text := if v then "TRUE" else "FALSE";
    assert Stripped(text);
    assert Upper(text)[0] == text[0];
    assert Upper(text) == text;
  }

  ghost predicate Below(ts: seq<Tree>, size: nat) {
    forall i :: 0 <= i < |ts| ==> Printable(ts[i]) && ParensMatch(ts[i]) && Size(ts[i]) < size
  }

  lemma BelowAppend(a: seq<Tree>, b: seq<Tree>, size: nat)
    requires Below(a, size) && Below(b, size)
    ensures Below(a + b, size)
  {
  }

  lemma {:induction false} OrOperandsBelow(t: Tree, size: nat)
    requires Printable(t) && ParensMatch(t) && Size(t) < size
    ensures Below(OrOperands(t), size)
  {
    if t.Or? {
      OrOperandsBelow(t.left, size);
      OrOperandsBelow(t.right, size);
      BelowAppend(OrOperands(t.left), OrOperands(t.right), size);
    }
  }

  lemma {:induction false} AndOperandsBelow(t: Tree, size: nat)
    requires Printable(t) && ParensMatch(t) && Size(t) < size
    ensures Below(AndOperands(t), size)
  {
    if t.And? {
      AndOperandsBelow(t.left, size);
      AndOperandsBelow(t.right, size);
      BelowAppend(AndOperands(t.left), AndOperands(t.right), size);
    }
  }

  /** Operands smaller than the tree are evaluated to their meanings. */
  lemma {:induction false} OperandsEvaluate(leaves: Leaves, fields: Fields, ts: seq<Tree>, bound: nat, size: nat)
    requires Below(ts, size) && Shorter(Texts(ts), bound)
    ensures EvalEach(leaves, fields, Texts(ts), bound) == Meanings(leaves, fields, ts)
    decreases size, 0, |ts|
  {
    if ts != [] {
      assert Printable(ts[0]) && ParensMatch(ts[0]) && Size(ts[0]) < size;
      PrintedMeans(leaves, fields, ts[0]);
      TailsShrink(ts, bound, size);
      OperandsEvaluate(leaves, fields, ts[1..], bound, size);
    }
  }

  lemma TailsShrink(ts: seq<Tree>, bound: nat, size: nat)
    requires ts != [] && Below(ts, size) && Shorter(Texts(ts), bound)
    ensures Below(ts[1..], size) && Shorter(Texts(ts[1..]), bound)
    ensures Texts(ts)[0] == Print(ts[0]) && Texts(ts)[1..] == Texts(ts[1..])
  {
    var texts := Texts(ts);
    assert texts[1..] == Texts(ts[1..]);
    assert forall i :: 0 <= i < |texts| - 1 ==> texts[1..][i] == texts[i + 1];
  }

  /** Evaluating the printed text of a tree gives its three-valued meaning. */
  lemma {:induction false} PrintedMeans(leaves: Leaves, fields: Fields, t: Tree)
    requires Printable(t) && ParensMatch(t)
    ensures Eval(leaves, fields, Print(t)) == Meaning(leaves, fields, t)
    decreases Size(t), 1, 0
  {
    if t.Always? {
      EvalConstant(leaves, fields, t.value);
    } else {
      var text := Print(t);
      PrintTrimmed(t);
      TreeMarked(t);
      EvalOfMarked(leaves, fields, text);
      SplitOr(t);
      if t.Or? {
        OrOperandsBelow(t.left, Size(t));
        OrOperandsBelow(t.right, Size(t));
        BelowAppend(OrOperands(t.left), OrOperands(t.right), Size(t));
        OperandsEvaluate(leaves, fields, OrOperands(t), |text|, Size(t));
        OrMeaning(leaves, fields, t);
      } else {
        SplitAnd(t);
        if t.And? {
          AndOperandsBelow(t.left, Size(t));
          AndOperandsBelow(t.right, Size(t));
          BelowAppend(AndOperands(t.left), AndOperands(t.right), Size(t));
          OperandsEvaluate(leaves, fields, AndOperands(t), |text|, Size(t));
          AndMeaning(leaves, fields, t);
        } else {
          UnitMeans(leaves, fields, t);
        }
      }
    }
  }

  lemma {:induction false} UnitMeans(leaves: Leaves, fields: Fields, t: Tree)
    requires Printable(t) && ParensMatch(t) && !t.Or? && !t.And? && !t.Always? && Print(t) != ""
    ensures EvalUnit(leaves, fields, Print(t)) == Meaning(leaves, fields, t)
    decreases Size(t), 0, 0
  {
    if t.Not? {
      PrintTrimmed(t.inner);
      NotText(Print(t.inner));
      PrintedMeans(leaves, fields, t.inner);
    } else if t.Paren? {
      ParenUnitText(t.inner);
      PrintedMeans(leaves, fields, t.inner);
    } else {
      LeafIsNoNotOrParen(t);
      LeafReading.LeafIsReadBack(t);
    }
  }

  lemma NotText(s: string)
    requires Trimmed(s)
    ensures StartsWith("NOT " + s, "NOT ") && Strip(("NOT " + s)[4..]) == s
  {
    assert ("NOT " + s)[4..] == s;
  }

  lemma ParenUnitText(e: Tree)
    requires Printable(e) && Balanced(Print(e))
    ensures var text := "(" + Print(e) + ")";
            && !StartsWith(text, "NOT ") && text[0] == '(' && |text| > 1
            && CloseFrom(text, 0, 0) == |text| - 1 && Strip(text[1..|text| - 1]) == Print(e)
  {
    var text := "(" + Print(e) + ")";
    assert UpperChar(text[0]) == '(';
    OuterParensMatchIff(Print(e));
    assert text[1..|text| - 1] == Print(e);
    PrintTrimmed(e);
  }

  lemma LeafIsNoNotOrParen(t: Tree)
    requires IsLeaf(t) && Printable(t)
    ensures !StartsWith(Print(t), "NOT ") && Print(t) != "" && Print(t)[0] != '('
  {
    assert Print(t) + "" == Print(t);
    if t.Between? {
      AttributeSolid(t.attr);
      BetweenText(t.attr, OperandText(t.low), OperandText(t.high), "", "");
      WordHead(t.attr, BETWEEN + (OperandText(t.low) + (AND + (OperandText(t.high) + ""))));
    } else {
      LeafChunksOk(t);
      ChunksHead(LeafChunks(t), "");
      FirstChunk(LeafChunks(t));
    }
  }

  lemma FirstChunk(cs: seq<Chunk>)
    requires ChunksOk(cs) && (cs[0].Word? || cs[0].Call?)
    ensures ChunksText(cs) != "" && ChunksText(cs)[0] != '('
  {
  }

  // ---- Any tree: parentheses put where they are needed -------------------------------------

  function Guarded(t: Tree, guard: bool): Tree {
    if guard then Paren(t) else t
  }

  function Bracketed(t: Tree): (r: Tree)
    ensures t.Or? <==> r.Or?
    ensures t.And? <==> r.And?
  {
    match t
    case Or(l, r) => Or(Bracketed(l), Bracketed(r))
    case And(l, r) => And(Guarded(Bracketed(l), l.Or?), Guarded(Bracketed(r), r.Or?))
    case Not(e) => Not(Guarded(Bracketed(e), e.Or? || e.And?))
    case Paren(e) => Paren(Bracketed(e))
    case _ => t
  }

  ghost predicate LeavesOk(t: Tree) {
    match t
    case Or(l, r) => LeavesOk(l) && LeavesOk(r)
    case And(l, r) => LeavesOk(l) && LeavesOk(r)
    case Not(e) => LeavesOk(e)
    case Paren(e) => LeavesOk(e)
    case _ => Printable(t)
  }

  lemma {:induction false} BracketedIsPrintable(t: Tree)
    requires LeavesOk(t)
    ensures Printable(Bracketed(t))
  {
    if t.Or? || t.And? {
      BracketedIsPrintable(t.left);
      BracketedIsPrintable(t.right);
    } else if t.Not? || t.Paren? {
      BracketedIsPrintable(t.inner);
    }
  }

  lemma {:induction false} BracketedKeepsMeaning(leaves: Leaves, fields: Fields, t: Tree)
    ensures Meaning(leaves, fields, Bracketed(t)) == Meaning(leaves, fields, t)
  {
    if t.Or? || t.And? {
      BracketedKeepsMeaning(leaves, fields, t.left);
      BracketedKeepsMeaning(leaves, fields, t.right);
    } else if t.Not? || t.Paren? {
      BracketedKeepsMeaning(leaves, fields, t.inner);
    }
  }

  /** For every predicate tree with printable leaves, printing with parentheses where needed and
      evaluating the text gives the tree's Kleene value, whatever the fields and the leaf tests, as long as
      the text in those parentheses is balanced. */
  lemma EveryTreeMeans(leaves: Leaves, fields: Fields, t: Tree)
    requires LeavesOk(t) && ParensMatch(Bracketed(t))
    ensures Eval(leaves, fields, Print(Bracketed(t))) == Meaning(leaves, fields, t)
  {
    BracketedIsPrintable(t);
    BracketedKeepsMeaning(leaves, fields, t);
    PrintedMeans(leaves, fields, Bracketed(t));
  }

  ghost predicate AlwaysUnknown(t: Tree) {
    forall leaves, fields :: Meaning(leaves, fields, t) == Unknown
  }

  /** The text of the tree evaluates to its meaning, for all fields and leaf tests. */
  ghost predicate SaysWhatItMeans(t: Tree) {
    forall leaves, fields :: Eval(leaves, fields, Print(t)) == Meaning(leaves, fields, t)
  }

  /** In parentheses, it does so if and only if the text between them is balanced or is unknown anyway. */
  lemma ParenMeansIff(e: Tree)
    requires Printable(e) && ParensMatch(e)
    ensures SaysWhatItMeans(Paren(e)) <==> Balanced(Print(e)) || AlwaysUnknown(e)
  {
    if Balanced(Print(e)) {
      MatchedMeans(Paren(e));
    } else {
      UnmatchedMeansIff(e);
    }
  }

  lemma MatchedMeans(t: Tree)
    requires Printable(t) && ParensMatch(t)
    ensures SaysWhatItMeans(t)
  {
    forall leaves, fields ensures Eval(leaves, fields, Print(t)) == Meaning(leaves, fields, t) {
      PrintedMeans(leaves, fields, t);
    }
  }

  lemma UnmatchedMeansIff(e: Tree)
    requires Printable(e) && !Balanced(Print(e))
    ensures SaysWhatItMeans(Paren(e)) <==> AlwaysUnknown(e)
  {
    forall leaves, fields
      ensures (Eval(leaves, fields, Print(Paren(e))) == Meaning(leaves, fields, Paren(e)))
         == (Meaning(leaves, fields, e) == Unknown)
    {
      UnmatchedIsUnknown(leaves, fields, e);
      ParenMeans(leaves, fields, e);
    }
  }

  /** Parentheses that do not match each other make the text a leaf of no form. */
  lemma UnmatchedIsUnknown(leaves: Leaves, fields: Fields, e: Tree)
    requires Printable(e) && !Balanced(Print(e))
    ensures Eval(leaves, fields, Print(Paren(e))) == Unknown
  {
    var t := Paren(e);
    PrintTrimmed(t);
    TreeMarked(t);
    SplitOr(t);
    SplitAnd(t);
    EvalOfMarked(leaves, fields, Print(t));
    ParenIsNoLeaf(leaves, fields, Print(e));
  }

  lemma ParenIsNoLeaf(leaves: Leaves, fields: Fields, inner: string)
    requires !Balanced(inner)
    ensures EvalUnit(leaves, fields, "(" + inner + ")") == Unknown
  {
    var text := "(" + inner + ")";
    OuterParensMatchIff(inner);
    assert UpperChar(text[0]) == '(';
    assert WordLength(text) == 0 && Upper(text[..0]) == "";
  }

  // ---- Which literals are safe ---------------------------------------------------------------

  /** A comparison with the literal, in parentheses and with TRUE as the alternative. */
  function Probe(literal: string): Tree {
    Paren(Or(Compare("a", Equal, Quoted(literal)), Always(true)))
  }

  /** The literal may stand in parentheses: the probe means TRUE, and that is what its text evaluates to. */
  ghost predicate SafeInParens(literal: string) {
    forall leaves, fields :: Eval(leaves, fields, Print(Probe(literal))) == Holds
  }

  /** A literal without quotes may stand in parentheses if and only if its own parentheses are balanced. */
  lemma LiteralIsSafeIff(literal: string)
    requires Contents(literal)
    ensures SafeInParens(literal) <==> Balanced(literal)
  {
    if Balanced(literal) {
      forall leaves, fields ensures Eval(leaves, fields, Print(Probe(literal))) == Holds {
        ProbeHolds(leaves, fields, literal);
      }
    } else {
      ProbeIsPrintable(literal);
      ProbeText(literal);
      InnerBalancedIff(literal);
      var leaves: Leaves, fields: Fields := *, *;
      UnmatchedIsUnknown(leaves, fields, Probe(literal).inner);
    }
  }

  lemma ProbeHolds(leaves: Leaves, fields: Fields, literal: string)
    requires Contents(literal) && Balanced(literal)
    ensures Eval(leaves, fields, Print(Probe(literal))) == Holds
  {
    ProbeIsPrintable(literal);
    AlternativeHolds(leaves, fields, Compare("a", Equal, Quoted(literal)));
    HoldsIfMeant(leaves, fields, Probe(literal));
  }

  lemma AlternativeHolds(leaves: Leaves, fields: Fields, e: Tree)
    ensures Meaning(leaves, fields, Paren(Or(e, Always(true)))) == Holds
  {
    OrHolds(leaves, fields, e, Always(true));
    ParenMeans(leaves, fields, Or(e, Always(true)));
  }

  lemma OrHolds(leaves: Leaves, fields: Fields, e: Tree, f: Tree)
    ensures Meaning(leaves, fields, f) == Holds ==> Meaning(leaves, fields, Or(e, f)) == Holds
  {
  }

  lemma ParenMeans(leaves: Leaves, fields: Fields, e: Tree)
    ensures Meaning(leaves, fields, Paren(e)) == Meaning(leaves, fields, e)
  {
  }

  lemma HoldsIfMeant(leaves: Leaves, fields: Fields, t: Tree)
    requires Printable(t) && LiteralsBalanced(t) && Meaning(leaves, fields, t) == Holds
    ensures Eval(leaves, fields, Print(t)) == Holds
  {
    BalancedLiteralsMatch(t);
    PrintedMeans(leaves, fields, t);
  }

  lemma ProbeIsPrintable(literal: string)
    requires Contents(literal)
    ensures Printable(Probe(literal))
    ensures Balanced(literal) ==> LiteralsBalanced(Probe(literal))
  {
    assert "a"[0] == 'a' && IsWordChar('a');
    var comparison := Compare("a", Equal, Quoted(literal));
    assert Printable(comparison) && (Balanced(literal) ==> LiteralsBalanced(comparison));
    assert Printable(Or(comparison, Always(true)));
    assert Balanced(literal) ==> LiteralsBalanced(Or(comparison, Always(true)));
  }

  function BeforeLiteral(): string { "a = '" }

  function BehindLiteral(): string { "' OR TRUE" }

  lemma ProbeText(literal: string)
    ensures Print(Probe(literal).inner) == BeforeLiteral() + literal + BehindLiteral()
  {
    var comparison := Compare("a", Equal, Quoted(literal));
    ThreeChunksText(Word("a"), Word("="), Quote(literal));
    assert Print(comparison) == "a" + " " + ("=" + " " + ("'" + literal + "'"));
    ProbeJoined(literal);
    assert Print(Or(comparison, Always(true))) == Print(comparison) + OR + "TRUE";
  }

  lemma ProbeJoined(literal: string)
    ensures "a" + " " + ("=" + " " + ("'" + literal + "'")) + OR + "TRUE" == BeforeLiteral() + literal + BehindLiteral()
  {
  }

  lemma InnerBalancedIff(literal: string)
    ensures Balanced(BeforeLiteral() + literal + BehindLiteral()) <==> Balanced(literal)
  {
    NoParensLevel(BeforeLiteral(), 0);
    LevelJoin(BeforeLiteral(), literal, 0);
    LevelJoin(BeforeLiteral() + literal, BehindLiteral(), 0);
    if Level(literal, 0).Some? {
      NoParensLevel(BehindLiteral(), Level(literal, 0).value);
    }
  }
}
