/** The printed text of a leaf is read back as that leaf: no form is taken for another one. */
module LeafReading {
  import opened Text
  import opened Predicate
  import opened LeafForms
  import opened PredicateGrammar

  // ---- The head of a leaf -----------------------------------------------------------------

  lemma {:induction false} WordLengthOf(w: string, rest: string)
    requires (forall i :: 0 <= i < |w| ==> IsWordChar(w[i])) && (rest != "" ==> !IsWordChar(rest[0]))
    ensures WordLength(w + rest) == |w|
    decreases |w|
  {
    if w == "" {
      assert w + rest == rest;
    } else {
      assert (w + rest)[0] == w[0] && (w + rest)[1..] == w[1..] + rest;
      WordLengthOf(w[1..], rest);
    }
  }

  lemma SpaceLengthOfBlank(rest: string)
    requires rest != "" ==> !IsSpace(rest[0])
    ensures SpaceLength(" " + rest) == 1 && AfterSpace(" " + rest) == rest
    ensures SpaceLength(rest) == 0 && AfterSpace(rest) == rest
  {
    assert (" " + rest)[1..] == rest;
  }

  /** A leaf that begins with an attribute and a blank. */
  lemma AttributeFirst(attr: string, rest: string)
    requires AttributeOk(attr) && rest != "" && !IsSpace(rest[0]) && rest[0] != '('
    ensures var text := attr + " " + rest;
            && WordLength(text) == |attr| && text[..|attr|] == attr && AfterSpace(text[|attr|..]) == rest
            && MatchAge(text) == MatchCohort(text) == None
            && forall keyword ::
                 AfterWord(text, keyword) == if StartsWith(rest, keyword) then Some(rest[|keyword|..]) else None
  {
    var text := attr + " " + rest;
    assert text == attr + (" " + rest);
    WordLengthOf(attr, " " + rest);
    assert text[|attr|..] == " " + rest;
    SpaceLengthOfBlank(rest);
  }

  /** The head tells the forms apart: only the keyword it begins with is tried, and a symbol otherwise. */
  lemma ReadAttributeFirst(text: string, attr: string, rest: string)
    requires text == attr + " " + rest && AttributeOk(attr) && rest != "" && !IsSpace(rest[0]) && rest[0] != '('
    ensures ReadForm(text)
         == if StartsWith(rest, "IN") then ListAt(attr, AfterSpace(rest[2..]))
            else if StartsWith(rest, "BETWEEN") then RangeAfter(attr, rest[7..], SpaceLength(rest[7..]))
            else if StartsWith(rest, "MATCHES") then PatternAt(attr, rest[7..])
            else ComparisonAt(attr, rest)
  {
    AttributeFirst(attr, rest);
    KeywordsDiffer(rest);
  }

  lemma KeywordsDiffer(rest: string)
    requires rest != ""
    ensures StartsWith(rest, "IN") ==> !StartsWith(rest, "BETWEEN") && !StartsWith(rest, "MATCHES")
    ensures StartsWith(rest, "BETWEEN") ==> !StartsWith(rest, "MATCHES")
    ensures StartsWith(rest, "IN") || StartsWith(rest, "BETWEEN") || StartsWith(rest, "MATCHES")
            ==> SymbolLength(rest) == 0
  {
  }

  // ---- Comparisons, lists and patterns -------------------------------------------------------

  lemma SymbolRead(r: Relation, rest: string)
    requires rest != "" && !IsSpace(rest[0])
    ensures var s := Symbol(r) + " " + rest;
            && s != "" && !IsSpace(s[0]) && s[0] != '('
            && !StartsWith(s, "IN") && !StartsWith(s, "BETWEEN") && !StartsWith(s, "MATCHES")
            && SymbolLength(s) == |Symbol(r)| && s[..|Symbol(r)|] == Symbol(r)
            && AfterSpace(s[|Symbol(r)|..]) == rest
  {
    var s := Symbol(r) + " " + rest;
    assert s[|Symbol(r)|..] == " " + rest;
    assert s[|Symbol(r)|] == ' ';
    SpaceLengthOfBlank(rest);
    assert UpperChar(s[0]) == s[0] == Symbol(r)[0];
  }

  lemma ComparisonReads(text: string, attr: string, r: Relation, literal: string)
    requires text == attr + " " + (Symbol(r) + " " + literal) && AttributeOk(attr) && Trimmed(literal)
    ensures ReadForm(text) == if '\n' in literal then None else Some(CompareForm(attr, Symbol(r), literal))
  {
    SymbolRead(r, literal);
    ReadAttributeFirst(text, attr, Symbol(r) + " " + literal);
  }

  lemma CompareText(attr: string, r: Relation, o: Operand)
    requires OperandOk(o)
    ensures Print(Compare(attr, r, o)) == attr + " " + (Symbol(r) + " " + OperandText(o))
  {
    OperandChunkOk(o);
    ThreeChunksText(Word(attr), Word(Symbol(r)), OperandChunk(o));
  }

  lemma CompareReads(attr: string, r: Relation, o: Operand)
    requires Printable(Compare(attr, r, o))
    ensures ReadForm(Print(Compare(attr, r, o))) == FormOf(Compare(attr, r, o))
  {
    CompareText(attr, r, o);
    OperandTrimmed(o);
    ComparisonReads(Print(Compare(attr, r, o)), attr, r, OperandText(o));
  }

  /** The contents of a list in parentheses. */
  lemma ListAtText(attr: string, list: string)
    ensures ListAt(attr, "(" + list + ")") == if list == "" || '\n' in list then None else Some(InForm(attr, list))
  {
    var s := "(" + list + ")";
    assert s[1..|s| - 1] == list;
  }

  lemma InListReads(text: string, attr: string, inner: string)
    requires text == attr + " " + ("IN" + " " + ("(" + inner + ")")) && AttributeOk(attr)
    ensures ReadForm(text) == if inner == "" || '\n' in inner then None else Some(InForm(attr, inner))
  {
    var list := "(" + inner + ")";
    ListAtText(attr, inner);
    InHead(list);
    SpaceLengthOfBlank(list);
    ReadAttributeFirst(text, attr, "IN" + " " + list);
  }

  lemma InHead(list: string)
    ensures var rest := "IN" + " " + list; rest[2..] == " " + list && rest[0] == 'I' && StartsWith(rest, "IN")
  {
  }

  lemma InReads(attr: string, items: seq<Operand>)
    requires Printable(In(attr, items))
    ensures ReadForm(Print(In(attr, items))) == FormOf(In(attr, items))
  {
    InText(attr, items);
    InListReads(Print(In(attr, items)), attr, ItemsText(items));
    ItemsTextEmptyIff(items);
  }

  lemma InText(attr: string, items: seq<Operand>)
    ensures Print(In(attr, items)) == attr + " " + ("IN" + " " + ("(" + ItemsText(items) + ")"))
  {
    ThreeChunksText(Word(attr), Word("IN"), List(items));
  }

  lemma ItemsTextEmptyIff(items: seq<Operand>)
    requires forall i :: 0 <= i < |items| ==> OperandOk(items[i])
    ensures ItemsText(items) == "" <==> items == []
  {
  }

  lemma QuotedRead(s: string)
    requires Contents(s)
    ensures var text := "'" + s + "'"; (IsQuoted(text) <==> s != "") && text[1..|text| - 1] == s
  {
    var text := "'" + s + "'";
    assert text[1..|text| - 1] == s;
  }

  lemma PatternReads(text: string, attr: string, pattern: string)
    requires text == attr + " " + ("MATCHES" + " " + ("'" + pattern + "'")) && AttributeOk(attr) && Contents(pattern)
    ensures ReadForm(text) == if pattern == "" then None else Some(MatchesForm(attr, pattern))
  {
    var quoted := "'" + pattern + "'";
    MatchesHead(quoted);
    SpaceLengthOfBlank(quoted);
    ReadAttributeFirst(text, attr, "MATCHES" + " " + quoted);
    QuotedRead(pattern);
  }

  lemma MatchesReads(attr: string, pattern: string)
    requires Printable(Matches(attr, pattern))
    ensures ReadForm(Print(Matches(attr, pattern))) == FormOf(Matches(attr, pattern))
  {
    ThreeChunksText(Word(attr), Word("MATCHES"), Quote(pattern));
    PatternReads(Print(Matches(attr, pattern)), attr, pattern);
  }

  lemma MatchesHead(quoted: string)
    ensures var rest := "MATCHES" + " " + quoted;
            rest[7..] == " " + quoted && rest[0] == 'M' && StartsWith(rest, "MATCHES")
  {
  }

  // ---- Calls -----------------------------------------------------------------------------------

  /** A leaf that begins with a name and a parenthesis. */
  lemma CallFirst(name: string, inner: string)
    requires CallName(name) && inner != "" && !IsSpace(inner[0])
    ensures var text := name + ("(" + inner);
            && (forall called :: AfterCall(text, called) == if called == name then Some(inner) else None)
            && (forall keyword :: AfterWord(text, keyword) == None) && MatchCompare(text) == None
  {
    var text := name + ("(" + inner);
    WordLengthOf(name, "(" + inner);
    UpperSame(name);
    CallPieces(text, name, inner);
  }

  /** The name decides, and no other form is tried with success. */
  lemma ReadCallFirst(text: string, name: string, inner: string)
    requires text == name + ("(" + inner) && CallName(name) && inner != "" && !IsSpace(inner[0])
    ensures ReadForm(text)
         == if name == "AGE" then AgeCall(inner) else if name == "COHORT" then CohortCall(inner) else None
  {
    CallFirst(name, inner);
    FormOfCall(text, name, inner);
  }

  lemma FormOfCall(text: string, name: string, inner: string)
    requires forall called :: AfterCall(text, called) == if called == name then Some(inner) else None
    requires (forall keyword :: AfterWord(text, keyword) == None) && MatchCompare(text) == None
    ensures ReadForm(text)
         == if name == "AGE" then AgeCall(inner) else if name == "COHORT" then CohortCall(inner) else None
  {
  }

  /** A name in capitals. */
  ghost predicate CallName(name: string) {
    name != "" && forall i :: 0 <= i < |name| ==> 'A' <= name[i] <= 'Z'
  }

  lemma UpperSame(name: string)
    requires CallName(name)
    ensures Upper(name) == name
  {
    assert forall i :: 0 <= i < |name| ==> Upper(name)[i] == name[i];
  }

  lemma CallPieces(text: string, name: string, inner: string)
    requires text == name + ("(" + inner) && WordLength(text) == |name| && Upper(name) == name && name != ""
    requires inner != "" && !IsSpace(inner[0])
    ensures forall called :: AfterCall(text, called) == if called == name then Some(inner) else None
    ensures forall keyword :: AfterWord(text, keyword) == None
    ensures MatchCompare(text) == None
  {
    OpenParen(inner);
    assert text[|name|..] == "(" + inner && text[..|name|] == name;
  }

  lemma OpenParen(inner: string)
    requires inner != "" && !IsSpace(inner[0])
    ensures var s := "(" + inner;
            && SpaceLength(s) == 0 && AfterSpace(s) == s && SymbolLength(s) == 0
            && s[0] == '(' && s[1..] == inner && AfterSpace(inner) == inner
  {
    SpaceLengthOfBlank("(" + inner);
    SpaceLengthOfBlank(inner);
  }

  lemma ArgumentRead(attr: string, rest: string)
    requires AttributeOk(attr)
    ensures var inner := attr + (")" + rest);
            && WordLength(inner) == |attr| && inner[..|attr|] == attr
            && inner[|attr|..] == ")" + rest && AfterSpace(inner[|attr|..]) == ")" + rest
            && AfterQuoteMark(inner) == inner && (")" + rest)[1..] == rest
  {
    WordLengthOf(attr, ")" + rest);
    SpaceLengthOfBlank(")" + rest);
  }

  lemma AgeCallReads(inner: string, attr: string, test: string)
    requires inner == attr + (")" + (" " + test)) && AttributeOk(attr) && test != "" && !IsSpace(test[0])
    ensures inner != "" && !IsSpace(inner[0]) && AgeCall(inner) == AgeTest(attr, test)
  {
    ArgumentRead(attr, " " + test);
    SpaceLengthOfBlank(test);
    AgeCallAs(inner, attr, ")" + (" " + test), test);
  }

  lemma AgeCallAs(inner: string, attr: string, closing: string, test: string)
    requires 0 < |attr| <= |inner| && WordLength(inner) == |attr| && inner[..|attr|] == attr
    requires AfterSpace(inner[|attr|..]) == closing && closing != "" && closing[0] == ')'
    requires AfterSpace(closing[1..]) == test
    ensures AgeCall(inner) == AgeTest(attr, test)
  {
  }

  lemma CohortCallReads(inner: string, id: string, closing: string)
    requires inner == id + closing && closing == ")" && AttributeOk(id)
    ensures inner != "" && !IsSpace(inner[0]) && CohortCall(inner) == Some(CohortForm(id))
  {
    WordLengthOf(id, closing);
    SpaceLengthOfBlank(closing);
    assert inner[..|id|] == id && inner[|id|..] == closing;
  }

  lemma AgeTestReads(text: string, name: string, inner: string, attr: string, test: string)
    requires text == name + ("(" + inner) && inner == attr + (")" + (" " + test))
    requires CallName(name) && name == "AGE" && AttributeOk(attr) && test != "" && !IsSpace(test[0])
    ensures ReadForm(text) == AgeTest(attr, test)
  {
    AgeCallReads(inner, attr, test);
    ReadCallFirst(text, name, inner);
  }

  lemma AgeSymbolReads(attr: string, r: Relation, interval: string)
    requires Contents(interval)
    ensures AgeTest(attr, Symbol(r) + " " + ("'" + interval + "'"))
         == if interval == "" then None else Some(AgeForm(attr, Symbol(r), interval))
  {
    SymbolRead(r, "'" + interval + "'");
    QuotedRead(interval);
  }

  lemma AgeText(attr: string, r: Relation, interval: string)
    ensures Print(Age(attr, r, interval))
         == "AGE" + ("(" + (attr + (")" + (" " + (Symbol(r) + " " + ("'" + interval + "'"))))))
  {
    ThreeChunksText(Call("AGE", attr), Word(Symbol(r)), Quote(interval));
    CallRegrouped("AGE", attr, " ", Symbol(r) + " " + ("'" + interval + "'"));
  }

  lemma CallRegrouped(name: string, attr: string, blank: string, test: string)
    ensures (name + "(" + attr + ")") + blank + test == name + ("(" + (attr + (")" + (blank + test))))
  {
  }

  lemma AgeReads(attr: string, r: Relation, interval: string)
    requires Printable(Age(attr, r, interval))
    ensures ReadForm(Print(Age(attr, r, interval))) == FormOf(Age(attr, r, interval))
  {
    AgeText(attr, r, interval);
    SymbolRead(r, "'" + interval + "'");
    var test := Symbol(r) + " " + ("'" + interval + "'");
    AgeTestReads(Print(Age(attr, r, interval)), "AGE", attr + (")" + (" " + test)), attr, test);
    AgeSymbolReads(attr, r, interval);
  }

  lemma CohortReads(id: string)
    requires Printable(Cohort(id))
    ensures ReadForm(Print(Cohort(id))) == FormOf(Cohort(id))
  {
    CohortText(id);
    CohortTestReads(Print(Cohort(id)), "COHORT", id + ")", id);
  }

  lemma CohortTestReads(text: string, name: string, inner: string, id: string)
    requires text == name + ("(" + inner) && inner == id + ")"
    requires CallName(name) && name == "COHORT" && AttributeOk(id)
    ensures ReadForm(text) == Some(CohortForm(id))
  {
    CohortCallReads(inner, id, ")");
    ReadCallFirst(text, name, inner);
  }

  lemma CohortText(id: string)
    ensures Print(Cohort(id)) == "COHORT" + ("(" + (id + ")"))
  {
    assert Print(Cohort(id)) == ChunkText(Call("COHORT", id));
    CohortRegrouped("COHORT", id);
  }

  lemma CohortRegrouped(name: string, id: string)
    ensures name + "(" + id + ")" == name + ("(" + (id + ")"))
  {
  }

  // ---- BETWEEN ------------------------------------------------------------------------------------

  lemma AndAtBoundary(lo: string, hi: string)
    requires hi != "" && !IsSpace(hi[0]) && '\n' !in hi
    ensures var s := lo + AND + hi;
            AndAt(s, |lo|) && AfterSpace(s[|lo|..]) == "AND " + hi && s[..|lo|] == lo
  {
    var s := lo + AND + hi;
    assert s[|lo|..] == " " + ("AND " + hi);
    SpaceLengthOfBlank("AND " + hi);
    AndBeforeBound(hi);
  }

  lemma AndBeforeBound(hi: string)
    requires hi != "" && !IsSpace(hi[0]) && '\n' !in hi
    ensures AndFirst("AND " + hi) && ("AND " + hi)[3..] == " " + hi
  {
    assert ("AND " + hi)[3..] == " " + hi && ("AND " + hi)[4..] == hi;
    SpaceLengthOfBlank(hi);
  }

  lemma {:induction false} SpaceWithin(a: string, b: string)
    requires a != "" && !IsSpace(a[|a| - 1])
    ensures SpaceLength(a + b) == SpaceLength(a) < |a|
    decreases |a|
  {
    assert (a + b)[0] == a[0] && (a + b)[1..] == a[1..] + b;
    if IsSpace(a[0]) {
      SpaceWithin(a[1..], b);
    }
  }

  /** In a text that ends with a quote, an AND stays one whatever follows, and no new one arises. */
  lemma AndWithin(lo: string, rest: string, k: nat)
    requires k < |lo| && lo[|lo| - 1] == '\'' && '\n' !in lo + rest
    ensures AndAt(lo + rest, k) <==> AndAt(lo, k)
  {
    assert (lo + rest)[k..] == lo[k..] + rest;
    SpaceWithin(lo[k..], rest);
    var gap := SpaceLength(lo[k..]);
    assert (lo[k..] + rest)[gap..] == lo[k..][gap..] + rest;
    assert lo[k..][gap..] == lo[k + gap..];
    NoBreakFrom(lo, rest, k + gap);
    AndFirstWithin(lo[k + gap..], rest);
  }

  lemma NoBreakFrom(a: string, b: string, at: nat)
    requires at <= |a| && '\n' !in a + b
    ensures '\n' !in a[at..] && '\n' !in b
  {
    assert forall i :: 0 <= i < |a| ==> (a + b)[i] == a[i];
    assert forall i :: 0 <= i < |b| ==> (a + b)[|a| + i] == b[i];
  }

  lemma AndFirstWithin(word: string, rest: string)
    requires word != "" && word[|word| - 1] == '\'' && '\n' !in word && '\n' !in rest
    ensures AndFirst(word + rest) <==> AndFirst(word)
  {
    assert forall i :: 0 <= i < |word| ==> (word + rest)[i] == word[i];
    assert UpperChar((word + rest)[|word| - 1]) == '\'';
    if StartsWith(word, "AND") {
      assert word[2] != '\'' && |word| > 3;
      assert (word + rest)[3..] == word[3..] + rest;
      SpaceWithin(word[3..], rest);
    }
  }

  /** A bare low bound holds no blanks. */
  lemma NoAndInWord(lo: string, rest: string, k: nat)
    requires Solid(lo) && k < |lo|
    ensures !AndAt(lo, k) && !AndAt(lo + rest, k)
  {
    assert lo[k..][0] == lo[k] && (lo + rest)[k..][0] == lo[k];
  }

  /** Whether an AND is found in the low bound depends on the low bound only. */
  lemma AndInLow(low: Operand, rest: string, k: nat)
    requires BoundOk(low) && k < |OperandText(low)| && '\n' !in rest
    ensures AndAt(OperandText(low) + rest, k) <==> AndAt(OperandText(low), k)
  {
    match low
    case Bare(word) => NoAndInWord(word, rest, k);
    case Quoted(text) => AndWithin(OperandText(low), rest, k);
  }

  lemma BoundsOnOneLine(low: Operand, high: Operand)
    requires BoundOk(low) && BoundOk(high)
    ensures '\n' !in AND + OperandText(high) && '\n' !in OperandText(low) + AND + OperandText(high)
  {
  }

  lemma FirstEndIff(s: string, n: nat, ends: nat -> bool, within: nat -> bool)
    requires 0 < n <= |s| && ends(n) && '\n' !in s
    requires !within(0) && forall k :: 0 <= k < n ==> (ends(k) <==> within(k))
    ensures FirstEnd(s, 0, ends).Some? && FirstEnd(s, 0, ends).value <= n
    ensures FirstEnd(s, 0, ends).value == n <==> forall k :: 0 <= k < n ==> !within(k)
  {
    var end := FirstEnd(s, 0, ends);
    assert end.Some? && end.value < n ==> within(end.value);
  }

  /** The low bound is found whole if and only if it holds no AND between blanks. */
  lemma LowEndIff(low: Operand, high: Operand)
    requires BoundOk(low) && BoundOk(high)
    ensures var lo, s := OperandText(low), OperandText(low) + AND + OperandText(high);
            && LowEnd(s).Some? && LowEnd(s).value <= |lo|
            && (LowEnd(s).value == |lo| <==> NoAndWord(lo))
  {
    var lo, hi := OperandText(low), OperandText(high);
    OperandTrimmed(low);
    OperandTrimmed(high);
    BoundsOnOneLine(low, high);
    AndAtBoundary(lo, hi);
    NoAndAtStart(lo);
    SameAnds(low, hi);
    FirstEndIff(lo + AND + hi, |lo|, AndPlaces(lo + AND + hi), AndPlaces(lo));
  }

  lemma SameAnds(low: Operand, hi: string)
    requires BoundOk(low) && '\n' !in AND + hi
    ensures var lo, s := OperandText(low), OperandText(low) + AND + hi;
            forall k :: 0 <= k < |lo| ==> (AndPlaces(s)(k) <==> AndPlaces(lo)(k))
  {
    var lo := OperandText(low);
    assert lo + AND + hi == lo + (AND + hi);
    forall k | 0 <= k < |lo| ensures AndPlaces(lo + AND + hi)(k) <==> AndPlaces(lo)(k) {
      AndInLow(low, AND + hi, k);
    }
  }

  lemma NoAndAtStart(s: string)
    requires Trimmed(s)
    ensures !AndPlaces(s)(0)
  {
    assert s[0..] == s;
  }

  lemma StripBlank(s: string)
    requires Trimmed(s)
    ensures Strip(" " + s) == s && Strip(s) == s
  {
    assert (" " + s)[1..] == s;
    assert LeftStrip(" " + s) == LeftStrip(s) == s;
  }

  lemma RangeFound(attr: string, low: Operand, high: Operand)
    requires BoundOk(low) && BoundOk(high)
    ensures RangeAfter(attr, " " + (OperandText(low) + AND + OperandText(high)), 1)
            == Some(BetweenForm(attr, OperandText(low), OperandText(high)))
       <==> NoAndWord(OperandText(low))
  {
    OperandTrimmed(low);
    OperandTrimmed(high);
    LowEndIff(low, high);
    RangeOf(attr, OperandText(low), OperandText(high));
  }

  lemma RangeOf(attr: string, lo: string, hi: string)
    requires Trimmed(lo) && Trimmed(hi) && '\n' !in hi
    requires LowEnd(lo + AND + hi).Some? && LowEnd(lo + AND + hi).value <= |lo|
    ensures RangeAfter(attr, " " + (lo + AND + hi), 1) == Some(BetweenForm(attr, lo, hi))
       <==> LowEnd(lo + AND + hi) == Some(|lo|)
  {
    var s := lo + AND + hi;
    var n := LowEnd(s).value;
    RangeAtOneBlank(attr, s, n);
    BoundsWholeIff(attr, lo, hi, n);
  }

  lemma BoundsWholeIff(attr: string, lo: string, hi: string, n: nat)
    requires Trimmed(lo) && Trimmed(hi) && '\n' !in hi && n <= |lo|
    requires StartsWith(AfterSpace((lo + AND + hi)[n..]), "AND")
    ensures var s := lo + AND + hi;
            Bounds(attr, s[..n], AfterSpace(s[n..])) == BetweenForm(attr, lo, hi) <==> n == |lo|
  {
    var s := lo + AND + hi;
    if n == |lo| {
      WholeBounds(attr, lo, hi);
    } else {
      ShortBounds(attr, s[..n], AfterSpace(s[n..]));
    }
  }

  lemma WholeBounds(attr: string, lo: string, hi: string)
    requires Trimmed(lo) && Trimmed(hi) && '\n' !in hi
    ensures var s := lo + AND + hi;
            && StartsWith(AfterSpace(s[|lo|..]), "AND")
            && Bounds(attr, s[..|lo|], AfterSpace(s[|lo|..])) == BetweenForm(attr, lo, hi)
  {
    AndAtBoundary(lo, hi);
    AndBeforeBound(hi);
    StripBlank(hi);
    StripBlank(lo);
  }

  lemma RangeAtOneBlank(attr: string, s: string, n: nat)
    requires LowEnd(s) == Some(n)
    ensures RangeAfter(attr, " " + s, 1) == Some(Bounds(attr, s[..n], AfterSpace(s[n..])))
  {
    assert (" " + s)[1..] == s;
  }

  lemma ShortBounds(attr: string, low: string, behind: string)
    requires StartsWith(behind, "AND")
    ensures |Bounds(attr, low, behind).low| <= |low|
  {
  }

  lemma OperandTrimmed(o: Operand)
    requires OperandOk(o)
    ensures Trimmed(OperandText(o))
  {
    OperandChunkOk(o);
    ChunkTrimmed(OperandChunk(o));
  }

  lemma BetweenTextAs(attr: string, bounds: string)
    ensures attr + BETWEEN + bounds == attr + " " + ("BETWEEN" + (" " + bounds))
  {
  }

  lemma BetweenPrinted(t: Tree)
    requires t.Between?
    ensures Print(t) == t.attr + BETWEEN + (OperandText(t.low) + AND + OperandText(t.high))
  {
    BoundsGrouped(t.attr, OperandText(t.low), OperandText(t.high));
  }

  lemma BoundsGrouped(attr: string, lo: string, hi: string)
    ensures attr + BETWEEN + lo + AND + hi == attr + BETWEEN + (lo + AND + hi)
  {
  }

  lemma BetweenHead(bounds: string)
    ensures var rest := "BETWEEN" + (" " + bounds);
            rest[7..] == " " + bounds && rest[0] == 'B' && StartsWith(rest, "BETWEEN")
  {
  }

  /** A BETWEEN leaf is read back if and only if its low bound holds no AND between blanks. */
  lemma BetweenReadsIff(t: Tree)
    requires t.Between? && AttributeOk(t.attr) && BoundOk(t.low) && BoundOk(t.high)
    ensures ReadForm(Print(t)) == FormOf(t) <==> NoAndWord(OperandText(t.low))
  {
    BetweenPrinted(t);
    BoundsRead(Print(t), t.attr, t.low, t.high);
  }

  lemma BoundsRead(text: string, attr: string, low: Operand, high: Operand)
    requires text == attr + BETWEEN + (OperandText(low) + AND + OperandText(high))
    requires AttributeOk(attr) && BoundOk(low) && BoundOk(high)
    ensures ReadForm(text) == Some(BetweenForm(attr, OperandText(low), OperandText(high)))
       <==> NoAndWord(OperandText(low))
  {
    var bounds := OperandText(low) + AND + OperandText(high);
    OperandTrimmed(low);
    assert bounds[0] == OperandText(low)[0];
    BetweenTextReads(text, attr, bounds);
    RangeFound(attr, low, high);
  }

  lemma BetweenTextReads(text: string, attr: string, bounds: string)
    requires text == attr + BETWEEN + bounds && AttributeOk(attr) && bounds != "" && !IsSpace(bounds[0])
    ensures ReadForm(text) == RangeAfter(attr, " " + bounds, 1)
  {
    BetweenTextAs(attr, bounds);
    BetweenHead(bounds);
    SpaceLengthOfBlank(bounds);
    ReadAttributeFirst(text, attr, "BETWEEN" + (" " + bounds));
  }

  /** Such a low bound: one text in quotes, AND, and another text. The first one is taken for the bound. */
  lemma AndIsCutOff(attr: string, first: string, second: string, high: Operand)
    requires AttributeOk(attr) && BoundOk(high) && BoundOk(Quoted(first + AND + second))
    requires second == "" || !IsSpace(second[0])
    ensures var t := Between(attr, Quoted(first + AND + second), high); ReadForm(Print(t)) != FormOf(t)
  {
    AndInQuotes(first, second);
    BetweenReadsIff(Between(attr, Quoted(first + AND + second), high));
  }

  lemma AndInQuotes(first: string, second: string)
    requires BoundOk(Quoted(first + AND + second)) && (second == "" || !IsSpace(second[0]))
    ensures !NoAndWord(OperandText(Quoted(first + AND + second)))
  {
    var low, behind := "'" + first, second + "'";
    assert OperandText(Quoted(first + AND + second)) == low + AND + behind;
    AndBetween(low, behind);
  }

  lemma AndBetween(low: string, behind: string)
    requires behind != "" && !IsSpace(behind[0]) && '\n' !in low + AND + behind
    ensures !NoAndWord(low + AND + behind)
  {
    var s := low + AND + behind;
    NoBreakFrom(low + AND, behind, 0);
    AndAtBoundary(low, behind);
    assert AndPlaces(s)(|low|);
  }

  // ---- Any leaf ------------------------------------------------------------------------------------

  /** Reading the printed text of a leaf gives what the leaf says. */
  lemma LeafIsReadBack(t: Tree)
    requires IsLeaf(t) && Printable(t)
    ensures ReadForm(Print(t)) == FormOf(t)
  {
    match t
    case Compare(attr, r, o) => CompareReads(attr, r, o);
    case In(attr, items) => InReads(attr, items);
    case Between(_, _, _) => BetweenReadsIff(t);
    case Age(attr, r, interval) => AgeReads(attr, r, interval);
    case Matches(attr, pattern) => MatchesReads(attr, pattern);
    case Cohort(id) => CohortReads(id);
  }

  // ---- The literals of a list ---------------------------------------------------------------------

  function Values(items: seq<Operand>): (r: seq<string>)
    ensures |r| == |items|
  {
    if items == [] then [] else [Unquoted(OperandText(items[0]))] + Values(items[1..])
  }

  predicate NoComma(o: Operand) {
    ',' !in OperandText(o)
  }

  ghost predicate NoCommas(items: seq<Operand>) {
    forall i :: 0 <= i < |items| ==> NoComma(items[i])
  }

  function Commas(s: string): nat {
    if s == "" then 0 else (if s[0] == ',' then 1 else 0) + Commas(s[1..])
  }

  lemma {:induction false} CellsCount(s: string)
    ensures |Cells(s)| == Commas(s) + 1
  {
    if s != "" {
      CellsCount(s[1..]);
    }
  }

  lemma {:induction false} CommasJoin(a: string, b: string)
    ensures Commas(a + b) == Commas(a) + Commas(b)
  {
    if a == "" {
      assert a + b == b;
    } else {
      assert (a + b)[0] == a[0] && (a + b)[1..] == a[1..] + b;
      CommasJoin(a[1..], b);
    }
  }

  lemma {:induction false} CommasNoneIff(s: string)
    ensures Commas(s) == 0 <==> ',' !in s
  {
    if s != "" {
      CommasNoneIff(s[1..]);
      assert s == [s[0]] + s[1..];
    }
  }

  /** Every comma of an item adds a literal. */
  lemma {:induction false} ItemsCommas(items: seq<Operand>)
    requires items != []
    ensures Commas(ItemsText(items)) >= |items| - 1
    ensures Commas(ItemsText(items)) == |items| - 1 <==> NoCommas(items)
  {
    var first := OperandText(items[0]);
    CommasNoneIff(first);
    if |items| > 1 {
      var tail := items[1..];
      ItemsCommas(tail);
      CommasJoin(first + ", ", ItemsText(tail));
      CommasJoin(first, ", ");
      CommasOfSeparator();
      if NoCommas(items) {
        assert forall i :: 0 <= i < |tail| ==> tail[i] == items[i + 1];
      }
      if NoCommas(tail) && NoComma(items[0]) {
        assert forall i :: 0 < i < |items| ==> items[i] == tail[i - 1];
      }
    }
  }

  lemma CommasOfSeparator()
    ensures Commas(", ") == 1
  {
    assert ", "[1..] == " " && " "[1..] == "";
  }

  lemma {:induction false} CellsOfFirst(w: string, rest: string)
    requires ',' !in w
    ensures Cells(w + ("," + rest)) == [w] + Cells(rest) && Cells(w) == [w]
  {
    if w == "" {
      assert w + ("," + rest) == "," + rest && ("," + rest)[1..] == rest;
    } else {
      var s := w + ("," + rest);
      assert s[0] == w[0] && s[1..] == w[1..] + ("," + rest) && w == [w[0]] + w[1..];
      CellsOfFirst(w[1..], rest);
    }
  }

  /** A blank in front goes to the first literal, which is stripped. */
  lemma LeadingBlank(s: string)
    ensures Cells(" " + s) == [" " + Cells(s)[0]] + Cells(s)[1..]
  {
    assert (" " + s)[1..] == s;
  }

  lemma ItemsTextSplit(items: seq<Operand>)
    requires |items| > 1
    ensures ItemsText(items) == OperandText(items[0]) + ("," + (" " + ItemsText(items[1..])))
  {
    SeparatorSplit(OperandText(items[0]), ItemsText(items[1..]));
  }

  lemma SeparatorSplit(first: string, tail: string)
    ensures first + ", " + tail == first + ("," + (" " + tail))
  {
  }

  lemma {:induction false} ItemsCells(items: seq<Operand>)
    requires items != [] && NoCommas(items)
    requires forall i :: 0 <= i < |items| ==> OperandOk(items[i])
    ensures Literals(ItemsText(items)) == Values(items)
    ensures Cells(ItemsText(items))[0] == OperandText(items[0])
  {
    var first := OperandText(items[0]);
    assert NoComma(items[0]);
    OperandTrimmed(items[0]);
    if |items| == 1 {
      CellsOfFirst(first, "");
      OneLiteral(first);
    } else {
      var tail := items[1..];
      assert forall i :: 0 <= i < |tail| ==> tail[i] == items[i + 1];
      ItemsCells(tail);
      OperandTrimmed(tail[0]);
      ItemsTextSplit(items);
      CellsOfFirst(first, " " + ItemsText(tail));
      LeadingBlank(ItemsText(tail));
      LiteralsFrom(first, Cells(ItemsText(tail)));
    }
  }

  lemma OneLiteral(w: string)
    requires Trimmed(w)
    ensures UnquotedAll([w]) == [Unquoted(w)]
  {
    assert [w] + [] == [w];
    UnquotedFirst(w, []);
  }

  lemma LiteralsFrom(w: string, cells: seq<string>)
    requires Trimmed(w) && cells != [] && Trimmed(cells[0])
    ensures UnquotedAll([w] + ([" " + cells[0]] + cells[1..])) == [Unquoted(w)] + UnquotedAll(cells)
  {
    StripBlank(cells[0]);
    SecondLiteral(w, " " + cells[0], cells[1..]);
  }

  lemma SecondLiteral(w: string, second: string, cells: seq<string>)
    requires Trimmed(w)
    ensures UnquotedAll([w] + ([second] + cells)) == [Unquoted(w)] + ([Unquoted(Strip(second))] + UnquotedAll(cells))
  {
    UnquotedFirst(w, [second] + cells);
    UnquotedFirst(second, cells);
  }

  lemma UnquotedFirst(w: string, cells: seq<string>)
    ensures UnquotedAll([w] + cells) == [Unquoted(Strip(w))] + UnquotedAll(cells)
  {
    assert ([w] + cells)[1..] == cells;
  }

  /** The list test compares with one literal per item if and only if no item holds a comma. */
  lemma ListIsReadIff(items: seq<Operand>)
    requires items != [] && forall i :: 0 <= i < |items| ==> OperandOk(items[i])
    ensures Literals(ItemsText(items)) == Values(items) <==> NoCommas(items)
  {
    if NoCommas(items) {
      ItemsCells(items);
    } else {
      CellsCount(ItemsText(items));
      ItemsCommas(items);
    }
  }

  /** Without commas, IN is membership in the values of the items. */
  lemma InMeans(leaves: Leaves, fields: Fields, attr: string, items: seq<Operand>)
    requires Printable(In(attr, items)) && items != [] && '\n' !in ItemsText(items) && NoCommas(items)
    ensures Meaning(leaves, fields, In(attr, items))
         == if attr !in fields then Unknown else Holding(fields[attr] in Values(items))
  {
    ListIsReadIff(items);
    InMeansListed(leaves, fields, attr, items);
  }

  lemma InMeansListed(leaves: Leaves, fields: Fields, attr: string, items: seq<Operand>)
    requires items != [] && '\n' !in ItemsText(items)
    ensures Meaning(leaves, fields, In(attr, items))
         == if attr !in fields then Unknown else Holding(fields[attr] in Literals(ItemsText(items)))
  {
    assert FormOf(In(attr, items)) == Some(InForm(attr, ItemsText(items)));
    InJudged(leaves, fields, attr, ItemsText(items));
  }

  lemma InJudged(leaves: Leaves, fields: Fields, attr: string, list: string)
    ensures Judge(leaves, fields, Some(InForm(attr, list)))
         == if attr !in fields then Unknown else Holding(fields[attr] in Literals(list))
  {
  }

  /** A value with a comma is in no list, whatever the list says. */
  lemma CommaIsNeverFound(list: string, value: string)
    requires ',' in value
    ensures value !in Literals(list)
  {
    if value in Literals(list) {
      CellsHaveNoComma(list);
      UnquotedFrom(Cells(list), value);
    }
  }

  lemma {:induction false} CellsHaveNoComma(list: string)
    ensures forall i :: 0 <= i < |Cells(list)| ==> ',' !in Cells(list)[i]
  {
    if list != "" {
      CellsHaveNoComma(list[1..]);
    }
  }

  lemma {:induction false} UnquotedFrom(cells: seq<string>, value: string)
    requires value in UnquotedAll(cells) && forall i :: 0 <= i < |cells| ==> ',' !in cells[i]
    ensures ',' !in value
  {
    if value == Unquoted(Strip(cells[0])) {
      StripKeepsAbsence(cells[0], ',');
      UnquotedKeepsAbsence(Strip(cells[0]), ',');
    } else {
      UnquotedFrom(cells[1..], value);
    }
  }

  lemma StripKeepsAbsence(s: string, c: char)
    requires c !in s
    ensures c !in Strip(s)
  {
    var l := LeftStrip(s);
    assert l == s[|s| - |l|..] && RightStrip(l) <= l;
  }

  lemma {:induction false} UnquotedKeepsAbsence(s: string, c: char)
    requires c !in s
    ensures c !in Unquoted(s)
    decreases |s|
  {
    if s != "" && IsQuoteMark(s[0]) {
      UnquotedKeepsAbsence(s[1..], c);
    } else if s != "" && IsQuoteMark(s[|s| - 1]) {
      UnquotedKeepsAbsence(s[..|s| - 1], c);
    }
  }
}
