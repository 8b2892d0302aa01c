/** The canonical text behind a golden record's provenance hash, and what it determines. */
module ProvenanceHash {
  import opened Text
  import StableSort

  /** What the hash remembers of one attribute's winning row. */
  datatype Winner = Winner(recordId: string, valueHash: string)

  function Piece(name: string, w: Winner): string {
    name + "=" + w.recordId + ":" + w.valueHash
  }

  /** Python's `"|".join(pieces)`. */
  function Join(pieces: seq<string>): string {
    if |pieces| == 0 then ""
    else if |pieces| == 1 then pieces[0]
    else pieces[0] + "|" + Join(pieces[1..])
  }

  function Pieces(names: seq<string>, winners: map<string, Winner>): (r: seq<string>)
    requires forall n :: n in names ==> n in winners
    ensures |r| == |names|
    ensures forall i :: 0 <= i < |r| ==> r[i] == Piece(names[i], winners[names[i]])
  {
    seq(|names|, i requires 0 <= i < |names| => Piece(names[i], winners[names[i]]))
  }

  function Summary(winners: map<string, Winner>): string {
    Join(Pieces(Ascending(winners.Keys), winners))
  }

  /** `provenance_hash_from_winning_records`, with SHA-256 left to the caller. */
  function Digest(sha256: string -> string, winners: map<string, Winner>): string {
    "sha256:" + sha256(Summary(winners))
  }

  // ---- A Python dict as its items, in insertion order ----------------------

  datatype Item = Item(name: string, winner: Winner)

  type Items = seq<Item>

  predicate ItemsBefore(a: Item, b: Item) {
    Less(a.name, b.name) || (a.name == b.name && Less(a.winner.recordId, b.winner.recordId))
  }

  function PiecesOfItems(items: Items): (r: seq<string>)
    ensures |r| == |items|
    ensures forall i :: 0 <= i < |r| ==> r[i] == Piece(items[i].name, items[i].winner)
  {
    seq(|items|, i requires 0 <= i < |items| => Piece(items[i].name, items[i].winner))
  }

  function SummaryOfItems(items: Items): string {
    Join(PiecesOfItems(StableSort.Sort(items, ItemsBefore)))
  }

  /** `items` are the entries of `winners`, each once, in some insertion order. */
  ghost predicate Enumerates(items: Items, winners: map<string, Winner>) {
    && NamesDistinct(items)
    && (forall p :: p in items ==> p.name in winners && winners[p.name] == p.winner)
    && (forall n :: n in winners ==> Item(n, winners[n]) in items)
  }

  ghost predicate NamesDistinct(items: Items) {
    forall i, j :: 0 <= i < j < |items| ==> items[i].name != items[j].name
  }

  lemma {:induction false} InsertKeepsNamesDistinct(x: Item, s: Items)
    requires NamesDistinct(s) && forall p :: p in s ==> p.name != x.name
    ensures NamesDistinct(StableSort.Insert(x, s, ItemsBefore))
  {
    if s != [] && ItemsBefore(s[0], x) {
      var tail := StableSort.Insert(x, s[1..], ItemsBefore);
      InsertKeepsNamesDistinct(x, s[1..]);
      forall j | 0 <= j < |tail| ensures tail[j].name != s[0].name {
        assert tail[j] in multiset(tail);
        assert tail[j] == x || tail[j] in s[1..];
      }
    }
  }

  lemma {:induction false} SortKeepsNamesDistinct(s: Items)
    requires NamesDistinct(s)
    ensures NamesDistinct(StableSort.Sort(s, ItemsBefore))
  {
    if s != [] {
      var tail := StableSort.Sort(s[1..], ItemsBefore);
      SortKeepsNamesDistinct(s[1..]);
      forall p | p in tail ensures p.name != s[0].name {
        assert p in multiset(tail);
        assert p in s[1..];
      }
      InsertKeepsNamesDistinct(s[0], tail);
    }
  }

  ghost predicate StrictlyAscending(names: seq<string>) {
    forall i, j :: 0 <= i < j < |names| ==> Less(names[i], names[j])
  }

  lemma {:induction false} AscendingIsStrict(s: set<string>)
    ensures StrictlyAscending(Ascending(s))
    decreases |s|
  {
    if s != {} {
      var m := Least(s);
      AscendingIsStrict(s - {m});
      var tail := Ascending(s - {m});
      forall j | 0 <= j < |tail| ensures Less(m, tail[j]) {
        assert tail[j] in s - {m};
        LessTotal(m, tail[j]);
      }
    }
  }

  lemma {:induction false} AscendingListsAgree(a: seq<string>, b: seq<string>)
    requires StrictlyAscending(a) && StrictlyAscending(b)
    requires forall x :: x in a <==> x in b
    ensures a == b
  {
    assert a != [] ==> a[0] in b;
    assert b != [] ==> b[0] in a;
    if a != [] && b != [] {
      HeadIsLeast(a, b[0]);
      HeadIsLeast(b, a[0]);
      if a[0] != b[0] { LessAsymmetric(a[0], b[0]); }
      TailDropsHead(a);
      TailDropsHead(b);
      AscendingListsAgree(a[1..], b[1..]);
    }
  }

  lemma HeadIsLeast(s: seq<string>, x: string)
    requires StrictlyAscending(s) && x in s
    ensures s[0] == x || Less(s[0], x)
  {
  }

  lemma TailDropsHead(s: seq<string>)
    requires StrictlyAscending(s) && s != []
    ensures forall x :: x in s[1..] <==> x in s && x != s[0]
  {
    forall x | x in s[1..] ensures x != s[0] {
      LessAsymmetric(s[0], x);
    }
  }

  lemma ItemsApart(a: Item, b: Item)
    requires ItemsBefore(a, b)
    ensures if Less(a.name, b.name) then !Less(b.name, a.name) else !Less(b.winner.recordId, a.winner.recordId)
  {
    if Less(a.name, b.name) {
      LessAsymmetric(a.name, b.name);
    } else {
      LessAsymmetric(a.winner.recordId, b.winner.recordId);
    }
  }

  lemma ItemsOrderIsStrictWeak()
    ensures StableSort.StrictWeakOrder(ItemsBefore)
  {
    forall a, b | ItemsBefore(a, b) ensures !ItemsBefore(b, a) {
      ItemsApart(a, b);
      if a.name == b.name && Less(a.name, b.name) { LessAsymmetric(a.name, b.name); }
    }
    forall a, b, c | ItemsBefore(a, b) && ItemsBefore(b, c) ensures ItemsBefore(a, c) {
      if Less(a.name, b.name) && Less(b.name, c.name) { LessTransitive(a.name, b.name, c.name); }
      if a.name == b.name == c.name && !Less(a.name, b.name) && !Less(b.name, c.name) {
        LessTransitive(a.winner.recordId, b.winner.recordId, c.winner.recordId);
      }
    }
    forall a, b, c | !ItemsBefore(a, b) && !ItemsBefore(b, c) ensures !ItemsBefore(a, c) {
      LessTotal(a.name, b.name); LessTotal(b.name, c.name);
      LessTotal(a.winner.recordId, b.winner.recordId); LessTotal(b.winner.recordId, c.winner.recordId);
      if ItemsBefore(a, c) {
        if Less(b.name, a.name) && Less(c.name, b.name) { LessTransitive(c.name, b.name, a.name); }
        ItemsApart(a, c);
        var x, y, z := a.winner.recordId, b.winner.recordId, c.winner.recordId;
        if x != y && y != z && a.name == b.name == c.name {
          LessTransitive(z, y, x);
        }
        if Less(c.name, c.name) { LessAsymmetric(c.name, c.name); }
      }
    }
  }

  /** The summary does not depend on the order in which a dict was filled. */
  lemma SummaryIgnoresInsertionOrder(items: Items, winners: map<string, Winner>)
    requires Enumerates(items, winners)
    ensures SummaryOfItems(items) == Summary(winners)
  {
    var sorted := StableSort.Sort(items, ItemsBefore);
    var names := seq(|sorted|, i requires 0 <= i < |sorted| => sorted[i].name);
    StableSort.SortMembers(items, ItemsBefore);
    SortedNamesCover(sorted, winners, names);
    assert names == Ascending(winners.Keys) by {
      SortedNamesAscend(items, names);
      AscendingIsStrict(winners.Keys);
      AscendingListsAgree(names, Ascending(winners.Keys));
    }
    SamePieces(sorted, winners, names);
  }

  lemma SamePieces(sorted: Items, winners: map<string, Winner>, names: seq<string>)
    requires |names| == |sorted|
    requires forall n :: n in names ==> n in winners
    requires forall i :: 0 <= i < |names| ==> names[i] == sorted[i].name && sorted[i].winner == winners[names[i]]
    ensures PiecesOfItems(sorted) == Pieces(names, winners)
  {
  }

  lemma SortedNamesCover(sorted: Items, winners: map<string, Winner>, names: seq<string>)
    requires forall p :: p in sorted ==> p.name in winners && winners[p.name] == p.winner
    requires forall n :: n in winners ==> Item(n, winners[n]) in sorted
    requires |names| == |sorted| && forall i :: 0 <= i < |names| ==> names[i] == sorted[i].name
    ensures forall n :: n in names <==> n in winners
    ensures forall i :: 0 <= i < |names| ==> names[i] == sorted[i].name && sorted[i].winner == winners[names[i]]
  {
    assert forall i :: 0 <= i < |sorted| ==> sorted[i] in sorted;
    forall n | n in winners ensures n in names {
      var i :| 0 <= i < |sorted| && sorted[i] == Item(n, winners[n]);
      assert names[i] == n;
    }
  }

  lemma SortedNamesAscend(items: Items, names: seq<string>)
    requires NamesDistinct(items)
    requires var sorted := StableSort.Sort(items, ItemsBefore);
             |names| == |sorted| && forall i :: 0 <= i < |names| ==> names[i] == sorted[i].name
    ensures StrictlyAscending(names)
  {
    var sorted := StableSort.Sort(items, ItemsBefore);
    ItemsOrderIsStrictWeak();
    StableSort.SortOrdered(items, ItemsBefore);
    SortKeepsNamesDistinct(items);
    forall i, j | 0 <= i < j < |names| ensures Less(names[i], names[j]) {
      assert !ItemsBefore(sorted[j], sorted[i]);
      LessTotal(names[i], names[j]);
    }
  }

  // ---- The text determines the winners -------------------------------------

  ghost predicate Lacks(s: string, c: char) {
    forall i :: 0 <= i < |s| ==> s[i] != c
  }

  predicate HexDigit(c: char) {
    '0' <= c <= '9' || 'a' <= c <= 'f'
  }

  ghost predicate Separable(winners: map<string, Winner>) {
    forall n :: n in winners ==>
      && Lacks(n, '=') && Lacks(n, '|')
      && Lacks(winners[n].recordId, '|')
      && forall i :: 0 <= i < |winners[n].valueHash| ==> HexDigit(winners[n].valueHash[i])
  }

  lemma SplitAtFirst(c: char, a: string, x: string, b: string, y: string)
    requires Lacks(a, c) && Lacks(b, c)
    requires a + [c] + x == b + [c] + y
    ensures a == b && x == y
  {
    var s, t := a + [c] + x, b + [c] + y;
    assert s[|a|] == c && t[|b|] == c;
    assert forall i :: 0 <= i < |a| ==> s[i] == a[i];
    assert forall i :: 0 <= i < |b| ==> t[i] == b[i];
    assert |a| == |b|;
    assert a == s[..|a|] && b == t[..|b|];
    assert x == s[|a| + 1..] && y == t[|b| + 1..];
  }

  lemma SplitAtLast(c: char, x: string, a: string, y: string, b: string)
    requires Lacks(a, c) && Lacks(b, c)
    requires x + [c] + a == y + [c] + b
    ensures a == b && x == y
  {
    var s, t := x + [c] + a, y + [c] + b;
    assert s[|x|] == c && t[|y|] == c;
    assert forall i :: |x| < i < |s| ==> s[i] == a[i - |x| - 1];
    assert forall i :: |y| < i < |t| ==> t[i] == b[i - |y| - 1];
    assert |x| == |y|;
    assert x == s[..|x|] && y == t[..|y|];
    assert a == s[|x| + 1..] && b == t[|y| + 1..];
  }

  /** Nonempty pieces that contain no separator. */
  ghost predicate Whole(pieces: seq<string>) {
    forall i :: 0 <= i < |pieces| ==> pieces[i] != "" && Lacks(pieces[i], '|')
  }

  lemma {:induction false} JoinInjective(xs: seq<string>, ys: seq<string>)
    requires Whole(xs) && Whole(ys)
    requires Join(xs) == Join(ys)
    ensures xs == ys
  {
    if |xs| >= 2 && |ys| >= 2 {
      SplitAtFirst('|', xs[0], Join(xs[1..]), ys[0], Join(ys[1..]));
      JoinInjective(xs[1..], ys[1..]);
      assert xs == [xs[0]] + xs[1..] && ys == [ys[0]] + ys[1..];
    } else {
      JoinOfMany(xs);
      JoinOfMany(ys);
    }
  }

  lemma JoinOfMany(xs: seq<string>)
    ensures |xs| >= 2 ==> |xs[0]| < |Join(xs)| && Join(xs)[|xs[0]|] == '|'
  {
  }

  lemma PieceInjective(n: string, w: Winner, m: string, v: Winner)
    requires Separable(map[n := w]) && Separable(map[m := v])
    requires Piece(n, w) == Piece(m, v)
    ensures n == m && w == v
  {
    assert n in map[n := w] && m in map[m := v];
    assert Piece(n, w) == n + ['='] + (w.recordId + ":" + w.valueHash);
    assert Piece(m, v) == m + ['='] + (v.recordId + ":" + v.valueHash);
    SplitAtFirst('=', n, w.recordId + ":" + w.valueHash, m, v.recordId + ":" + v.valueHash);
    SplitAtLast(':', w.recordId, w.valueHash, v.recordId, v.valueHash);
  }

  lemma PieceIsWhole(n: string, w: Winner)
    requires Separable(map[n := w])
    ensures Piece(n, w) != "" && Lacks(Piece(n, w), '|')
  {
    assert n in map[n := w];
  }

  lemma PiecesAreWhole(winners: map<string, Winner>)
    requires Separable(winners)
    ensures Whole(Pieces(Ascending(winners.Keys), winners))
  {
    var names := Ascending(winners.Keys);
    forall i | 0 <= i < |names|
      ensures Pieces(names, winners)[i] != "" && Lacks(Pieces(names, winners)[i], '|')
    {
      assert names[i] in names;
      PieceIsWhole(names[i], winners[names[i]]);
    }
  }

  /** Distinct winners have distinct summaries. */
  lemma SummaryInjective(a: map<string, Winner>, b: map<string, Winner>)
    requires Separable(a) && Separable(b)
    requires Summary(a) == Summary(b)
    ensures a == b
  {
    var ns, ms := Ascending(a.Keys), Ascending(b.Keys);
    assert Pieces(ns, a) == Pieces(ms, b) by {
      PiecesAreWhole(a);
      PiecesAreWhole(b);
      JoinInjective(Pieces(ns, a), Pieces(ms, b));
    }
    PiecesAgree(a, ns, b, ms);
    SameNamesSameMap(a, ns, b);
  }

  lemma SameNamesSameMap(a: map<string, Winner>, ns: seq<string>, b: map<string, Winner>)
    requires forall n :: n in ns <==> n in a
    requires forall n :: n in ns <==> n in b
    requires forall n :: n in ns ==> a[n] == b[n]
    ensures a == b
  {
    assert a.Keys == b.Keys;
  }

  lemma PiecesAgree(a: map<string, Winner>, ns: seq<string>, b: map<string, Winner>, ms: seq<string>)
    requires Separable(a) && Separable(b)
    requires forall n :: n in ns ==> n in a
    requires forall n :: n in ms ==> n in b
    requires Pieces(ns, a) == Pieces(ms, b)
    ensures ns == ms && forall n :: n in ns ==> a[n] == b[n]
  {
    forall i | 0 <= i < |ns| ensures ns[i] == ms[i] && a[ns[i]] == b[ns[i]] {
      assert ns[i] in ns && ms[i] in ms;
      assert Pieces(ns, a)[i] == Pieces(ms, b)[i];
      PieceInjective(ns[i], a[ns[i]], ms[i], b[ms[i]]);
    }
  }

  ghost predicate CollisionFree(sha256: string -> string) {
    forall s, t :: sha256(s) == sha256(t) ==> s == t
  }

  /** With a collision-free hash, an unchanged provenance hash means unchanged winners. */
  lemma DigestInjective(sha256: string -> string, a: map<string, Winner>, b: map<string, Winner>)
    requires CollisionFree(sha256) && Separable(a) && Separable(b)
    ensures Digest(sha256, a) == Digest(sha256, b) <==> a == b
  {
    if Digest(sha256, a) == Digest(sha256, b) {
      assert Digest(sha256, a)[7..] == sha256(Summary(a)) && Digest(sha256, b)[7..] == sha256(Summary(b));
      SummaryInjective(a, b);
    }
  }

  lemma SummaryOfNames(winners: map<string, Winner>, names: seq<string>)
    requires StrictlyAscending(names) && forall n :: n in names <==> n in winners
    ensures Summary(winners) == Join(Pieces(names, winners))
  {
    AscendingIsStrict(winners.Keys);
    AscendingListsAgree(names, Ascending(winners.Keys));
  }

  /** Why record ids must lack `|`: any two-attribute golden record prints like some one-attribute one. */
  lemma SeparatorInRecordIdCollides(x: string, v: Winner, y: string, w: Winner)
    requires Less(x, y)
    ensures Summary(map[x := Winner(v.recordId + ":" + v.valueHash + "|" + y + "=" + w.recordId, w.valueHash)])
         == Summary(map[x := v, y := w])
  {
    LessAsymmetric(x, y);
    var id := v.recordId + ":" + v.valueHash + "|" + y + "=" + w.recordId;
    var one, two := map[x := Winner(id, w.valueHash)], map[x := v, y := w];
    assert Summary(one) == Piece(x, Winner(id, w.valueHash)) by {
      SummaryOfNames(one, [x]);
    }
    assert Summary(two) == Piece(x, v) + "|" + Piece(y, w) by {
      SummaryOfNames(two, [x, y]);
      JoinOfTwo(Pieces([x, y], two));
    }
    PieceAbsorbs(x, v, y, w);
  }

  lemma JoinOfTwo(ps: seq<string>)
    requires |ps| == 2
    ensures Join(ps) == ps[0] + "|" + ps[1]
  {
    assert ps[1..] == [ps[1]];
  }

  lemma PieceAbsorbs(x: string, v: Winner, y: string, w: Winner)
    ensures Piece(x, Winner(v.recordId + ":" + v.valueHash + "|" + y + "=" + w.recordId, w.valueHash))
         == Piece(x, v) + "|" + Piece(y, w)
  {
  }
}
