/** Python's stable `list.sort` under a strict comparison, and the element it puts first. */
module StableSort {

  ghost predicate StrictWeakOrder<T(!new)>(before: (T, T) -> bool) {
    && (forall a, b :: before(a, b) ==> !before(b, a))
    && (forall a, b, c :: before(a, b) && before(b, c) ==> before(a, c))
    && (forall a, b, c :: !before(a, b) && !before(b, c) ==> !before(a, c))
  }

  function Insert<T>(x: T, s: seq<T>, before: (T, T) -> bool): (r: seq<T>)
    ensures multiset(r) == multiset([x]) + multiset(s)
  {
    if s == [] || !before(s[0], x) then [x] + s
    else
      assert s == [s[0]] + s[1..];
      [s[0]] + Insert(x, s[1..], before)
  }

  function Sort<T>(s: seq<T>, before: (T, T) -> bool): (r: seq<T>)
    ensures multiset(r) == multiset(s)
    ensures |r| == |s|
  {
    if s == [] then []
    else
      assert s == [s[0]] + s[1..];
      var r := Insert(s[0], Sort(s[1..], before), before);
      assert |multiset(r)| == |multiset(s)|;
      r
  }

  lemma SortMembers<T>(s: seq<T>, before: (T, T) -> bool)
    ensures forall x :: x in Sort(s, before) <==> x in s
  {
    var r := Sort(s, before);
    forall x ensures x in r <==> x in s {
      assert x in multiset(r) <==> x in multiset(s);
    }
  }

  /** The earliest element that nothing else comes before. */
  function Best<T>(s: seq<T>, before: (T, T) -> bool): (b: T)
    requires s != []
    ensures b in s
  {
    if |s| == 1 then s[0]
    else
      var b := Best(s[1..], before);
      if before(b, s[0]) then b else s[0]
  }

  lemma {:induction false} SortHead<T>(s: seq<T>, before: (T, T) -> bool)
    requires s != []
    ensures Sort(s, before)[0] == Best(s, before)
  {
    if |s| > 1 {
      SortHead(s[1..], before);
    } else {
      assert Sort(s[1..], before) == [];
    }
  }

  /** Where nothing comes before anything, the first one wins. */
  lemma {:induction false} BestOfEquals<T(!new)>(s: seq<T>, before: (T, T) -> bool)
    requires s != [] && forall x, y :: !before(x, y)
    ensures Best(s, before) == s[0]
  {
    if |s| > 1 {
      BestOfEquals(s[1..], before);
    }
  }

  ghost predicate Ordered<T>(s: seq<T>, before: (T, T) -> bool) {
    forall i, j :: 0 <= i < j < |s| ==> !before(s[j], s[i])
  }

  lemma {:induction false} InsertOrdered<T(!new)>(x: T, s: seq<T>, before: (T, T) -> bool)
    requires StrictWeakOrder(before) && Ordered(s, before)
    ensures Ordered(Insert(x, s, before), before)
  {
    var r := Insert(x, s, before);
    if s != [] {
      if before(s[0], x) {
        InsertOrdered(x, s[1..], before);
        var tail := Insert(x, s[1..], before);
        assert r == [s[0]] + tail;
        forall j | 0 <= j < |tail| ensures !before(tail[j], s[0]) {
          assert tail[j] in multiset(tail);
          assert tail[j] == x || tail[j] in s[1..];
        }
      } else {
        forall j | 0 <= j < |s| ensures !before(s[j], x) {
          if j > 0 { assert !before(s[j], s[0]); }
        }
      }
    }
  }

  lemma {:induction false} SortOrdered<T(!new)>(s: seq<T>, before: (T, T) -> bool)
    requires StrictWeakOrder(before)
    ensures Ordered(Sort(s, before), before)
  {
    if s != [] {
      SortOrdered(s[1..], before);
      InsertOrdered(s[0], Sort(s[1..], before), before);
    }
  }

  lemma {:induction false} BestIsBest<T(!new)>(s: seq<T>, before: (T, T) -> bool)
    requires s != [] && StrictWeakOrder(before)
    ensures forall y | y in s :: !before(y, Best(s, before))
  {
    if |s| > 1 {
      BestIsBest(s[1..], before);
      forall y | y in s ensures !before(y, Best(s, before)) {
        assert y == s[0] || y in s[1..];
      }
    }
  }

  /** One newcomer at the end: it wins only by coming strictly before the standing winner. */
  lemma {:induction false} BestSnoc<T(!new)>(s: seq<T>, x: T, before: (T, T) -> bool)
    requires s != [] && StrictWeakOrder(before)
    ensures Best(s + [x], before) == if before(x, Best(s, before)) then x else Best(s, before)
  {
    assert (s + [x])[1..] == s[1..] + [x];
    if |s| > 1 {
      BestSnoc(s[1..], x, before);
    }
  }

  function Keep<T(!new)>(s: seq<T>, p: T -> bool): (r: seq<T>)
    ensures forall x :: x in r <==> x in s && p(x)
  {
    if s == [] then []
    else
      var last := s[|s| - 1];
      Keep(s[..|s| - 1], p) + if p(last) then [last] else []
  }

  /** Dropping elements other than the winner leaves the winner. */
  lemma LastIsKept<T(!new)>(s: seq<T>, p: T -> bool, x: T)
    ensures Keep(s + [x], p) == if p(x) then Keep(s, p) + [x] else Keep(s, p)
  {
    assert (s + [x])[..|s|] == s;
  }

  lemma {:induction false} BestOfKept<T(!new)>(s: seq<T>, p: T -> bool, before: (T, T) -> bool)
    requires s != [] && StrictWeakOrder(before) && p(Best(s, before))
    ensures Keep(s, p) != [] && Best(Keep(s, p), before) == Best(s, before)
  {
    if |s| > 1 {
      var init, x := s[..|s| - 1], s[|s| - 1];
      assert s == init + [x];
      BestSnoc(init, x, before);
      if before(x, Best(init, before)) {
        NewcomerBeatsKept(init, p, before, x);
      } else {
        BestOfKept(init, p, before);
        LastIsKept(init, p, x);
        if p(x) {
          BestSnoc(Keep(init, p), x, before);
        }
      }
    }
  }

  lemma NewcomerBeatsKept<T(!new)>(s: seq<T>, p: T -> bool, before: (T, T) -> bool, x: T)
    requires s != [] && StrictWeakOrder(before) && before(x, Best(s, before))
    ensures Best(Keep(s, p) + [x], before) == x
  {
    if Keep(s, p) != [] {
      BestIsBest(s, before);
      assert Best(Keep(s, p), before) in s;
      BestSnoc(Keep(s, p), x, before);
    }
  }

  /** Of two lists joined, the second one's winner wins only by coming strictly before the first one's. */
  lemma {:induction false} BestOfJoined<T(!new)>(s: seq<T>, t: seq<T>, before: (T, T) -> bool)
    requires s != [] && t != [] && StrictWeakOrder(before)
    ensures Best(s + t, before) == if before(Best(t, before), Best(s, before)) then Best(t, before) else Best(s, before)
  {
    if |s| == 1 {
      assert (s + t)[1..] == t;
    } else {
      assert (s + t)[1..] == s[1..] + t;
      BestOfJoined(s[1..], t, before);
    }
  }

  /** An element inserted between two lists wins if and only if it comes strictly before everything listed
      earlier, and nothing listed later comes before it. */
  lemma BestInserted<T(!new)>(s: seq<T>, x: T, t: seq<T>, before: (T, T) -> bool)
    requires StrictWeakOrder(before)
    ensures var takes := (forall y | y in s :: before(x, y)) && (forall y | y in t :: !before(y, x));
            if takes then Best(s + [x] + t, before) == x
            else s + t != [] && Best(s + [x] + t, before) == Best(s + t, before)
  {
    if s != [] {
      BestIsBest(s, before);
      BestSnoc(s, x, before);
    }
    if t != [] {
      BestIsBest(t, before);
      BestOfJoined(s + [x], t, before);
      if s != [] {
        BestOfJoined(s, t, before);
      } else {
        assert s + [x] == [x] && s + t == t;
      }
    } else {
      assert s + [x] + t == s + [x] && s + t == s;
    }
  }

  /** Nothing ties with the winner. */
  ghost predicate WinsClearly<T(!new)>(s: seq<T>, before: (T, T) -> bool)
    requires s != []
  {
    forall x | x in s && x != Best(s, before) :: before(Best(s, before), x)
  }

  lemma ClearWinnerStays<T(!new)>(s: seq<T>, t: seq<T>, before: (T, T) -> bool)
    requires s != [] && multiset(s) == multiset(t) && StrictWeakOrder(before) && WinsClearly(s, before)
    ensures t != [] && Best(t, before) == Best(s, before)
  {
    assert s[0] in multiset(t);
    BestIsBest(t, before);
    var b, c := Best(s, before), Best(t, before);
    assert c in multiset(s) && b in multiset(t);
    assert c in s && b in t;
    assert !before(b, c);
  }

  lemma TiedTakesTheHead<T(!new)>(s: seq<T>, x: T, before: (T, T) -> bool)
    requires StrictWeakOrder(before) && forall y | y in s :: !before(y, x)
    ensures Best([x] + s, before) == x
  {
    assert ([x] + s)[1..] == s;
  }

  /** The winner does not depend on the listing order if and only if nothing ties with it. */
  lemma OrderIsIrrelevantIff<T(!new)>(s: seq<T>, before: (T, T) -> bool)
    requires s != [] && StrictWeakOrder(before)
    ensures (forall t: seq<T> | t != [] && multiset(t) == multiset(s) :: Best(t, before) == Best(s, before))
            <==> WinsClearly(s, before)
  {
    if WinsClearly(s, before) {
      forall t: seq<T> | t != [] && multiset(t) == multiset(s) ensures Best(t, before) == Best(s, before) {
        ClearWinnerStays(s, t, before);
      }
    } else {
      var x :| x in s && x != Best(s, before) && !before(Best(s, before), x);
      var t := TiedFirst(s, x, before);
    }
  }

  lemma OthersOf<T(!new)>(s: seq<T>, x: T) returns (rest: seq<T>)
    requires x in s
    ensures multiset([x] + rest) == multiset(s) && forall y | y in rest :: y in s
  {
    var i :| 0 <= i < |s| && s[i] == x;
    rest := s[..i] + s[i + 1..];
    assert s == s[..i] + [s[i]] + s[i + 1..];
  }

  /** A listing in which an element that ties with the winner wins. */
  lemma TiedFirst<T(!new)>(s: seq<T>, x: T, before: (T, T) -> bool) returns (t: seq<T>)
    requires s != [] && StrictWeakOrder(before) && x in s && !before(Best(s, before), x)
    ensures t != [] && multiset(t) == multiset(s) && t[0] == x && Best(t, before) == x
  {
    var rest := OthersOf(s, x);
    t := [x] + rest;
    BestIsBest(s, before);
    forall y | y in rest ensures !before(y, x) {
      assert !before(y, Best(s, before));
    }
    TiedTakesTheHead(rest, x, before);
  }
}
