/** Jaro-Winkler similarity over the reals. */
module TextSimilarity {
  import opened Text

  // ---- Flags ----------------------------------------------------------------------

  function Count(flags: seq<bool>): nat {
    if flags == [] then 0 else Count(flags[..|flags| - 1]) + if flags[|flags| - 1] then 1 else 0
  }

  /** The flagged characters, in order. */
  function Selected(s: string, flags: seq<bool>): (r: string)
    requires |flags| == |s|
    ensures |r| == Count(flags)
  {
    if s == [] then []
    else
      var n := |s| - 1;
      Selected(s[..n], flags[..n]) + if flags[n] then [s[n]] else []
  }

  /** In how many places two texts of equal length differ. */
  function Differences(x: string, y: string): (r: nat)
    requires |x| == |y|
    ensures r <= |x|
  {
    if x == [] then 0
    else
      var n := |x| - 1;
      Differences(x[..n], y[..n]) + if x[n] != y[n] then 1 else 0
  }

  lemma {:induction false} CountSet(flags: seq<bool>, i: nat)
    requires i < |flags| && !flags[i]
    ensures Count(flags[i := true]) == Count(flags) + 1
  {
    var n := |flags| - 1;
    if i < n {
      CountSet(flags[..n], i);
      assert flags[i := true][..n] == flags[..n][i := true];
    } else {
      assert flags[i := true][..n] == flags[..n];
    }
  }

  lemma {:induction false} CountBounds(flags: seq<bool>)
    ensures Count(flags) <= |flags|
    ensures Count(flags) == |flags| <==> forall i :: 0 <= i < |flags| ==> flags[i]
    ensures Count(flags) == 0 <==> forall i :: 0 <= i < |flags| ==> !flags[i]
  {
    if flags != [] {
      var n := |flags| - 1;
      CountBounds(flags[..n]);
      assert forall i :: 0 <= i < n ==> flags[..n][i] == flags[i];
    }
  }

  lemma {:induction false} CountMonotone(flags: seq<bool>, k: nat)
    requires k <= |flags|
    ensures Count(flags[..k]) <= Count(flags)
  {
    var n := |flags| - 1;
    if k <= n {
      CountMonotone(flags[..n], k);
      assert flags[..n][..k] == flags[..k];
    } else {
      assert flags[..k] == flags;
    }
  }

  /** Where a prefix holds all the flags, it holds all the flagged characters. */
  lemma {:induction false} SelectedInPrefix(s: string, flags: seq<bool>, k: nat)
    requires |flags| == |s| && k <= |s| && Count(flags[..k]) == Count(flags)
    ensures Selected(s[..k], flags[..k]) == Selected(s, flags)
  {
    var n := |s| - 1;
    if k <= n {
      CountMonotone(flags[..n], k);
      assert flags[..n][..k] == flags[..k] && s[..n][..k] == s[..k];
      SelectedInPrefix(s[..n], flags[..n], k);
    } else {
      assert flags[..k] == flags && s[..k] == s;
    }
  }

  lemma SelectedNext(s: string, flags: seq<bool>, k: nat)
    requires |flags| == |s| && k < |s|
    ensures Count(flags[..k + 1]) == Count(flags[..k]) + if flags[k] then 1 else 0
    ensures var before, after := Selected(s[..k], flags[..k]), Selected(s[..k + 1], flags[..k + 1]);
            if flags[k] then after == before + [s[k]] else after == before
  {
    assert flags[..k + 1][..k] == flags[..k] && s[..k + 1][..k] == s[..k];
  }

  lemma {:induction false} SelectedAll(s: string, flags: seq<bool>)
    requires |flags| == |s| && forall i :: 0 <= i < |flags| ==> flags[i]
    ensures Selected(s, flags) == s
  {
    if s != [] {
      var n := |s| - 1;
      SelectedAll(s[..n], flags[..n]);
    }
  }

  lemma {:induction false} NoDifference(x: string, y: string)
    requires |x| == |y|
    ensures Differences(x, y) == 0 <==> x == y
  {
    if x != [] {
      var n := |x| - 1;
      NoDifference(x[..n], y[..n]);
      assert x == x[..n] + [x[n]] && y == y[..n] + [y[n]];
    }
  }

  lemma DifferencesNext(x: string, y: string, c: char, d: char)
    requires |x| == |y|
    ensures Differences(x + [c], y + [d]) == Differences(x, y) + if c != d then 1 else 0
  {
    assert (x + [c])[..|x|] == x && (y + [d])[..|y|] == y;
  }

  // ---- Matching -----------------------------------------------------------------------

  datatype Flags = Flags(first: seq<bool>, second: seq<bool>)

  function Unset(n: nat): (r: seq<bool>)
    ensures |r| == n && forall i :: 0 <= i < n ==> !r[i]
  {
    seq(n, _ => false)
  }

  function MatchDistance(a: string, b: string): nat {
    var half := (if |a| > |b| then |a| else |b|) / 2 - 1;
    if half < 0 then 0 else half
  }

  function WindowStart(i: nat, distance: nat): nat {
    if i <= distance then 0 else i - distance
  }

  function WindowEnd(i: nat, distance: nat, size: nat): nat {
    if i + distance + 1 <= size then i + distance + 1 else size
  }

  /** The first place from `j` up to `end` that is free and holds the character; else `end`. */
  function FirstFree(c: char, b: string, taken: seq<bool>, j: nat, end: nat): (k: nat)
    requires |taken| == |b| && j <= end <= |b|
    ensures j <= k <= end
    ensures k < end ==> !taken[k] && b[k] == c
    ensures forall x :: j <= x < k ==> taken[x] || b[x] != c
    decreases end - j
  {
    if j == end || (!taken[j] && b[j] == c) then j else FirstFree(c, b, taken, j + 1, end)
  }

  /** Matches `a[i]` with the first free equal character within the distance, if there is one. */
  function WithMatch(a: string, b: string, distance: nat, i: nat, f: Flags): (r: Flags)
    requires i < |a| && |f.first| == |a| && |f.second| == |b|
    ensures |r.first| == |a| && |r.second| == |b|
  {
    var start, end := WindowStart(i, distance), WindowEnd(i, distance, |b|);
    if start >= end then f
    else
      var j := FirstFree(a[i], b, f.second, start, end);
      if j == end then f else Flags(f.first[i := true], f.second[j := true])
  }

  /** The matches of the first `n` characters of `a`. */
  function Matches(a: string, b: string, distance: nat, n: nat): (r: Flags)
    requires n <= |a|
    ensures |r.first| == |a| && |r.second| == |b|
  {
    if n == 0 then Flags(Unset(|a|), Unset(|b|))
    else WithMatch(a, b, distance, n - 1, Matches(a, b, distance, n - 1))
  }

  /** `a[i]` and `b[j]` are equal and no further apart than the distance. */
  predicate Matchable(a: string, b: string, distance: nat, i: nat, j: nat)
    requires i < |a| && j < |b|
  {
    a[i] == b[j] && i <= j + distance && j <= i + distance
  }

  /** As many characters are matched in `a` as in `b`, and the same ones; of `a` only the first `n`. */
  predicate PairedOff(a: string, b: string, f: Flags, n: nat) {
    && |f.first| == |a| && |f.second| == |b|
    && Count(f.first) == Count(f.second)
    && multiset(Selected(a, f.first)) == multiset(Selected(b, f.second))
    && (forall i :: n <= i < |a| ==> !f.first[i])
  }

  lemma MatchAdded(a: string, b: string, f: Flags, n: nat, j: nat)
    requires PairedOff(a, b, f, n) && n < |a| && j < |b| && !f.second[j] && a[n] == b[j]
    ensures PairedOff(a, b, Flags(f.first[n := true], f.second[j := true]), n + 1)
  {
    CountSet(f.first, n);
    CountSet(f.second, j);
    SelectedSet(a, f.first, n);
    SelectedSet(b, f.second, j);
  }

  lemma WithMatchPairsOff(a: string, b: string, distance: nat, i: nat, f: Flags)
    requires i < |a| && PairedOff(a, b, f, i)
    ensures PairedOff(a, b, WithMatch(a, b, distance, i, f), i + 1)
  {
    var start, end := WindowStart(i, distance), WindowEnd(i, distance, |b|);
    if start < end {
      var j := FirstFree(a[i], b, f.second, start, end);
      if j < end {
        MatchAdded(a, b, f, i, j);
      }
    }
  }

  lemma NothingPairsOff(a: string, b: string)
    ensures PairedOff(a, b, Flags(Unset(|a|), Unset(|b|)), 0)
  {
    CountBounds(Unset(|a|));
    CountBounds(Unset(|b|));
  }

  lemma {:induction false} MatchesPairOff(a: string, b: string, distance: nat, n: nat)
    requires n <= |a|
    ensures PairedOff(a, b, Matches(a, b, distance, n), n)
  {
    if n == 0 {
      NothingPairsOff(a, b);
    } else {
      MatchesPairOff(a, b, distance, n - 1);
      WithMatchPairsOff(a, b, distance, n - 1, Matches(a, b, distance, n - 1));
    }
  }

  lemma SameCount(a: string, b: string, distance: nat, n: nat)
    requires n <= |a|
    ensures var f := Matches(a, b, distance, n); Count(f.first) == Count(f.second)
  {
    MatchesPairOff(a, b, distance, n);
  }

  lemma LaterUnmatched(a: string, b: string, distance: nat, i: nat)
    requires i < |a|
    ensures !Matches(a, b, distance, i).first[i]
  {
    MatchesPairOff(a, b, distance, i);
  }

  lemma {:induction false} SelectedSet(s: string, flags: seq<bool>, i: nat)
    requires |flags| == |s| && i < |s| && !flags[i]
    ensures multiset(Selected(s, flags[i := true])) == multiset(Selected(s, flags)) + multiset{s[i]}
  {
    var n := |s| - 1;
    if i < n {
      SelectedSet(s[..n], flags[..n], i);
      assert flags[i := true][..n] == flags[..n][i := true];
    } else {
      assert flags[i := true][..n] == flags[..n];
    }
  }

  /** No further pair could be matched: of two matchable characters at least one is matched. */
  lemma {:induction false} MatchesAreMaximal(a: string, b: string, distance: nat, n: nat, i: nat, j: nat)
    requires n <= |a| && i < n && j < |b| && Matchable(a, b, distance, i, j)
    ensures var f := Matches(a, b, distance, n); f.first[i] || f.second[j]
  {
    if i < n - 1 {
      MatchesAreMaximal(a, b, distance, n - 1, i, j);
    }
  }

  /** Something is matched exactly if something is matchable. */
  lemma MatchedIffMatchable(a: string, b: string, distance: nat)
    ensures Count(Matches(a, b, distance, |a|).first) > 0
            <==> exists i: nat, j: nat :: i < |a| && j < |b| && Matchable(a, b, distance, i, j)
  {
    var f := Matches(a, b, distance, |a|);
    MatchesPairOff(a, b, distance, |a|);
    CountBounds(f.first);
    CountBounds(f.second);
    if i: nat, j: nat :| i < |a| && j < |b| && Matchable(a, b, distance, i, j) {
      MatchesAreMaximal(a, b, distance, |a|, i, j);
    }
    if Count(f.first) > 0 {
      MatchedWasMatchable(a, b, distance, |a|);
    }
  }

  lemma {:induction false} MatchedWasMatchable(a: string, b: string, distance: nat, n: nat)
    requires n <= |a| && Count(Matches(a, b, distance, n).first) > 0
    ensures exists i: nat, j: nat :: i < |a| && j < |b| && Matchable(a, b, distance, i, j)
  {
    if n == 0 {
      CountBounds(Matches(a, b, distance, 0).first);
      assert false;
    } else {
      var before := Matches(a, b, distance, n - 1);
      var start, end := WindowStart(n - 1, distance), WindowEnd(n - 1, distance, |b|);
      if Count(before.first) > 0 {
        MatchedWasMatchable(a, b, distance, n - 1);
      } else {
        var j := FirstFree(a[n - 1], b, before.second, start, end);
        assert Matchable(a, b, distance, n - 1, j);
      }
    }
  }

  // ---- The similarity ---------------------------------------------------------------------

  function CommonPrefix(a: string, b: string, limit: nat): (n: nat)
    ensures n <= limit && n <= |a| && n <= |b|
  {
    if limit == 0 || a == [] || b == [] || a[0] != b[0] then 0
    else 1 + CommonPrefix(a[1..], b[1..], limit - 1)
  }

  /** The mean of the matched share of each text and the share of matches in place. */
  function Jaro(size1: nat, size2: nat, matches: nat, moved: nat): real
    requires size1 > 0 && size2 > 0
  {
    if matches == 0 then 0.0
    else (matches as real / size1 as real
          + matches as real / size2 as real
          + (matches as real - moved as real / 2.0) / matches as real) / 3.0
  }

  /** Matched characters that differ from their counterparts, each list taken in order. */
  function Transpositions(a: string, b: string): (r: nat)
    ensures var f := Matches(a, b, MatchDistance(a, b), |a|); r <= Count(f.first) == Count(f.second)
  {
    SameCount(a, b, MatchDistance(a, b), |a|);
    var f := Matches(a, b, MatchDistance(a, b), |a|);
    Differences(Selected(a, f.first), Selected(b, f.second))
  }

  function JaroOf(a: string, b: string): real
    requires a != [] && b != []
  {
    Jaro(|a|, |b|, Count(Matches(a, b, MatchDistance(a, b), |a|).first), Transpositions(a, b))
  }

  function Boosted(jaro: real, prefix: nat, scale: real): real {
    jaro + prefix as real * scale * (1.0 - jaro)
  }

  function Normalised(s: string): string {
    Lower(Strip(s))
  }

  /** The similarity before it is capped at 1. */
  function Uncapped(a: string, b: string, scale: real): real {
    if a == b then 1.0
    else if a == [] || b == [] then 0.0
    else Boosted(JaroOf(a, b), CommonPrefix(a, b, 4), scale)
  }

  function Similarity(a: string, b: string, scale: real): real {
    if Uncapped(a, b, scale) <= 1.0 then Uncapped(a, b, scale) else 1.0
  }

  lemma ShareIsProper(part: real, whole: real)
    requires 0.0 <= part <= whole && whole > 0.0
    ensures 0.0 <= part / whole <= 1.0
    ensures part / whole == 1.0 <==> part == whole
    ensures part / whole == 0.0 <==> part == 0.0
  {
    var share := part / whole;
    assert share * whole == part;
  }

  lemma JaroInRange(size1: nat, size2: nat, matches: nat, moved: nat)
    requires 0 < size1 && 0 < size2 && moved <= matches <= size1 && matches <= size2
    ensures 0.0 <= Jaro(size1, size2, matches, moved) <= 1.0
    ensures Jaro(size1, size2, matches, moved) == 1.0 <==> matches == size1 == size2 && moved == 0
    ensures Jaro(size1, size2, matches, moved) == 0.0 <==> matches == 0
  {
    if matches > 0 {
      ShareIsProper(matches as real, size1 as real);
      ShareIsProper(matches as real, size2 as real);
      ShareIsProper(matches as real - moved as real / 2.0, matches as real);
    }
  }

  /** Jaro similarity lies in [0, 1], is 1 exactly for equal texts, and 0 exactly if nothing is matchable. */
  lemma JaroOfInRange(a: string, b: string)
    requires a != [] && b != []
    ensures 0.0 <= JaroOf(a, b) <= 1.0
    ensures JaroOf(a, b) == 1.0 ==> a == b
    ensures JaroOf(a, b) == 0.0
            <==> !exists i: nat, j: nat :: i < |a| && j < |b| && Matchable(a, b, MatchDistance(a, b), i, j)
  {
    var f := Matches(a, b, MatchDistance(a, b), |a|);
    MatchesPairOff(a, b, MatchDistance(a, b), |a|);
    MatchedIffMatchable(a, b, MatchDistance(a, b));
    CountBounds(f.first);
    CountBounds(f.second);
    JaroInRange(|a|, |b|, Count(f.first), Transpositions(a, b));
    if Count(f.first) == |a| == |b| && Transpositions(a, b) == 0 {
      SelectedAll(a, f.first);
      SelectedAll(b, f.second);
      NoDifference(a, b);
    }
  }

  lemma UnitProduct(x: real, y: real)
    requires 0.0 <= x <= 1.0 && 0.0 <= y <= 1.0
    ensures 0.0 <= x * y <= x
    ensures x > 0.0 && y > 0.0 ==> x * y > 0.0
  {
  }

  lemma BoostInRange(jaro: real, prefix: nat, scale: real)
    requires 0.0 <= jaro <= 1.0 && prefix <= 4 && 0.0 <= scale <= 0.25
    ensures jaro <= Boosted(jaro, prefix, scale) <= 1.0
    ensures scale < 0.25 && jaro < 1.0 ==> Boosted(jaro, prefix, scale) < 1.0
  {
    var share := prefix as real * scale;
    assert 0.0 <= share <= 4.0 * scale by {
      assert prefix == 0 || prefix == 1 || prefix == 2 || prefix == 3 || prefix == 4;
    }
    UnitProduct(1.0 - jaro, 1.0 - share);
    assert Boosted(jaro, prefix, scale) == 1.0 - (1.0 - jaro) * (1.0 - share);
  }

  /** Up to a scale of 1/4 the similarity is in [0, 1] without the cap, and below it is 1 exactly for equal
      texts. */
  lemma SimilarityInRange(a: string, b: string, scale: real)
    requires 0.0 <= scale <= 0.25
    ensures 0.0 <= Uncapped(a, b, scale) <= 1.0
    ensures scale < 0.25 ==> (Uncapped(a, b, scale) == 1.0 <==> a == b)
  {
    if a != b && a != [] && b != [] {
      JaroOfInRange(a, b);
      BoostInRange(JaroOf(a, b), CommonPrefix(a, b, 4), scale);
    }
  }

  lemma BoostAdds(jaro: real, prefix: nat, scale: real)
    requires 0.0 <= jaro <= 1.0 && 0.0 <= scale
    ensures jaro <= Boosted(jaro, prefix, scale)
  {
    Surplus(prefix as real, scale, 1.0 - jaro);
  }

  lemma Surplus(x: real, y: real, z: real)
    requires x >= 0.0 && y >= 0.0 && z >= 0.0
    ensures x * y * z >= 0.0
  {
    var share := x * y;
    SignOfProduct(x, y);
    SignOfProduct(share, z);
  }

  lemma NoPrefixNoBoost(jaro: real, scale: real)
    ensures Boosted(jaro, 0, scale) == jaro
  {
  }

  /** With the cap it is in [0, 1] for every scale from 0 on. */
  lemma CappedInRange(a: string, b: string, scale: real)
    requires 0.0 <= scale
    ensures 0.0 <= Similarity(a, b, scale) <= 1.0
  {
    if a != b && a != [] && b != [] {
      JaroOfInRange(a, b);
      BoostAdds(JaroOf(a, b), CommonPrefix(a, b, 4), scale);
    }
  }

  lemma {:induction false} SharedPrefix(w: string, x: string, y: string)
    ensures CommonPrefix(w + x, w + y, |w|) == |w|
  {
    if w != "" {
      assert (w + x)[1..] == w[1..] + x && (w + y)[1..] == w[1..] + y;
      SharedPrefix(w[1..], x, y);
    }
  }

  /** A prefix of four makes up for the rest at 1/4, and for more than that beyond. */
  lemma FullPrefix(jaro: real, scale: real)
    requires jaro < 1.0
    ensures scale >= 0.25 ==> Boosted(jaro, 4, scale) >= 1.0
    ensures scale > 0.25 ==> Boosted(jaro, 4, scale) > 1.0
  {
    var x, y := 1.0 - jaro, 4.0 * scale - 1.0;
    assert Boosted(jaro, 4, scale) == 1.0 + x * y;
    if scale >= 0.25 {
      SignOfProduct(x, y);
    }
  }

  lemma SignOfProduct(x: real, y: real)
    requires x >= 0.0 && y >= 0.0
    ensures x * y >= 0.0 && (x > 0.0 && y > 0.0 ==> x * y > 0.0)
  {
  }

  /** Two texts that share four characters and then differ. */
  lemma PrefixedPair(scale: real) returns (a: string, b: string)
    ensures a != b
    ensures scale >= 0.25 ==> Uncapped(a, b, scale) >= 1.0
    ensures scale > 0.25 ==> Uncapped(a, b, scale) > 1.0
  {
    a, b := "abcd" + "x", "abcd" + "y";
    assert a[4] == 'x' && b[4] == 'y';
    SharedPrefix("abcd", "x", "y");
    JaroOfInRange(a, b);
    FullPrefix(JaroOf(a, b), scale);
  }

  /** Similarity is 1 exactly for equal texts. */
  ghost predicate TellsTextsApart(scale: real) {
    forall a, b :: Similarity(a, b, scale) == 1.0 <==> a == b
  }

  /** For scales from 0 on, that holds if and only if the scale is below 1/4. */
  lemma TellsTextsApartIff(scale: real)
    requires 0.0 <= scale
    ensures TellsTextsApart(scale) <==> scale < 0.25
  {
    if scale < 0.25 {
      forall a, b ensures Similarity(a, b, scale) == 1.0 <==> a == b {
        SimilarityInRange(a, b, scale);
      }
    } else {
      var a, b := PrefixedPair(scale);
      assert Similarity(a, b, scale) == 1.0;
    }
  }

  /** The cap is never needed if and only if the scale is at most 1/4. */
  lemma CapIsIdleIff(scale: real)
    requires 0.0 <= scale
    ensures (forall a, b :: Uncapped(a, b, scale) <= 1.0) <==> scale <= 0.25
  {
    if scale <= 0.25 {
      forall a, b ensures Uncapped(a, b, scale) <= 1.0 {
        SimilarityInRange(a, b, scale);
      }
    } else {
      var a, b := PrefixedPair(scale);
    }
  }

  /** It is 0 exactly for different texts of which no two characters are matchable. */
  lemma ZeroIffNothingMatchable(a: string, b: string, scale: real)
    requires 0.0 <= scale
    ensures Uncapped(a, b, scale) == 0.0
            <==> a != b && !exists i: nat, j: nat :: i < |a| && j < |b| && Matchable(a, b, MatchDistance(a, b), i, j)
  {
    if a != b && a != [] && b != [] {
      JaroOfInRange(a, b);
      BoostAdds(JaroOf(a, b), CommonPrefix(a, b, 4), scale);
      if a[0] == b[0] {
        assert Matchable(a, b, MatchDistance(a, b), 0, 0);
      } else {
        NoPrefixNoBoost(JaroOf(a, b), scale);
      }
    }
  }

  // ---- The algorithm ------------------------------------------------------------------------

  /** Looks for a match of `a[i]` from left to right within its window. */
  method MarkMatch(a: string, b: string, distance: nat, i: nat, s1: array<bool>, s2: array<bool>) returns (found: bool)
    requires s1 != s2 && s1.Length == |a| && s2.Length == |b| && i < |a| && !s1[i]
    modifies s1, s2
    ensures Flags(s1[..], s2[..]) == WithMatch(a, b, distance, i, old(Flags(s1[..], s2[..])))
    ensures Count(s1[..]) == old(Count(s1[..])) + if found then 1 else 0
  {
    var start, end := WindowStart(i, distance), WindowEnd(i, distance, |b|);
    found := false;
    if start >= end {
      return;
    }
    for j := start to end
      invariant s1[..] == old(s1[..]) && s2[..] == old(s2[..])
      invariant FirstFree(a[i], b, s2[..], start, end) == FirstFree(a[i], b, s2[..], j, end)
    {
      if !s2[j] && a[i] == b[j] {
        CountSet(s1[..], i);
        s1[i] := true;
        s2[j] := true;
        assert s1[..] == old(s1[..])[i := true] && s2[..] == old(s2[..])[j := true];
        return true;
      }
    }
  }

  /** Marks the matches in two arrays. */
  method MarkMatches(a: string, b: string, distance: nat, s1: array<bool>, s2: array<bool>) returns (matches: nat)
    requires s1 != s2 && s1.Length == |a| && s2.Length == |b|
    requires s1[..] == Unset(|a|) && s2[..] == Unset(|b|)
    modifies s1, s2
    ensures Flags(s1[..], s2[..]) == Matches(a, b, distance, |a|)
    ensures matches == Count(s1[..])
  {
    matches := 0;
    ghost var f := Matches(a, b, distance, 0);
    CountBounds(f.first);
    for i := 0 to |a|
      invariant f == Matches(a, b, distance, i)
      invariant s1[..] == f.first && s2[..] == f.second && matches == Count(f.first)
    {
      LaterUnmatched(a, b, distance, i);
      var found := MarkMatch(a, b, distance, i, s1, s2);
      f := WithMatch(a, b, distance, i, f);
      if found {
        matches := matches + 1;
      }
    }
  }

  lemma CompareNext(a: string, b: string, f1: seq<bool>, f2: seq<bool>, i: nat, k: nat)
    requires |f1| == |a| && |f2| == |b| && i < |a| && k < |b| && f1[i] && f2[k]
    requires Count(f1[..i]) == Count(f2[..k])
    ensures Count(f1[..i + 1]) == Count(f2[..k + 1])
    ensures Differences(Selected(a[..i + 1], f1[..i + 1]), Selected(b[..k + 1], f2[..k + 1]))
         == Differences(Selected(a[..i], f1[..i]), Selected(b[..k], f2[..k])) + if a[i] != b[k] then 1 else 0
  {
    SelectedNext(a, f1, i);
    SelectedNext(b, f2, k);
    DifferencesNext(Selected(a[..i], f1[..i]), Selected(b[..k], f2[..k]), a[i], b[k]);
  }

  /** Scans for the next matched place in `b`. There is one, because there are as many matched places in
      `b` as in `a`, and one in `a` is left. */
  method NextMatched(b: string, s2: array<bool>, k: nat) returns (next: nat)
    requires s2.Length == |b| && k <= |b| && Count(s2[..][..k]) < Count(s2[..])
    ensures k <= next < |b| && s2[next]
    ensures Count(s2[..][..next]) == Count(s2[..][..k])
    ensures Selected(b[..next], s2[..][..next]) == Selected(b[..k], s2[..][..k])
  {
    ghost var f2 := s2[..];
    assert f2[..|b|] == f2;
    next := k;
    while !s2[next]
      invariant k <= next < |b|
      invariant Count(f2[..next]) == Count(f2[..k])
      invariant Selected(b[..next], f2[..next]) == Selected(b[..k], f2[..k])
      decreases |b| - next
    {
      SelectedNext(b, f2, next);
      next := next + 1;
    }
  }

  /** Compares the matched character at `i` with the next one in `b`. */
  method CompareMatched(a: string, b: string, ghost f1: seq<bool>, ghost f2: seq<bool>, s2: array<bool>, i: nat, k: nat)
    returns (next: nat, differ: bool)
    requires |f1| == |a| && |f2| == |b| && f2 == s2[..] && i < |a| && f1[i]
    requires k <= |b| && Count(f1) == Count(f2) && Count(f1[..i]) == Count(f2[..k])
    ensures next <= |b| && Count(f1[..i + 1]) == Count(f2[..next])
    ensures Differences(Selected(a[..i + 1], f1[..i + 1]), Selected(b[..next], f2[..next]))
         == Differences(Selected(a[..i], f1[..i]), Selected(b[..k], f2[..k])) + if differ then 1 else 0
  {
    SelectedNext(a, f1, i);
    CountMonotone(f1, i + 1);
    next := NextMatched(b, s2, k);
    CompareNext(a, b, f1, f2, i, next);
    differ := a[i] != b[next];
    next := next + 1;
  }

  /** Compares the matched characters in order. */
  method CountTranspositions(a: string, b: string, s1: array<bool>, s2: array<bool>) returns (transpositions: nat)
    requires s1.Length == |a| && s2.Length == |b| && Count(s1[..]) == Count(s2[..])
    ensures transpositions == Differences(Selected(a, s1[..]), Selected(b, s2[..]))
  {
    transpositions := 0;
    var k: nat := 0;
    ghost var f1, f2 := s1[..], s2[..];
    for i := 0 to |a|
      invariant k <= |b| && Count(f1[..i]) == Count(f2[..k])
      invariant transpositions == Differences(Selected(a[..i], f1[..i]), Selected(b[..k], f2[..k]))
    {
      SelectedNext(a, f1, i);
      if s1[i] {
        var differ;
        k, differ := CompareMatched(a, b, f1, f2, s2, i, k);
        if differ {
          transpositions := transpositions + 1;
        }
      }
    }
    AllCompared(a, b, f1, f2, k);
  }

  lemma AllCompared(a: string, b: string, f1: seq<bool>, f2: seq<bool>, k: nat)
    requires |f1| == |a| && |f2| == |b| && k <= |b| && Count(f1[..|a|]) == Count(f2[..k]) && Count(f1) == Count(f2)
    ensures Selected(a[..|a|], f1[..|a|]) == Selected(a, f1) && Selected(b[..k], f2[..k]) == Selected(b, f2)
  {
    assert f1[..|a|] == f1 && a[..|a|] == a;
    SelectedInPrefix(b, f2, k);
  }

  method CountCommonPrefix(a: string, b: string) returns (prefix: nat)
    ensures prefix == CommonPrefix(a, b, 4)
  {
    prefix := 0;
    for i := 0 to if |a| < |b| then |a| else |b|
      invariant prefix == i < 4
      invariant CommonPrefix(a, b, 4) == i + CommonPrefix(a[i..], b[i..], 4 - i)
    {
      if a[i] != b[i] {
        return;
      }
      assert a[i..][1..] == a[i + 1..] && b[i..][1..] == b[i + 1..];
      prefix := prefix + 1;
      if prefix == 4 {
        return;
      }
    }
  }

  /** The matches of two texts, and how many of them are out of place. */
  method CountMatches(a: string, b: string) returns (matches: nat, transpositions: nat)
    ensures matches == Count(Matches(a, b, MatchDistance(a, b), |a|).first)
    ensures transpositions == Transpositions(a, b)
  {
    var first, second := new bool[|a|](_ => false), new bool[|b|](_ => false);
    assert first[..] == Unset(|a|) && second[..] == Unset(|b|);
    matches := MarkMatches(a, b, MatchDistance(a, b), first, second);
    SameCount(a, b, MatchDistance(a, b), |a|);
    if matches == 0 {
      return 0, 0;
    }
    transpositions := CountTranspositions(a, b, first, second);
  }

  method JaroWinkler(s1: string, s2: string, prefixScale: real) returns (similarity: real)
    ensures similarity == Similarity(Normalised(s1), Normalised(s2), prefixScale)
    ensures 0.0 <= prefixScale ==> 0.0 <= similarity <= 1.0
    ensures 0.0 <= prefixScale < 0.25 ==> (similarity == 1.0 <==> Normalised(s1) == Normalised(s2))
  {
    var a, b := Lower(Strip(s1)), Lower(Strip(s2));
    if 0.0 <= prefixScale {
      CappedInRange(a, b, prefixScale);
    }
    if 0.0 <= prefixScale < 0.25 {
      SimilarityInRange(a, b, prefixScale);
    }
    if a == [] && b == [] {
      return 1.0;
    }
    if a == [] || b == [] {
      return 0.0;
    }
    if a == b {
      return 1.0;
    }
    var matches, transpositions := CountMatches(a, b);
    if matches == 0 {
      NothingMatched(a, b, prefixScale);
      return 0.0;
    }
    var jaro := Jaro(|a|, |b|, matches, transpositions);
    var prefix := CountCommonPrefix(a, b);
    similarity := Boosted(jaro, prefix, prefixScale);
    if similarity > 1.0 {
      similarity := 1.0;
    }
  }

  /** Where nothing matches there is no common prefix to add either. */
  lemma NothingMatched(a: string, b: string, scale: real)
    requires a != b && a != [] && b != []
    requires Count(Matches(a, b, MatchDistance(a, b), |a|).first) == 0
    ensures Uncapped(a, b, scale) == 0.0
  {
    MatchedIffMatchable(a, b, MatchDistance(a, b));
    assert !Matchable(a, b, MatchDistance(a, b), 0, 0);
  }
}
