/** Following successor or redirect links: chains, their ends, and what one new or removed link changes. */
module MergeGraph {

  type Id = string

  /** Each record's successor (or redirect target), for the records that have one. */
  type Links = map<Id, Id>

  /** The loop of `resolve_successor` and `resolve_redirect`, from `current` on. It ends on any table. */
  function Follow(links: Links, current: Id, visited: set<Id>): Id
    decreases links.Keys - visited
  {
    if current in visited || current !in links then current
    else Follow(links, links[current], visited + {current})
  }

  function Resolve(links: Links, id: Id): Id {
    Follow(links, id, {})
  }

  /** `n` links on, or the end of the chain if it comes sooner. */
  function Nth(links: Links, id: Id, n: nat): Id
    decreases n
  {
    if n == 0 || id !in links then id else Nth(links, links[id], n - 1)
  }

  /** No link, or a link to itself. */
  predicate Terminal(links: Links, id: Id) {
    id !in links || links[id] == id
  }

  ghost predicate Reaches(links: Links, id: Id, target: Id) {
    exists n: nat :: Nth(links, id, n) == target
  }

  ghost predicate ReachesProperly(links: Links, id: Id, target: Id) {
    exists n: nat :: n >= 1 && Nth(links, id, n) == target
  }

  /** Every cycle of links is a self-loop. */
  ghost predicate CyclesAreSelfLoops(links: Links) {
    forall x :: x in links && ReachesProperly(links, x, x) ==> links[x] == x
  }

  // ---- Chains ------------------------------------------------------------------

  lemma {:induction false} TerminalStays(links: Links, id: Id, n: nat)
    requires Terminal(links, id)
    ensures Nth(links, id, n) == id
    decreases n
  {
    if n > 0 && id in links {
      TerminalStays(links, id, n - 1);
    }
  }

  lemma {:induction false} NthSum(links: Links, id: Id, m: nat, n: nat)
    ensures Nth(links, id, m + n) == Nth(links, Nth(links, id, m), n)
    decreases m
  {
    if m > 0 && id in links {
      NthSum(links, links[id], m - 1, n);
    }
  }

  /** Two ends of one chain are the same. */
  lemma EndsAgree(links: Links, id: Id, a: Id, b: Id)
    requires Terminal(links, a) && Terminal(links, b) && Reaches(links, id, a) && Reaches(links, id, b)
    ensures a == b
  {
    var m: nat :| Nth(links, id, m) == a;
    var n: nat :| Nth(links, id, n) == b;
    NthSum(links, id, m, n);
    NthSum(links, id, n, m);
    TerminalStays(links, a, n);
    TerminalStays(links, b, m);
  }

  lemma {:induction false} FollowEnds(links: Links, current: Id, visited: set<Id>)
    requires CyclesAreSelfLoops(links)
    requires forall v :: v in visited ==> v in links && ReachesProperly(links, v, current)
    ensures Terminal(links, Follow(links, current, visited))
    ensures Reaches(links, current, Follow(links, current, visited))
    decreases links.Keys - visited
  {
    if current in visited || current !in links {
      assert Nth(links, current, 0) == current;
    } else {
      var next := links[current];
      forall v | v in visited + {current} ensures v in links && ReachesProperly(links, v, next) {
        if v == current {
          assert Nth(links, current, 1) == next by { assert Nth(links, next, 0) == next; }
        } else {
          var n: nat :| n >= 1 && Nth(links, v, n) == current;
          NthSum(links, v, n, 1);
          assert Nth(links, current, 1) == next by { assert Nth(links, next, 0) == next; }
          assert Nth(links, v, n + 1) == next;
        }
      }
      FollowEnds(links, next, visited + {current});
      var end := Follow(links, next, visited + {current});
      var n: nat :| Nth(links, next, n) == end;
      assert Nth(links, current, n + 1) == end;
    }
  }

  /** Where cycles are self-loops, resolution ends at a record without a link or linked to itself. */
  lemma ResolveEnds(links: Links, id: Id)
    requires CyclesAreSelfLoops(links)
    ensures Terminal(links, Resolve(links, id)) && Reaches(links, id, Resolve(links, id))
  {
    FollowEnds(links, id, {});
  }

  lemma ResolveIs(links: Links, id: Id, end: Id)
    requires CyclesAreSelfLoops(links) && Terminal(links, end) && Reaches(links, id, end)
    ensures Resolve(links, id) == end
  {
    ResolveEnds(links, id);
    EndsAgree(links, id, Resolve(links, id), end);
  }

  // ---- A new link to the end of a chain ----------------------------------------------

  /** A chain in the new graph follows the old one, or has come to the new target. */
  lemma {:induction false} LinkedChain(links: Links, from: Id, to: Id, id: Id, n: nat)
    requires Terminal(links, to)
    ensures var y := Nth(links[from := to], id, n); y == Nth(links, id, n) || y == to
    decreases n
  {
    var linked := links[from := to];
    if n > 0 && id in linked {
      if id == from {
        TerminalStays(linked, to, n - 1);
      } else {
        LinkedChain(links, from, to, links[id], n - 1);
      }
    }
  }

  lemma LinkKeepsSelfLoops(links: Links, from: Id, to: Id)
    requires CyclesAreSelfLoops(links) && Terminal(links, to)
    ensures CyclesAreSelfLoops(links[from := to])
  {
    var linked := links[from := to];
    forall x | x in linked && ReachesProperly(linked, x, x) ensures linked[x] == x {
      var n: nat :| n >= 1 && Nth(linked, x, n) == x;
      if x == from {
        TerminalStays(linked, to, n - 1);
      } else {
        LinkedChain(links, from, to, x, n);
        if x != to {
          assert ReachesProperly(links, x, x);
        }
      }
    }
  }

  lemma {:induction false} LinkedStillReaches(links: Links, from: Id, to: Id, id: Id, n: nat)
    requires Nth(links, id, n) == from
    ensures Reaches(links[from := to], id, from)
    decreases n
  {
    var linked := links[from := to];
    if id == from || n == 0 || id !in links {
      assert Nth(linked, id, 0) == from;
    } else {
      LinkedStillReaches(links, from, to, links[id], n - 1);
      var m: nat :| Nth(linked, links[id], m) == from;
      assert Nth(linked, id, m + 1) == from;
    }
  }

  lemma {:induction false} LinkedUnlessReached(links: Links, from: Id, to: Id, id: Id, n: nat)
    requires !Reaches(links, id, from)
    ensures Nth(links[from := to], id, n) == Nth(links, id, n)
    decreases n
  {
    assert Nth(links, id, 0) == id;
    if n > 0 && id in links {
      if Reaches(links, links[id], from) {
        var m: nat :| Nth(links, links[id], m) == from;
        assert Nth(links, id, m + 1) == from;
        assert false;
      }
      LinkedUnlessReached(links, from, to, links[id], n - 1);
    }
  }

  /** Linking a record to the end of a chain redirects exactly the records whose chain passes through it. */
  lemma LinkRedirectsFollowers(links: Links, from: Id, to: Id, id: Id)
    requires CyclesAreSelfLoops(links) && Terminal(links, to)
    ensures Resolve(links[from := to], id) == if Reaches(links, id, from) then to else Resolve(links, id)
  {
    var linked := links[from := to];
    LinkKeepsSelfLoops(links, from, to);
    if Reaches(links, id, from) {
      var n: nat :| Nth(links, id, n) == from;
      LinkedStillReaches(links, from, to, id, n);
      var m: nat :| Nth(linked, id, m) == from;
      NthSum(linked, id, m, 1);
      assert Nth(linked, to, 0) == to;
      assert Nth(linked, id, m + 1) == to;
      ResolveIs(linked, id, to);
    } else {
      ResolveEnds(links, id);
      var end := Resolve(links, id);
      var n: nat :| Nth(links, id, n) == end;
      LinkedUnlessReached(links, from, to, id, n);
      assert end != from;
      ResolveIs(linked, id, end);
    }
  }

  // ---- Removed links ----------------------------------------------------------------------

  lemma {:induction false} UnlinkedChain(links: Links, gone: set<Id>, id: Id, n: nat)
    ensures var y := Nth(links - gone, id, n); y == Nth(links, id, n) || y in gone
    decreases n
  {
    if n > 0 && id in links - gone {
      UnlinkedChain(links, gone, links[id], n - 1);
    }
  }

  lemma UnlinkKeepsSelfLoops(links: Links, gone: set<Id>)
    requires CyclesAreSelfLoops(links)
    ensures CyclesAreSelfLoops(links - gone)
  {
    var unlinked := links - gone;
    forall x | x in unlinked && ReachesProperly(unlinked, x, x) ensures unlinked[x] == x {
      var n: nat :| n >= 1 && Nth(unlinked, x, n) == x;
      UnlinkedChain(links, gone, x, n);
      assert ReachesProperly(links, x, x);
    }
  }

  // ---- Two tables that differ by self-loops --------------------------------------------------

  /** `redirects` holds every link, and besides them only self-loops. */
  ghost predicate SameUpToSelfLoops(links: Links, redirects: Links) {
    && (forall x :: x in links ==> x in redirects && redirects[x] == links[x])
    && (forall x :: x in redirects && x !in links ==> redirects[x] == x)
  }

  lemma {:induction false} SameChains(links: Links, redirects: Links, id: Id, n: nat)
    requires SameUpToSelfLoops(links, redirects)
    ensures Nth(redirects, id, n) == Nth(links, id, n)
    decreases n
  {
    if n > 0 {
      if id in links {
        SameChains(links, redirects, links[id], n - 1);
      } else {
        TerminalStays(redirects, id, n);
      }
    }
  }

  lemma SameResolution(links: Links, redirects: Links, id: Id)
    requires CyclesAreSelfLoops(links) && SameUpToSelfLoops(links, redirects)
    ensures Resolve(redirects, id) == Resolve(links, id)
  {
    forall x | x in redirects && ReachesProperly(redirects, x, x) ensures redirects[x] == x {
      var n: nat :| n >= 1 && Nth(redirects, x, n) == x;
      SameChains(links, redirects, x, n);
      if x in links {
        assert ReachesProperly(links, x, x);
      }
    }
    ResolveEnds(links, id);
    var end := Resolve(links, id);
    var n: nat :| Nth(links, id, n) == end;
    SameChains(links, redirects, id, n);
    ResolveIs(redirects, id, end);
  }

  ghost predicate Agree(links: Links, redirects: Links) {
    forall id :: Resolve(redirects, id) == Resolve(links, id)
  }

  /** Dropping links but not the redirects keeps every resolution exactly if none of them led to
      another record. */
  lemma DroppedLinksAgreeIff(links: Links, redirects: Links, gone: set<Id>)
    requires CyclesAreSelfLoops(links) && SameUpToSelfLoops(links, redirects)
    ensures Agree(links - gone, redirects) <==> forall id :: id in gone ==> Terminal(links, id)
  {
    if id :| id in gone && !Terminal(links, id) {
      SameResolution(links, redirects, id);
      ResolveEnds(links, id);
      assert Resolve(links - gone, id) == id;
      assert Resolve(redirects, id) != Resolve(links - gone, id);
    } else {
      UnlinkKeepsSelfLoops(links, gone);
      forall id ensures Resolve(redirects, id) == Resolve(links - gone, id) {
        SameResolution(links - gone, redirects, id);
      }
    }
  }
}
