/** Planning bounded extraction windows over a stored cursor, and advancing the cursor. */
module BackfillWindows {
  import opened Text
  import opened Calendar

  // ---- Window lengths -----------------------------------------------------------------

  function FirstSpace(s: string): (n: nat)
    ensures n <= |s|
  {
    if s == [] || IsSpace(s[0]) then 0 else 1 + FirstSpace(s[1..])
  }

  /** The words of a text, whatever space separates them. */
  function Words(s: string): seq<string>
    decreases |s|
  {
    if s == [] then []
    else if IsSpace(s[0]) then Words(s[1..])
    else [s[..FirstSpace(s)]] + Words(s[FirstSpace(s)..])
  }

  function WithoutPlural(unit: string): string {
    if unit != [] && unit[|unit| - 1] == 's' then WithoutPlural(unit[..|unit| - 1]) else unit
  }

  const MAX_TIMEDELTA_DAYS := 999_999_999

  function WithinTimedelta(days: int): Option<Delta> {
    if days <= MAX_TIMEDELTA_DAYS then Some(Days(days)) else None
  }

  /** The length a count of a unit stands for. */
  function LengthOf(count: int, unit: string): (r: Option<Delta>)
    ensures r.Some? ==> Positive(r.value)
  {
    if count < 1 then None
    else match unit
      case "month" => Some(Months(count))
      case "quarter" => Some(Months(3 * count))
      case "week" => WithinTimedelta(7 * count)
      case "day" => WithinTimedelta(count)
      case _ => None
  }

  /** A window length such as "2 weeks", if it is one. */
  function ParseDelta(length: string, toInt: string -> Option<int>): (r: Option<Delta>)
    ensures r.Some? ==> Positive(r.value)
  {
    ParsePieces(Words(Strip(Lower(length))), toInt)
  }

  function ParsePieces(pieces: seq<string>, toInt: string -> Option<int>): (r: Option<Delta>)
    ensures r.Some? ==> |pieces| == 2 && Positive(r.value)
  {
    if |pieces| != 2 then None
    else match toInt(pieces[0])
      case Some(size) => LengthOf(size, WithoutPlural(pieces[1]))
      case None => None
  }

  predicate Blank(s: string) {
    forall i :: 0 <= i < |s| ==> IsSpace(s[i])
  }

  predicate IsWord(w: string) {
    w != "" && forall i :: 0 <= i < |w| ==> !IsSpace(w[i])
  }

  lemma {:induction false} FirstSpaceAfter(w: string, rest: string)
    requires (forall i :: 0 <= i < |w| ==> !IsSpace(w[i])) && (rest != "" ==> IsSpace(rest[0]))
    ensures FirstSpace(w + rest) == |w|
    decreases |w|
  {
    if w == "" {
      assert w + rest == rest;
    } else {
      assert (w + rest)[1..] == w[1..] + rest;
      FirstSpaceAfter(w[1..], rest);
    }
  }

  lemma {:induction false} WordsSkipBlank(blank: string, rest: string)
    requires Blank(blank)
    ensures Words(blank + rest) == Words(rest)
    decreases |blank|
  {
    if blank == "" {
      assert blank + rest == rest;
    } else {
      assert (blank + rest)[1..] == blank[1..] + rest;
      WordsSkipBlank(blank[1..], rest);
    }
  }

  lemma WordsBegin(w: string, rest: string)
    requires IsWord(w) && (rest != "" ==> IsSpace(rest[0]))
    ensures Words(w + rest) == [w] + Words(rest)
  {
    FirstSpaceAfter(w, rest);
    assert (w + rest)[..|w|] == w && (w + rest)[|w|..] == rest;
  }

  /** Two words, however they are set apart. */
  lemma TwoWords(before: string, w1: string, gap: string, w2: string, after: string)
    requires Blank(before) && IsWord(w1) && Blank(gap) && gap != "" && IsWord(w2) && Blank(after)
    ensures Words(before + (w1 + (gap + (w2 + after)))) == [w1, w2]
  {
    WordsSkipBlank(before, w1 + (gap + (w2 + after)));
    WordsBegin(w1, gap + (w2 + after));
    WordsSkipBlank(gap, w2 + after);
    WordsBegin(w2, after);
    WordsSkipBlank(after, "");
    assert after + "" == after;
  }

  lemma {:induction false} WordsThenBlank(s: string, blank: string)
    requires Blank(blank)
    ensures Words(s + blank) == Words(s)
    decreases |s|
  {
    if s == "" {
      WordsSkipBlank(blank, "");
      assert s + blank == blank + "";
    } else if IsSpace(s[0]) {
      assert (s + blank)[1..] == s[1..] + blank;
      WordsThenBlank(s[1..], blank);
    } else {
      var n := FirstSpace(s);
      FirstSpaceIsSpace(s);
      assert s + blank == s[..n] + (s[n..] + blank);
      FirstSpaceAfter(s[..n], s[n..] + blank);
      assert (s + blank)[..n] == s[..n] && (s + blank)[n..] == s[n..] + blank;
      WordsThenBlank(s[n..], blank);
    }
  }

  lemma {:induction false} FirstSpaceIsSpace(s: string)
    ensures var n := FirstSpace(s); (forall i :: 0 <= i < n ==> !IsSpace(s[i])) && (n < |s| ==> IsSpace(s[n]))
  {
    if s != "" && !IsSpace(s[0]) {
      FirstSpaceIsSpace(s[1..]);
      assert forall i :: 1 <= i < |s| ==> s[i] == s[1..][i - 1];
    }
  }

  lemma {:induction false} RightStripLeavesBlank(s: string)
    ensures exists blank :: Blank(blank) && s == RightStrip(s) + blank
  {
    if s != "" && IsSpace(s[|s| - 1]) {
      var init, last := s[..|s| - 1], s[|s| - 1];
      RightStripLeavesBlank(init);
      var blank :| Blank(blank) && init == RightStrip(init) + blank;
      assert Blank(blank + [last]) && s == RightStrip(s) + (blank + [last]);
    } else {
      assert Blank("") && s == RightStrip(s) + "";
    }
  }

  lemma StrippedWords(s: string)
    ensures Words(Strip(s)) == Words(s)
  {
    var left := LeftStrip(s);
    var skipped := s[..|s| - |left|];
    assert s == skipped + left;
    WordsSkipBlank(skipped, left);
    RightStripLeavesBlank(left);
    var blank :| Blank(blank) && left == RightStrip(left) + blank;
    WordsThenBlank(RightStrip(left), blank);
  }

  lemma {:induction false} PluralDropped(unit: string, plural: string)
    requires unit != "" && unit[|unit| - 1] != 's' && forall i :: 0 <= i < |plural| ==> plural[i] == 's'
    ensures WithoutPlural(unit + plural) == unit
    decreases |plural|
  {
    if plural == "" {
      assert unit + plural == unit;
    } else {
      assert (unit + plural)[..|unit + plural| - 1] == unit + plural[..|plural| - 1];
      PluralDropped(unit, plural[..|plural| - 1]);
    }
  }

  /** A count and a unit, singular or plural, in any case and with any blanks around, is read as its length. */
  lemma LengthIsRead(length: string, toInt: string -> Option<int>, before: string, count: string, gap: string,
                     unit: string, plural: string, after: string)
    requires Lower(length) == before + (count + (gap + ((unit + plural) + after)))
    requires Blank(before) && IsWord(count) && Blank(gap) && gap != "" && Blank(after)
    requires IsWord(unit + plural) && unit != "" && unit[|unit| - 1] != 's'
    requires forall i :: 0 <= i < |plural| ==> plural[i] == 's'
    ensures ParseDelta(length, toInt)
         == match toInt(count)
            case Some(size) => LengthOf(size, unit)
            case None => None
  {
    StrippedWords(Lower(length));
    TwoWords(before, count, gap, unit + plural, after);
    PluralDropped(unit, plural);
    assert Words(Strip(Lower(length))) == [count, unit + plural];
  }

  /** Whatever is accepted consists of two words. */
  lemma AcceptedIsTwoWords(length: string, toInt: string -> Option<int>)
    ensures ParseDelta(length, toInt).Some? ==> IsTwoWords(Lower(length))
  {
    StrippedWords(Lower(length));
    if ParseDelta(length, toInt).Some? {
      TwoWordsApart(Lower(length));
    }
  }

  ghost predicate IsTwoWords(s: string) {
    exists before, count, gap, word, after ::
      && Blank(before) && IsWord(count) && Blank(gap) && gap != "" && IsWord(word) && Blank(after)
      && s == before + (count + (gap + (word + after)))
  }

  lemma TwoWordsApart(s: string)
    requires |Words(s)| == 2
    ensures IsTwoWords(s)
  {
    var before, rest := FirstWord(s);
    var gap, end := FirstWord(rest);
    NoWordIsBlank(end);
    assert s == before + (Words(s)[0] + (gap + (Words(s)[1] + end)));
  }

  lemma {:induction false} FirstWord(s: string) returns (blank: string, rest: string)
    requires Words(s) != []
    ensures Blank(blank) && IsWord(Words(s)[0]) && s == blank + (Words(s)[0] + rest)
    ensures Words(rest) == Words(s)[1..] && (rest != "" ==> IsSpace(rest[0]))
    decreases |s|
  {
    if IsSpace(s[0]) {
      blank, rest := FirstWord(s[1..]);
      BlankBefore(s, blank, Words(s)[0] + rest);
      blank := [s[0]] + blank;
    } else {
      FirstSpaceIsSpace(s);
      blank, rest := "", s[FirstSpace(s)..];
    }
  }

  lemma BlankBefore(s: string, blank: string, rest: string)
    requires s != "" && IsSpace(s[0]) && Blank(blank) && s[1..] == blank + rest
    ensures Blank([s[0]] + blank) && s == ([s[0]] + blank) + rest
  {
    assert s == [s[0]] + s[1..];
  }

  lemma {:induction false} NoWordIsBlank(s: string)
    requires Words(s) == []
    ensures Blank(s)
    decreases |s|
  {
    if s != "" {
      NoWordIsBlank(s[1..]);
      assert forall i :: 1 <= i < |s| ==> s[i] == s[1..][i - 1];
    }
  }

  // ---- Planning ----------------------------------------------------------------------------

  /** One table's policy; the window length is None where the source would reject it. */
  datatype Policy = Policy(startIndex: Option<Date>, backward: bool, fixedBoundary: Option<Date>,
                           overlapDays: int, length: Option<Delta>)

  datatype Window = Window(start: Date, end: Date, expected: Option<Date>, next: Date)

  datatype Plan = Finished | Planned(window: Window) | Failed

  const YEARS_BACK := 365 * 20

  /** Where the next window begins (or, going backward, ends). */
  function Origin(cursor: Option<Date>, policy: Policy, today: Date): Option<Date> {
    if cursor.Some? then cursor
    else if policy.startIndex.Some? then policy.startIndex
    else if policy.backward then Some(today)
    else AddDays(today, -YEARS_BACK)
  }

  function Boundary(policy: Policy, today: Date): Option<Date> {
    if policy.fixedBoundary.Some? then policy.fixedBoundary else AddDays(today, -policy.overlapDays)
  }

  /** The date that is less far on. */
  function Nearer(a: Date, b: Date, backward: bool): Date {
    if Ahead(b, a, backward) then b else a
  }

  function PlanWindow(cursor: Option<Date>, policy: Policy, today: Date): Plan {
    var from, boundary := Origin(cursor, policy, today), Boundary(policy, today);
    if from.None? || boundary.None? || policy.length.None? then Failed
    else if !Ahead(from.value, boundary.value, policy.backward) then Finished
    else
      var moved := Moved(from.value, policy.length.value, policy.backward);
      if moved.None? then Failed
      else
        var next := Nearer(moved.value, boundary.value, policy.backward);
        Planned(if policy.backward then Window(next, from.value, cursor, next)
                else Window(from.value, next, cursor, next))
  }

  predicate Usable(policy: Policy) {
    policy.length.Some? ==> Positive(policy.length.value)
  }

  /** Where the window set out from. */
  function From(w: Window, backward: bool): Date {
    if backward then w.end else w.start
  }

  /** A window leads strictly on from the cursor it was planned at. */
  predicate LeadsOn(w: Window, backward: bool) {
    && w.next == (if backward then w.start else w.end)
    && Ahead(From(w, backward), w.next, backward)
    && (w.expected.Some? ==> w.expected.value == From(w, backward))
  }

  /** A planned window starts at the cursor, goes on by the policy's length or to the boundary, whichever
      is nearer, and never beyond the boundary. */
  lemma PlannedLeadsOn(cursor: Option<Date>, policy: Policy, today: Date)
    requires Usable(policy) && PlanWindow(cursor, policy, today).Planned?
    ensures var w := PlanWindow(cursor, policy, today).window;
            var boundary := Boundary(policy, today).value;
            && LeadsOn(w, policy.backward)
            && w.expected == cursor
            && Some(From(w, policy.backward)) == Origin(cursor, policy, today)
            && !Ahead(boundary, w.next, policy.backward)
            && (w.next == boundary
                || Some(w.next) == Moved(From(w, policy.backward), policy.length.value, policy.backward))
  {
    MovesOn(Origin(cursor, policy, today).value, policy.length.value, policy.backward);
  }

  // ---- Completing ----------------------------------------------------------------------------

  datatype Completion = Committed | Replayed | Refused

  function Settle(cursor: Option<Date>, w: Window): Completion {
    if cursor == Some(w.next) then Replayed
    else if cursor != w.expected then Refused
    else Committed
  }

  function CursorAfter(cursor: Option<Date>, w: Window): Option<Date> {
    if Settle(cursor, w) == Committed then Some(w.next) else cursor
  }

  /** The stored cursor of one table. */
  class Checkpoint {
    var cursor: Option<Date>

    constructor (cursor: Option<Date>)
      ensures this.cursor == cursor
    {
      this.cursor := cursor;
    }

    /** Advances the cursor if it is still where the window was planned. */
    method CompleteWindow(w: Window) returns (r: Completion)
      modifies this
      ensures r == Settle(old(cursor), w) && cursor == CursorAfter(old(cursor), w)
    {
      if cursor == Some(w.next) {
        return Replayed;
      }
      if cursor != w.expected {
        return Refused;
      }
      cursor := Some(w.next);
      r := Committed;
    }
  }

  // ---- Interleaved workers ---------------------------------------------------------------------

  /** A worker plans a window at any policy and day, or completes one that was planned at any time. */
  datatype Event = Planning(policy: Policy, today: Date) | Completing(index: nat)

  datatype World = World(cursor: Option<Date>, planned: seq<Window>, committed: seq<Window>)

  function Step(world: World, e: Event): World {
    match e
    case Planning(policy, today) =>
      var plan := PlanWindow(world.cursor, policy, today);
      if plan.Planned? then world.(planned := world.planned + [plan.window]) else world
    case Completing(i) =>
      if i >= |world.planned| then world
      else
        var w := world.planned[i];
        if Settle(world.cursor, w) == Committed
        then World(Some(w.next), world.planned, world.committed + [w])
        else world
  }

  function Run(world: World, events: seq<Event>): World
    decreases |events|
  {
    if events == [] then world else Run(Step(world, events[0]), events[1..])
  }

  predicate AllLeadOn(windows: seq<Window>, backward: bool) {
    forall i :: 0 <= i < |windows| ==> LeadsOn(windows[i], backward)
  }

  /** Each window begins where the one before it ended. */
  predicate Tiled(windows: seq<Window>, backward: bool) {
    && AllLeadOn(windows, backward)
    && forall i :: 1 <= i < |windows| ==> From(windows[i], backward) == windows[i - 1].next
  }

  /** The committed windows tile the way from the origin to the present cursor; a window planned before
      there was a cursor sets out from the origin too. */
  predicate InOrder(first: Option<Date>, origin: Date, world: World, backward: bool) {
    && (first.Some? ==> first.value == origin)
    && AllLeadOn(world.planned, backward)
    && (forall i :: 0 <= i < |world.planned| && world.planned[i].expected.None? ==>
          From(world.planned[i], backward) == origin)
    && Tiled(world.committed, backward)
    && (if world.committed == [] then world.cursor == first
        else && world.cursor == Some(world.committed[|world.committed| - 1].next)
             && From(world.committed[0], backward) == origin)
  }

  /** Every policy in the run fills in the one direction; lengths and boundaries may vary. */
  predicate OneDirection(events: seq<Event>, backward: bool) {
    forall i :: 0 <= i < |events| && events[i].Planning? ==>
      events[i].policy.backward == backward && Usable(events[i].policy)
  }

  /** The fill sets out from the stored cursor, or else from where every policy puts its first window: the
      start index, say, when all have the same. */
  predicate SetsOutFrom(first: Option<Date>, events: seq<Event>, origin: Date) {
    if first.Some? then first.value == origin
    else forall i :: 0 <= i < |events| && events[i].Planning? ==>
      Origin(None, events[i].policy, events[i].today) == Some(origin)
  }

  /** The cursor stays, or goes on in the direction of the fill. */
  predicate NotBack(a: Option<Date>, b: Option<Date>, backward: bool) {
    a == b || (b.Some? && (a.Some? ==> Ahead(a.value, b.value, backward)))
  }

  lemma StepKeepsOrder(first: Option<Date>, origin: Date, world: World, e: Event, backward: bool)
    requires InOrder(first, origin, world, backward) && OneDirection([e], backward) && SetsOutFrom(first, [e], origin)
    ensures InOrder(first, origin, Step(world, e), backward)
    ensures NotBack(world.cursor, Step(world, e).cursor, backward)
  {
    match e
    case Planning(policy, today) =>
      assert policy == [e][0].policy && today == [e][0].today;
      if PlanWindow(world.cursor, policy, today).Planned? {
        PlannedLeadsOn(world.cursor, policy, today);
      }
    case Completing(i) =>
  }

  /** However many workers plan and complete windows in one direction, in whatever order and however often,
      the committed windows tile the way from the origin to the present cursor, which never moves back. */
  lemma {:induction false} RunsTile(first: Option<Date>, origin: Date, world: World, events: seq<Event>, backward: bool)
    requires InOrder(first, origin, world, backward)
    requires OneDirection(events, backward) && SetsOutFrom(first, events, origin)
    ensures InOrder(first, origin, Run(world, events), backward)
    ensures NotBack(world.cursor, Run(world, events).cursor, backward)
    decreases |events|
  {
    if events != [] {
      assert OneDirection([events[0]], backward) && SetsOutFrom(first, [events[0]], origin);
      StepKeepsOrder(first, origin, world, events[0], backward);
      RunsTile(first, origin, Step(world, events[0]), events[1..], backward);
    }
  }

  /** The cursor has left the place where the window was planned. */
  predicate Overtaken(cursor: Option<Date>, w: Window, backward: bool) {
    cursor.Some? && (w.expected.Some? ==> Ahead(w.expected.value, cursor.value, backward))
  }

  /** Once the cursor has left the place where a window was planned, because that window or another one was
      committed, nothing that happens later commits the window. */
  lemma {:induction false} OvertakenWindowsStayOut(first: Option<Date>, origin: Date, world: World, events: seq<Event>,
                                                   w: Window, backward: bool)
    requires InOrder(first, origin, world, backward)
    requires OneDirection(events, backward) && SetsOutFrom(first, events, origin)
    requires Overtaken(world.cursor, w, backward)
    ensures Overtaken(Run(world, events).cursor, w, backward)
    ensures Settle(Run(world, events).cursor, w) != Committed
    ensures world.committed <= Run(world, events).committed
    ensures w !in Run(world, events).committed[|world.committed|..]
    decreases |events|
  {
    if events != [] {
      var next := Step(world, events[0]);
      assert OneDirection([events[0]], backward) && SetsOutFrom(first, [events[0]], origin);
      StepKeepsOrder(first, origin, world, events[0], backward);
      OvertakenStepStaysOut(first, origin, world, events[0], w, backward);
      OvertakenWindowsStayOut(first, origin, next, events[1..], w, backward);
      AbsentInBoth(world.committed, next.committed, Run(world, events).committed, w);
    }
  }

  lemma OvertakenStepStaysOut(first: Option<Date>, origin: Date, world: World, e: Event, w: Window, backward: bool)
    requires InOrder(first, origin, world, backward) && OneDirection([e], backward) && SetsOutFrom(first, [e], origin)
    requires Overtaken(world.cursor, w, backward)
    ensures Overtaken(Step(world, e).cursor, w, backward)
    ensures world.committed <= Step(world, e).committed
    ensures w !in Step(world, e).committed[|world.committed|..]
  {
    StepKeepsOrder(first, origin, world, e, backward);
    OvertakenFurther(world.cursor, Step(world, e).cursor, w, backward);
    StepCommitsNoOvertaken(world, e, w, backward);
  }

  lemma OvertakenFurther(a: Option<Date>, b: Option<Date>, w: Window, backward: bool)
    requires Overtaken(a, w, backward) && NotBack(a, b, backward)
    ensures Overtaken(b, w, backward)
  {
  }

  lemma StepCommitsNoOvertaken(world: World, e: Event, w: Window, backward: bool)
    requires Overtaken(world.cursor, w, backward)
    ensures world.committed <= Step(world, e).committed
    ensures w !in Step(world, e).committed[|world.committed|..]
  {
    var before, after := world.committed, Step(world, e).committed;
    if after != before {
      var committed := world.planned[e.index];
      assert after == before + [committed] && Settle(world.cursor, committed) == Committed;
      assert Settle(world.cursor, w) != Committed;
      assert after[|before|..] == [committed];
    }
  }

  lemma AbsentInBoth<T>(a: seq<T>, b: seq<T>, c: seq<T>, w: T)
    requires a <= b <= c && w !in b[|a|..] && w !in c[|b|..]
    ensures a <= c && w !in c[|a|..]
  {
    assert c[|a|..] == b[|a|..] + c[|b|..];
  }

  predicate AllOvertaken(world: World, backward: bool) {
    forall i :: 0 <= i < |world.committed| ==> Overtaken(world.cursor, world.committed[i], backward)
  }

  predicate AllDifferent(windows: seq<Window>) {
    forall i, j :: 0 <= i < j < |windows| ==> windows[i] != windows[j]
  }

  /** A window that is committed is overtaken from then on, and was not committed before. */
  lemma StepCommitsAfresh(first: Option<Date>, origin: Date, world: World, e: Event, backward: bool)
    requires InOrder(first, origin, world, backward) && OneDirection([e], backward) && SetsOutFrom(first, [e], origin)
    requires AllOvertaken(world, backward) && AllDifferent(world.committed)
    ensures AllOvertaken(Step(world, e), backward) && AllDifferent(Step(world, e).committed)
  {
    StepKeepsOrder(first, origin, world, e, backward);
    if e.Completing? && e.index < |world.planned| && Settle(world.cursor, world.planned[e.index]) == Committed {
      var w := world.planned[e.index];
      assert LeadsOn(w, backward) && Overtaken(Some(w.next), w, backward);
      forall i | 0 <= i < |world.committed| ensures world.committed[i] != w {
        assert Overtaken(world.cursor, world.committed[i], backward);
      }
    }
  }

  lemma {:induction false} RunCommitsAfresh(first: Option<Date>, origin: Date, world: World, events: seq<Event>,
                                            backward: bool)
    requires InOrder(first, origin, world, backward)
    requires OneDirection(events, backward) && SetsOutFrom(first, events, origin)
    requires AllOvertaken(world, backward) && AllDifferent(world.committed)
    ensures AllDifferent(Run(world, events).committed)
    decreases |events|
  {
    if events != [] {
      assert OneDirection([events[0]], backward) && SetsOutFrom(first, [events[0]], origin);
      StepKeepsOrder(first, origin, world, events[0], backward);
      StepCommitsAfresh(first, origin, world, events[0], backward);
      RunCommitsAfresh(first, origin, Step(world, events[0]), events[1..], backward);
    }
  }

  /** No run commits a window a second time, however often it is completed. */
  lemma CommittedOnce(first: Option<Date>, origin: Date, events: seq<Event>, backward: bool)
    requires OneDirection(events, backward) && SetsOutFrom(first, events, origin)
    ensures AllDifferent(Run(World(first, [], []), events).committed)
  {
    RunCommitsAfresh(first, origin, World(first, [], []), events, backward);
  }

  predicate Covers(w: Window, d: Date) {
    !Before(d, w.start) && Before(d, w.end)
  }

  /** Tiles cover each date of their range, and no other. */
  lemma {:induction false} TilesCover(windows: seq<Window>, backward: bool, d: Date)
    requires windows != [] && Tiled(windows, backward)
    ensures var far, near := windows[|windows| - 1].next, From(windows[0], backward);
            var low, high := if backward then far else near, if backward then near else far;
            (exists i :: 0 <= i < |windows| && Covers(windows[i], d)) <==> !Before(d, low) && Before(d, high)
    ensures Ahead(From(windows[0], backward), windows[|windows| - 1].next, backward)
  {
    var n := |windows| - 1;
    if n == 0 {
      assert Covers(windows[0], d) <==> exists i :: 0 <= i < |windows| && Covers(windows[i], d);
    } else {
      var init := windows[..n];
      assert Tiled(init, backward);
      TilesCover(init, backward, d);
      assert From(windows[n], backward) == init[n - 1].next;
      if i :| 0 <= i < |windows| && Covers(windows[i], d) {
        assert i < n ==> Covers(init[i], d);
      }
      if i :| 0 <= i < n && Covers(init[i], d) {
        assert Covers(windows[i], d);
      }
    }
  }

  lemma {:induction false} TilesApart(windows: seq<Window>, backward: bool, i: nat, j: nat)
    requires Tiled(windows, backward) && i < j < |windows|
    ensures !Ahead(From(windows[j], backward), windows[i].next, backward)
    decreases j
  {
    if i < j - 1 {
      TilesApart(windows, backward, i, j - 1);
    }
  }

  /** No date is in two tiles. */
  lemma TilesAreDisjoint(windows: seq<Window>, backward: bool, i: nat, j: nat, d: Date)
    requires Tiled(windows, backward) && i < |windows| && j < |windows|
    requires Covers(windows[i], d) && Covers(windows[j], d)
    ensures i == j
  {
    if i < j {
      TilesApart(windows, backward, i, j);
    } else if j < i {
      TilesApart(windows, backward, j, i);
    }
  }

  /** After any interleaving, exactly one committed window covers each date from the origin up to the cursor,
      and none covers any other; before the first commit of a new table there is none. */
  lemma RunsCoverOnce(first: Option<Date>, origin: Date, events: seq<Event>, backward: bool, d: Date)
    requires OneDirection(events, backward) && SetsOutFrom(first, events, origin)
    ensures var world := Run(World(first, [], []), events);
            var reached := if world.cursor.Some? then world.cursor.value else origin;
            var low, high := if backward then reached else origin, if backward then origin else reached;
            && (!Before(d, low) && Before(d, high)
                <==> exists i :: 0 <= i < |world.committed| && Covers(world.committed[i], d))
            && (forall i, j ::
                  && 0 <= i < |world.committed| && 0 <= j < |world.committed|
                  && Covers(world.committed[i], d) && Covers(world.committed[j], d)
                  ==> i == j)
  {
    RunsTile(first, origin, World(first, [], []), events, backward);
    var committed := Run(World(first, [], []), events).committed;
    if committed != [] {
      TilesCover(committed, backward, d);
    }
    forall i, j | 0 <= i < |committed| && 0 <= j < |committed| && Covers(committed[i], d) && Covers(committed[j], d)
      ensures i == j
    {
      TilesAreDisjoint(committed, backward, i, j, d);
    }
  }

  // ---- Draining -----------------------------------------------------------------------------------

  /** Days left to the boundary. */
  function Left(cursor: Option<Date>, policy: Policy, today: Date): nat {
    var from, boundary := Origin(cursor, policy, today), Boundary(policy, today);
    if from.None? || boundary.None? then 0
    else
      var days := Ordinal(boundary.value) - Ordinal(from.value);
      if days < 0 then -days else days
  }

  lemma PlanProgresses(cursor: Option<Date>, policy: Policy, today: Date)
    requires Usable(policy) && PlanWindow(cursor, policy, today).Planned?
    ensures var w := PlanWindow(cursor, policy, today).window;
            && Settle(cursor, w) == Committed
            && Left(CursorAfter(cursor, w), policy, today) < Left(cursor, policy, today)
  {
    PlannedLeadsOn(cursor, policy, today);
    var w := PlanWindow(cursor, policy, today).window;
    var from, boundary := From(w, policy.backward), Boundary(policy, today).value;
    OrdinalKeepsOrder(from, w.next);
    OrdinalKeepsOrder(w.next, from);
    OrdinalKeepsOrder(w.next, boundary);
    OrdinalKeepsOrder(boundary, w.next);
  }

  /** The windows of planning and completing in turn until there is none left to plan. */
  function Drain(cursor: Option<Date>, policy: Policy, today: Date): seq<Window>
    requires Usable(policy)
    decreases Left(cursor, policy, today)
  {
    var plan := PlanWindow(cursor, policy, today);
    if plan.Planned? then
      PlanProgresses(cursor, policy, today);
      [plan.window] + Drain(CursorAfter(cursor, plan.window), policy, today)
    else []
  }

  function DrainedCursor(cursor: Option<Date>, windows: seq<Window>): Option<Date> {
    if windows == [] then cursor else Some(windows[|windows| - 1].next)
  }

  /** Draining ends, with tiles from the origin to the boundary; or else to a date from which the policy's
      length leads out of the calendar, and there planning fails. */
  lemma {:induction false} DrainEnds(cursor: Option<Date>, policy: Policy, today: Date)
    requires Usable(policy)
    ensures var windows := Drain(cursor, policy, today);
            var end := DrainedCursor(cursor, windows);
            && Tiled(windows, policy.backward)
            && (windows != [] ==>
                  && Some(From(windows[0], policy.backward)) == Origin(cursor, policy, today)
                  && !Ahead(Boundary(policy, today).value, end.value, policy.backward)
                  && (|| (end == Boundary(policy, today) && PlanWindow(end, policy, today) == Finished)
                      || (&& PlanWindow(end, policy, today) == Failed
                          && Moved(end.value, policy.length.value, policy.backward).None?)))
    decreases Left(cursor, policy, today)
  {
    var plan := PlanWindow(cursor, policy, today);
    if plan.Planned? {
      PlanProgresses(cursor, policy, today);
      PlannedLeadsOn(cursor, policy, today);
      var after := CursorAfter(cursor, plan.window);
      DrainEnds(after, policy, today);
      var rest := Drain(after, policy, today);
      var windows := [plan.window] + rest;
      forall i | 1 <= i < |windows| ensures From(windows[i], policy.backward) == windows[i - 1].next {
        assert windows[i] == rest[i - 1];
      }
      if rest == [] {
        OrdinalKeepsOrder(after.value, Boundary(policy, today).value);
        OrdinalKeepsOrder(Boundary(policy, today).value, after.value);
      }
    }
  }

  /** The last date from which a fill still has to go on to the boundary. */
  function DayShortOf(boundary: Date, backward: bool): Option<Date> {
    if backward then NextDay(boundary) else PreviousDay(boundary)
  }

  lemma ShortOfBoundary(d: Date, boundary: Date, backward: bool)
    requires Ahead(d, boundary, backward)
    ensures var last := DayShortOf(boundary, backward);
            last.Some? && Ahead(last.value, boundary, backward) && (d == last.value || Ahead(d, last.value, backward))
  {
    OrdinalInRange(boundary);
    OrdinalInRange(d);
    NextDayOrdinal(boundary);
    PreviousDayOrdinal(boundary);
    OrdinalKeepsOrder(d, boundary);
    OrdinalKeepsOrder(boundary, d);
    var last := DayShortOf(boundary, backward).value;
    OrdinalKeepsOrder(d, last);
    OrdinalKeepsOrder(last, d);
  }

  lemma SameUnlessAhead(a: Date, b: Date, backward: bool)
    requires !Ahead(a, b, backward) && !Ahead(b, a, backward)
    ensures a == b
  {
  }

  /** The length can be added on the day before the boundary (going backward, taken from the day after). */
  predicate StaysInCalendar(policy: Policy, boundary: Date)
    requires policy.length.Some?
  {
    var last := DayShortOf(boundary, policy.backward);
    last.Some? ==> Moved(last.value, policy.length.value, policy.backward).Some?
  }

  lemma MovesShortOfBoundary(d: Date, policy: Policy, boundary: Date)
    requires policy.length.Some? && Usable(policy) && StaysInCalendar(policy, boundary)
    requires Ahead(d, boundary, policy.backward)
    ensures Moved(d, policy.length.value, policy.backward).Some?
  {
    ShortOfBoundary(d, boundary, policy.backward);
    var last := DayShortOf(boundary, policy.backward).value;
    if d != last {
      EarlierMoves(d, last, policy.length.value, policy.backward);
    }
  }

  /** If the length can still be added on the day before the boundary, draining ends exactly there. */
  lemma DrainReachesBoundary(cursor: Option<Date>, policy: Policy, today: Date)
    requires Usable(policy) && policy.length.Some? && Boundary(policy, today).Some?
    requires StaysInCalendar(policy, Boundary(policy, today).value)
    requires var from := Origin(cursor, policy, today);
             from.Some? && Ahead(from.value, Boundary(policy, today).value, policy.backward)
    ensures DrainedCursor(cursor, Drain(cursor, policy, today)) == Boundary(policy, today)
  {
    var boundary, backward := Boundary(policy, today).value, policy.backward;
    MovesShortOfBoundary(Origin(cursor, policy, today).value, policy, boundary);
    DrainEnds(cursor, policy, today);
    var end := DrainedCursor(cursor, Drain(cursor, policy, today)).value;
    if Ahead(end, boundary, backward) {
      MovesShortOfBoundary(end, policy, boundary);
    } else {
      SameUnlessAhead(end, boundary, backward);
    }
  }

  /** From every cursor short of the boundary draining reaches exactly the boundary. */
  ghost predicate AlwaysDrains(policy: Policy, today: Date)
    requires Usable(policy)
  {
    var boundary := Boundary(policy, today);
    boundary.Some? ==> forall c: Date ::
      Ahead(c, boundary.value, policy.backward) ==> DrainedCursor(Some(c), Drain(Some(c), policy, today)) == boundary
  }

  /** That holds if and only if the length can still be added on the day before the boundary. */
  lemma AlwaysDrainsIff(policy: Policy, today: Date)
    requires Usable(policy) && policy.length.Some? && Boundary(policy, today).Some?
    ensures AlwaysDrains(policy, today) <==> StaysInCalendar(policy, Boundary(policy, today).value)
  {
    var boundary, backward := Boundary(policy, today).value, policy.backward;
    if StaysInCalendar(policy, boundary) {
      forall c: Date | Ahead(c, boundary, backward)
        ensures DrainedCursor(Some(c), Drain(Some(c), policy, today)) == Some(boundary)
      {
        DrainReachesBoundary(Some(c), policy, today);
      }
    } else {
      var last := DayShortOf(boundary, backward).value;
      NextDayOrdinal(boundary);
      PreviousDayOrdinal(boundary);
      OrdinalKeepsOrder(last, boundary);
      OrdinalKeepsOrder(boundary, last);
      assert Drain(Some(last), policy, today) == [];
      assert DrainedCursor(Some(last), Drain(Some(last), policy, today)) != Some(boundary);
    }
  }

  /** Filling month by month up to the last day of the calendar stops short from 15 December 9999 on. */
  lemma {:induction false} LastMonthIsNotDrained(policy: Policy, today: Date, c: Date, boundary: Date)
    requires policy.fixedBoundary == Some(boundary) && policy.length == Some(Months(1)) && !policy.backward
    requires c == YearMonthDay(9999, 12, 15) && boundary == YearMonthDay(9999, 12, 31)
    ensures PlanWindow(Some(c), policy, today) == Failed
    ensures DrainedCursor(Some(c), Drain(Some(c), policy, today)) == Some(c)
    ensures !AlwaysDrains(policy, today)
  {
    assert Ahead(c, boundary, policy.backward);
    assert AddMonths(c, 1) == None;
    assert Drain(Some(c), policy, today) == [];
  }
}
