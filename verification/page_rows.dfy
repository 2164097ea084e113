/** Some of a page's sections by themselves: the rows the editor shows for one page of the website. */
module PageRows {
  import opened Options
  import opened SectionOrder
  import opened SectionResolver
  import opened WebsiteClient
  import opened SectionMoves
  import opened MoveConditions

  // ---------------------------------------------------------------------------
  // A page cut down to some of its sections
  // ---------------------------------------------------------------------------

  function Those(ids: seq<Id>, s: set<Id>): (r: seq<Id>)
    ensures forall x :: x in r <==> x in ids && x in s
  {
    if ids == [] then []
    else
      var rest, last := Those(ids[..|ids| - 1], s), ids[|ids| - 1];
      assert forall x :: x in ids <==> x in ids[..|ids| - 1] || x == last;
      if last in s then rest + [last] else rest
  }

  predicate StaysIn(m: Move, s: set<Id>) {
    m.id in s && (m.after.Some? ==> m.after.value in s)
  }

  function Among(moves: seq<Move>, s: set<Id>): seq<Move> {
    if moves == [] then []
    else
      var rest, last := Among(moves[..|moves| - 1], s), moves[|moves| - 1];
      if StaysIn(last, s) then rest + [last] else rest
  }

  function Within(p: Page, s: set<Id>): Page {
    Page(Those(p.base, s), Among(p.moves, s))
  }

  /** No section of `s` is anchored outside of it. */
  predicate AnchoredWithin(p: Page, s: set<Id>) {
    forall x :: x in Recorded(p.base, p.moves) && x in s && Recorded(p.base, p.moves)[x].Some? ==>
      Recorded(p.base, p.moves)[x].value in s
  }

  // Positions: what stands before a kept entry is what is kept of what stood before it.

  lemma {:induction false} PlaceAmongThose(ids: seq<Id>, s: set<Id>, i: nat)
    requires i < |ids| && ids[i] in s
    ensures
      var j := |Those(ids[..i], s)|;
      j < |Those(ids, s)| && Those(ids, s)[j] == ids[i] && Those(ids, s)[..j] == Those(ids[..i], s)
  {
    var n, j := |ids| - 1, |Those(ids[..i], s)|;
    ThoseAndOneMore(ids, s);
    if i < n {
      PlaceAmongThose(ids[..n], s, i);
      assert ids[..n][..i] == ids[..i];
      PlaceStays(Those(ids[..n], s), Those(ids, s), j);
    }
  }

  lemma ThoseAndOneMore(ids: seq<Id>, s: set<Id>)
    requires ids != []
    ensures var rest, last := Those(ids[..|ids| - 1], s), ids[|ids| - 1];
      Those(ids, s) == if last in s then rest + [last] else rest
  {
  }

  lemma PlaceStays(less: seq<Id>, more: seq<Id>, j: nat)
    requires less <= more && j < |less|
    ensures more[j] == less[j] && more[..j] == less[..j]
  {
  }

  lemma {:induction false} PlaceBefore(ids: seq<Id>, s: set<Id>, j: nat) returns (i: nat)
    requires j < |Those(ids, s)|
    ensures i < |ids| && ids[i] == Those(ids, s)[j] && ids[i] in s && Those(ids[..i], s) == Those(ids, s)[..j]
  {
    var n := |ids| - 1;
    var rest := Those(ids[..n], s);
    if j < |rest| {
      i := PlaceBefore(ids[..n], s, j);
      assert ids[..n][..i] == ids[..i] && rest[..j] == Those(ids, s)[..j];
    } else {
      i := n;
    }
  }

  lemma {:induction false} ThoseGrow(ids: seq<Id>, s: set<Id>, i: nat, k: nat)
    requires i < k <= |ids|
    ensures |Those(ids[..i], s)| <= |Those(ids[..k], s)|
    ensures ids[i] in s ==> |Those(ids[..i], s)| < |Those(ids[..k], s)|
  {
    assert ids[..k][..k - 1] == ids[..k - 1];
    if i < k - 1 { ThoseGrow(ids, s, i, k - 1); }
  }

  lemma IndexAmongThose(ids: seq<Id>, s: set<Id>, x: Id)
    requires x in ids && x in s
    ensures IndexOf(Those(ids, s), x) == |Those(ids[..IndexOf(ids, x)], s)|
  {
    var i := IndexOf(ids, x);
    PlaceAmongThose(ids, s, i);
    assert x !in ids[..i];
    var before := Those(ids[..i], s);
    assert forall k :: 0 <= k < |before| ==> Those(ids, s)[k] == before[k] && before[k] in before;
  }

  lemma ThoseKeepOrder(ids: seq<Id>, s: set<Id>, x: Id, y: Id)
    requires x in ids && x in s && y in ids && y in s && IndexOf(ids, x) < IndexOf(ids, y)
    ensures IndexOf(Those(ids, s), x) < IndexOf(Those(ids, s), y)
  {
    IndexAmongThose(ids, s, x);
    IndexAmongThose(ids, s, y);
    ThoseGrow(ids, s, IndexOf(ids, x), IndexOf(ids, y));
  }

  // ---------------------------------------------------------------------------
  // Its anchors
  // ---------------------------------------------------------------------------

  lemma CountsWithin(base: seq<Id>, m: Move, s: set<Id>)
    ensures Counts(Those(base, s), m) <==> Counts(base, m) && StaysIn(m, s)
  {
  }

  /** The last move of a section, if it stays within, is its last move there. */
  lemma {:induction false} LastMoveWithin(base: seq<Id>, moves: seq<Move>, s: set<Id>, x: Id)
    requires x in s && (LastMove(base, moves, x) >= 0 ==> StaysIn(moves[LastMove(base, moves, x)], s))
    ensures
      var i, j := LastMove(base, moves, x), LastMove(Those(base, s), Among(moves, s), x);
      if i < 0 then j == -1 else j == |Among(moves[..i], s)| && Among(moves, s)[j] == moves[i]
  {
    if moves != [] {
      var n := |moves| - 1;
      var rest, m := Among(moves[..n], s), moves[n];
      CountsWithin(base, m, s);
      if StaysIn(m, s) { assert (rest + [m])[..|rest|] == rest; }
      if LastMove(base, moves, x) != n {
        LastMoveWithin(base, moves[..n], s, x);
        var i := LastMove(base, moves, x);
        if i >= 0 { assert moves[..n][..i] == moves[..i]; }
      }
    }
  }

  lemma {:induction false} AmongGrow(moves: seq<Move>, s: set<Id>, i: nat, k: nat)
    requires i < k <= |moves|
    ensures |Among(moves[..i], s)| <= |Among(moves[..k], s)|
    ensures StaysIn(moves[i], s) ==> |Among(moves[..i], s)| < |Among(moves[..k], s)|
  {
    assert moves[..k][..k - 1] == moves[..k - 1];
    if i < k - 1 { AmongGrow(moves, s, i, k - 1); }
  }

  lemma LastMoveStays(p: Page, s: set<Id>, x: Id)
    requires AnchoredWithin(p, s) && x in p.base && x in s && LastMove(p.base, p.moves, x) >= 0
    ensures StaysIn(p.moves[LastMove(p.base, p.moves, x)], s)
  {
    assert x in Recorded(p.base, p.moves);
  }

  lemma TurnsWithin(p: Page, s: set<Id>, x: Id, y: Id)
    requires AnchoredWithin(p, s) && x in p.base && y in p.base && x in s && y in s && Priority(p, x) < Priority(p, y)
    ensures Priority(Within(p, s), x) < Priority(Within(p, s), y)
  {
    var i, k := Priority(p, x), Priority(p, y);
    LastMoveStays(p, s, y);
    LastMoveWithin(p.base, p.moves, s, y);
    if i >= 0 {
      LastMoveStays(p, s, x);
      AmongGrow(p.moves, s, i, k);
    }
    LastMoveWithin(p.base, p.moves, s, x);
  }

  lemma RecordedWithin(p: Page, s: set<Id>)
    requires AnchoredWithin(p, s)
    ensures Recorded(Within(p, s).base, Within(p, s).moves) ==
      map x | x in Recorded(p.base, p.moves) && x in s :: Recorded(p.base, p.moves)[x]
  {
    forall x | x in p.base && x in s
      ensures LastMove(Within(p, s).base, Within(p, s).moves, x) >= 0 <==> LastMove(p.base, p.moves, x) >= 0
      ensures AnchorOf(Within(p, s), x) == AnchorOf(p, x)
    {
      if LastMove(p.base, p.moves, x) >= 0 { LastMoveStays(p, s, x); }
      LastMoveWithin(p.base, p.moves, s, x);
    }
  }

  lemma {:induction false} WalkWithin(a: Anchors, b: Anchors, s: set<Id>, x: Id, n: nat)
    requires forall z :: z in a && z in s && a[z].Some? ==> a[z].value in s
    requires b == map z | z in a && z in s :: a[z]
    requires x in s
    ensures Walk(b, x, n) == Walk(a, x, n)
    decreases n
  {
    if n > 0 && x in a && a[x].Some? { WalkWithin(a, b, s, a[x].value, n - 1); }
  }

  lemma CyclesWithin(a: Anchors, b: Anchors, s: set<Id>, x: Id)
    requires forall z :: z in a && z in s && a[z].Some? ==> a[z].value in s
    requires b == map z | z in a && z in s :: a[z]
    requires x in s
    ensures OnCycle(b, x) <==> OnCycle(a, x)
  {
    if OnCycle(a, x) {
      var n: nat :| n > 0 && Walk(a, x, n) == Some(x);
      WalkWithin(a, b, s, x, n);
    }
    if OnCycle(b, x) {
      var n: nat :| n > 0 && Walk(b, x, n) == Some(x);
      WalkWithin(a, b, s, x, n);
    }
  }

  lemma KeptWithin(p: Page, s: set<Id>)
    requires AnchoredWithin(p, s)
    ensures Kept(Within(p, s)) == map x | x in Kept(p) && x in s :: Kept(p)[x]
  {
    var a, b := Recorded(p.base, p.moves), Recorded(Within(p, s).base, Within(p, s).moves);
    RecordedWithin(p, s);
    forall x | x in s ensures OnCycle(b, x) <==> OnCycle(a, x) { CyclesWithin(a, b, s, x); }
  }

  lemma ReachesWithin(p: Page, s: set<Id>, x: Id, y: Id)
    requires AnchoredWithin(p, s) && x in s && Reaches(Kept(p), x, y)
    ensures Reaches(Kept(Within(p, s)), x, y)
  {
    KeptWithin(p, s);
    var n: nat :| Walk(Kept(p), x, n) == Some(y);
    WalkWithin(Kept(p), Kept(Within(p, s)), s, x, n);
  }

  // ---------------------------------------------------------------------------
  // Its list
  // ---------------------------------------------------------------------------

  lemma BetweenWithin(p: Page, s: set<Id>, before: seq<Id>, y: Id, m: nat, n: nat)
    requires AnchoredWithin(p, s)
    requires forall i, k :: 0 <= i < k < |before| && before[i] == y ==> Reaches(Kept(p), before[k], y)
    requires m < n < |Those(before, s)| && Those(before, s)[m] == y
    ensures Reaches(Kept(Within(p, s)), Those(before, s)[n], y)
  {
    var i := PlaceBefore(before, s, m);
    var k := PlaceBefore(before, s, n);
    if k < i { ThoseGrow(before, s, k, i); }
    assert i != k;
    ReachesWithin(p, s, before[k], y);
  }

  lemma FitsWithin(p: Page, s: set<Id>, before: seq<Id>, x: Id)
    requires AnchoredWithin(p, s) && x in s && x in p.base && (forall u :: u in before ==> u in p.base)
      && Fits(p, before, x)
    ensures Fits(Within(p, s), Those(before, s), x)
  {
    var a, b, q := Kept(p), Kept(Within(p, s)), Within(p, s);
    KeptWithin(p, s);
    if x in a {
      forall u | u in Those(before, s) && u in b && b[u] == b[x] ensures Priority(q, u) < Priority(q, x) {
        TurnsWithin(p, s, u, x);
      }
      if a[x].Some? {
        var y := a[x].value;
        forall m, n | 0 <= m < n < |Those(before, s)| && Those(before, s)[m] == y
          ensures Reaches(b, Those(before, s)[n], y)
        {
          BetweenWithin(p, s, before, y, m, n);
        }
      }
    } else {
      forall u | u in Those(before, s) && u !in b ensures IndexOf(q.base, u) < IndexOf(q.base, x) {
        ThoseKeepOrder(p.base, s, u, x);
      }
    }
  }

  /** If no section of `s` is anchored outside, what the whole list shows of `s` is the list that
      shows `s` by itself. */
  lemma RowsAreShownAlone(p: Page, s: set<Id>, full: seq<Id>)
    requires AnchoredWithin(p, s) && Shows(p, full)
    ensures Shows(Within(p, s), Those(full, s))
  {
    var rows := Those(full, s);
    forall j | 0 <= j < |rows| ensures FitsIn(Within(p, s), rows, j) {
      var i := PlaceBefore(full, s, j);
      assert FitsIn(p, full, i) && full[i] in full;
      forall u | u in full[..i] ensures u in p.base { assert u in full; }
      FitsWithin(p, s, full[..i], full[i]);
    }
  }

  // ---------------------------------------------------------------------------
  // Moves among the rows
  // ---------------------------------------------------------------------------

  lemma {:induction false} AmongOfBoth(a: seq<Move>, b: seq<Move>, s: set<Id>)
    ensures Among(a + b, s) == Among(a, s) + Among(b, s)
  {
    if b == [] {
      assert a + b == a;
    } else {
      assert (a + b)[..|a + b| - 1] == a + b[..|b| - 1];
      AmongOfBoth(a, b[..|b| - 1], s);
    }
  }

  lemma {:induction false} AmongWithout(moves: seq<Move>, which: seq<Id>, s: set<Id>)
    ensures Among(MovesWithout(moves, which), s) == MovesWithout(Among(moves, s), which)
  {
    if moves != [] {
      var before, m := moves[..|moves| - 1], moves[|moves| - 1];
      AmongWithout(before, which, s);
      var rest, among := MovesWithout(before, which), Among(before, s);
      if m.id !in which { assert (rest + [m])[..|rest|] == rest; }
      if StaysIn(m, s) { assert (among + [m])[..|among|] == among; }
    }
  }

  lemma {:induction false} PlacingStaysIn(which: seq<Id>, moved: seq<Id>, s: set<Id>)
    requires forall x :: x in moved ==> x in s
    ensures Among(PlacingMoves(which, moved), s) == PlacingMoves(which, moved)
  {
    if which != [] {
      var last := which[|which| - 1];
      PlacingStaysIn(which[..|which| - 1], moved, s);
      if last in moved {
        var i, rest := IndexOf(moved, last), PlacingMoves(which[..|which| - 1], moved);
        var move := Move(last, Predecessor(moved, i));
        if i > 0 { assert moved[i - 1] in moved; }
        assert (rest + [move])[..|rest|] == rest;
      }
    }
  }

  /** Placing rows on the whole page is placing them among the rows alone. */
  lemma PlacedWithin(base: seq<Id>, earlier: seq<Move>, group: seq<Move>, which: seq<Id>, moved: seq<Id>, s: set<Id>)
    requires forall x :: x in moved ==> x in s
    ensures Within(Placed(base, earlier, group, which, moved), s) ==
      Placed(Those(base, s), Among(earlier, s), Among(group, s), which, moved)
  {
    AmongOfBoth(earlier + MovesWithout(group, which), PlacingMoves(which, moved), s);
    AmongOfBoth(earlier, MovesWithout(group, which), s);
    AmongWithout(group, which, s);
    PlacingStaysIn(which, moved, s);
  }

  lemma PlacedStaysWithin(
      base: seq<Id>, earlier: seq<Move>, group: seq<Move>, which: seq<Id>, moved: seq<Id>, s: set<Id>)
    requires Distinct(moved) && (forall x :: x in moved ==> x in s && x in base)
    requires forall x :: x in which ==> x in moved
    requires AnchoredWithin(Page(base, earlier + group), s)
    ensures AnchoredWithin(Placed(base, earlier, group, which, moved), s)
  {
    var p, p' := Page(base, earlier + group), Placed(base, earlier, group, which, moved);
    PlacedIsReanchored(base, earlier, group, which, moved);
    var r' := Recorded(p'.base, p'.moves);
    forall x | x in r' && x in s && r'[x].Some? ensures r'[x].value in s {
      assert AnchoredAnew(p, p', which, moved, x);
      if x in which {
        var i := IndexOf(moved, x);
        assert moved[i - 1] in moved;
      }
    }
  }

  /** The rows of a page: what its list shows of `s`, chained, with no anchor outside. */
  ghost predicate AreRows(p: Page, s: set<Id>, rows: seq<Id>) {
    && AnchoredWithin(p, s) && Shows(Within(p, s), rows) && Chained(Within(p, s), rows)
  }

  /** A move among the rows leaves rows, as they were dropped. */
  lemma RowsAfterMove(d: Document, source: seq<SourceSection>, group: Group, s: set<Id>, rows: seq<Id>, id: Id, to: int)
    requires AreRows(SectionPage(d, source, group), s, rows)
    ensures AreRows(SectionPage(Moved(d, group, rows, id, to), source, group), s, Reordered(rows, id, to))
  {
    if MovesSomething(rows, id, to) {
      var p, p' := SectionPage(d, source, group), SectionPage(Moved(d, group, rows, id, to), source, group);
      RowsArePlaced(d, source, group, s, rows, id, to);
      FittingListIsDistinct(Within(p, s), rows);
      MovedPageShowsTheDrop(Within(p, s), Within(p', s), rows, id, to);
    }
  }

  lemma RowsAreReanchored(
      base: seq<Id>, earlier: seq<Move>, group: seq<Move>, which: seq<Id>, moved: seq<Id>, s: set<Id>)
    requires Distinct(moved) && SameIds(Those(base, s), moved) && forall x :: x in which ==> x in moved
    ensures
      var p, p' := Page(base, earlier + group), Placed(base, earlier, group, which, moved);
      Reanchored(Within(p, s), Within(p', s), which, moved)
  {
    PlacedWithin(base, earlier, group, which, moved, s);
    AmongOfBoth(earlier, group, s);
    PlacedIsReanchored(Those(base, s), Among(earlier, s), Among(group, s), which, moved);
  }

  lemma RowsArePlacedOn(
      base: seq<Id>, earlier: seq<Move>, group: seq<Move>, rows: seq<Id>, id: Id, to: int, s: set<Id>)
    requires AnchoredWithin(Page(base, earlier + group), s) && Shows(Within(Page(base, earlier + group), s), rows)
    requires MovesSomething(rows, id, to)
    ensures
      var which, moved := Affected(rows, id, to), Reordered(rows, id, to);
      var p, p' := Page(base, earlier + group), Placed(base, earlier, group, which, moved);
      AnchoredWithin(p', s) && Placing(Within(p, s), Within(p', s), which, moved)
  {
    var which, moved := Affected(rows, id, to), Reordered(rows, id, to);
    FittingListIsDistinct(Within(Page(base, earlier + group), s), rows);
    ReorderedIsPermutation(rows, id, to);
    AffectedAreMembers(rows, id, to);
    assert SameIds(Those(base, s), moved);
    PlacedStaysWithin(base, earlier, group, which, moved, s);
    RowsAreReanchored(base, earlier, group, which, moved, s);
  }

  /** A move among any rows, chained or not, re-anchors rows only, as the page of the rows alone. */
  lemma RowsArePlaced(d: Document, source: seq<SourceSection>, group: Group, s: set<Id>, rows: seq<Id>, id: Id, to: int)
    requires AnchoredWithin(SectionPage(d, source, group), s) && Shows(Within(SectionPage(d, source, group), s), rows)
    requires MovesSomething(rows, id, to)
    ensures
      var p, p' := SectionPage(d, source, group), SectionPage(Moved(d, group, rows, id, to), source, group);
      && AnchoredWithin(p', s)
      && Placing(Within(p, s), Within(p', s), Affected(rows, id, to), Reordered(rows, id, to))
  {
    var base := SectionPage(d, source, group).base;
    MovedPage(d, source, group, rows, id, to);
    RowsArePlacedOn(base, CustomMoves(d.custom, group), GroupMoves(d.moves, group), rows, id, to, s);
  }

  /** On any document where no anchor crosses, the whole list shows the rows of one page as they were
      dropped exactly when, by the anchors and turns of the rows before, every row that the move does
      not place still stands right. */
  lemma RowsShowTheDropExactlyWhen(
      d: Document, source: seq<SourceSection>, group: Group, s: set<Id>, rows: seq<Id>, id: Id, to: int, full: seq<Id>)
    requires AnchoredWithin(SectionPage(d, source, group), s) && Shows(Within(SectionPage(d, source, group), s), rows)
    requires MovesSomething(rows, id, to) && Shows(SectionPage(Moved(d, group, rows, id, to), source, group), full)
    ensures Those(full, s) == Reordered(rows, id, to)
      <==> DropHolds(Within(SectionPage(d, source, group), s), Affected(rows, id, to), Reordered(rows, id, to))
  {
    var p, p' := SectionPage(d, source, group), SectionPage(Moved(d, group, rows, id, to), source, group);
    var which, moved := Affected(rows, id, to), Reordered(rows, id, to);
    RowsArePlaced(d, source, group, s, rows, id, to);
    PlacingShowsExactlyWhen(Within(p, s), Within(p', s), which, moved);
    RowsAreShownAlone(p', s, full);
    if Shows(Within(p', s), moved) { ShownListIsUnique(Within(p', s), Those(full, s), moved); }
  }

  /** The editor hands over the rows of one page only. However many moves are made among them, the
      whole list then shows those sections as they were dropped. */
  lemma {:induction false} RowsShowWhatWasDropped(
      d: Document, source: seq<SourceSection>, group: Group, s: set<Id>, rows: seq<Id>, steps: seq<(Id, int)>,
      full: seq<Id>)
    requires AreRows(SectionPage(d, source, group), s, rows)
    requires Shows(SectionPage(MovedAll(d, group, rows, steps), source, group), full)
    ensures Those(full, s) == ReorderedAll(rows, steps)
    decreases |steps|
  {
    if steps == [] {
      RowsAreShownAlone(SectionPage(d, source, group), s, full);
      ShownListIsUnique(Within(SectionPage(d, source, group), s), Those(full, s), rows);
    } else {
      var id, to := steps[0].0, steps[0].1;
      RowsAfterMove(d, source, group, s, rows, id, to);
      var d' := Moved(d, group, rows, id, to);
      RowsShowWhatWasDropped(d', source, group, s, Reordered(rows, id, to), steps[1..], full);
    }
  }

  // ---------------------------------------------------------------------------
  // The page as its visitors see it
  // ---------------------------------------------------------------------------

  function AllMoves(moves: seq<SectionMove>): seq<Move> {
    if moves == [] then [] else [Move(moves[0].id, moves[0].after)] + AllMoves(moves[1..])
  }

  function CustomOf(custom: seq<CustomSection>, group: Group, s: set<Id>): seq<CustomSection> {
    if custom == [] then []
    else if custom[0].group == group && custom[0].id in s then [custom[0]] + CustomOf(custom[1..], group, s)
    else CustomOf(custom[1..], group, s)
  }

  /** The page that its own script resolves: the page's section, the custom sections of the page, and
      every move of the document. */
  function ScriptPage(d: Document, group: Group, sectionId: Id, s: set<Id>): Page {
    var scoped := CustomOf(d.custom, group, s);
    Page([sectionId] + CustomIds(scoped, group), CustomMoves(scoped, group) + AllMoves(d.moves))
  }

  /** The page's section is the one source section among the rows, no two sections share an id, and
      moves of other groups leave the rows alone. */
  predicate Scoped(d: Document, source: seq<SourceSection>, group: Group, sectionId: Id, s: set<Id>) {
    && Those(SourceIds(source, group), s) == [sectionId]
    && Distinct(SourceIds(source, group) + CustomIds(d.custom, group))
    && forall m :: m in d.moves && m.id in s ==> m.group in {None, Some(group)}
  }

  lemma {:induction false} ThoseOfBoth(a: seq<Id>, b: seq<Id>, s: set<Id>)
    ensures Those(a + b, s) == Those(a, s) + Those(b, s)
  {
    if b == [] {
      assert a + b == a;
    } else {
      assert (a + b)[..|a + b| - 1] == a + b[..|b| - 1];
      ThoseOfBoth(a, b[..|b| - 1], s);
    }
  }

  lemma {:induction false} AllOfThose(ids: seq<Id>, s: set<Id>)
    requires forall x :: x in ids ==> x in s
    ensures Those(ids, s) == ids
  {
    if ids != [] {
      assert ids == ids[..|ids| - 1] + [ids[|ids| - 1]];
      AllOfThose(ids[..|ids| - 1], s);
    }
  }

  lemma OneMove(m: Move, s: set<Id>)
    ensures Among([m], s) == if StaysIn(m, s) then [m] else []
  {
    assert [m][..0] == [];
  }

  lemma OneId(x: Id, s: set<Id>)
    ensures Those([x], s) == if x in s then [x] else []
  {
    assert [x][..0] == [];
  }

  lemma {:induction false} CustomIdsWithin(custom: seq<CustomSection>, group: Group, s: set<Id>)
    ensures Those(CustomIds(custom, group), s) == CustomIds(CustomOf(custom, group, s), group)
  {
    if custom != [] {
      var first := if custom[0].group == group then [custom[0].id] else [];
      CustomIdsWithin(custom[1..], group, s);
      ThoseOfBoth(first, CustomIds(custom[1..], group), s);
      OneId(custom[0].id, s);
      if custom[0].group == group && custom[0].id in s {
        assert ([custom[0]] + CustomOf(custom[1..], group, s))[1..] == CustomOf(custom[1..], group, s);
      }
    }
  }

  lemma {:induction false} CustomMovesWithin(custom: seq<CustomSection>, group: Group, s: set<Id>)
    ensures Among(CustomMoves(custom, group), s) == Among(CustomMoves(CustomOf(custom, group, s), group), s)
  {
    if custom != [] {
      var c, rest := custom[0], CustomOf(custom[1..], group, s);
      CustomMovesWithin(custom[1..], group, s);
      OneMove(Move(c.id, c.after), s);
      AmongOfBoth(if c.group == group then [Move(c.id, c.after)] else [], CustomMoves(custom[1..], group), s);
      if c.group == group && c.id in s {
        assert ([c] + rest)[1..] == rest;
        AmongOfBoth([Move(c.id, c.after)], CustomMoves(rest, group), s);
      }
    }
  }

  lemma {:induction false} AllMovesWithin(moves: seq<SectionMove>, group: Group, s: set<Id>)
    requires forall m :: m in moves && m.id in s ==> m.group in {None, Some(group)}
    ensures Among(AllMoves(moves), s) == Among(GroupMoves(moves, group), s)
  {
    if moves != [] {
      var m := Move(moves[0].id, moves[0].after);
      assert moves[0] in moves;
      AllMovesWithin(moves[1..], group, s);
      OneMove(m, s);
      AmongOfBoth([m], AllMoves(moves[1..]), s);
      AmongOfBoth(if moves[0].group in {None, Some(group)} then [m] else [], GroupMoves(moves[1..], group), s);
    }
  }

  lemma {:induction false} DistinctIsKept(ids: seq<Id>)
    requires Distinct(ids)
    ensures Deduplicated(ids) == ids
  {
    if ids != [] {
      assert ids == ids[..|ids| - 1] + [ids[|ids| - 1]];
      DistinctIsKept(ids[..|ids| - 1]);
    }
  }

  lemma SamePageWithin(d: Document, source: seq<SourceSection>, group: Group, sectionId: Id, s: set<Id>)
    requires Scoped(d, source, group, sectionId, s)
    ensures Within(ScriptPage(d, group, sectionId, s), s) == Within(SectionPage(d, source, group), s)
  {
    var scoped := CustomOf(d.custom, group, s);
    DistinctIsKept(SourceIds(source, group) + CustomIds(d.custom, group));
    ThoseOfBoth(SourceIds(source, group), CustomIds(d.custom, group), s);
    CustomIdsWithin(d.custom, group, s);
    assert sectionId in Those(SourceIds(source, group), s);
    AllOfThose([sectionId] + CustomIds(scoped, group), s);
    AmongOfBoth(CustomMoves(d.custom, group), GroupMoves(d.moves, group), s);
    AmongOfBoth(CustomMoves(scoped, group), AllMoves(d.moves), s);
    CustomMovesWithin(d.custom, group, s);
    AllMovesWithin(d.moves, group, s);
  }

  /** The rows that the editor picks from its whole list are the list that the page itself shows. */
  lemma EditorRowsAreTheScriptsList(
      d: Document, source: seq<SourceSection>, group: Group, sectionId: Id, s: set<Id>, full: seq<Id>, shown: seq<Id>)
    requires Scoped(d, source, group, sectionId, s) && AnchoredWithin(SectionPage(d, source, group), s)
    requires Shows(SectionPage(d, source, group), full) && Shows(ScriptPage(d, group, sectionId, s), shown)
    ensures Those(full, s) == shown
  {
    var q := ScriptPage(d, group, sectionId, s);
    CustomIdsWithin(d.custom, group, s);
    assert sectionId in Those(SourceIds(source, group), s);
    assert forall x :: x in q.base ==> x in s;
    RowsAreShownAlone(q, s, shown);
    RowsAreShownAlone(SectionPage(d, source, group), s, full);
    AllOfThose(shown, s);
    SamePageWithin(d, source, group, sectionId, s);
    ShownListIsUnique(Within(q, s), shown, Those(full, s));
  }
}
