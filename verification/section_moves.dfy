/** Moving sections shows what was dropped, as long as every anchor names the section before it. */
module SectionMoves {
  import opened Options
  import opened SectionOrder
  import opened SectionResolver
  import opened WebsiteClient

  // ---------------------------------------------------------------------------
  // Chained lists
  // ---------------------------------------------------------------------------

  /** Every recorded anchor names the section shown just before. */
  predicate Chained(p: Page, shown: seq<Id>) {
    forall i :: 0 <= i < |shown| && shown[i] in Recorded(p.base, p.moves) ==>
      Recorded(p.base, p.moves)[shown[i]] == Predecessor(shown, i)
  }

  predicate UnmovedInOrder(p: Page, shown: seq<Id>) {
    forall i, j :: 0 <= i < j < |shown|
      && shown[i] !in Recorded(p.base, p.moves) && shown[j] !in Recorded(p.base, p.moves)
      ==> IndexOf(p.base, shown[i]) < IndexOf(p.base, shown[j])
  }

  /** Following anchors in a chained list goes back one place at a time. */
  lemma {:induction false} ChainGoesBack(p: Page, shown: seq<Id>, i: nat, n: nat)
    requires Chained(p, shown) && i < |shown|
    requires Walk(Recorded(p.base, p.moves), shown[i], n).Some?
    ensures n <= i && Walk(Recorded(p.base, p.moves), shown[i], n) == Some(shown[i - n])
    decreases n
  {
    if n > 0 { ChainGoesBack(p, shown, i - 1, n - 1); }
  }

  lemma ChainHasNoCycle(p: Page, shown: seq<Id>)
    requires SameIds(p.base, shown) && Distinct(shown) && Chained(p, shown)
    ensures Kept(p) == Recorded(p.base, p.moves)
  {
    var a := Recorded(p.base, p.moves);
    forall x | x in a ensures !OnCycle(a, x) {
      if OnCycle(a, x) {
        var n: nat :| n > 0 && Walk(a, x, n) == Some(x);
        assert x in shown;
        var i := IndexOf(shown, x);
        ChainGoesBack(p, shown, i, n);
      }
    }
  }

  /** A chained list with the sections that were never moved in base order is the one shown. */
  lemma ChainedListIsShown(p: Page, shown: seq<Id>)
    requires SameIds(p.base, shown) && Distinct(shown) && Chained(p, shown) && UnmovedInOrder(p, shown)
    ensures Shows(p, shown)
  {
    ChainHasNoCycle(p, shown);
    forall i | 0 <= i < |shown| ensures FitsIn(p, shown, i) {
      ChainedSectionFits(p, shown, i);
    }
  }

  lemma ChainedSectionFits(p: Page, shown: seq<Id>, i: nat)
    requires SameIds(p.base, shown) && Distinct(shown) && Chained(p, shown) && UnmovedInOrder(p, shown)
    requires i < |shown| && Kept(p) == Recorded(p.base, p.moves)
    ensures FitsIn(p, shown, i)
  {
    if shown[i] in Kept(p) { ChainedAnchoredFits(p, shown, i); } else { UnmovedSectionFits(p, shown, i); }
  }

  lemma ChainedAnchoredFits(p: Page, shown: seq<Id>, i: nat)
    requires Distinct(shown) && Chained(p, shown)
    requires i < |shown| && shown[i] in Kept(p) && Kept(p) == Recorded(p.base, p.moves)
    ensures FitsIn(p, shown, i)
  {
    var a, before, x := Kept(p), shown[..i], shown[i];
    assert a[x] == Predecessor(shown, i);
    forall s | s in before && s in a ensures a[s] != a[x] {
      AnchorsAreDistinct(p, shown, IndexOf(before, s), i);
    }
    if i > 0 { assert before[i - 1] == shown[i - 1]; }
  }

  lemma {:induction false} AnchorsAreDistinct(p: Page, shown: seq<Id>, k: nat, i: nat)
    requires Distinct(shown) && Chained(p, shown) && k < i < |shown|
    requires var a := Recorded(p.base, p.moves); shown[k] in a && shown[i] in a
    ensures var a := Recorded(p.base, p.moves); a[shown[k]] != a[shown[i]]
  {
  }

  lemma UnmovedSectionFits(p: Page, shown: seq<Id>, i: nat)
    requires Distinct(shown) && UnmovedInOrder(p, shown)
    requires i < |shown| && shown[i] !in Kept(p) && Kept(p) == Recorded(p.base, p.moves)
    ensures FitsIn(p, shown, i)
  {
    var a, before := Kept(p), shown[..i];
    forall u | u in before && u !in a ensures IndexOf(p.base, u) < IndexOf(p.base, shown[i]) {
      assert shown[IndexOf(before, u)] == u;
    }
  }

  /** Conversely the list shown puts the sections that were never moved in base order. */
  lemma ShownUnmovedInOrder(p: Page, shown: seq<Id>)
    requires Shows(p, shown) && Chained(p, shown)
    ensures Distinct(shown) && UnmovedInOrder(p, shown)
  {
    FittingListIsDistinct(p, shown);
    ChainHasNoCycle(p, shown);
    forall i, j | 0 <= i < j < |shown|
      && shown[i] !in Recorded(p.base, p.moves) && shown[j] !in Recorded(p.base, p.moves)
      ensures IndexOf(p.base, shown[i]) < IndexOf(p.base, shown[j])
    {
      assert FitsIn(p, shown, j) && shown[..j][i] == shown[i];
    }
  }

  // ---------------------------------------------------------------------------
  // What a move does to the list
  // ---------------------------------------------------------------------------

  lemma ReorderedAt(ids: seq<Id>, id: Id, to: int, k: nat)
    requires MovesSomething(ids, id, to) && k < |ids|
    ensures Before(IndexOf(ids, id), to, k) < |ids|
    ensures Reordered(ids, id, to)[k] == ids[Before(IndexOf(ids, id), to, k)]
  {
  }

  lemma ReorderedIsDistinct(ids: seq<Id>, id: Id, to: int)
    requires Distinct(ids) && MovesSomething(ids, id, to)
    ensures Distinct(Reordered(ids, id, to))
  {
    var from, moved := IndexOf(ids, id), Reordered(ids, id, to);
    forall i, j | 0 <= i < j < |moved| ensures moved[i] != moved[j] {
      ReorderedAt(ids, id, to, i);
      ReorderedAt(ids, id, to, j);
      var a, b := Before(from, to, i), Before(from, to, j);
      assert a < b || b < a;
    }
  }

  lemma ReorderedHasSameIds(ids: seq<Id>, id: Id, to: int)
    requires MovesSomething(ids, id, to)
    ensures SameIds(ids, Reordered(ids, id, to))
  {
    var moved := Reordered(ids, id, to);
    forall x | x in moved ensures x in ids {
      ReorderedAt(ids, id, to, IndexOf(moved, x));
    }
    forall x | x in ids ensures x in moved {
      ReorderedFrom(ids, id, to, IndexOf(ids, x));
    }
  }

  lemma ReorderedFrom(ids: seq<Id>, id: Id, to: int, k: nat)
    requires MovesSomething(ids, id, to) && k < |ids|
    ensures var now := Before(to, IndexOf(ids, id), k); now < |ids| && Reordered(ids, id, to)[now] == ids[k]
  {
    BeforeUndone(IndexOf(ids, id), to, k, |ids|);
    ReorderedAt(ids, id, to, Before(to, IndexOf(ids, id), k));
  }

  lemma BeforeUndone(from: nat, to: nat, k: nat, n: nat)
    requires from < n && to < n && k < n
    ensures Before(to, from, k) < n && Before(from, to, Before(to, from, k)) == k
  {
  }

  lemma ReorderedIsPermutation(ids: seq<Id>, id: Id, to: int)
    requires Distinct(ids)
    ensures Distinct(Reordered(ids, id, to)) && SameIds(ids, Reordered(ids, id, to))
  {
    if MovesSomething(ids, id, to) {
      ReorderedIsDistinct(ids, id, to);
      ReorderedHasSameIds(ids, id, to);
    }
  }

  /** All but the moved section keep their order. */
  lemma OthersKeepOrder(ids: seq<Id>, id: Id, to: int, i: nat, j: nat)
    requires MovesSomething(ids, id, to) && i < j < |ids| && i != to && j != to
    ensures var from := IndexOf(ids, id);
      && Before(from, to, i) < Before(from, to, j) < |ids|
      && Reordered(ids, id, to)[i] == ids[Before(from, to, i)] && Reordered(ids, id, to)[j] == ids[Before(from, to, j)]
  {
    ReorderedAt(ids, id, to, i);
    ReorderedAt(ids, id, to, j);
  }

  lemma MovedIsAtItsPlace(ids: seq<Id>, id: Id, to: int)
    requires MovesSomething(ids, id, to)
    ensures Reordered(ids, id, to)[to] == id
  {
    ReorderedAt(ids, id, to, to);
  }

  lemma AffectedOnes(ids: seq<Id>, id: Id, to: int)
    requires MovesSomething(ids, id, to)
    ensures SameIds(Disturbed(ids, Reordered(ids, id, to), IndexOf(ids, id), to, id), Affected(ids, id, to))
    ensures id in Affected(ids, id, to)
  {
  }

  lemma AffectedAreMembers(ids: seq<Id>, id: Id, to: int)
    requires MovesSomething(ids, id, to)
    ensures forall x :: x in Affected(ids, id, to) ==> x in Reordered(ids, id, to)
  {
    AffectedOnes(ids, id, to);
    ReorderedHasSameIds(ids, id, to);
  }

  /** A section that is not moved, and neither follows the place it was moved from nor the place
      it was moved to, keeps its predecessor. */
  lemma OthersKeepPredecessor(ids: seq<Id>, moved: seq<Id>, from: nat, to: nat, k: nat)
    requires |moved| == |ids| && from < |ids| && to < |ids| && k < |ids| && k != to && k != to + 1 && from != to
    requires Before(from, to, k) != from + 1
    requires k > 0 ==> moved[k - 1] == ids[Before(from, to, k - 1)]
    ensures Predecessor(moved, k) == Predecessor(ids, Before(from, to, k))
  {
    BeforeGoesBack(from, to, k);
  }

  lemma BeforeGoesBack(from: nat, to: nat, k: nat)
    requires k != to && k != to + 1 && from != to && Before(from, to, k) != from + 1
    ensures if k == 0 then Before(from, to, k) == 0 else Before(from, to, k) == Before(from, to, k - 1) + 1
  {
  }

  lemma UnaffectedIsElsewhere(ids: seq<Id>, id: Id, to: int, k: nat)
    requires MovesSomething(ids, id, to) && k < |ids| && Reordered(ids, id, to)[k] !in Affected(ids, id, to)
    ensures k != to && k != to + 1 && Before(IndexOf(ids, id), to, k) != IndexOf(ids, id) + 1
  {
    var from, moved := IndexOf(ids, id), Reordered(ids, id, to);
    AffectedOnes(ids, id, to);
    assert moved[k] !in Disturbed(ids, moved, from, to, id);
    MovedIsAtItsPlace(ids, id, to);
    ReorderedAt(ids, id, to, k);
    UndisturbedIsElsewhere(ids, moved, from, to, id, k);
  }

  lemma UndisturbedIsElsewhere(ids: seq<Id>, moved: seq<Id>, from: nat, to: nat, id: Id, k: nat)
    requires |moved| == |ids| && to < |ids| && k < |ids| && Before(from, to, k) < |ids|
    requires moved[to] == id && moved[k] == ids[Before(from, to, k)] && moved[k] !in Disturbed(ids, moved, from, to, id)
    ensures k != to && k != to + 1 && Before(from, to, k) != from + 1
  {
  }

  lemma UnaffectedKeepsPredecessor(ids: seq<Id>, id: Id, to: int, k: nat)
    requires MovesSomething(ids, id, to) && k < |ids| && Reordered(ids, id, to)[k] !in Affected(ids, id, to)
    ensures var was := Before(IndexOf(ids, id), to, k);
      was < |ids| && Predecessor(Reordered(ids, id, to), k) == Predecessor(ids, was)
  {
    UnaffectedIsElsewhere(ids, id, to, k);
    ElsewhereKeepsPredecessor(ids, id, to, k);
  }

  lemma ElsewhereKeepsPredecessor(ids: seq<Id>, id: Id, to: int, k: nat)
    requires MovesSomething(ids, id, to) && k < |ids|
    requires k != to && k != to + 1 && Before(IndexOf(ids, id), to, k) != IndexOf(ids, id) + 1
    ensures var was := Before(IndexOf(ids, id), to, k);
      was < |ids| && Predecessor(Reordered(ids, id, to), k) == Predecessor(ids, was)
  {
    var from, moved := IndexOf(ids, id), Reordered(ids, id, to);
    ReorderedAt(ids, id, to, k);
    if k > 0 {
      ReorderedAt(ids, id, to, k - 1);
      assert moved[k - 1] == ids[Before(from, to, k - 1)];
    }
    OthersKeepPredecessor(ids, moved, from, to, k);
  }

  // ---------------------------------------------------------------------------
  // What a move does to the recorded anchors
  // ---------------------------------------------------------------------------

  /** The anchor that `moves` record for `x`, if they record one. */
  function AnchorIn(base: seq<Id>, moves: seq<Move>, x: Id): Option<Option<Id>> {
    if LastMove(base, moves, x) >= 0 then Some(moves[LastMove(base, moves, x)].after) else None
  }

  function AnchorOf(p: Page, x: Id): (r: Option<Option<Id>>)
    ensures x in p.base ==> (r.Some? <==> x in Recorded(p.base, p.moves))
    ensures x in Recorded(p.base, p.moves) ==> r == Some(Recorded(p.base, p.moves)[x])
  {
    AnchorIn(p.base, p.moves, x)
  }

  lemma AnchorInBoth(base: seq<Id>, earlier: seq<Move>, later: seq<Move>, x: Id)
    ensures AnchorIn(base, earlier + later, x) ==
      if AnchorIn(base, later, x).Some? then AnchorIn(base, later, x) else AnchorIn(base, earlier, x)
  {
    LastMoveOfBoth(base, earlier, later, x);
  }

  /** The moves of all other sections. */
  function MovesWithout(moves: seq<Move>, which: seq<Id>): seq<Move> {
    if moves == [] then []
    else
      var rest, last := MovesWithout(moves[..|moves| - 1], which), moves[|moves| - 1];
      if last.id in which then rest else rest + [last]
  }

  /** A move for each section, to where it stands in `moved`. */
  function PlacingMoves(which: seq<Id>, moved: seq<Id>): seq<Move> {
    if which == [] then []
    else
      var rest, last := PlacingMoves(which[..|which| - 1], moved), which[|which| - 1];
      if last in moved then rest + [Move(last, Predecessor(moved, IndexOf(moved, last)))] else rest
  }

  lemma {:induction false} OthersLeftOut(base: seq<Id>, moves: seq<Move>, which: seq<Id>, x: Id)
    requires x !in which
    ensures AnchorIn(base, MovesWithout(moves, which), x) == AnchorIn(base, moves, x)
  {
    if moves != [] {
      var rest, last := MovesWithout(moves[..|moves| - 1], which), moves[|moves| - 1];
      OthersLeftOut(base, moves[..|moves| - 1], which, x);
      if last.id !in which { assert (rest + [last])[..|rest|] == rest; }
    }
  }

  lemma {:induction false} OthersKeepTheirTurn(base: seq<Id>, moves: seq<Move>, which: seq<Id>, x: Id, y: Id)
    requires x !in which && y !in which
    ensures LastMove(base, MovesWithout(moves, which), x) < LastMove(base, MovesWithout(moves, which), y)
      <==> LastMove(base, moves, x) < LastMove(base, moves, y)
  {
    if moves != [] {
      var rest, last := MovesWithout(moves[..|moves| - 1], which), moves[|moves| - 1];
      OthersKeepTheirTurn(base, moves[..|moves| - 1], which, x, y);
      if last.id !in which {
        LastMoveAmongMore(base, rest, last, x);
        LastMoveAmongMore(base, rest, last, y);
      }
    }
  }

  lemma LastMoveAmongMore(base: seq<Id>, moves: seq<Move>, last: Move, x: Id)
    ensures LastMove(base, moves + [last], x) ==
      if last.id == x && Counts(base, last) then |moves| else LastMove(base, moves, x)
  {
    assert (moves + [last])[..|moves|] == moves;
  }

  /** The placements anchor each section they place to its predecessor, and no other section. */
  lemma {:induction false} PlacingAnchors(base: seq<Id>, which: seq<Id>, moved: seq<Id>, x: Id)
    requires Distinct(moved) && forall y :: y in moved ==> y in base
    requires forall y :: y in which ==> y in moved
    ensures AnchorIn(base, PlacingMoves(which, moved), x) ==
      if x in which then Some(Predecessor(moved, IndexOf(moved, x))) else None
  {
    if which != [] {
      var rest, last := which[..|which| - 1], which[|which| - 1];
      assert which == rest + [last];
      PlacingAnchors(base, rest, moved, x);
      var earlier, i := PlacingMoves(rest, moved), IndexOf(moved, last);
      if i > 0 { assert moved[i - 1] in moved; }
      assert Counts(base, Move(last, Predecessor(moved, i)));
      assert (earlier + [Move(last, Predecessor(moved, i))])[..|earlier|] == earlier;
    }
  }

  /** What placing `which` as in `moved` makes of a page whose last moves are `group`. */
  function Placed(base: seq<Id>, earlier: seq<Move>, group: seq<Move>, which: seq<Id>, moved: seq<Id>): Page {
    Page(base, earlier + MovesWithout(group, which) + PlacingMoves(which, moved))
  }

  ghost predicate AnchoredAnew(p: Page, p': Page, which: seq<Id>, moved: seq<Id>, x: Id) {
    AnchorOf(p', x) == if x in which then Some(Predecessor(moved, IndexOf(moved, x))) else AnchorOf(p, x)
  }

  ghost predicate KeepTheirTurn(p: Page, p': Page, which: seq<Id>, x: Id, y: Id) {
    x !in which && y !in which ==> (Priority(p', x) < Priority(p', y) <==> Priority(p, x) < Priority(p, y))
  }

  ghost predicate TakesLastTurn(p': Page, which: seq<Id>, x: Id, y: Id) {
    x in which && y !in which ==> Priority(p', y) < Priority(p', x)
  }

  /** The page with the sections of `which` anchored to where they stand in `moved`, by its last
      moves, and all others as before. */
  ghost predicate Reanchored(p: Page, p': Page, which: seq<Id>, moved: seq<Id>) {
    && p'.base == p.base
    && (forall x :: AnchoredAnew(p, p', which, moved, x))
    && (forall x, y :: KeepTheirTurn(p, p', which, x, y))
    && (forall x, y :: TakesLastTurn(p', which, x, y))
  }

  lemma PlacedAnchors(base: seq<Id>, earlier: seq<Move>, group: seq<Move>, which: seq<Id>, moved: seq<Id>, x: Id)
    requires Distinct(moved) && (forall y :: y in moved ==> y in base) && forall y :: y in which ==> y in moved
    ensures AnchoredAnew(Page(base, earlier + group), Placed(base, earlier, group, which, moved), which, moved, x)
  {
    PlacingAnchors(base, which, moved, x);
    AnchorInBoth(base, earlier + MovesWithout(group, which), PlacingMoves(which, moved), x);
    AnchorInBoth(base, earlier, MovesWithout(group, which), x);
    AnchorInBoth(base, earlier, group, x);
    if x !in which { OthersLeftOut(base, group, which, x); }
  }

  lemma UnplacedPriority(base: seq<Id>, earlier: seq<Move>, group: seq<Move>, which: seq<Id>, moved: seq<Id>, x: Id)
    requires Distinct(moved) && (forall y :: y in moved ==> y in base) && (forall y :: y in which ==> y in moved)
      && x !in which
    ensures
      var p, p', kept := Page(base, earlier + group), Placed(base, earlier, group, which, moved),
        MovesWithout(group, which);
      var i, j, k := LastMove(base, group, x), LastMove(base, kept, x), LastMove(base, earlier, x);
      && Priority(p, x) == (if i >= 0 then |earlier| + i else k)
      && Priority(p', x) == (if j >= 0 then |earlier| + j else k)
      && (LastMove(base, kept, x) >= 0 <==> LastMove(base, group, x) >= 0)
      && Priority(p', x) < |earlier + kept|
  {
    var kept := MovesWithout(group, which);
    PlacingAnchors(base, which, moved, x);
    LastMoveOfBoth(base, earlier + kept, PlacingMoves(which, moved), x);
    LastMoveOfBoth(base, earlier, kept, x);
    LastMoveOfBoth(base, earlier, group, x);
    OthersLeftOut(base, group, which, x);
  }

  lemma PlacedPriority(base: seq<Id>, earlier: seq<Move>, group: seq<Move>, which: seq<Id>, moved: seq<Id>, x: Id)
    requires Distinct(moved) && (forall y :: y in moved ==> y in base) && (forall y :: y in which ==> y in moved)
      && x in which
    ensures Priority(Placed(base, earlier, group, which, moved), x) >= |earlier + MovesWithout(group, which)|
  {
    PlacingAnchors(base, which, moved, x);
    LastMoveOfBoth(base, earlier + MovesWithout(group, which), PlacingMoves(which, moved), x);
  }

  lemma PlacedIsReanchored(base: seq<Id>, earlier: seq<Move>, group: seq<Move>, which: seq<Id>, moved: seq<Id>)
    requires Distinct(moved) && (forall y :: y in moved ==> y in base) && forall y :: y in which ==> y in moved
    ensures Reanchored(Page(base, earlier + group), Placed(base, earlier, group, which, moved), which, moved)
  {
    var p, p' := Page(base, earlier + group), Placed(base, earlier, group, which, moved);
    forall x ensures AnchoredAnew(p, p', which, moved, x) { PlacedAnchors(base, earlier, group, which, moved, x); }
    forall x, y ensures KeepTheirTurn(p, p', which, x, y) {
      if x !in which && y !in which {
        UnplacedPriority(base, earlier, group, which, moved, x);
        UnplacedPriority(base, earlier, group, which, moved, y);
        OthersKeepTheirTurn(base, group, which, x, y);
      }
    }
    forall x, y ensures TakesLastTurn(p', which, x, y) {
      if x in which && y !in which {
        PlacedPriority(base, earlier, group, which, moved, x);
        UnplacedPriority(base, earlier, group, which, moved, y);
      }
    }
  }

  // ---------------------------------------------------------------------------
  // The move on a page
  // ---------------------------------------------------------------------------

  /** A page before and after a move among the sections of `ids`. */
  ghost predicate MovedOn(p: Page, p': Page, ids: seq<Id>, id: Id, to: int) {
    && MovesSomething(ids, id, to) && Distinct(ids) && SameIds(p.base, ids)
    && Reanchored(p, p', Affected(ids, id, to), Reordered(ids, id, to))
  }

  lemma MoveKeepsChain(p: Page, p': Page, ids: seq<Id>, id: Id, to: int)
    requires MovedOn(p, p', ids, id, to) && Chained(p, ids)
    ensures Chained(p', Reordered(ids, id, to))
  {
    var moved, which := Reordered(ids, id, to), Affected(ids, id, to);
    ReorderedIsPermutation(ids, id, to);
    forall k | 0 <= k < |moved| && moved[k] in Recorded(p'.base, p'.moves)
      ensures Recorded(p'.base, p'.moves)[moved[k]] == Predecessor(moved, k)
    {
      assert AnchoredAnew(p, p', which, moved, moved[k]) && IndexOf(moved, moved[k]) == k;
      if moved[k] !in which {
        ReorderedAt(ids, id, to, k);
        UnaffectedKeepsPredecessor(ids, id, to, k);
      }
    }
  }

  /** A section that no move anchors stands elsewhere than the moved one, and was anchored by none. */
  lemma UnmovedBefore(p: Page, p': Page, ids: seq<Id>, id: Id, to: int, k: nat)
    requires MovedOn(p, p', ids, id, to) && k < |ids|
    requires Reordered(ids, id, to)[k] !in Recorded(p'.base, p'.moves)
    ensures k != to && Reordered(ids, id, to)[k] !in Recorded(p.base, p.moves)
  {
    var x := Reordered(ids, id, to)[k];
    ReorderedIsPermutation(ids, id, to);
    assert x in Reordered(ids, id, to) && x in p.base;
    assert AnchoredAnew(p, p', Affected(ids, id, to), Reordered(ids, id, to), x);
    AffectedOnes(ids, id, to);
    MovedIsAtItsPlace(ids, id, to);
  }

  lemma MoveKeepsUnmovedOrder(p: Page, p': Page, ids: seq<Id>, id: Id, to: int)
    requires MovedOn(p, p', ids, id, to) && UnmovedInOrder(p, ids)
    ensures UnmovedInOrder(p', Reordered(ids, id, to))
  {
    var moved := Reordered(ids, id, to);
    forall i, j | 0 <= i < j < |moved|
      && moved[i] !in Recorded(p'.base, p'.moves) && moved[j] !in Recorded(p'.base, p'.moves)
      ensures IndexOf(p'.base, moved[i]) < IndexOf(p'.base, moved[j])
    {
      UnmovedBefore(p, p', ids, id, to, i);
      UnmovedBefore(p, p', ids, id, to, j);
      OthersKeepOrder(ids, id, to, i, j);
    }
  }

  /** On a chained page what was dropped is what is shown, and the page stays chained. */
  lemma MovedPageShowsTheDrop(p: Page, p': Page, ids: seq<Id>, id: Id, to: int)
    requires MovedOn(p, p', ids, id, to) && Shows(p, ids) && Chained(p, ids)
    ensures Shows(p', Reordered(ids, id, to)) && Chained(p', Reordered(ids, id, to))
  {
    ShownUnmovedInOrder(p, ids);
    ReorderedIsPermutation(ids, id, to);
    MoveKeepsChain(p, p', ids, id, to);
    MoveKeepsUnmovedOrder(p, p', ids, id, to);
    ChainedListIsShown(p', Reordered(ids, id, to));
  }

  // ---------------------------------------------------------------------------
  // The round trip
  // ---------------------------------------------------------------------------

  lemma {:induction false} GroupMovesOfBoth(a: seq<SectionMove>, b: seq<SectionMove>, group: Group)
    ensures GroupMoves(a + b, group) == GroupMoves(a, group) + GroupMoves(b, group)
  {
    if a == [] {
      assert a + b == b;
    } else {
      assert (a + b)[1..] == a[1..] + b && (a + b)[0] == a[0];
      GroupMovesOfBoth(a[1..], b, group);
      var first := if a[0].group in {None, Some(group)} then [Move(a[0].id, a[0].after)] else [];
      var rest, after := GroupMoves(a[1..], group), GroupMoves(b, group);
      assert first + (rest + after) == (first + rest) + after;
    }
  }

  lemma {:induction false} MovesWithoutOfBoth(a: seq<Move>, b: seq<Move>, which: seq<Id>)
    ensures MovesWithout(a + b, which) == MovesWithout(a, which) + MovesWithout(b, which)
  {
    if b == [] {
      assert a + b == a;
    } else {
      assert (a + b)[..|a + b| - 1] == a + b[..|b| - 1];
      MovesWithoutOfBoth(a, b[..|b| - 1], which);
    }
  }

  lemma {:induction false} GroupMovesWithout(moves: seq<SectionMove>, which: seq<Id>, group: Group)
    ensures GroupMoves(WithoutMovesOf(moves, which), group) == MovesWithout(GroupMoves(moves, group), which)
  {
    if moves != [] {
      var first := if moves[0].group in {None, Some(group)} then [Move(moves[0].id, moves[0].after)] else [];
      var rest := WithoutMovesOf(moves[1..], which);
      GroupMovesWithout(moves[1..], which, group);
      MovesWithoutOfBoth(first, GroupMoves(moves[1..], group), which);
      if first != [] { assert first[..0] == []; }
      assert WithoutMovesOf(moves, which) == if moves[0].id in which then rest else [moves[0]] + rest;
      if moves[0].id !in which { assert ([moves[0]] + rest)[1..] == rest; }
      assert MovesWithout(first, which) == if moves[0].id in which then [] else first;
    }
  }

  lemma {:induction false} GroupPlacements(which: seq<Id>, moved: seq<Id>, group: Group)
    ensures GroupMoves(Placements(which, moved, group), group) == PlacingMoves(which, moved)
  {
    if which != [] {
      var rest, last := which[..|which| - 1], which[|which| - 1];
      GroupPlacements(rest, moved, group);
      if last in moved {
        var move := SectionMove(last, Predecessor(moved, IndexOf(moved, last)), Some(group));
        GroupMovesOfBoth(Placements(rest, moved, group), [move], group);
        assert [move][1..] == [];
        assert GroupMoves([move], group) == [Move(last, move.after)];
      } else {
        assert Placements(which, moved, group) == Placements(rest, moved, group);
      }
    }
  }

  /** After a move the page is the one that places the affected sections where they now stand. */
  lemma MovedPage(d: Document, source: seq<SourceSection>, group: Group, ids: seq<Id>, id: Id, to: int)
    requires MovesSomething(ids, id, to)
    ensures SectionPage(Moved(d, group, ids, id, to), source, group) ==
      Placed(SectionPage(d, source, group).base, CustomMoves(d.custom, group), GroupMoves(d.moves, group),
             Affected(ids, id, to), Reordered(ids, id, to))
  {
    var which, moved := Affected(ids, id, to), Reordered(ids, id, to);
    PlacedGroupMoves(d.moves, group, which, moved);
    Associates(CustomMoves(d.custom, group), MovesWithout(GroupMoves(d.moves, group), which),
      PlacingMoves(which, moved));
  }

  lemma PlacedGroupMoves(moves: seq<SectionMove>, group: Group, which: seq<Id>, moved: seq<Id>)
    ensures GroupMoves(WithoutMovesOf(moves, which) + Placements(which, moved, group), group) ==
      MovesWithout(GroupMoves(moves, group), which) + PlacingMoves(which, moved)
  {
    GroupMovesWithout(moves, which, group);
    GroupPlacements(which, moved, group);
    GroupMovesOfBoth(WithoutMovesOf(moves, which), Placements(which, moved, group), group);
  }

  lemma Associates<T>(a: seq<T>, b: seq<T>, c: seq<T>)
    ensures a + (b + c) == a + b + c
  {
  }

  /** After the move, the affected sections are anchored to where they now stand, by the last moves,
      and the others are anchored as before and keep their turn. */
  lemma AnchorsAfterMove(d: Document, source: seq<SourceSection>, group: Group, ids: seq<Id>, id: Id, to: int)
    requires MovesSomething(ids, id, to) && Distinct(ids) && SameIds(SectionPage(d, source, group).base, ids)
    ensures
      MovedOn(SectionPage(d, source, group), SectionPage(Moved(d, group, ids, id, to), source, group), ids, id, to)
  {
    MovedPage(d, source, group, ids, id, to);
    ReorderedIsPermutation(ids, id, to);
    AffectedAreMembers(ids, id, to);
    PlacedIsReanchored(SectionPage(d, source, group).base, CustomMoves(d.custom, group), GroupMoves(d.moves, group),
                       Affected(ids, id, to), Reordered(ids, id, to));
  }

  /** What was dropped is what is shown, and the page stays chained. */
  lemma MoveShowsWhatWasDropped(d: Document, source: seq<SourceSection>, group: Group, ids: seq<Id>, id: Id, to: int)
    requires Shows(SectionPage(d, source, group), ids) && Chained(SectionPage(d, source, group), ids)
    ensures
      var p' := SectionPage(Moved(d, group, ids, id, to), source, group);
      Shows(p', Reordered(ids, id, to)) && Chained(p', Reordered(ids, id, to))
  {
    if MovesSomething(ids, id, to) {
      FittingListIsDistinct(SectionPage(d, source, group), ids);
      AnchorsAfterMove(d, source, group, ids, id, to);
      MovedPageShowsTheDrop(SectionPage(d, source, group), SectionPage(Moved(d, group, ids, id, to), source, group),
        ids, id, to);
    }
  }

  /** Moves made one after another, each against the list shown at the time. */
  function MovedAll(d: Document, group: Group, ids: seq<Id>, steps: seq<(Id, int)>): Document
    decreases |steps|
  {
    if steps == [] then d
    else MovedAll(Moved(d, group, ids, steps[0].0, steps[0].1), group, Reordered(ids, steps[0].0, steps[0].1),
      steps[1..])
  }

  function ReorderedAll(ids: seq<Id>, steps: seq<(Id, int)>): seq<Id>
    decreases |steps|
  {
    if steps == [] then ids else ReorderedAll(Reordered(ids, steps[0].0, steps[0].1), steps[1..])
  }

  lemma {:induction false} AnyMovesShowWhatWasDropped(
      d: Document, source: seq<SourceSection>, group: Group, ids: seq<Id>, steps: seq<(Id, int)>)
    requires Shows(SectionPage(d, source, group), ids) && Chained(SectionPage(d, source, group), ids)
    ensures Shows(SectionPage(MovedAll(d, group, ids, steps), source, group), ReorderedAll(ids, steps))
    decreases |steps|
  {
    if steps != [] {
      var id, to := steps[0].0, steps[0].1;
      MoveShowsWhatWasDropped(d, source, group, ids, id, to);
      AnyMovesShowWhatWasDropped(Moved(d, group, ids, id, to), source, group, Reordered(ids, id, to), steps[1..]);
    }
  }

  /** A document that nobody has rearranged shows the source's own order, and may be moved about. */
  lemma UntouchedPageIsChained(d: Document, source: seq<SourceSection>, group: Group)
    requires d.custom == [] && d.moves == []
    ensures
      var p := SectionPage(d, source, group);
      Shows(p, p.base) && Chained(p, p.base)
  {
    var p := SectionPage(d, source, group);
    DeduplicatedIsDistinct(SourceIds(source, group) + CustomIds(d.custom, group));
    assert Recorded(p.base, p.moves) == map[];
    assert UnmovedInOrder(p, p.base) by {
      forall i | 0 <= i < |p.base| ensures IndexOf(p.base, p.base[i]) == i {}
    }
    ChainedListIsShown(p, p.base);
  }

  lemma {:induction false} DeduplicatedIsDistinct(ids: seq<Id>)
    ensures Distinct(Deduplicated(ids))
  {
    if ids != [] { DeduplicatedIsDistinct(ids[..|ids| - 1]); }
  }
}
