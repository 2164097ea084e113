/** What removing a custom section does to the list shown. */
module RemovedSections {
  import opened Options
  import opened SectionOrder
  import opened SectionResolver
  import opened WebsiteClient
  import opened CustomSections
  import opened SectionMoves
  import opened MoveConditions
  import opened PageRows

  // ---------------------------------------------------------------------------
  // The moves that a removal leaves
  // ---------------------------------------------------------------------------

  /** The moves without those of `id`. A custom section put after `id` is put first instead; a move
      to after `id` is forgotten. */
  function Detached(moves: seq<Move>, id: Id, custom: bool): seq<Move> {
    if moves == [] then []
    else
      var rest, last := Detached(moves[..|moves| - 1], id, custom), moves[|moves| - 1];
      if last.id == id then rest
      else if last.after != Some(id) then rest + [last]
      else if custom then rest + [Move(last.id, None)]
      else rest
  }

  lemma {:induction false} DetachedOfBoth(a: seq<Move>, b: seq<Move>, id: Id, custom: bool)
    ensures Detached(a + b, id, custom) == Detached(a, id, custom) + Detached(b, id, custom)
  {
    if b == [] {
      assert a + b == a;
    } else {
      assert (a + b)[..|a + b| - 1] == a + b[..|b| - 1];
      DetachedOfBoth(a, b[..|b| - 1], id, custom);
    }
  }

  lemma OneDetached(m: Move, id: Id, custom: bool)
    ensures Detached([m], id, custom) ==
      if m.id == id || (m.after == Some(id) && !custom) then []
      else if m.after == Some(id) then [Move(m.id, None)] else [m]
  {
    assert [m][..0] == [];
  }

  lemma {:induction false} CustomMovesDetached(custom: seq<CustomSection>, id: Id, group: Group)
    ensures CustomMoves(WithoutCustom(custom, id), group) == Detached(CustomMoves(custom, group), id, true)
  {
    if custom != [] {
      var c, rest := custom[0], WithoutCustom(custom[1..], id);
      CustomMovesDetached(custom[1..], id, group);
      DetachedOfBoth(if c.group == group then [Move(c.id, c.after)] else [], CustomMoves(custom[1..], group), id, true);
      OneDetached(Move(c.id, c.after), id, true);
      var c' := if c.after == Some(id) then c.(after := None) else c;
      assert WithoutCustom(custom, id) == if c.id == id then rest else [c'] + rest;
      assert ([c'] + rest)[1..] == rest;
    }
  }

  lemma {:induction false} GroupMovesDetached(moves: seq<SectionMove>, id: Id, group: Group)
    ensures GroupMoves(WithoutMoves(moves, id), group) == Detached(GroupMoves(moves, group), id, false)
  {
    if moves != [] {
      var m, rest := moves[0], WithoutMoves(moves[1..], id);
      GroupMovesDetached(moves[1..], id, group);
      DetachedOfBoth(if m.group in {None, Some(group)} then [Move(m.id, m.after)] else [],
        GroupMoves(moves[1..], group), id, false);
      OneDetached(Move(m.id, m.after), id, false);
      assert WithoutMoves(moves, id) == if m.id == id || m.after == Some(id) then rest else [m] + rest;
      assert ([m] + rest)[1..] == rest;
    }
  }

  lemma {:induction false} CustomIdsLeft(custom: seq<CustomSection>, id: Id, group: Group)
    ensures CustomIds(WithoutCustom(custom, id), group) == WithoutHidden(CustomIds(custom, group), id)
  {
    if custom != [] {
      var c, rest := custom[0], WithoutCustom(custom[1..], id);
      CustomIdsLeft(custom[1..], id, group);
      var c' := if c.after == Some(id) then c.(after := None) else c;
      assert WithoutCustom(custom, id) == if c.id == id then rest else [c'] + rest;
      assert ([c'] + rest)[1..] == rest;
      var ids := CustomIds(custom[1..], group);
      assert CustomIds(custom, group) == if c.group == group then [c.id] + ids else ids;
      if c.group == group { assert ([c.id] + ids)[1..] == ids; }
    }
  }

  /** Everything but one section. */
  function Others(ids: seq<Id>, id: Id): set<Id> {
    (set x | x in ids) - {id}
  }

  lemma {:induction false} WithoutIsThose(ids: seq<Id>, id: Id, s: set<Id>)
    requires forall x :: x in ids ==> (x in s <==> x != id)
    ensures WithoutHidden(ids, id) == Those(ids, s)
  {
    if ids != [] {
      assert ids == [ids[0]] + ids[1..];
      WithoutIsThose(ids[1..], id, s);
      ThoseOfBoth([ids[0]], ids[1..], s);
      OneId(ids[0], s);
    }
  }

  lemma {:induction false} DeduplicatedThose(ids: seq<Id>, s: set<Id>)
    ensures Deduplicated(Those(ids, s)) == Those(Deduplicated(ids), s)
  {
    if ids != [] {
      var before, last := ids[..|ids| - 1], ids[|ids| - 1];
      DeduplicatedThose(before, s);
      var rest, kept := Deduplicated(before), Those(before, s);
      if last in s { assert (kept + [last])[..|kept|] == kept; }
      if last !in rest { assert (rest + [last])[..|rest|] == rest; }
    }
  }

  /** A section that only the document has: not one of the source. */
  predicate IsCustom(d: Document, source: seq<SourceSection>, group: Group, id: Id) {
    id in CustomIds(d.custom, group) && id !in SourceIds(source, group)
  }

  function LeftMoves(d: Document, group: Group, id: Id): seq<Move> {
    Detached(CustomMoves(d.custom, group), id, true) + Detached(GroupMoves(d.moves, group), id, false)
  }

  lemma PageLeft(d: Document, source: seq<SourceSection>, group: Group, id: Id)
    requires IsCustom(d, source, group, id)
    ensures var p := SectionPage(d, source, group);
      SectionPage(Removed(d, id), source, group) == Page(Those(p.base, Others(p.base, id)), LeftMoves(d, group, id))
  {
    var sources, customs := SourceIds(source, group), CustomIds(d.custom, group);
    var s := Others(SectionPage(d, source, group).base, id);
    forall x | x in sources + customs ensures x in s <==> x != id { DeduplicatedHas(sources + customs, x); }
    forall x | x in sources ensures x in s { assert x in sources + customs; }
    forall x | x in customs ensures x in s <==> x != id { assert x in sources + customs; }
    CustomMovesDetached(d.custom, id, group);
    GroupMovesDetached(d.moves, id, group);
    CustomIdsLeft(d.custom, id, group);
    WithoutIsThose(customs, id, s);
    AllOfThose(sources, s);
    ThoseOfBoth(sources, customs, s);
    DeduplicatedThose(sources + customs, s);
  }

  lemma {:induction false} DeduplicatedHas(ids: seq<Id>, x: Id)
    ensures x in Deduplicated(ids) <==> x in ids
  {
    if ids != [] {
      assert ids == ids[..|ids| - 1] + [ids[|ids| - 1]];
      DeduplicatedHas(ids[..|ids| - 1], x);
    }
  }

  // ---------------------------------------------------------------------------
  // The anchors that a removal leaves
  // ---------------------------------------------------------------------------

  /** Whether the removal of `id` leaves a move, if only to the front for one to after `id`. */
  predicate Stays(m: Move, id: Id, custom: bool) {
    m.id != id && (custom || m.after != Some(id))
  }

  function Loosened(m: Move, id: Id): Move {
    if m.after == Some(id) then Move(m.id, None) else m
  }

  /** The index of the last move that counts for `x` and that the removal leaves, or -1. */
  function LastStaying(base: seq<Id>, moves: seq<Move>, id: Id, custom: bool, x: Id): (i: int)
    ensures -1 <= i < |moves|
    ensures i >= 0 ==> moves[i].id == x && Counts(base, moves[i]) && Stays(moves[i], id, custom)
  {
    if moves == [] then -1
    else
      var n := |moves| - 1;
      if moves[n].id == x && Counts(base, moves[n]) && Stays(moves[n], id, custom) then n
      else LastStaying(base, moves[..n], id, custom, x)
  }

  /** That move is the last once the others are detached. */
  lemma {:induction false} LastMoveLeft(base: seq<Id>, moves: seq<Move>, id: Id, custom: bool, x: Id)
    requires x != id && id in base
    ensures
      var i := LastStaying(base, moves, id, custom, x);
      var j := LastMove(Those(base, Others(base, id)), Detached(moves, id, custom), x);
      if i < 0 then j == -1
      else j == |Detached(moves[..i], id, custom)| && Detached(moves, id, custom)[j] == Loosened(moves[i], id)
  {
    if moves != [] {
      var n := |moves| - 1;
      var rest, m := Detached(moves[..n], id, custom), moves[n];
      assert (rest + [Loosened(m, id)])[..|rest|] == rest;
      var i := LastStaying(base, moves, id, custom, x);
      if i != n {
        LastMoveLeft(base, moves[..n], id, custom, x);
        if i >= 0 { assert moves[..n][..i] == moves[..i]; }
      }
    }
  }

  /** The last move of a section, unless it names the removed one, is still its last. */
  lemma {:induction false} LastMoveStaying(base: seq<Id>, moves: seq<Move>, id: Id, custom: bool, x: Id)
    requires x != id
    requires LastMove(base, moves, x) >= 0 ==> moves[LastMove(base, moves, x)].after != Some(id)
    ensures LastStaying(base, moves, id, custom, x) == LastMove(base, moves, x)
  {
    if moves != [] {
      var n := |moves| - 1;
      if LastMove(base, moves, x) != n { LastMoveStaying(base, moves[..n], id, custom, x); }
    }
  }

  lemma {:induction false} DetachedGrow(moves: seq<Move>, id: Id, custom: bool, i: nat, k: nat)
    requires i < k <= |moves|
    ensures |Detached(moves[..i], id, custom)| <= |Detached(moves[..k], id, custom)|
    ensures Stays(moves[i], id, custom) ==> |Detached(moves[..i], id, custom)| < |Detached(moves[..k], id, custom)|
  {
    assert moves[..k][..k - 1] == moves[..k - 1];
    if i < k - 1 { DetachedGrow(moves, id, custom, i, k - 1); }
  }

  /** Where, among the moves there were, stands the one that a section is left with; -1 for none. */
  function LeftTurn(base: seq<Id>, earlier: seq<Move>, later: seq<Move>, id: Id, x: Id): (i: int)
    ensures -1 <= i < |earlier| + |later|
    ensures 0 <= i < |earlier| ==> earlier[i].id == x && Stays(earlier[i], id, true)
    ensures i >= |earlier| ==> later[i - |earlier|].id == x && Stays(later[i - |earlier|], id, false)
  {
    var i := LastStaying(base, later, id, false, x);
    if i >= 0 then |earlier| + i else LastStaying(base, earlier, id, true, x)
  }

  /** The anchor that a section is left with, if it is left with one. */
  function LeftAnchor(base: seq<Id>, earlier: seq<Move>, later: seq<Move>, id: Id, x: Id): (r: Option<Option<Id>>)
    ensures r != Some(Some(id))
  {
    var i := LeftTurn(base, earlier, later, id, x);
    if i < 0 then None else Some(Loosened((earlier + later)[i], id).after)
  }

  lemma LeftAsItWas(base: seq<Id>, earlier: seq<Move>, later: seq<Move>, id: Id, x: Id)
    requires x != id && AnchorIn(base, earlier + later, x) != Some(Some(id))
    ensures LeftTurn(base, earlier, later, id, x) == LastMove(base, earlier + later, x)
    ensures LeftAnchor(base, earlier, later, id, x) == AnchorIn(base, earlier + later, x)
  {
    LastMoveOfBoth(base, earlier, later, x);
    LastMoveStaying(base, later, id, false, x);
    if LastMove(base, later, x) < 0 { LastMoveStaying(base, earlier, id, true, x); }
  }

  /** The turn that a section's last move has once the others are detached. */
  function TurnLeft(earlier: seq<Move>, later: seq<Move>, id: Id, i: int): int
    requires -1 <= i < |earlier| + |later|
  {
    if i < 0 then -1
    else if i < |earlier| then |Detached(earlier[..i], id, true)|
    else |Detached(earlier, id, true)| + |Detached(later[..i - |earlier|], id, false)|
  }

  lemma LastMoveLeftOfBoth(base: seq<Id>, earlier: seq<Move>, later: seq<Move>, id: Id, x: Id)
    requires x != id && id in base
    ensures
      var base', moves' := Those(base, Others(base, id)), Detached(earlier, id, true) + Detached(later, id, false);
      && LastMove(base', moves', x) == TurnLeft(earlier, later, id, LeftTurn(base, earlier, later, id, x))
      && AnchorIn(base', moves', x) == LeftAnchor(base, earlier, later, id, x)
  {
    LastMoveOfBoth(Those(base, Others(base, id)), Detached(earlier, id, true), Detached(later, id, false), x);
    LastMoveLeft(base, later, id, false, x);
    LastMoveLeft(base, earlier, id, true, x);
  }

  lemma TurnsLeft(earlier: seq<Move>, later: seq<Move>, id: Id, i: int, k: int)
    requires -1 <= i < k < |earlier| + |later|
    requires 0 <= i < |earlier| ==> Stays(earlier[i], id, true)
    requires i >= |earlier| ==> Stays(later[i - |earlier|], id, false)
    ensures TurnLeft(earlier, later, id, i) < TurnLeft(earlier, later, id, k)
  {
    if 0 <= i < k < |earlier| {
      DetachedGrow(earlier, id, true, i, k);
    } else if 0 <= i < |earlier| {
      DetachedGrow(earlier, id, true, i, |earlier|);
      assert earlier[..|earlier|] == earlier;
    } else if i >= |earlier| {
      DetachedGrow(later, id, false, i - |earlier|, k - |earlier|);
    }
  }

  /** The page as a removal leaves it. */
  function Left(base: seq<Id>, earlier: seq<Move>, later: seq<Move>, id: Id): Page {
    Page(Those(base, Others(base, id)), Detached(earlier, id, true) + Detached(later, id, false))
  }

  lemma NotOnThePage(p: Page, x: Id)
    requires x !in p.base
    ensures Priority(p, x) == -1 && AnchorOf(p, x).None?
  {
  }

  /** Of the moves left, one comes before another as among the moves there were. */
  lemma TurnLeftAgrees(base: seq<Id>, earlier: seq<Move>, later: seq<Move>, id: Id, x: Id, y: Id)
    requires id in base && x != id && y != id
    ensures Priority(Left(base, earlier, later, id), x) < Priority(Left(base, earlier, later, id), y)
      <==> LeftTurn(base, earlier, later, id, x) < LeftTurn(base, earlier, later, id, y)
  {
    var i, k := LeftTurn(base, earlier, later, id, x), LeftTurn(base, earlier, later, id, y);
    LastMoveLeftOfBoth(base, earlier, later, id, x);
    LastMoveLeftOfBoth(base, earlier, later, id, y);
    if i < k { TurnsLeft(earlier, later, id, i, k); }
    if k < i { TurnsLeft(earlier, later, id, k, i); }
  }

  lemma TurnWithinAgrees(p: Page, s: set<Id>, x: Id, y: Id)
    requires AnchoredWithin(p, s) && x in p.base && y in p.base && x in s && y in s
    ensures Priority(Within(p, s), x) < Priority(Within(p, s), y) <==> Priority(p, x) < Priority(p, y)
  {
    if Priority(p, x) < Priority(p, y) { TurnsWithin(p, s, x, y); }
    if Priority(p, y) < Priority(p, x) { TurnsWithin(p, s, y, x); }
    if Priority(p, x) == Priority(p, y) {
      LastMoveIsOwn(p.base, p.moves, x, y);
      if Priority(p, x) < 0 {
        LastMoveWithin(p.base, p.moves, s, x);
        LastMoveWithin(p.base, p.moves, s, y);
      }
    }
  }

  /** With nothing anchored to the removed section, the page left is the page without it. */
  lemma LeftIsWithin(base: seq<Id>, earlier: seq<Move>, later: seq<Move>, id: Id, listed: seq<Id>)
    requires id in base && AnchoredWithin(Page(base, earlier + later), Others(base, id))
    ensures
      Reanchored(Within(Page(base, earlier + later), Others(base, id)), Left(base, earlier, later, id), [], listed)
  {
    var p, s := Page(base, earlier + later), Others(base, id);
    var q, p' := Within(p, s), Left(base, earlier, later, id);
    RecordedWithin(p, s);
    forall x ensures AnchoredAnew(q, p', [], listed, x) {
      if x in q.base {
        if Priority(p, x) >= 0 { LastMoveStays(p, s, x); }
        LastMoveLeftOfBoth(base, earlier, later, id, x);
        LeftAsItWas(base, earlier, later, id, x);
      } else {
        NotOnThePage(q, x);
        NotOnThePage(p', x);
      }
    }
    forall x, y ensures KeepTheirTurn(q, p', [], x, y) {
      if x in q.base && y in q.base {
        if Priority(p, x) >= 0 { LastMoveStays(p, s, x); }
        if Priority(p, y) >= 0 { LastMoveStays(p, s, y); }
        TurnLeftAgrees(base, earlier, later, id, x, y);
        LeftAsItWas(base, earlier, later, id, x);
        LeftAsItWas(base, earlier, later, id, y);
        TurnWithinAgrees(p, s, x, y);
      } else {
        if x !in q.base { NotOnThePage(q, x); NotOnThePage(p', x); }
        if y !in q.base { NotOnThePage(q, y); NotOnThePage(p', y); }
        assert AnchoredAnew(q, p', [], listed, x) && AnchoredAnew(q, p', [], listed, y);
      }
    }
  }

  // ---------------------------------------------------------------------------
  // The list that a removal leaves
  // ---------------------------------------------------------------------------

  /** What a removal leaves each section, in terms of the document before: the anchor of the last
      move that counts and is not to after the removed section, where a custom section's own place
      after it reads as the front; and the turn of that move. */
  lemma WhatIsLeft(d: Document, source: seq<SourceSection>, group: Group, id: Id, x: Id, y: Id)
    requires IsCustom(d, source, group, id) && x != id && y != id
    ensures
      var p, p' := SectionPage(d, source, group), SectionPage(Removed(d, id), source, group);
      var earlier, later := CustomMoves(d.custom, group), GroupMoves(d.moves, group);
      && AnchorOf(p', x) == LeftAnchor(p.base, earlier, later, id, x)
      && (Priority(p', x) < Priority(p', y) <==>
           LeftTurn(p.base, earlier, later, id, x) < LeftTurn(p.base, earlier, later, id, y))
  {
    var p := SectionPage(d, source, group);
    PageLeft(d, source, group, id);
    DeduplicatedHas(SourceIds(source, group) + CustomIds(d.custom, group), id);
    LastMoveLeftOfBoth(p.base, CustomMoves(d.custom, group), GroupMoves(d.moves, group), id, x);
    TurnLeftAgrees(p.base, CustomMoves(d.custom, group), GroupMoves(d.moves, group), id, x, y);
  }

  /** A removal leaves a section's anchor as it was exactly when that is not the removed section. */
  lemma AnchorStaysExactlyWhen(d: Document, source: seq<SourceSection>, group: Group, id: Id, x: Id)
    requires IsCustom(d, source, group, id) && x != id
    ensures
      AnchorOf(SectionPage(Removed(d, id), source, group), x) == AnchorOf(SectionPage(d, source, group), x)
      <==> AnchorOf(SectionPage(d, source, group), x) != Some(Some(id))
  {
    var p := SectionPage(d, source, group);
    WhatIsLeft(d, source, group, id, x, x);
    if AnchorOf(p, x) != Some(Some(id)) {
      LeftAsItWas(p.base, CustomMoves(d.custom, group), GroupMoves(d.moves, group), id, x);
    }
  }

  /** A list that shows a page, by conditions on its anchors alone. */
  lemma ListShowsExactlyWhen(p: Page, listed: seq<Id>)
    requires Distinct(listed) && SameIds(p.base, listed)
    ensures Shows(p, listed) <==> DropHolds(p, [], listed)
  {
    assert forall x :: AnchoredAnew(p, p, [], listed, x);
    PlacingShowsExactlyWhen(p, p, [], listed);
  }

  lemma SamePlacing(p: Page, p': Page, listed: seq<Id>)
    requires Distinct(listed) && SameIds(p.base, listed) && Reanchored(p, p', [], listed) && Shows(p, listed)
    ensures Shows(p', listed)
  {
    ListShowsExactlyWhen(p, listed);
    PlacingShowsExactlyWhen(p, p', [], listed);
  }

  /** The list without the removed section. */
  function Rest(base: seq<Id>, id: Id, full: seq<Id>): seq<Id> {
    Those(full, Others(base, id))
  }

  lemma RestIsListed(p: Page, full: seq<Id>, id: Id)
    requires Shows(p, full)
    ensures
      var rest := Those(full, Others(p.base, id));
      Distinct(rest) && SameIds(Those(p.base, Others(p.base, id)), rest)
  {
    FittingListIsDistinct(p, full);
    ThoseAreDistinct(full, Others(p.base, id));
  }

  lemma {:induction false} ThoseAreDistinct(ids: seq<Id>, s: set<Id>)
    requires Distinct(ids)
    ensures Distinct(Those(ids, s))
  {
    if ids != [] { ThoseAreDistinct(ids[..|ids| - 1], s); }
  }

  /** A section that no other is anchored to is removed without a trace in the list: the others are
      shown as before. */
  lemma RemovalShowsTheRest(d: Document, source: seq<SourceSection>, group: Group, id: Id, full: seq<Id>)
    requires IsCustom(d, source, group, id) && Shows(SectionPage(d, source, group), full)
    requires forall x :: x in full && x != id ==> AnchorOf(SectionPage(d, source, group), x) != Some(Some(id))
    ensures Shows(SectionPage(Removed(d, id), source, group), Rest(SectionPage(d, source, group).base, id, full))
  {
    var p, earlier, later := SectionPage(d, source, group), CustomMoves(d.custom, group), GroupMoves(d.moves, group);
    var s := Others(p.base, id);
    PageLeft(d, source, group, id);
    DeduplicatedHas(SourceIds(source, group) + CustomIds(d.custom, group), id);
    forall x | x in Recorded(p.base, p.moves) && x in s && Recorded(p.base, p.moves)[x].Some?
      ensures Recorded(p.base, p.moves)[x].value in s
    {
      assert x in full && AnchorOf(p, x) == Some(Recorded(p.base, p.moves)[x]);
    }
    RowsAreShownAlone(p, s, full);
    RestIsListed(p, full, id);
    LeftIsWithin(p.base, earlier, later, id, Those(full, s));
    SamePlacing(Within(p, s), Left(p.base, earlier, later, id), Those(full, s));
  }

  // ---------------------------------------------------------------------------
  // When others were anchored to it
  // ---------------------------------------------------------------------------

  /** Three sections in a row, each after the one before. */
  function Chain(a: Id, b: Id, c: Id, kind: Kind, group: Group): Document {
    Document(map[], map[], map[], [], [],
             [CustomSection(b, kind, group, Some(a)), CustomSection(c, kind, group, Some(b))])
  }

  /** Removing the middle one sends the last to the front. */
  lemma RemovalMayReorder(a: Id, b: Id, c: Id, kind: Kind, group: Group)
    requires a != b && b != c && a != c && !("custom-" <= a.text)
    ensures
      var d, source := Chain(a, b, c, kind, group), [SourceSection(a, group)];
      && SectionPage(Removed(d, b), source, group) == Page([a, c], [Move(c, None)])
      && !Shows(SectionPage(Removed(d, b), source, group), [a, c])
  {
    var custom, source := Chain(a, b, c, kind, group).custom, [SourceSection(a, group)];
    var left := CustomSection(c, kind, group, None);
    assert source[1..] == [] && custom[1..] == [custom[1]] && custom[1..][1..] == [] && [left][1..] == [];
    assert WithoutCustom(custom[1..], b) == [left] && WithoutCustom(custom, b) == [left];
    assert SourceIds(source, group) == [a] && CustomIds([left], group) == [c]
      && CustomMoves([left], group) == [Move(c, None)];
    assert [a] + [c] == [a, c] && [a, c][..1] == [a] && [a][..0] == [];
    assert Deduplicated([a]) == [a] && Deduplicated([a, c]) == [a, c];
    FrontIsFirst(a, c);
  }

  lemma FrontIsFirst(a: Id, c: Id)
    requires a != c
    ensures !Shows(Page([a, c], [Move(c, None)]), [a, c])
  {
    var p := Page([a, c], [Move(c, None)]);
    assert [Move(c, None)][..0] == [] && a in p.base && c in p.base;
    var r := Recorded(p.base, p.moves);
    assert r == map[c := None];
    if OnCycle(r, c) { CycleGoesOn(r, c); }
    assert c in Kept(p) && a !in Kept(p) && [a, c][..1] == [a] && a in [a, c][..1];
    assert !FitsIn(p, [a, c], 1);
  }
}
