/** Exactly when a move shows the list that was dropped, said of the page as it was before. */
module MoveConditions {
  import opened Options
  import opened SectionOrder
  import opened SectionResolver
  import opened WebsiteClient
  import opened SectionMoves

  // ---------------------------------------------------------------------------
  // Conditions on the page before the move
  // ---------------------------------------------------------------------------

  /** The recorded anchors, but for those of `which`, which name the predecessor in `moved`. */
  function AnchorsWith(p: Page, which: seq<Id>, moved: seq<Id>): Anchors {
    map x | x in p.base && (x in which || x in Recorded(p.base, p.moves)) ::
      if x in which then Predecessor(moved, IndexOf(moved, x)) else Recorded(p.base, p.moves)[x]
  }

  /** The section at `i` stands after its anchor, and what stands in between is anchored there too:
      no anchor of theirs reaches back over it. */
  predicate Nested(a: Anchors, moved: seq<Id>, i: nat)
    requires i < |moved|
  {
    moved[i] in a && a[moved[i]].Some? ==>
      var j := IndexOf(moved, a[moved[i]].value);
      j < i && forall m :: j < m < i ==> AnchoredFrom(a, moved, m, j)
  }

  predicate AnchoredFrom(a: Anchors, moved: seq<Id>, m: nat, j: nat)
    requires m < |moved|
  {
    moved[m] in a && a[moved[m]].Some? && j <= IndexOf(moved, a[moved[m]].value)
  }

  /** Every section that the move does not place stands well after its anchor. */
  predicate OthersNested(a: Anchors, which: seq<Id>, moved: seq<Id>) {
    forall i :: 0 <= i < |moved| && moved[i] !in which ==> Nested(a, moved, i)
  }

  /** No section that the move does not place has the anchor of one that it places. */
  predicate NoRival(a: Anchors, which: seq<Id>) {
    forall x, s :: x in which && x in a && s !in which && s in a ==> a[s] != a[x]
  }

  /** Sections without an anchor, such as those on a cycle of anchors, stand in base order. */
  predicate UnanchoredInOrder(p: Page, a: Anchors, moved: seq<Id>) {
    forall i, j :: 0 <= i < j < |moved| && moved[i] !in a && moved[j] !in a ==>
      IndexOf(p.base, moved[i]) < IndexOf(p.base, moved[j])
  }

  /** Sections moved to the front stand before all without an anchor. */
  predicate FrontsFirst(a: Anchors, moved: seq<Id>) {
    forall i, j :: 0 <= i < j < |moved| && moved[j] in a && a[moved[j]].None? ==> moved[i] in a
  }

  /** Sections that the move does not place, with the same anchor, stand in the order of their moves. */
  predicate SiblingsInOrder(p: Page, a: Anchors, which: seq<Id>, moved: seq<Id>) {
    forall i, j :: 0 <= i < j < |moved| && Siblings(a, which, moved[i], moved[j]) ==>
      Priority(p, moved[i]) < Priority(p, moved[j])
  }

  predicate Siblings(a: Anchors, which: seq<Id>, x: Id, y: Id) {
    x !in which && y !in which && x in a && y in a && a[x] == a[y]
  }

  ghost predicate DropHolds(p: Page, which: seq<Id>, moved: seq<Id>) {
    var a := WithoutCycles(AnchorsWith(p, which, moved));
    && OthersNested(a, which, moved) && NoRival(a, which)
    && UnanchoredInOrder(p, a, moved) && FrontsFirst(a, moved) && SiblingsInOrder(p, a, which, moved)
  }

  // ---------------------------------------------------------------------------
  // On any page, with any anchors
  // ---------------------------------------------------------------------------

  /** A list of the page's sections, and the page with `which` placed as in it. */
  ghost predicate Placing(p: Page, p': Page, which: seq<Id>, moved: seq<Id>) {
    && Distinct(moved) && SameIds(p.base, moved) && (forall x :: x in which ==> x in moved)
    && Reanchored(p, p', which, moved)
  }

  lemma IndexAt(moved: seq<Id>, i: nat)
    requires Distinct(moved) && i < |moved|
    ensures IndexOf(moved, moved[i]) == i
  {
  }

  lemma ReanchoredRecords(p: Page, p': Page, which: seq<Id>, moved: seq<Id>)
    requires Placing(p, p', which, moved)
    ensures Recorded(p'.base, p'.moves) == AnchorsWith(p, which, moved)
  {
    forall x | x in p.base
      ensures x in Recorded(p'.base, p'.moves) <==> x in AnchorsWith(p, which, moved)
      ensures x in Recorded(p'.base, p'.moves) ==> Recorded(p'.base, p'.moves)[x] == AnchorsWith(p, which, moved)[x]
    {
      assert AnchoredAnew(p, p', which, moved, x);
    }
  }

  /** A section anchored to its predecessor stands right after its anchor. */
  lemma AfterPredecessorIsNested(a: Anchors, moved: seq<Id>, i: nat)
    requires Distinct(moved) && i < |moved| && (moved[i] in a ==> a[moved[i]] == Predecessor(moved, i))
    ensures Nested(a, moved, i)
  {
    if i > 0 { IndexAt(moved, i - 1); }
  }

  lemma PlacedIsNested(p: Page, which: seq<Id>, moved: seq<Id>, i: nat)
    requires Distinct(moved) && i < |moved| && moved[i] in which
    ensures
      var a := WithoutCycles(AnchorsWith(p, which, moved));
      Nested(a, moved, i) && (moved[i] in a ==> a[moved[i]] == Predecessor(moved, i))
  {
    IndexAt(moved, i);
    AfterPredecessorIsNested(WithoutCycles(AnchorsWith(p, which, moved)), moved, i);
  }

  /** Where all sections are nested, what stands between hangs off the anchor. */
  lemma {:induction false} NestedHangOff(a: Anchors, moved: seq<Id>, j: nat, i: nat, m: nat)
    requires Distinct(moved) && j < m < i <= |moved|
    requires forall k :: 0 <= k < i ==> Nested(a, moved, k)
    requires forall k :: j < k < i ==> AnchoredFrom(a, moved, k, j)
    ensures Reaches(a, moved[m], moved[j])
    decreases m
  {
    assert AnchoredFrom(a, moved, m, j) && Nested(a, moved, m);
    var q := IndexOf(moved, a[moved[m]].value);
    StepReaches(a, moved[m]);
    if q > j {
      NestedHangOff(a, moved, j, i, q);
      ReachesFurther(a, moved[m], moved[q], moved[j]);
    }
  }

  lemma NestedFollows(a: Anchors, moved: seq<Id>, i: nat)
    requires Distinct(moved) && i < |moved| && moved[i] in a && a[moved[i]].Some?
    requires forall k :: 0 <= k < |moved| ==> Nested(a, moved, k)
    ensures
      var y, before := a[moved[i]].value, moved[..i];
      && y in before
      && forall m, n :: 0 <= m < n < |before| && before[m] == y ==> Reaches(a, before[n], y)
  {
    var y, before := a[moved[i]].value, moved[..i];
    assert Nested(a, moved, i);
    var j := IndexOf(moved, y);
    assert before[j] == y;
    forall m, n | 0 <= m < n < |before| && before[m] == y ensures Reaches(a, before[n], y) {
      IndexAt(moved, m);
      NestedHangOff(a, moved, j, i, n);
    }
  }

  /** A placed section that is on no cycle always fits: only the others can be out of place. */
  lemma PlacedAlwaysFits(p: Page, p': Page, which: seq<Id>, moved: seq<Id>, i: nat)
    requires Placing(p, p', which, moved) && i < |moved| && moved[i] in which && moved[i] in Kept(p')
    ensures FitsIn(p', moved, i)
  {
    var a, x, before := Kept(p'), moved[i], moved[..i];
    ReanchoredRecords(p, p', which, moved);
    PlacedIsNested(p, which, moved, i);
    forall s | s in before && s in a && a[s] == a[x] ensures Priority(p', s) < Priority(p', x) {
      var k := IndexOf(before, s);
      assert moved[k] == s && TakesLastTurn(p', which, x, s);
      if s in which { PlacedIsNested(p, which, moved, k); }
    }
    if i > 0 { assert before[i - 1] == moved[i - 1]; }
  }

  lemma {:induction false} HeldSiblings(p: Page, p': Page, which: seq<Id>, moved: seq<Id>, k: nat, i: nat)
    requires Placing(p, p', which, moved) && DropHolds(p, which, moved) && k < i < |moved|
    requires var a := Kept(p'); moved[k] in a && moved[i] in a && a[moved[k]] == a[moved[i]]
    ensures Priority(p', moved[k]) < Priority(p', moved[i])
  {
    ReanchoredRecords(p, p', which, moved);
    if moved[i] in which && moved[k] in which {
      PlacedIsNested(p, which, moved, i);
      PlacedIsNested(p, which, moved, k);
    }
    assert KeepTheirTurn(p, p', which, moved[k], moved[i]);
  }

  lemma HeldIsNested(p: Page, which: seq<Id>, moved: seq<Id>, i: nat)
    requires Distinct(moved) && DropHolds(p, which, moved) && i < |moved|
    ensures Nested(WithoutCycles(AnchorsWith(p, which, moved)), moved, i)
  {
    if moved[i] in which { PlacedIsNested(p, which, moved, i); }
  }

  lemma HeldAnchoredFits(p: Page, p': Page, which: seq<Id>, moved: seq<Id>, i: nat)
    requires Placing(p, p', which, moved) && DropHolds(p, which, moved) && i < |moved| && moved[i] in Kept(p')
    ensures FitsIn(p', moved, i)
  {
    var a, x, before := Kept(p'), moved[i], moved[..i];
    HeldSiblingsBefore(p, p', which, moved, i);
    if a[x].Some? {
      HeldFollows(p, p', which, moved, i);
    } else {
      ReanchoredRecords(p, p', which, moved);
      forall u | u in before ensures u in a { assert moved[IndexOf(before, u)] == u; }
    }
  }

  lemma HeldSiblingsBefore(p: Page, p': Page, which: seq<Id>, moved: seq<Id>, i: nat)
    requires Placing(p, p', which, moved) && DropHolds(p, which, moved) && i < |moved| && moved[i] in Kept(p')
    ensures var a := Kept(p');
      forall s :: s in moved[..i] && s in a && a[s] == a[moved[i]] ==> Priority(p', s) < Priority(p', moved[i])
  {
    var a, x, before := Kept(p'), moved[i], moved[..i];
    forall s | s in before && s in a && a[s] == a[x] ensures Priority(p', s) < Priority(p', x) {
      HeldSiblings(p, p', which, moved, IndexOf(before, s), i);
    }
  }

  lemma HeldFollows(p: Page, p': Page, which: seq<Id>, moved: seq<Id>, i: nat)
    requires Placing(p, p', which, moved) && DropHolds(p, which, moved) && i < |moved|
    requires moved[i] in Kept(p') && Kept(p')[moved[i]].Some?
    ensures
      var y, before := Kept(p')[moved[i]].value, moved[..i];
      && y in before
      && forall m, n :: 0 <= m < n < |before| && before[m] == y ==> Reaches(Kept(p'), before[n], y)
  {
    var a := Kept(p');
    ReanchoredRecords(p, p', which, moved);
    forall k | 0 <= k < |moved| ensures Nested(a, moved, k) { HeldIsNested(p, which, moved, k); }
    NestedFollows(a, moved, i);
  }

  lemma HeldUnanchoredFits(p: Page, p': Page, which: seq<Id>, moved: seq<Id>, i: nat)
    requires Placing(p, p', which, moved) && DropHolds(p, which, moved) && i < |moved| && moved[i] !in Kept(p')
    ensures FitsIn(p', moved, i)
  {
    var a, before := Kept(p'), moved[..i];
    ReanchoredRecords(p, p', which, moved);
    forall u | u in before && u !in a ensures IndexOf(p'.base, u) < IndexOf(p'.base, moved[i]) {
      assert moved[IndexOf(before, u)] == u;
    }
  }

  lemma AnchorComesEarlier(p: Page, moved: seq<Id>, x: Id)
    requires Shows(p, moved) && Distinct(moved) && x in moved && x in Kept(p) && Kept(p)[x].Some?
    ensures Kept(p)[x].value in moved && IndexOf(moved, Kept(p)[x].value) < IndexOf(moved, x)
  {
    var z, i := Kept(p)[x].value, IndexOf(moved, x);
    assert FitsIn(p, moved, i) && z in moved[..i];
    IndexAt(moved, IndexOf(moved[..i], z));
  }

  /** In a list that shows a page, what hangs off a section stands after it. */
  lemma {:induction false} AnchorsComeEarlier(p: Page, moved: seq<Id>, x: Id, y: Id, n: nat)
    requires Shows(p, moved) && Distinct(moved) && x in moved && Walk(Kept(p), x, n) == Some(y)
    ensures y in moved && IndexOf(moved, y) <= IndexOf(moved, x)
    decreases n
  {
    if n > 0 {
      AnchorComesEarlier(p, moved, x);
      AnchorsComeEarlier(p, moved, Kept(p)[x].value, y, n - 1);
    }
  }

  lemma ShownIsAnchoredFrom(p: Page, moved: seq<Id>, i: nat, m: nat)
    requires Shows(p, moved) && Distinct(moved) && i < |moved| && moved[i] in Kept(p) && Kept(p)[moved[i]].Some?
    requires IndexOf(moved, Kept(p)[moved[i]].value) < m < i
    ensures AnchoredFrom(Kept(p), moved, m, IndexOf(moved, Kept(p)[moved[i]].value))
  {
    var a, y := Kept(p), Kept(p)[moved[i]].value;
    var j := IndexOf(moved, y);
    assert FitsIn(p, moved, i) && moved[..i][j] == y && moved[..i][m] == moved[m];
    assert Reaches(a, moved[m], y);
    ReachesThroughAnchor(a, moved[m], y);
    var v := a[moved[m]].value;
    assert FitsIn(p, moved, m) && v in moved[..m];
    var n: nat :| Walk(a, v, n) == Some(y);
    AnchorsComeEarlier(p, moved, v, y, n);
  }

  lemma ShownIsNested(p: Page, moved: seq<Id>, i: nat)
    requires Shows(p, moved) && Distinct(moved) && i < |moved|
    ensures Nested(Kept(p), moved, i)
  {
    var a := Kept(p);
    if moved[i] in a && a[moved[i]].Some? {
      var y := a[moved[i]].value;
      assert FitsIn(p, moved, i) && y in moved[..i];
      IndexAt(moved, IndexOf(moved[..i], y));
      forall m | IndexOf(moved, y) < m < i ensures AnchoredFrom(a, moved, m, IndexOf(moved, y)) {
        ShownIsAnchoredFrom(p, moved, i, m);
      }
    }
  }

  /** A section with the anchor of a placed one does not stand before it. */
  lemma RivalComesLater(a: Anchors, moved: seq<Id>, i: nat, k: nat)
    requires Distinct(moved) && i < |moved| && k < |moved| && i != k && Nested(a, moved, k)
    requires moved[i] in a && moved[k] in a && a[moved[k]] == a[moved[i]] == Predecessor(moved, i)
    ensures i < k
  {
    if i > 0 { IndexAt(moved, i - 1); }
  }

  lemma ShownHasNoRival(p: Page, p': Page, which: seq<Id>, moved: seq<Id>, x: Id, s: Id)
    requires Placing(p, p', which, moved) && Shows(p', moved)
    requires x in which && x in Kept(p') && s !in which && s in Kept(p')
    ensures Kept(p')[s] != Kept(p')[x]
  {
    var a, i, k := Kept(p'), IndexOf(moved, x), IndexOf(moved, s);
    ReanchoredRecords(p, p', which, moved);
    PlacedIsNested(p, which, moved, i);
    assert s in p'.base && s in moved && x in moved;
    assert TakesLastTurn(p', which, x, s);
    if a[s] == a[x] {
      ShownIsNested(p', moved, k);
      RivalComesLater(a, moved, i, k);
      LaterSiblingHasLaterMove(p', moved, i, k);
    }
  }

  lemma ShownSiblings(p: Page, p': Page, which: seq<Id>, moved: seq<Id>, i: nat, j: nat)
    requires Placing(p, p', which, moved) && Shows(p', moved) && i < j < |moved|
    requires Siblings(Kept(p'), which, moved[i], moved[j])
    ensures Priority(p, moved[i]) < Priority(p, moved[j])
  {
    assert FitsIn(p', moved, j) && moved[..j][i] == moved[i];
    assert KeepTheirTurn(p, p', which, moved[i], moved[j]);
  }

  lemma ShownHolds(p: Page, p': Page, which: seq<Id>, moved: seq<Id>)
    requires Placing(p, p', which, moved) && Shows(p', moved)
    ensures DropHolds(p, which, moved)
  {
    var a := Kept(p');
    ReanchoredRecords(p, p', which, moved);
    forall i | 0 <= i < |moved| ensures Nested(a, moved, i) { ShownIsNested(p', moved, i); }
    forall x, s | x in which && x in a && s !in which && s in a ensures a[s] != a[x] {
      ShownHasNoRival(p, p', which, moved, x, s);
    }
    forall i, j | 0 <= i < j < |moved| && moved[i] !in a && moved[j] !in a
      ensures IndexOf(p.base, moved[i]) < IndexOf(p.base, moved[j])
    {
      assert FitsIn(p', moved, j) && moved[..j][i] == moved[i];
    }
    forall i, j | 0 <= i < j < |moved| && moved[j] in a && a[moved[j]].None? ensures moved[i] in a {
      assert FitsIn(p', moved, j) && moved[..j][i] == moved[i];
    }
    forall i, j | 0 <= i < j < |moved| && Siblings(a, which, moved[i], moved[j])
      ensures Priority(p, moved[i]) < Priority(p, moved[j])
    {
      ShownSiblings(p, p', which, moved, i, j);
    }
  }

  /** Whatever the anchors, cycles among them or none, placing some sections as in a list shows that
      list exactly under conditions on the other sections and on their anchors before. */
  lemma PlacingShowsExactlyWhen(p: Page, p': Page, which: seq<Id>, moved: seq<Id>)
    requires Placing(p, p', which, moved)
    ensures Shows(p', moved) <==> DropHolds(p, which, moved)
  {
    if DropHolds(p, which, moved) {
      forall i | 0 <= i < |moved| ensures FitsIn(p', moved, i) {
        if moved[i] in Kept(p') {
          HeldAnchoredFits(p, p', which, moved, i);
        } else {
          HeldUnanchoredFits(p, p', which, moved, i);
        }
      }
    }
    if Shows(p', moved) { ShownHolds(p, p', which, moved); }
  }

  // ---------------------------------------------------------------------------
  // On a page without cycles of anchors
  // ---------------------------------------------------------------------------

  /** What a move must leave standing: every section that it does not place stays well after its
      anchor, and none has the anchor of one that it places. */
  predicate NothingCrosses(p: Page, which: seq<Id>, moved: seq<Id>) {
    OthersNested(AnchorsWith(p, which, moved), which, moved) && NoRival(AnchorsWith(p, which, moved), which)
  }

  lemma {:induction false} NestedWalksBack(a: Anchors, moved: seq<Id>, i: nat, n: nat)
    requires i < |moved| && (forall k :: 0 <= k < |moved| ==> Nested(a, moved, k)) && Walk(a, moved[i], n).Some?
    ensures Walk(a, moved[i], n).value in moved && IndexOf(moved, Walk(a, moved[i], n).value) <= i
    ensures n > 0 ==> IndexOf(moved, Walk(a, moved[i], n).value) < i
    decreases n
  {
    if n == 0 {
      assert moved[i] in moved;
    } else {
      assert Nested(a, moved, i);
      NestedWalksBack(a, moved, IndexOf(moved, a[moved[i]].value), n - 1);
    }
  }

  lemma NestedIsAcyclic(a: Anchors, moved: seq<Id>)
    requires Distinct(moved) && (forall k :: 0 <= k < |moved| ==> Nested(a, moved, k))
    requires forall x :: x in a ==> x in moved
    ensures Acyclic(a) && WithoutCycles(a) == a
  {
    forall x ensures !OnCycle(a, x) {
      if OnCycle(a, x) {
        var n: nat :| n > 0 && Walk(a, x, n) == Some(x);
        assert x in moved;
        NestedWalksBack(a, moved, IndexOf(moved, x), n);
      }
    }
  }

  lemma {:induction false} UnanchoredKeepOrder(p: Page, ids: seq<Id>, id: Id, to: int, i: nat, j: nat)
    requires MovesSomething(ids, id, to) && Shows(p, ids) && Kept(p) == Recorded(p.base, p.moves) && i < j < |ids|
    requires var moved, a := Reordered(ids, id, to), AnchorsWith(p, Affected(ids, id, to), Reordered(ids, id, to));
      moved[i] in p.base && moved[j] in p.base && moved[i] !in a && moved[j] !in a
    ensures IndexOf(p.base, Reordered(ids, id, to)[i]) < IndexOf(p.base, Reordered(ids, id, to)[j])
  {
    AffectedOnes(ids, id, to);
    MovedIsAtItsPlace(ids, id, to);
    OthersKeepOrder(ids, id, to, i, j);
    var from := IndexOf(ids, id);
    assert FitsIn(p, ids, Before(from, to, j))
      && ids[..Before(from, to, j)][Before(from, to, i)] == ids[Before(from, to, i)];
  }

  lemma {:induction false} FrontsKeepFirst(p: Page, ids: seq<Id>, id: Id, to: int, i: nat, j: nat)
    requires MovesSomething(ids, id, to) && Shows(p, ids) && Distinct(ids) && Kept(p) == Recorded(p.base, p.moves)
      && i < j < |ids|
    requires var moved, a := Reordered(ids, id, to), AnchorsWith(p, Affected(ids, id, to), Reordered(ids, id, to));
      moved[i] in p.base && moved[j] in a && a[moved[j]].None?
    ensures Reordered(ids, id, to)[i] in AnchorsWith(p, Affected(ids, id, to), Reordered(ids, id, to))
  {
    var from, moved := IndexOf(ids, id), Reordered(ids, id, to);
    ReorderedIsPermutation(ids, id, to);
    IndexAt(moved, j);
    AffectedOnes(ids, id, to);
    MovedIsAtItsPlace(ids, id, to);
    if i != to && moved[j] !in Affected(ids, id, to) {
      OthersKeepOrder(ids, id, to, i, j);
      assert FitsIn(p, ids, Before(from, to, j)) && ids[..Before(from, to, j)][Before(from, to, i)] == moved[i];
    }
  }

  lemma {:induction false} SiblingsKeepOrder(p: Page, ids: seq<Id>, id: Id, to: int, i: nat, j: nat)
    requires MovesSomething(ids, id, to) && Shows(p, ids) && Kept(p) == Recorded(p.base, p.moves) && i < j < |ids|
    requires var moved, which := Reordered(ids, id, to), Affected(ids, id, to);
      Siblings(AnchorsWith(p, which, moved), which, moved[i], moved[j])
    ensures Priority(p, Reordered(ids, id, to)[i]) < Priority(p, Reordered(ids, id, to)[j])
  {
    AffectedOnes(ids, id, to);
    MovedIsAtItsPlace(ids, id, to);
    OthersKeepOrder(ids, id, to, i, j);
    var from := IndexOf(ids, id);
    LaterSiblingHasLaterMove(p, ids, Before(from, to, i), Before(from, to, j));
  }

  lemma OrdersHold(p: Page, ids: seq<Id>, id: Id, to: int)
    requires MovesSomething(ids, id, to) && Shows(p, ids) && Distinct(ids) && Kept(p) == Recorded(p.base, p.moves)
    ensures
      var which, moved := Affected(ids, id, to), Reordered(ids, id, to);
      var a := AnchorsWith(p, which, moved);
      UnanchoredInOrder(p, a, moved) && FrontsFirst(a, moved) && SiblingsInOrder(p, a, which, moved)
  {
    var which, moved := Affected(ids, id, to), Reordered(ids, id, to);
    var a := AnchorsWith(p, which, moved);
    ReorderedIsPermutation(ids, id, to);
    forall i | 0 <= i < |moved| ensures moved[i] in p.base { assert moved[i] in moved; }
    forall i, j | 0 <= i < j < |moved| && moved[i] !in a && moved[j] !in a
      ensures IndexOf(p.base, moved[i]) < IndexOf(p.base, moved[j])
    {
      UnanchoredKeepOrder(p, ids, id, to, i, j);
    }
    forall i, j | 0 <= i < j < |moved| && moved[j] in a && a[moved[j]].None? ensures moved[i] in a {
      FrontsKeepFirst(p, ids, id, to, i, j);
    }
    forall i, j | 0 <= i < j < |moved| && Siblings(a, which, moved[i], moved[j])
      ensures Priority(p, moved[i]) < Priority(p, moved[j])
    {
      SiblingsKeepOrder(p, ids, id, to, i, j);
    }
  }

  lemma NothingCrossingIsAcyclic(p: Page, which: seq<Id>, moved: seq<Id>)
    requires Distinct(moved) && SameIds(p.base, moved) && OthersNested(AnchorsWith(p, which, moved), which, moved)
    ensures WithoutCycles(AnchorsWith(p, which, moved)) == AnchorsWith(p, which, moved)
  {
    var a := AnchorsWith(p, which, moved);
    forall k | 0 <= k < |moved| ensures Nested(a, moved, k) {
      IndexAt(moved, k);
      if moved[k] in which { AfterPredecessorIsNested(a, moved, k); }
    }
    NestedIsAcyclic(a, moved);
  }

  lemma {:induction false} HoldsWithoutCycles(p: Page, ids: seq<Id>, id: Id, to: int)
    requires MovesSomething(ids, id, to) && Shows(p, ids) && Distinct(ids) && Kept(p) == Recorded(p.base, p.moves)
    requires var a := AnchorsWith(p, Affected(ids, id, to), Reordered(ids, id, to)); WithoutCycles(a) == a
    ensures DropHolds(p, Affected(ids, id, to), Reordered(ids, id, to))
      <==> NothingCrosses(p, Affected(ids, id, to), Reordered(ids, id, to))
  {
    OrdersHold(p, ids, id, to);
  }

  lemma AcyclicLosesNothing(a: Anchors)
    ensures Acyclic(a) <==> WithoutCycles(a) == a
  {
    WithoutCyclesIsAcyclic(a);
    if Acyclic(a) { assert forall x :: x in a ==> !OnCycle(a, x); }
  }

  /** On a page whose anchors form no cycle, a move leaves them so and shows what was dropped exactly
      when nothing that it does not place crosses what it does. */
  lemma MovedPageShowsTheDropExactlyWhen(p: Page, p': Page, ids: seq<Id>, id: Id, to: int)
    requires MovedOn(p, p', ids, id, to) && Shows(p, ids) && Acyclic(Recorded(p.base, p.moves))
    ensures
      Shows(p', Reordered(ids, id, to)) && Acyclic(AnchorsWith(p, Affected(ids, id, to), Reordered(ids, id, to)))
      <==> NothingCrosses(p, Affected(ids, id, to), Reordered(ids, id, to))
  {
    var which, moved := Affected(ids, id, to), Reordered(ids, id, to);
    ReorderedIsPermutation(ids, id, to);
    AffectedAreMembers(ids, id, to);
    AcyclicLosesNothing(Recorded(p.base, p.moves));
    AcyclicLosesNothing(AnchorsWith(p, which, moved));
    MovedListIsListed(p, ids, moved);
    if NothingCrosses(p, which, moved) { NothingCrossingIsAcyclic(p, which, moved); }
    if WithoutCycles(AnchorsWith(p, which, moved)) == AnchorsWith(p, which, moved) {
      HoldsWithoutCycles(p, ids, id, to);
      PlacingShowsExactlyWhen(p, p', which, moved);
    }
  }

  lemma MovedListIsListed(p: Page, ids: seq<Id>, moved: seq<Id>)
    requires SameIds(p.base, ids) && SameIds(ids, moved)
    ensures SameIds(p.base, moved)
  {
  }

  // ---------------------------------------------------------------------------
  // Documents
  // ---------------------------------------------------------------------------

  /** On any page at all, what was dropped is shown exactly when, by the anchors and the order of
      moves of the document before, every section the move does not place still stands right. */
  lemma MoveShowsTheDropExactlyWhen(
      d: Document, source: seq<SourceSection>, group: Group, ids: seq<Id>, id: Id, to: int)
    requires MovesSomething(ids, id, to) && Shows(SectionPage(d, source, group), ids)
    ensures
      Shows(SectionPage(Moved(d, group, ids, id, to), source, group), Reordered(ids, id, to))
      <==> DropHolds(SectionPage(d, source, group), Affected(ids, id, to), Reordered(ids, id, to))
  {
    FittingListIsDistinct(SectionPage(d, source, group), ids);
    AnchorsAfterMove(d, source, group, ids, id, to);
    ReorderedIsPermutation(ids, id, to);
    AffectedAreMembers(ids, id, to);
    PlacingShowsExactlyWhen(SectionPage(d, source, group), SectionPage(Moved(d, group, ids, id, to), source, group),
                            Affected(ids, id, to), Reordered(ids, id, to));
  }

  /** Where the anchors form no cycle, before the move or with the affected sections re-anchored, it
      is shown exactly when no other section has the anchor of an affected one, and every other
      section still stands after its anchor, with nothing in between that is anchored before it. */
  lemma {:induction false} MoveWithoutCyclesShowsTheDropExactlyWhen(
      d: Document, source: seq<SourceSection>, group: Group, ids: seq<Id>, id: Id, to: int)
    requires MovesSomething(ids, id, to) && Shows(SectionPage(d, source, group), ids)
    requires var p := SectionPage(d, source, group); Acyclic(Recorded(p.base, p.moves))
    ensures
      var p, p' := SectionPage(d, source, group), SectionPage(Moved(d, group, ids, id, to), source, group);
      var which, moved := Affected(ids, id, to), Reordered(ids, id, to);
      && (Shows(p', moved) && Acyclic(AnchorsWith(p, which, moved)) <==> NothingCrosses(p, which, moved))
      && (Acyclic(AnchorsWith(p, which, moved)) ==> (Shows(p', moved) <==> NothingCrosses(p, which, moved)))
  {
    FittingListIsDistinct(SectionPage(d, source, group), ids);
    AnchorsAfterMove(d, source, group, ids, id, to);
    MovedPageShowsTheDropExactlyWhen(SectionPage(d, source, group),
      SectionPage(Moved(d, group, ids, id, to), source, group), ids, id, to);
  }

  // ---------------------------------------------------------------------------
  // A page on which a move fails
  // ---------------------------------------------------------------------------

  /** Two sections added after the same one: the second is shown after the first, so its anchor
      does not name the section before it. */
  function TwoAfterOne(a: Id, b: Id, c: Id, kind: Kind, group: Group): Document {
    Document(map[], map[], map[], [], [],
             [CustomSection(b, kind, group, Some(a)), CustomSection(c, kind, group, Some(a))])
  }

  /** On such a page dropping the first section at the end shows something else. */
  lemma MoveOfUnchainedPageMayFail(a: Id, b: Id, c: Id, kind: Kind, group: Group)
    requires a != b && b != c && a != c && !("custom-" <= a.text)
    ensures
      var d, source := TwoAfterOne(a, b, c, kind, group), [SourceSection(a, group)];
      && Shows(SectionPage(d, source, group), [a, b, c])
      && Reordered([a, b, c], a, 2) == [b, c, a]
      && !Shows(SectionPage(Moved(d, group, [a, b, c], a, 2), source, group), [b, c, a])
  {
    TwoAfterOnePage(a, b, c, kind, group);
    ReorderedAt([a, b, c], a, 2, 0);
    ReorderedAt([a, b, c], a, 2, 1);
    ReorderedAt([a, b, c], a, 2, 2);
    TwoAfterOneIs(a, b, c, kind, group);
    TwoAfterOneAffected(a, b, c);
    TwoAfterOneMoved(a, b, c);
    MoveShowsTheDropExactlyWhen(TwoAfterOne(a, b, c, kind, group), [SourceSection(a, group)], group, [a, b, c], a, 2);
  }

  /** The page of that document: its sections, moves and anchors. */
  lemma TwoAfterOneIs(a: Id, b: Id, c: Id, kind: Kind, group: Group)
    requires a != b && b != c && a != c && !("custom-" <= a.text)
    ensures SectionPage(TwoAfterOne(a, b, c, kind, group), [SourceSection(a, group)], group)
      == Page([a, b, c], [Move(b, Some(a)), Move(c, Some(a))])
  {
    var custom, source := TwoAfterOne(a, b, c, kind, group).custom, [SourceSection(a, group)];
    assert source[1..] == [];
    assert SourceIds(source, group) == [a];
    TwoCustomSections(custom, group);
    assert [a] + [b, c] == [a, b, c];
    NoDuplicates(a, b, c);
  }

  lemma {:induction false} TwoCustomSections(custom: seq<CustomSection>, group: Group)
    requires |custom| == 2 && custom[0].group == group && custom[1].group == group
    ensures CustomIds(custom, group) == [custom[0].id, custom[1].id]
    ensures CustomMoves(custom, group) == [Move(custom[0].id, custom[0].after), Move(custom[1].id, custom[1].after)]
  {
    var second := [custom[1]];
    assert custom[1..] == second && second[1..] == [];
    assert CustomIds(second, group) == [custom[1].id];
    assert CustomMoves(second, group) == [Move(custom[1].id, custom[1].after)];
  }

  lemma NoDuplicates(a: Id, b: Id, c: Id)
    requires a != b && b != c && a != c
    ensures Deduplicated([a, b, c]) == [a, b, c]
  {
    assert [a][..0] == [];
    assert Deduplicated([a]) == [a];
    assert [a, b][..1] == [a];
    assert Deduplicated([a, b]) == [a, b];
    assert [a, b, c][..2] == [a, b];
  }

  lemma TwoAfterOneAnchors(a: Id, b: Id, c: Id)
    requires a != b && b != c && a != c
    ensures
      var p := Page([a, b, c], [Move(b, Some(a)), Move(c, Some(a))]);
      && LastMove(p.base, p.moves, a) == -1 && LastMove(p.base, p.moves, b) == 0 && LastMove(p.base, p.moves, c) == 1
      && Recorded(p.base, p.moves) == map[b := Some(a), c := Some(a)] == Kept(p)
  {
    var p := Page([a, b, c], [Move(b, Some(a)), Move(c, Some(a))]);
    assert p.moves[..1] == [Move(b, Some(a))] && p.moves[..1][..0] == [];
    assert a in p.base && b in p.base && c in p.base;
    assert LastMove(p.base, p.moves[..1], a) == -1 && LastMove(p.base, p.moves[..1], b) == 0;
    var r := Recorded(p.base, p.moves);
    assert r == map[b := Some(a), c := Some(a)];
    forall x ensures !OnCycle(r, x) {
      if OnCycle(r, x) { CycleGoesOn(r, x); CycleGoesOn(r, a); }
    }
  }

  lemma TwoAfterOnePage(a: Id, b: Id, c: Id, kind: Kind, group: Group)
    requires a != b && b != c && a != c && !("custom-" <= a.text)
    ensures Shows(SectionPage(TwoAfterOne(a, b, c, kind, group), [SourceSection(a, group)], group), [a, b, c])
  {
    TwoAfterOneIs(a, b, c, kind, group);
    TwoAfterOneAnchors(a, b, c);
    var p, shown := Page([a, b, c], [Move(b, Some(a)), Move(c, Some(a))]), [a, b, c];
    TwoAfterOneFits(a, b, c);
    assert shown[..0] == [] && shown[..1] == [a] && shown[..2] == [a, b];
    assert FitsIn(p, shown, 0);
    assert FitsIn(p, shown, 1);
    assert FitsIn(p, shown, 2);
  }

  lemma TwoAfterOneFits(a: Id, b: Id, c: Id)
    requires a != b && b != c && a != c
    ensures
      var p := Page([a, b, c], [Move(b, Some(a)), Move(c, Some(a))]);
      Fits(p, [], a) && Fits(p, [a], b) && Fits(p, [a, b], c)
  {
    TwoAfterOneAnchors(a, b, c);
    StepReaches(Kept(Page([a, b, c], [Move(b, Some(a)), Move(c, Some(a))])), b);
  }

  /** With `a` dropped last, `a` and `c` are anchored to each other. */
  lemma TwoAfterOneMoved(a: Id, b: Id, c: Id)
    requires a != b && b != c && a != c
    requires Reordered([a, b, c], a, 2) == [b, c, a]
    ensures !DropHolds(Page([a, b, c], [Move(b, Some(a)), Move(c, Some(a))]), Affected([a, b, c], a, 2), [b, c, a])
  {
    var p, moved, which := Page([a, b, c], [Move(b, Some(a)), Move(c, Some(a))]), [b, c, a], Affected([a, b, c], a, 2);
    var r := AnchorsWith(p, which, moved);
    TwoAfterOneAnchors(a, b, c);
    TwoAfterOneAffected(a, b, c);
    assert a in p.base && c in p.base && IndexOf(moved, a) == 2 && IndexOf(p.base, a) == 0;
    TwoCycle(r, a, c);
    assert moved[1] == c && moved[2] == a;
  }

  lemma TwoAfterOneAffected(a: Id, b: Id, c: Id)
    requires a != b && b != c && a != c
    ensures IndexOf([a, b, c], a) == 0 && MovesSomething([a, b, c], a, 2)
    ensures a in Affected([a, b, c], a, 2) && c !in Affected([a, b, c], a, 2)
  {
    assert a in [a, b, c];
    assert Disturbed([a, b, c], Reordered([a, b, c], a, 2), 0, 2, a) == [a, b];
  }

  lemma TwoCycle(r: Anchors, a: Id, c: Id)
    requires a in r && c in r && r[a] == Some(c) && r[c] == Some(a)
    ensures OnCycle(r, a) && OnCycle(r, c)
  {
    assert Walk(r, a, 2) == Walk(r, c, 1) == Walk(r, a, 0);
    assert Walk(r, c, 2) == Walk(r, a, 1) == Walk(r, c, 0);
  }
}
