/** Exactly when a removal shows the list without the removed section, said of the page before it. */
module RemovalConditions {
  import opened Options
  import opened SectionOrder
  import opened SectionResolver
  import opened WebsiteClient
  import opened CustomSections
  import opened SectionMoves
  import opened MoveConditions
  import opened PageRows
  import opened RemovedSections

  // ---------------------------------------------------------------------------
  // Conditions on the page before the removal
  // ---------------------------------------------------------------------------

  /** The anchors that the removal of `id` leaves. */
  function AnchorsLeft(base: seq<Id>, earlier: seq<Move>, later: seq<Move>, id: Id): Anchors {
    map x | x in base && x != id && LeftAnchor(base, earlier, later, id, x).Some? ::
      LeftAnchor(base, earlier, later, id, x).value
  }

  function ResolvesBy(a: Anchors, x: Id): Option<Option<Id>> {
    if x in a then Some(a[x]) else None
  }

  /** The sections that resolve by another anchor afterwards. */
  function Changed(before: Anchors, after: Anchors, listed: seq<Id>): set<Id> {
    set x | x in listed && ResolvesBy(before, x) != ResolvesBy(after, x)
  }

  /** The sections that were anchored to the removed one. */
  function Dependents(p: Page, id: Id): set<Id> {
    set x | x in p.base && x != id && AnchorOf(p, x) == Some(Some(id))
  }

  /** `x` may stand anywhere before `y`. */
  predicate InTurn(base: seq<Id>, a: Anchors, turn: Id -> int, x: Id, y: Id) {
    && (x !in a && y !in a ==> IndexOf(base, x) < IndexOf(base, y))
    && (y in a && a[y].None? ==> x in a)
    && (x in a && y in a && a[x] == a[y] ==> turn(x) < turn(y))
  }

  predicate TheyAreInTurn(base: seq<Id>, a: Anchors, turn: Id -> int, listed: seq<Id>, some: set<Id>) {
    forall i, j :: 0 <= i < j < |listed| && (listed[i] in some || listed[j] in some) ==>
      InTurn(base, a, turn, listed[i], listed[j])
  }

  /** Each of `some` stands well after its anchor. */
  predicate TheyAreNested(a: Anchors, listed: seq<Id>, some: set<Id>) {
    forall i :: 0 <= i < |listed| && listed[i] in some ==> Nested(a, listed, i)
  }

  /** None of `some` stands between another section and its anchor, unless it is anchored there too. */
  predicate NoneComesBetween(a: Anchors, listed: seq<Id>, some: set<Id>) {
    forall i, m :: 0 <= m < i < |listed| && listed[m] in some && listed[i] !in some ==> StaysAside(a, listed, i, m)
  }

  predicate StaysAside(a: Anchors, listed: seq<Id>, i: nat, m: nat)
    requires m < |listed| && i < |listed|
  {
    listed[i] in a && a[listed[i]].Some? && IndexOf(listed, a[listed[i]].value) < m ==>
      AnchoredFrom(a, listed, m, IndexOf(listed, a[listed[i]].value))
  }

  /** The turn in which each section was moved, of the moves that the removal of `id` leaves. */
  function TurnsLeftTo(base: seq<Id>, earlier: seq<Move>, later: seq<Move>, id: Id): Id -> int {
    x => LeftTurn(base, earlier, later, id, x)
  }

  /** `some` stand right by the anchors `a`: after their anchors, in turn, and not between another
      section and its own. */
  predicate TheyStand(
      base: seq<Id>, earlier: seq<Move>, later: seq<Move>, id: Id, a: Anchors, listed: seq<Id>, some: set<Id>)
  {
    && TheyAreNested(a, listed, some) && NoneComesBetween(a, listed, some)
    && TheyAreInTurn(base, a, TurnsLeftTo(base, earlier, later, id), listed, some)
  }

  // ---------------------------------------------------------------------------
  // Those whose anchor is as before
  // ---------------------------------------------------------------------------

  /** A page and the list it shows, with the section to be removed. */
  ghost predicate Removing(base: seq<Id>, earlier: seq<Move>, later: seq<Move>, id: Id, full: seq<Id>) {
    id in base && Distinct(base) && Shows(Page(base, earlier + later), full)
  }

  lemma RecordedLeft(base: seq<Id>, earlier: seq<Move>, later: seq<Move>, id: Id)
    requires id in base
    ensures
      var p' := Left(base, earlier, later, id);
      Recorded(p'.base, p'.moves) == AnchorsLeft(base, earlier, later, id)
  {
    var p', a := Left(base, earlier, later, id), AnchorsLeft(base, earlier, later, id);
    forall x | x in p'.base ensures ResolvesBy(Recorded(p'.base, p'.moves), x) == ResolvesBy(a, x) {
      LastMoveLeftOfBoth(base, earlier, later, id, x);
      assert AnchorOf(p', x) == ResolvesBy(Recorded(p'.base, p'.moves), x);
    }
    forall x ensures x in Recorded(p'.base, p'.moves) <==> x in a {
      if x in p'.base { assert ResolvesBy(Recorded(p'.base, p'.moves), x) == ResolvesBy(a, x); }
    }
    forall x | x in a ensures Recorded(p'.base, p'.moves)[x] == a[x] {
      assert ResolvesBy(Recorded(p'.base, p'.moves), x) == ResolvesBy(a, x);
    }
  }

  lemma RestOf(base: seq<Id>, earlier: seq<Move>, later: seq<Move>, id: Id, full: seq<Id>)
    requires Removing(base, earlier, later, id, full)
    ensures Distinct(full) && Distinct(Rest(base, id, full))
    ensures SameIds(Left(base, earlier, later, id).base, Rest(base, id, full))
    ensures forall x :: x in Rest(base, id, full) <==> x in base && x != id
  {
    RestIsListed(Page(base, earlier + later), full, id);
    FittingListIsDistinct(Page(base, earlier + later), full);
  }

  /** The anchors by which the page resolves before and after. */
  ghost function Before(base: seq<Id>, earlier: seq<Move>, later: seq<Move>): Anchors {
    Kept(Page(base, earlier + later))
  }

  ghost function Afterwards(base: seq<Id>, earlier: seq<Move>, later: seq<Move>, id: Id): (a: Anchors)
    ensures forall x :: x in a ==> x in base && x != id && a[x] != Some(id)
    ensures forall x :: x in a ==> LeftAnchor(base, earlier, later, id, x) == Some(a[x])
  {
    WithoutCycles(AnchorsLeft(base, earlier, later, id))
  }

  /** The rest stands in the order of the whole. */
  lemma RestOrder(ids: seq<Id>, s: set<Id>, i: nat, j: nat) returns (k: nat, l: nat)
    requires i < j < |Those(ids, s)|
    ensures k < l < |ids| && ids[k] == Those(ids, s)[i] && ids[l] == Those(ids, s)[j]
  {
    k := PlaceBefore(ids, s, i);
    l := PlaceBefore(ids, s, j);
    if l < k { ThoseGrow(ids, s, l, k); }
  }

  lemma OrderInRest(ids: seq<Id>, s: set<Id>, x: Id, y: Id)
    requires Distinct(ids) && x in ids && y in ids && x in s && y in s
    ensures IndexOf(Those(ids, s), x) <= IndexOf(Those(ids, s), y) <==> IndexOf(ids, x) <= IndexOf(ids, y)
  {
    if IndexOf(ids, x) < IndexOf(ids, y) { ThoseKeepOrder(ids, s, x, y); }
    if IndexOf(ids, y) < IndexOf(ids, x) { ThoseKeepOrder(ids, s, y, x); }
  }

  lemma TurnAsBefore(base: seq<Id>, earlier: seq<Move>, later: seq<Move>, id: Id, x: Id)
    requires x in base && x != id && x in Before(base, earlier, later) && Before(base, earlier, later)[x] != Some(id)
    ensures LeftTurn(base, earlier, later, id, x) == Priority(Page(base, earlier + later), x)
  {
    assert AnchorOf(Page(base, earlier + later), x) == Some(Before(base, earlier, later)[x]);
    LeftAsItWas(base, earlier, later, id, x);
  }

  lemma ShownInTurn(p: Page, full: seq<Id>, k: nat, l: nat)
    requires Shows(p, full) && k < l < |full|
    ensures InTurn(p.base, Kept(p), x => Priority(p, x), full[k], full[l])
  {
    assert FitsIn(p, full, l) && full[..l][k] == full[k];
  }

  lemma {:induction false} UnchangedPairInTurn(
      base: seq<Id>, earlier: seq<Move>, later: seq<Move>, id: Id, x: Id, y: Id)
    requires x in base && y in base && x != id && y != id
    requires
      var a, a' := Before(base, earlier, later), Afterwards(base, earlier, later, id);
      ResolvesBy(a, x) == ResolvesBy(a', x) && ResolvesBy(a, y) == ResolvesBy(a', y)
    requires InTurn(base, Before(base, earlier, later), z => Priority(Page(base, earlier + later), z), x, y)
    ensures InTurn(base, Afterwards(base, earlier, later, id), TurnsLeftTo(base, earlier, later, id), x, y)
  {
    var a' := Afterwards(base, earlier, later, id);
    if x in a' && y in a' && a'[x] == a'[y] {
      TurnAsBefore(base, earlier, later, id, x);
      TurnAsBefore(base, earlier, later, id, y);
    }
  }

  lemma {:induction false} UnchangedInTurn(
      base: seq<Id>, earlier: seq<Move>, later: seq<Move>, id: Id, full: seq<Id>, i: nat, j: nat)
    requires Removing(base, earlier, later, id, full) && i < j < |Rest(base, id, full)|
    requires
      var a, a', rest := Before(base, earlier, later), Afterwards(base, earlier, later, id), Rest(base, id, full);
      ResolvesBy(a, rest[i]) == ResolvesBy(a', rest[i]) && ResolvesBy(a, rest[j]) == ResolvesBy(a', rest[j])
    ensures
      var a', turn, rest := Afterwards(base, earlier, later, id), TurnsLeftTo(base, earlier, later, id),
        Rest(base, id, full);
      InTurn(base, a', turn, rest[i], rest[j])
  {
    RestOf(base, earlier, later, id, full);
    var k, l := RestOrder(full, Others(base, id), i, j);
    assert full[k] in Rest(base, id, full) && full[l] in Rest(base, id, full);
    ShownInTurn(Page(base, earlier + later), full, k, l);
    UnchangedPairInTurn(base, earlier, later, id, full[k], full[l]);
  }

  lemma {:induction false} UnchangedIsAnchoredFrom(
      base: seq<Id>, earlier: seq<Move>, later: seq<Move>, id: Id, full: seq<Id>, x: Id, z: Id, y: Id)
    requires Removing(base, earlier, later, id, full)
    requires
      var a, a', rest := Before(base, earlier, later), Afterwards(base, earlier, later, id), Rest(base, id, full);
      && x in rest && z in rest && y in rest && ResolvesBy(a, z) == ResolvesBy(a', z)
           && ResolvesBy(a, x) == Some(Some(y))
      && IndexOf(full, y) < IndexOf(full, z) < IndexOf(full, x)
    ensures
      var a', rest := Afterwards(base, earlier, later, id), Rest(base, id, full);
      AnchoredFrom(a', rest, IndexOf(rest, z), IndexOf(rest, y))
  {
    var p, a := Page(base, earlier + later), Before(base, earlier, later);
    RestOf(base, earlier, later, id, full);
    ShownIsNested(p, full, IndexOf(full, x));
    assert AnchoredFrom(a, full, IndexOf(full, z), IndexOf(full, y));
    var v := a[z].value;
    AnchorComesEarlier(p, full, z);
    assert v in full && v != id && v in base;
    OrderInRest(full, Others(base, id), y, v);
  }

  /** Where the changed ones stand right, so does everything else. */
  lemma {:induction false} UnchangedIsNested(
      base: seq<Id>, earlier: seq<Move>, later: seq<Move>, id: Id, full: seq<Id>, i: nat)
    requires Removing(base, earlier, later, id, full) && i < |Rest(base, id, full)|
    requires
      var a, a', rest := Before(base, earlier, later), Afterwards(base, earlier, later, id), Rest(base, id, full);
      rest[i] !in Changed(a, a', rest) && NoneComesBetween(a', rest, Changed(a, a', rest))
    ensures Nested(Afterwards(base, earlier, later, id), Rest(base, id, full), i)
  {
    var p, s, rest := Page(base, earlier + later), Others(base, id), Rest(base, id, full);
    var a, a', x := Before(base, earlier, later), Afterwards(base, earlier, later, id), rest[i];
    RestOf(base, earlier, later, id, full);
    assert x in rest;
    if x in a' && a'[x].Some? {
      var y := a'[x].value;
      AnchorComesEarlier(p, full, x);
      assert y in full && y in base && y in rest;
      IndexAt(rest, i);
      OrderInRest(full, s, x, y);
      var j := IndexOf(rest, y);
      forall m | j < m < i ensures AnchoredFrom(a', rest, m, j) {
        var z := rest[m];
        assert z in rest;
        IndexAt(rest, m);
        if z !in Changed(a, a', rest) {
          OrderInRest(full, s, z, y);
          OrderInRest(full, s, x, z);
          UnchangedIsAnchoredFrom(base, earlier, later, id, full, x, z, y);
        } else {
          assert StaysAside(a', rest, i, m);
        }
      }
    }
  }

  // ---------------------------------------------------------------------------
  // All of them
  // ---------------------------------------------------------------------------

  predicate AllStand(base: seq<Id>, a: Anchors, turn: Id -> int, listed: seq<Id>) {
    && (forall i :: 0 <= i < |listed| ==> Nested(a, listed, i))
    && forall i, j :: 0 <= i < j < |listed| ==> InTurn(base, a, turn, listed[i], listed[j])
  }

  /** A list shows its page when all its sections are nested and in turn. */
  lemma ShowsWhenAllStand(p: Page, listed: seq<Id>)
    requires Distinct(listed) && SameIds(p.base, listed)
    ensures Shows(p, listed) <==> AllStand(p.base, Kept(p), x => Priority(p, x), listed)
  {
    var a, turn := Kept(p), (x: Id) => Priority(p, x);
    ListShowsExactlyWhen(p, listed);
    assert AnchorsWith(p, [], listed) == Recorded(p.base, p.moves);
    if DropHolds(p, [], listed) {
      forall i | 0 <= i < |listed| ensures Nested(a, listed, i) {}
      forall i, j | 0 <= i < j < |listed| ensures InTurn(p.base, a, turn, listed[i], listed[j]) {
        if listed[i] in a && listed[j] in a && a[listed[i]] == a[listed[j]] {
          assert Siblings(a, [], listed[i], listed[j]);
        }
      }
    }
    if AllStand(p.base, a, turn, listed) { StandingHolds(p, turn, listed); }
  }

  lemma StandingHolds(p: Page, turn: Id -> int, listed: seq<Id>)
    requires Distinct(listed) && SameIds(p.base, listed) && (forall x :: turn(x) == Priority(p, x))
    requires AllStand(p.base, Kept(p), turn, listed)
    ensures DropHolds(p, [], listed)
  {
    var a := Kept(p);
    assert AnchorsWith(p, [], listed) == Recorded(p.base, p.moves);
    forall i, j | 0 <= i < j < |listed| && Siblings(a, [], listed[i], listed[j])
      ensures Priority(p, listed[i]) < Priority(p, listed[j])
    {
      assert InTurn(p.base, a, turn, listed[i], listed[j]);
    }
    forall i, j | 0 <= i < j < |listed| && listed[i] !in a && listed[j] !in a
      ensures IndexOf(p.base, listed[i]) < IndexOf(p.base, listed[j])
    {
      assert InTurn(p.base, a, turn, listed[i], listed[j]);
    }
    forall i, j | 0 <= i < j < |listed| && listed[j] in a && a[listed[j]].None? ensures listed[i] in a {
      assert InTurn(p.base, a, turn, listed[i], listed[j]);
    }
  }

  /** The order of the base and of the turns is that of the page before. */
  lemma InTurnAsBefore(base: seq<Id>, earlier: seq<Move>, later: seq<Move>, id: Id, x: Id, y: Id)
    requires Distinct(base) && id in base && x in base && y in base && x != id && y != id
    ensures
      var p', a' := Left(base, earlier, later, id), Afterwards(base, earlier, later, id);
      InTurn(p'.base, a', x => Priority(p', x), x, y) <==> InTurn(base, a', TurnsLeftTo(base, earlier, later, id), x, y)
  {
    OrderInRest(base, Others(base, id), y, x);
    TurnLeftAgrees(base, earlier, later, id, x, y);
  }

  lemma AsideWhenNested(a: Anchors, listed: seq<Id>, i: nat, m: nat)
    requires m < i < |listed| && Nested(a, listed, i)
    ensures StaysAside(a, listed, i, m)
  {
  }

  lemma RestShowsWhenAllStand(base: seq<Id>, earlier: seq<Move>, later: seq<Move>, id: Id, full: seq<Id>)
    requires Removing(base, earlier, later, id, full)
    ensures
      var a', turn := Afterwards(base, earlier, later, id), TurnsLeftTo(base, earlier, later, id);
      Shows(Left(base, earlier, later, id), Rest(base, id, full)) <==> AllStand(base, a', turn, Rest(base, id, full))
  {
    var p', rest := Left(base, earlier, later, id), Rest(base, id, full);
    var a', turn := Afterwards(base, earlier, later, id), TurnsLeftTo(base, earlier, later, id);
    RestOf(base, earlier, later, id, full);
    RecordedLeft(base, earlier, later, id);
    ShowsWhenAllStand(p', rest);
    forall i, j | 0 <= i < j < |rest|
      ensures InTurn(p'.base, a', x => Priority(p', x), rest[i], rest[j]) <==> InTurn(base, a', turn, rest[i], rest[j])
    {
      assert rest[i] in rest && rest[j] in rest;
      InTurnAsBefore(base, earlier, later, id, rest[i], rest[j]);
    }
  }

  lemma ChangedOnesDecide(base: seq<Id>, earlier: seq<Move>, later: seq<Move>, id: Id, full: seq<Id>)
    requires Removing(base, earlier, later, id, full)
    ensures
      var a, a', rest := Before(base, earlier, later), Afterwards(base, earlier, later, id), Rest(base, id, full);
      Shows(Left(base, earlier, later, id), rest)
      <==> TheyStand(base, earlier, later, id, a', rest, Changed(a, a', rest))
  {
    var a, a', rest := Before(base, earlier, later), Afterwards(base, earlier, later, id), Rest(base, id, full);
    var turn, some := TurnsLeftTo(base, earlier, later, id), Changed(a, a', rest);
    RestShowsWhenAllStand(base, earlier, later, id, full);
    if AllStand(base, a', turn, rest) {
      forall i, m | 0 <= m < i < |rest| ensures StaysAside(a', rest, i, m) { AsideWhenNested(a', rest, i, m); }
    }
    if TheyStand(base, earlier, later, id, a', rest, some) {
      forall i | 0 <= i < |rest| && rest[i] !in some ensures Nested(a', rest, i) {
        UnchangedIsNested(base, earlier, later, id, full, i);
      }
      forall i, j | 0 <= i < j < |rest| && rest[i] !in some && rest[j] !in some
        ensures InTurn(base, a', turn, rest[i], rest[j])
      {
        assert rest[i] in rest && rest[j] in rest;
        UnchangedInTurn(base, earlier, later, id, full, i, j);
      }
    }
  }

  /** On any page, whatever cycles its anchors form before or after, the others are shown as before
      exactly when those that resolve by another anchor afterwards stand right by the anchors they are
      left with. All of it is said of the document before the removal. */
  lemma RemovalShowsTheRestExactlyWhen(d: Document, source: seq<SourceSection>, group: Group, id: Id, full: seq<Id>)
    requires IsCustom(d, source, group, id) && Shows(SectionPage(d, source, group), full)
    ensures
      var base, earlier, later := SectionPage(d, source, group).base, CustomMoves(d.custom, group),
        GroupMoves(d.moves, group);
      var a, a', rest := Before(base, earlier, later), Afterwards(base, earlier, later, id), Rest(base, id, full);
      Shows(SectionPage(Removed(d, id), source, group), rest)
      <==> TheyStand(base, earlier, later, id, a', rest, Changed(a, a', rest))
  {
    PageLeft(d, source, group, id);
    DeduplicatedHas(SourceIds(source, group) + CustomIds(d.custom, group), id);
    DeduplicatedIsDistinct(SourceIds(source, group) + CustomIds(d.custom, group));
    var base, earlier, later := SectionPage(d, source, group).base, CustomMoves(d.custom, group),
      GroupMoves(d.moves, group);
    ChangedOnesDecide(base, earlier, later, id, full);
  }

  /** Only what was anchored to the removed section, or is on a cycle before or after, resolves by
      another anchor. */
  lemma OnlyTheseChange(base: seq<Id>, earlier: seq<Move>, later: seq<Move>, id: Id, x: Id)
    requires id in base && x in base && x != id
    requires ResolvesBy(Before(base, earlier, later), x) != ResolvesBy(Afterwards(base, earlier, later, id), x)
    ensures
      || x in Dependents(Page(base, earlier + later), id)
      || OnCycle(Recorded(base, earlier + later), x) || OnCycle(AnchorsLeft(base, earlier, later, id), x)
  {
    if x !in Dependents(Page(base, earlier + later), id) { LeftAsItWas(base, earlier, later, id, x); }
  }

  lemma DependentsChange(base: seq<Id>, earlier: seq<Move>, later: seq<Move>, id: Id, full: seq<Id>)
    requires Removing(base, earlier, later, id, full)
    requires Before(base, earlier, later) == Recorded(base, earlier + later)
    requires Afterwards(base, earlier, later, id) == AnchorsLeft(base, earlier, later, id)
    ensures Changed(Before(base, earlier, later), Afterwards(base, earlier, later, id), Rest(base, id, full))
      == Dependents(Page(base, earlier + later), id)
  {
    var p := Page(base, earlier + later);
    RestOf(base, earlier, later, id, full);
    forall x | x in base && x != id
      ensures ResolvesBy(Before(base, earlier, later), x) == AnchorOf(p, x)
      ensures ResolvesBy(Afterwards(base, earlier, later, id), x) == LeftAnchor(base, earlier, later, id, x)
      ensures LeftAnchor(base, earlier, later, id, x) != AnchorOf(p, x) <==> x in Dependents(p, id)
    {
      if x !in Dependents(p, id) { LeftAsItWas(base, earlier, later, id, x); }
    }
  }

  /** Without cycles before and after, they are the sections that were anchored to the removed one. */
  lemma {:induction false} RemovalWithoutCyclesShowsTheRestExactlyWhen(
      d: Document, source: seq<SourceSection>, group: Group, id: Id, full: seq<Id>)
    requires IsCustom(d, source, group, id) && Shows(SectionPage(d, source, group), full)
    requires
      var base, earlier, later := SectionPage(d, source, group).base, CustomMoves(d.custom, group),
        GroupMoves(d.moves, group);
      Acyclic(Recorded(base, earlier + later)) && Acyclic(AnchorsLeft(base, earlier, later, id))
    ensures
      var p, earlier, later := SectionPage(d, source, group), CustomMoves(d.custom, group), GroupMoves(d.moves, group);
      var a', rest := AnchorsLeft(p.base, earlier, later, id), Rest(p.base, id, full);
      Shows(SectionPage(Removed(d, id), source, group), rest)
      <==> TheyStand(p.base, earlier, later, id, a', rest, Dependents(p, id))
  {
    var p, earlier, later := SectionPage(d, source, group), CustomMoves(d.custom, group), GroupMoves(d.moves, group);
    RemovalShowsTheRestExactlyWhen(d, source, group, id, full);
    AcyclicLosesNothing(Recorded(p.base, p.moves));
    AcyclicLosesNothing(AnchorsLeft(p.base, earlier, later, id));
    DeduplicatedHas(SourceIds(source, group) + CustomIds(d.custom, group), id);
    DeduplicatedIsDistinct(SourceIds(source, group) + CustomIds(d.custom, group));
    DependentsChange(p.base, earlier, later, id, full);
  }
}
