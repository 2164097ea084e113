/** Where an added or duplicated section is shown. */
module AddedSections {
  import opened Options
  import opened SectionOrder
  import opened SectionResolver
  import opened WebsiteClient
  import opened CustomSections

  // ---------------------------------------------------------------------------
  // A page with one more section
  // ---------------------------------------------------------------------------

  /** Neither a section of the page nor named by any of its moves. */
  predicate Unheard(base: seq<Id>, moves: seq<Move>, id: Id) {
    id !in base && forall m :: m in moves ==> m.id != id && m.after != Some(id)
  }

  /** The page with `id` as its last section, placed by a move made after the `earlier` ones. */
  function Extended(base: seq<Id>, earlier: seq<Move>, later: seq<Move>, id: Id, after: Option<Id>): Page {
    Page(base + [id], earlier + [Move(id, after)] + later)
  }

  lemma {:induction false} UnheardMovesCountAsBefore(base: seq<Id>, moves: seq<Move>, id: Id, x: Id)
    requires Unheard(base, moves, id)
    ensures LastMove(base + [id], moves, x) == LastMove(base, moves, x)
    ensures x == id ==> LastMove(base, moves, x) == -1
  {
    if moves != [] {
      var m := moves[|moves| - 1];
      assert m in moves;
      assert Counts(base + [id], m) == Counts(base, m);
      UnheardMovesCountAsBefore(base, moves[..|moves| - 1], id, x);
    }
  }

  predicate Places(base: seq<Id>, id: Id, after: Option<Id>) {
    id !in base && (after.Some? ==> after.value in base)
  }

  lemma PrioritiesShift(base: seq<Id>, earlier: seq<Move>, later: seq<Move>, id: Id, after: Option<Id>, x: Id)
    requires Unheard(base, earlier + later, id) && Places(base, id, after)
    ensures
      var p', was := Extended(base, earlier, later, id, after), LastMove(base, earlier + later, x);
      Priority(p', x) == if x == id then |earlier| else if was < |earlier| then was else was + 1
  {
    var base', move := base + [id], Move(id, after);
    assert Unheard(base, earlier, id) && Unheard(base, later, id);
    UnheardMovesCountAsBefore(base, earlier, id, x);
    UnheardMovesCountAsBefore(base, later, id, x);
    LastMoveOfBoth(base, earlier, later, x);
    LastMoveOfBoth(base', earlier + [move], later, x);
    LastMoveOfBoth(base', earlier, [move], x);
    assert Counts(base', move);
    assert LastMove(base', [move], x) == if x == id then 0 else -1 by { assert [move][..0] == []; }
  }

  lemma AnchorGrows(base: seq<Id>, earlier: seq<Move>, later: seq<Move>, id: Id, after: Option<Id>, x: Id)
    requires Unheard(base, earlier + later, id) && Places(base, id, after)
    ensures
      var p', was := Extended(base, earlier, later, id, after), Recorded(base, earlier + later)[id := after];
      && (x in Recorded(p'.base, p'.moves) <==> x in was)
      && (x in was ==> Recorded(p'.base, p'.moves)[x] == was[x])
  {
    var p', moves := Extended(base, earlier, later, id, after), earlier + later;
    PrioritiesShift(base, earlier, later, id, after, x);
    var was := LastMove(base, moves, x);
    if x == id {
      assert p'.moves[|earlier|] == Move(id, after);
    } else if was >= 0 {
      assert p'.moves[if was < |earlier| then was else was + 1] == moves[was];
    }
  }

  lemma AnchorsGrow(base: seq<Id>, earlier: seq<Move>, later: seq<Move>, id: Id, after: Option<Id>)
    requires Unheard(base, earlier + later, id) && Places(base, id, after)
    ensures
      var p' := Extended(base, earlier, later, id, after);
      Recorded(p'.base, p'.moves) == Recorded(base, earlier + later)[id := after]
  {
    forall x { AnchorGrows(base, earlier, later, id, after, x); }
  }

  /** A section that nothing hangs off. */
  predicate Leaf(a: Anchors, id: Id) {
    id !in a && forall x :: x in a ==> a[x] != Some(id)
  }

  lemma {:induction false} SameWalk(a: Anchors, id: Id, after: Option<Id>, x: Id, n: nat)
    requires Leaf(a, id) && x != id
    ensures Walk(a[id := after], x, n) == Walk(a, x, n) != Some(id)
    decreases n
  {
    if n > 0 && x in a && a[x].Some? { SameWalk(a, id, after, a[x].value, n - 1); }
  }

  lemma LeafIsOnNoCycle(a: Anchors, id: Id, after: Option<Id>)
    requires Leaf(a, id) && after != Some(id)
    ensures !OnCycle(a[id := after], id)
  {
    if OnCycle(a[id := after], id) {
      var n: nat :| n > 0 && Walk(a[id := after], id, n) == Some(id);
      SameWalk(a, id, after, after.value, n - 1);
    }
  }

  lemma SameCycles(a: Anchors, id: Id, after: Option<Id>)
    requires Leaf(a, id) && after != Some(id)
    ensures WithoutCycles(a[id := after]) == WithoutCycles(a)[id := after]
  {
    LeafIsOnNoCycle(a, id, after);
    forall x | x != id ensures OnCycle(a[id := after], x) <==> OnCycle(a, x) {
      if OnCycle(a, x) {
        var n: nat :| n > 0 && Walk(a, x, n) == Some(x);
        SameWalk(a, id, after, x, n);
      }
      if OnCycle(a[id := after], x) {
        var n: nat :| n > 0 && Walk(a[id := after], x, n) == Some(x);
        SameWalk(a, id, after, x, n);
      }
    }
  }

  lemma KeptGrows(base: seq<Id>, earlier: seq<Move>, later: seq<Move>, id: Id, after: Option<Id>)
    requires Unheard(base, earlier + later, id) && Places(base, id, after)
    ensures var p := Page(base, earlier + later);
      && Leaf(Kept(p), id)
      && Kept(Extended(base, earlier, later, id, after)) == Kept(p)[id := after]
  {
    AnchorsGrow(base, earlier, later, id, after);
    SameCycles(Recorded(base, earlier + later), id, after);
  }

  lemma StillReaches(a: Anchors, id: Id, after: Option<Id>, x: Id, y: Id)
    requires Leaf(a, id) && x != id && Reaches(a, x, y)
    ensures Reaches(a[id := after], x, y)
    ensures after == Some(x) ==> Reaches(a[id := after], id, y)
  {
    var n: nat :| Walk(a, x, n) == Some(y);
    SameWalk(a, id, after, x, n);
    if after == Some(x) { assert Walk(a[id := after], id, n + 1) == Some(y); }
  }

  // ---------------------------------------------------------------------------
  // The list with the new section right after its anchor
  // ---------------------------------------------------------------------------

  function Slot(ids: seq<Id>, after: Option<Id>): (k: nat)
    requires after.Some? ==> after.value in ids
    ensures k <= |ids|
  {
    match after case None => 0 case Some(y) => IndexOf(ids, y) + 1
  }

  function With(ids: seq<Id>, k: nat, id: Id): (r: seq<Id>)
    requires k <= |ids|
    ensures |r| == |ids| + 1
    ensures forall i :: 0 <= i < |ids| ==> r[NewIndex(k, i)] == ids[i]
    ensures r[k] == id
  {
    seq(|ids| + 1, i requires 0 <= i <= |ids| => if i < k then ids[i] else if i == k then id else ids[i - 1])
  }

  function NewIndex(k: nat, i: nat): nat {
    if i < k then i else i + 1
  }

  function OldIndex(k: nat, i: nat): nat
    requires i != k
  {
    if i < k then i else i - 1
  }

  /** A page, the list it shows, and a section it has not heard of that is to follow one it shows. */
  ghost predicate Adding(base: seq<Id>, earlier: seq<Move>, later: seq<Move>, id: Id, after: Option<Id>, ids: seq<Id>) {
    && Unheard(base, earlier + later, id) && Places(base, id, after)
    && Shows(Page(base, earlier + later), ids)
    && (after.Some? ==> after.value in ids)
  }

  /** No section that follows the same anchor does so by one of the earlier moves. */
  ghost predicate NoEarlierSibling(p: Page, n: nat, after: Option<Id>) {
    forall s :: s in Kept(p) && Kept(p)[s] == after ==> Priority(p, s) >= n
  }

  lemma NothingBeforeHasTheAnchor(p: Page, ids: seq<Id>, after: Option<Id>, i: nat)
    requires Shows(p, ids) && (after.Some? ==> after.value in ids)
    requires i < Slot(ids, after) && i < |ids|
    ensures ids[i] in Kept(p) ==> Kept(p)[ids[i]] != after
  {
    assert FitsIn(p, ids, i);
    if after.Some? { assert after.value !in ids[..i]; }
  }

  lemma NewSectionFits(base: seq<Id>, earlier: seq<Move>, later: seq<Move>, id: Id, after: Option<Id>, ids: seq<Id>)
    requires Adding(base, earlier, later, id, after, ids)
    ensures Fits(Extended(base, earlier, later, id, after), ids[..Slot(ids, after)], id)
  {
    var p, k := Page(base, earlier + later), Slot(ids, after);
    var before := ids[..k];
    KeptGrows(base, earlier, later, id, after);
    assert id !in ids;
    forall s | s in before && s in Kept(p) ensures Kept(p)[s] != after {
      NothingBeforeHasTheAnchor(p, ids, after, IndexOf(before, s));
    }
    if after.Some? { assert before[k - 1] == after.value; }
  }

  lemma BaseIndexStays(base: seq<Id>, id: Id, u: Id)
    requires u in base
    ensures IndexOf(base + [id], u) == IndexOf(base, u)
  {
    var i := IndexOf(base, u);
    assert (base + [id])[i] == u;
    assert forall j :: 0 <= j < i ==> (base + [id])[j] == base[j];
  }

  /** What stands before the section that was at `i`, once `id` is put in at `k`. */
  function Ahead(ids: seq<Id>, k: nat, id: Id, i: nat): seq<Id>
    requires k <= |ids| && i < |ids|
  {
    With(ids, k, id)[..NewIndex(k, i)]
  }

  lemma AheadAt(ids: seq<Id>, k: nat, id: Id, i: nat, m: nat)
    requires k <= |ids| && i < |ids| && m < NewIndex(k, i)
    ensures Ahead(ids, k, id, i)[m] == if m == k then id else ids[..i][OldIndex(k, m)]
  {
  }

  lemma AheadHas(ids: seq<Id>, k: nat, id: Id, i: nat, u: Id)
    requires k <= |ids| && i < |ids|
    ensures u in Ahead(ids, k, id, i) <==> (u == id && k <= i) || u in ids[..i]
  {
    var ahead, before := Ahead(ids, k, id, i), ids[..i];
    if u in ahead { AheadAt(ids, k, id, i, IndexOf(ahead, u)); }
    if u in before { AheadAt(ids, k, id, i, NewIndex(k, IndexOf(before, u))); }
    if k <= i { AheadAt(ids, k, id, i, k); }
  }

  lemma {:induction false} SiblingsStayInOrder(
      base: seq<Id>, earlier: seq<Move>, later: seq<Move>, id: Id, after: Option<Id>, ids: seq<Id>, i: nat, s: Id)
    requires Adding(base, earlier, later, id, after, ids) && i < |ids|
    requires NoEarlierSibling(Page(base, earlier + later), |earlier|, after)
    requires var p' := Extended(base, earlier, later, id, after);
      && s in Ahead(ids, Slot(ids, after), id, i)
      && s in Kept(p') && ids[i] in Kept(p') && Kept(p')[s] == Kept(p')[ids[i]]
    ensures var p' := Extended(base, earlier, later, id, after); Priority(p', s) < Priority(p', ids[i])
  {
    var p, x := Page(base, earlier + later), ids[i];
    assert x in ids && FitsIn(p, ids, i);
    KeptGrows(base, earlier, later, id, after);
    PrioritiesShift(base, earlier, later, id, after, s);
    PrioritiesShift(base, earlier, later, id, after, x);
    AheadHas(ids, Slot(ids, after), id, i, s);
    if s == id { assert Kept(p)[x] == after; } else { assert Priority(p, s) < Priority(p, x); }
  }

  lemma {:induction false} UnmovedStayInOrder(
      base: seq<Id>, earlier: seq<Move>, later: seq<Move>, id: Id, after: Option<Id>, ids: seq<Id>, i: nat, u: Id)
    requires Adding(base, earlier, later, id, after, ids) && i < |ids|
    requires var p' := Extended(base, earlier, later, id, after);
      u in Ahead(ids, Slot(ids, after), id, i) && u !in Kept(p') && ids[i] !in Kept(p')
    ensures var base' := base + [id]; IndexOf(base', u) < IndexOf(base', ids[i])
  {
    var p := Page(base, earlier + later);
    assert ids[i] in ids && FitsIn(p, ids, i);
    KeptGrows(base, earlier, later, id, after);
    AheadHas(ids, Slot(ids, after), id, i, u);
    assert u in ids;
    BaseIndexStays(base, id, u);
    BaseIndexStays(base, id, ids[i]);
  }

  /** All that stands between `y` and the place `i` hangs off `y`. */
  ghost predicate HangsTogether(a: Anchors, ids: seq<Id>, i: nat, y: Id)
    requires i <= |ids|
  {
    forall m, n :: 0 <= m < n < i && ids[m] == y ==> Reaches(a, ids[n], y)
  }

  /** What stands between an anchor and its section hangs off the anchor, the new section too. */
  lemma StillHangsTogether(a: Anchors, ids: seq<Id>, id: Id, after: Option<Id>, i: nat, y: Id, m: nat, n: nat)
    requires Leaf(a, id) && id !in ids && (after.Some? ==> after.value in ids)
    requires i < |ids| && y != id && HangsTogether(a, ids, i, y)
    requires m < n < NewIndex(Slot(ids, after), i) && Ahead(ids, Slot(ids, after), id, i)[m] == y
    ensures Reaches(a[id := after], Ahead(ids, Slot(ids, after), id, i)[n], y)
  {
    var k := Slot(ids, after);
    AheadAt(ids, k, id, i, m);
    AheadAt(ids, k, id, i, n);
    if n != k {
      var z := ids[OldIndex(k, n)];
      assert Reaches(a, z, y) && z in ids;
      StillReaches(a, id, after, z, y);
    } else {
      if m == k - 1 { StepReaches(a, y); }
      assert Reaches(a, after.value, y);
      StillReaches(a, id, after, after.value, y);
    }
  }

  lemma FitHangsTogether(p: Page, ids: seq<Id>, i: nat, y: Id)
    requires i < |ids| && FitsIn(p, ids, i) && ids[i] in Kept(p) && Kept(p)[ids[i]] == Some(y)
    ensures y in ids[..i] && HangsTogether(Kept(p), ids, i, y)
  {
    forall m, n | 0 <= m < n < i && ids[m] == y ensures Reaches(Kept(p), ids[n], y) {
      assert ids[..i][m] == y && ids[..i][n] == ids[n];
    }
  }

  /** A section already shown fits after what it fitted after before, and after the new one. */
  lemma OldSectionFits(
      base: seq<Id>, earlier: seq<Move>, later: seq<Move>, id: Id, after: Option<Id>, ids: seq<Id>, i: nat)
    requires Adding(base, earlier, later, id, after, ids) && i < |ids|
    requires NoEarlierSibling(Page(base, earlier + later), |earlier|, after)
    ensures Fits(Extended(base, earlier, later, id, after), Ahead(ids, Slot(ids, after), id, i), ids[i])
  {
    var p, p', k := Page(base, earlier + later), Extended(base, earlier, later, id, after), Slot(ids, after);
    var x, ahead := ids[i], Ahead(ids, k, id, i);
    assert x in ids && FitsIn(p, ids, i);
    KeptGrows(base, earlier, later, id, after);
    forall u ensures u in ahead <==> (u == id && k <= i) || u in ids[..i] { AheadHas(ids, k, id, i, u); }
    if x !in Kept(p) {
      forall u | u in ahead && u !in Kept(p') ensures IndexOf(p'.base, u) < IndexOf(p'.base, x) {
        UnmovedStayInOrder(base, earlier, later, id, after, ids, i, u);
      }
    } else {
      forall s | s in ahead && s in Kept(p') && Kept(p')[s] == Kept(p')[x] ensures Priority(p', s) < Priority(p', x) {
        SiblingsStayInOrder(base, earlier, later, id, after, ids, i, s);
      }
      if Kept(p)[x].Some? {
        var y := Kept(p)[x].value;
        FitHangsTogether(p, ids, i, y);
        forall m, n | 0 <= m < n < |ahead| && ahead[m] == y ensures Reaches(Kept(p'), ahead[n], y) {
          StillHangsTogether(Kept(p), ids, id, after, i, y, m, n);
        }
      }
    }
  }

  lemma SameWithOneMore(base: seq<Id>, ids: seq<Id>, k: nat, id: Id)
    requires SameIds(base, ids) && k <= |ids|
    ensures SameIds(base + [id], With(ids, k, id))
  {
    var all := With(ids, k, id);
    forall x | x in ids ensures x in all { assert all[NewIndex(k, IndexOf(ids, x))] == x; }
    forall x | x in all ensures x == id || x in ids {
      var i := IndexOf(all, x);
      if i != k { assert all[NewIndex(k, OldIndex(k, i))] == ids[OldIndex(k, i)]; }
    }
  }

  lemma WithAt(ids: seq<Id>, k: nat, id: Id, i: nat)
    requires k <= |ids| && i <= |ids|
    ensures i == k ==> With(ids, k, id)[..i] == ids[..i]
    ensures i != k ==>
      var j := OldIndex(k, i); With(ids, k, id)[..i] == Ahead(ids, k, id, j) && With(ids, k, id)[i] == ids[j]
  {
    if i != k { assert NewIndex(k, OldIndex(k, i)) == i; }
  }

  lemma EverySectionFits(
      base: seq<Id>, earlier: seq<Move>, later: seq<Move>, id: Id, after: Option<Id>, ids: seq<Id>, i: nat)
    requires Adding(base, earlier, later, id, after, ids) && i <= |ids|
    requires NoEarlierSibling(Page(base, earlier + later), |earlier|, after)
    ensures FitsIn(Extended(base, earlier, later, id, after), With(ids, Slot(ids, after), id), i)
  {
    var k := Slot(ids, after);
    WithAt(ids, k, id, i);
    if i == k {
      NewSectionFits(base, earlier, later, id, after, ids);
    } else {
      OldSectionFits(base, earlier, later, id, after, ids, OldIndex(k, i));
    }
  }

  lemma SiblingsAreBehind(p: Page, ids: seq<Id>, after: Option<Id>, s: Id)
    requires Shows(p, ids) && (after.Some? ==> after.value in ids)
    requires s in Kept(p) && Kept(p)[s] == after
    ensures Slot(ids, after) <= IndexOf(ids, s) < |ids|
  {
    assert s in p.base && s in ids;
    if IndexOf(ids, s) < Slot(ids, after) { NothingBeforeHasTheAnchor(p, ids, after, IndexOf(ids, s)); }
  }

  /** In a list with the new section right after its anchor, its siblings are later, and so are
      their moves. */
  lemma {:induction false} SiblingIsLater(
      base: seq<Id>, earlier: seq<Move>, later: seq<Move>, id: Id, after: Option<Id>, ids: seq<Id>, s: Id)
    requires Adding(base, earlier, later, id, after, ids)
    requires Shows(Extended(base, earlier, later, id, after), With(ids, Slot(ids, after), id))
    requires var p := Page(base, earlier + later); s in Kept(p) && Kept(p)[s] == after
    ensures Priority(Page(base, earlier + later), s) >= |earlier|
  {
    var k := Slot(ids, after);
    KeptGrows(base, earlier, later, id, after);
    SiblingsAreBehind(Page(base, earlier + later), ids, after, s);
    LaterSiblingHasLaterMove(Extended(base, earlier, later, id, after), With(ids, k, id), k,
      NewIndex(k, IndexOf(ids, s)));
    PrioritiesShift(base, earlier, later, id, after, s);
    PrioritiesShift(base, earlier, later, id, after, id);
  }

  /** The new section is shown right after its anchor, and nothing else changes place, exactly when
      no section that follows the same anchor does so by an earlier move. */
  lemma ShownAfterItsAnchor(
      base: seq<Id>, earlier: seq<Move>, later: seq<Move>, id: Id, after: Option<Id>, ids: seq<Id>)
    requires Adding(base, earlier, later, id, after, ids)
    ensures
      Shows(Extended(base, earlier, later, id, after), With(ids, Slot(ids, after), id))
      <==> NoEarlierSibling(Page(base, earlier + later), |earlier|, after)
  {
    var p, p', all := Page(base, earlier + later), Extended(base, earlier, later, id, after),
      With(ids, Slot(ids, after), id);
    if NoEarlierSibling(p, |earlier|, after) {
      forall i | 0 <= i < |all| ensures FitsIn(p', all, i) {
        EverySectionFits(base, earlier, later, id, after, ids, i);
      }
      SameWithOneMore(base, ids, Slot(ids, after), id);
    }
    if Shows(p', all) {
      forall s | s in Kept(p) && Kept(p)[s] == after ensures Priority(p, s) >= |earlier| {
        SiblingIsLater(base, earlier, later, id, after, ids, s);
      }
    }
  }

  // ---------------------------------------------------------------------------
  // Documents
  // ---------------------------------------------------------------------------

  const HEADED := {TextBlock, Split, Features, Cta}
  const CTA_HEADING := "See Antifailure in action."
  const HEADING := "Your next change, tested."
  const BODY := "Rehearse your change on an isolated production twin before you deploy."
  const BUTTON_LABEL := "Request a demo"
  const BUTTON_HREF := "/request-demo"

  function FieldKey(id: Id, field: string): (key: string)
    ensures Below(key, id)
  {
    id.text + "." + field
  }

  /** The fields with what a new section of a kind starts out with, under its own keys. */
  function WithPresets(fields: map<string, Value>, kind: Kind, id: Id): map<string, Value> {
    if kind !in HEADED then fields
    else
      var told := fields[FieldKey(id, "heading") := Plain(if kind == Cta then CTA_HEADING else HEADING)]
                        [FieldKey(id, "body") := Prose(BODY)];
      if kind != Cta then told
      else told[FieldKey(id, "buttonLabel") := Plain(BUTTON_LABEL)][FieldKey(id, "buttonHref") := Plain(BUTTON_HREF)]
  }

  function Added(d: Document, kind: Kind, group: Group, after: Option<Id>, id: Id): Document {
    d.(fields := WithPresets(d.fields, kind, id), custom := d.custom + [CustomSection(id, kind, group, after)])
  }

  method AddSection(d: Document, kind: Kind, group: Group, after: Option<Id>, id: Id) returns (added: Document)
    ensures added == Added(d, kind, group, after, id)
  {
    var fields := d.fields;
    if kind in HEADED {
      fields := fields[FieldKey(id, "heading") := Plain(if kind == Cta then CTA_HEADING else HEADING)];
    }
    if kind in HEADED {
      fields := fields[FieldKey(id, "body") := Prose(BODY)];
    }
    if kind == Cta {
      fields := fields[FieldKey(id, "buttonLabel") := Plain(BUTTON_LABEL)];
      fields := fields[FieldKey(id, "buttonHref") := Plain(BUTTON_HREF)];
    }
    added := d.(fields := fields, custom := d.custom + [CustomSection(id, kind, group, after)]);
  }

  lemma OwnEntryIsLeftOut(entries: map<string, Value>, key: string, value: Value, id: Id)
    requires Owned(key, id)
    ensures WithoutOwned(entries[key := value], id) == WithoutOwned(entries, id)
  {
  }

  lemma PresetsAreLeftOut(fields: map<string, Value>, kind: Kind, id: Id)
    ensures WithoutOwned(WithPresets(fields, kind, id), id) == WithoutOwned(fields, id)
  {
    if kind in HEADED {
      var heading := fields[FieldKey(id, "heading") := Plain(if kind == Cta then CTA_HEADING else HEADING)];
      var told := heading[FieldKey(id, "body") := Prose(BODY)];
      var labelled := told[FieldKey(id, "buttonLabel") := Plain(BUTTON_LABEL)];
      OwnEntryIsLeftOut(fields, FieldKey(id, "heading"), Plain(if kind == Cta then CTA_HEADING else HEADING), id);
      OwnEntryIsLeftOut(heading, FieldKey(id, "body"), Prose(BODY), id);
      OwnEntryIsLeftOut(told, FieldKey(id, "buttonLabel"), Plain(BUTTON_LABEL), id);
      OwnEntryIsLeftOut(labelled, FieldKey(id, "buttonHref"), Plain(BUTTON_HREF), id);
    }
  }

  /** Removing an added section gives the document back exactly when its id was new to the document. */
  lemma AddThenRemove(d: Document, kind: Kind, group: Group, after: Option<Id>, id: Id)
    ensures Removed(Added(d, kind, group, after, id), id) == Removed(d, id)
    ensures Removed(Added(d, kind, group, after, id), id) == d <==> !Mentions(d, id)
  {
    RemovalLeavesNoTrace(d, id);
    PresetsAreLeftOut(d.fields, kind, id);
    CustomWithoutLast(d.custom, CustomSection(id, kind, group, after));
  }

  lemma {:induction false} OneMoreId(custom: seq<CustomSection>, c: CustomSection)
    ensures CustomIds(custom + [c], c.group) == CustomIds(custom, c.group) + [c.id]
  {
    if custom == [] {
      assert custom + [c] == [c];
    } else {
      var all := custom + [c];
      assert all[0] == custom[0] && all[1..] == custom[1..] + [c];
      OneMoreId(custom[1..], c);
    }
  }

  lemma {:induction false} OneMoreMove(custom: seq<CustomSection>, c: CustomSection)
    ensures CustomMoves(custom + [c], c.group) == CustomMoves(custom, c.group) + [Move(c.id, c.after)]
  {
    if custom == [] {
      assert custom + [c] == [c];
    } else {
      var all := custom + [c];
      assert all[0] == custom[0] && all[1..] == custom[1..] + [c];
      OneMoreMove(custom[1..], c);
    }
  }

  lemma LastOneKept(ids: seq<Id>, id: Id)
    requires id !in Deduplicated(ids)
    ensures Deduplicated(ids + [id]) == Deduplicated(ids) + [id]
  {
    assert (ids + [id])[..|ids|] == ids;
  }

  /** A custom section more on a page is that page extended. */
  lemma PageGrows(d: Document, d': Document, c: CustomSection, source: seq<SourceSection>)
    requires d'.custom == d.custom + [c] && d'.moves == d.moves
    requires c.id !in SectionPage(d, source, c.group).base
    ensures
      var p := SectionPage(d, source, c.group);
      var earlier, later := CustomMoves(d.custom, c.group), GroupMoves(d.moves, c.group);
      p == Page(p.base, earlier + later)
        && SectionPage(d', source, c.group) == Extended(p.base, earlier, later, c.id, c.after)
  {
    var ids := SourceIds(source, c.group) + CustomIds(d.custom, c.group);
    OneMoreId(d.custom, c);
    OneMoreMove(d.custom, c);
    assert SourceIds(source, c.group) + (CustomIds(d.custom, c.group) + [c.id]) == ids + [c.id];
    LastOneKept(ids, c.id);
  }

  /** Whether a page has no section and no move with this id. */
  predicate IsNew(p: Page, id: Id) {
    Unheard(p.base, p.moves, id)
  }

  /** No custom section of the group was put after `after` and left there. */
  ghost predicate FirstAfter(d: Document, source: seq<SourceSection>, group: Group, after: Option<Id>) {
    NoEarlierSibling(SectionPage(d, source, group), |CustomMoves(d.custom, group)|, after)
  }

  /** Adding a section with a new id shows it right after the chosen one, and moves nothing else,
      exactly when no custom section was put there before. */
  lemma {:induction false} AddedSectionIsShownNext(d: Document, source: seq<SourceSection>, kind: Kind,
                                group: Group, after: Option<Id>, id: Id, ids: seq<Id>)
    requires var p := SectionPage(d, source, group); Shows(p, ids) && IsNew(p, id)
    requires after.Some? ==> after.value in ids
    ensures
      Shows(SectionPage(Added(d, kind, group, after, id), source, group), With(ids, Slot(ids, after), id))
      <==> FirstAfter(d, source, group, after)
  {
    var p := SectionPage(d, source, group);
    PageGrows(d, Added(d, kind, group, after, id), CustomSection(id, kind, group, after), source);
    assert after.Some? ==> after.value in p.base;
    ShownAfterItsAnchor(p.base, CustomMoves(d.custom, group), GroupMoves(d.moves, group), id, after, ids);
  }

  /** The same for a duplicate, which goes after the section it copies. */
  lemma {:induction false} DuplicateIsShownNext(
      d: Document, source: seq<SourceSection>, id: Id, copyId: Id, ids: seq<Id>)
    requires FindCustom(d.custom, id).Some?
    requires var p := SectionPage(d, source, FindCustom(d.custom, id).value.group); Shows(p, ids) && IsNew(p, copyId)
    ensures
      var group := FindCustom(d.custom, id).value.group;
      && id in ids
      && (Shows(SectionPage(Duplicated(d, id, copyId), source, group), With(ids, Slot(ids, Some(id)), copyId))
          <==> FirstAfter(d, source, group, Some(id)))
  {
    var section := FindCustom(d.custom, id).value;
    var p := SectionPage(d, source, section.group);
    PageGrows(d, Duplicated(d, id, copyId), section.(id := copyId, after := Some(id)), source);
    CustomSectionIsShown(d, source, section);
    ShownAfterItsAnchor(p.base, CustomMoves(d.custom, section.group), GroupMoves(d.moves, section.group), copyId,
      Some(id), ids);
  }

  lemma CustomSectionIsShown(d: Document, source: seq<SourceSection>, section: CustomSection)
    requires section in d.custom
    ensures section.id in SectionPage(d, source, section.group).base
  {
    CustomIdIsListed(d.custom, section);
    NothingDropped(SourceIds(source, section.group) + CustomIds(d.custom, section.group), section.id);
  }

  lemma {:induction false} CustomIdIsListed(custom: seq<CustomSection>, section: CustomSection)
    requires section in custom
    ensures section.id in CustomIds(custom, section.group)
  {
    if custom[0] != section { CustomIdIsListed(custom[1..], section); }
  }

  lemma {:induction false} NothingDropped(ids: seq<Id>, id: Id)
    requires id in ids
    ensures id in Deduplicated(ids)
  {
    var n := |ids| - 1;
    assert ids == ids[..n] + [ids[n]];
    if ids[n] != id { NothingDropped(ids[..n], id); }
  }

  /** A second copy of the same section is not shown right after it: the first copy stands there. */
  lemma {:induction false} SecondCopyIsNotNext(
      d: Document, source: seq<SourceSection>, id: Id, first: Id, second: Id, ids: seq<Id>)
    requires FindCustom(d.custom, id).Some?
    requires IsNew(SectionPage(d, source, FindCustom(d.custom, id).value.group), first)
    requires var p1 := SectionPage(Duplicated(d, id, first), source, FindCustom(d.custom, id).value.group);
      Shows(p1, ids) && IsNew(p1, second)
    ensures
      var group := FindCustom(d.custom, id).value.group;
      && id in ids
      && !Shows(SectionPage(Duplicated(Duplicated(d, id, first), id, second), source, group),
           With(ids, Slot(ids, Some(id)), second))
  {
    var section, d1 := FindCustom(d.custom, id).value, Duplicated(d, id, first);
    var copy := section.(id := first, after := Some(id));
    var p, group := SectionPage(d, source, section.group), section.group;
    FoundAgain(d.custom, copy, id);
    DuplicateIsShownNext(d1, source, id, second, ids);
    PageGrows(d, d1, copy, source);
    OneMoreMove(d.custom, copy);
    CustomSectionIsShown(d, source, section);
    KeptGrows(p.base, CustomMoves(d.custom, group), GroupMoves(d.moves, group), first, Some(id));
    PrioritiesShift(p.base, CustomMoves(d.custom, group), GroupMoves(d.moves, group), first, Some(id), first);
  }

  lemma {:induction false} FoundAgain(custom: seq<CustomSection>, c: CustomSection, id: Id)
    requires FindCustom(custom, id).Some?
    ensures FindCustom(custom + [c], id) == FindCustom(custom, id)
  {
    assert (custom + [c])[1..] == custom[1..] + [c];
    if custom[0].id != id { FoundAgain(custom[1..], c, id); }
  }
}
