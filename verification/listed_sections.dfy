/** Which sections a page lists, and what of a document and of the source it depends on. */
module ListedSections {
  import opened Options
  import opened SectionOrder
  import opened SectionResolver
  import opened WebsiteClient
  import opened SectionMoves

  // ---------------------------------------------------------------------------
  // What other groups have is no part of a page
  // ---------------------------------------------------------------------------

  lemma {:induction false} SourceIdsOfBoth(a: seq<SourceSection>, b: seq<SourceSection>, group: Group)
    ensures SourceIds(a + b, group) == SourceIds(a, group) + SourceIds(b, group)
  {
    if a == [] {
      assert a + b == b;
    } else {
      assert (a + b)[1..] == a[1..] + b;
      SourceIdsOfBoth(a[1..], b, group);
    }
  }

  lemma {:induction false} CustomIdsOfBoth(a: seq<CustomSection>, b: seq<CustomSection>, group: Group)
    ensures CustomIds(a + b, group) == CustomIds(a, group) + CustomIds(b, group)
  {
    if a == [] {
      assert a + b == b;
    } else {
      assert (a + b)[1..] == a[1..] + b;
      CustomIdsOfBoth(a[1..], b, group);
      var first := if a[0].group == group then [a[0].id] else [];
      var rest, after := CustomIds(a[1..], group), CustomIds(b, group);
      assert first + (rest + after) == (first + rest) + after;
    }
  }

  lemma {:induction false} CustomMovesOfBoth(a: seq<CustomSection>, b: seq<CustomSection>, group: Group)
    ensures CustomMoves(a + b, group) == CustomMoves(a, group) + CustomMoves(b, group)
  {
    if a == [] {
      assert a + b == b;
    } else {
      assert (a + b)[1..] == a[1..] + b;
      CustomMovesOfBoth(a[1..], b, group);
      var first := if a[0].group == group then [Move(a[0].id, a[0].after)] else [];
      var rest, after := CustomMoves(a[1..], group), CustomMoves(b, group);
      assert first + (rest + after) == (first + rest) + after;
    }
  }

  lemma NothingBetween<T>(a: seq<T>, nothing: seq<T>, b: seq<T>)
    requires nothing == []
    ensures (a + nothing) + b == a + b
  {
  }

  /** A source section of another group, or one named like an added one, is no part of the page. */
  lemma OtherSourceSectionIsIgnored(
      d: Document, before: seq<SourceSection>, s: SourceSection, after: seq<SourceSection>, group: Group)
    requires s.group != group || "custom-" <= s.id.text
    ensures SectionPage(d, before + [s] + after, group) == SectionPage(d, before + after, group)
  {
    SourceIdsOfBoth(before + [s], after, group);
    SourceIdsOfBoth(before, [s], group);
    SourceIdsOfBoth(before, after, group);
    assert SourceIds([s], group) == [];
    NothingBetween(SourceIds(before, group), SourceIds([s], group), SourceIds(after, group));
  }

  /** Neither is a section that the document added to another group. */
  lemma OtherCustomSectionIsIgnored(
      d: Document, before: seq<CustomSection>, c: CustomSection, after: seq<CustomSection>,
      source: seq<SourceSection>, group: Group)
    requires c.group != group
    ensures SectionPage(d.(custom := before + [c] + after), source, group)
      == SectionPage(d.(custom := before + after), source, group)
  {
    CustomIdsOfBoth(before + [c], after, group);
    CustomIdsOfBoth(before, [c], group);
    CustomIdsOfBoth(before, after, group);
    CustomMovesOfBoth(before + [c], after, group);
    CustomMovesOfBoth(before, [c], group);
    CustomMovesOfBoth(before, after, group);
    assert CustomIds([c], group) == [] && CustomMoves([c], group) == [];
    NothingBetween(CustomIds(before, group), CustomIds([c], group), CustomIds(after, group));
    NothingBetween(CustomMoves(before, group), CustomMoves([c], group), CustomMoves(after, group));
  }

  /** Neither is a move made on another group's page; one without a group counts on every page. */
  lemma OtherMoveIsIgnored(
      d: Document, before: seq<SectionMove>, m: SectionMove, after: seq<SectionMove>,
      source: seq<SourceSection>, group: Group)
    requires m.group.Some? && m.group.value != group
    ensures SectionPage(d.(moves := before + [m] + after), source, group)
      == SectionPage(d.(moves := before + after), source, group)
  {
    GroupMovesOfBoth(before + [m], after, group);
    GroupMovesOfBoth(before, [m], group);
    GroupMovesOfBoth(before, after, group);
    assert GroupMoves([m], group) == [];
    NothingBetween(GroupMoves(before, group), GroupMoves([m], group), GroupMoves(after, group));
  }

  /** The last move made on a page, with or without its group, counts last there, and an added
      section counts as moved to its place before any move. */
  lemma OwnMoveCounts(d: Document, m: SectionMove, c: CustomSection, source: seq<SourceSection>, group: Group)
    requires m.group == None || m.group == Some(group)
    requires c.group == group
    ensures SectionPage(d.(moves := d.moves + [m]), source, group).moves
      == SectionPage(d, source, group).moves + [Move(m.id, m.after)]
    ensures SectionPage(d.(moves := [], custom := d.custom + [c]), source, group).moves
      == SectionPage(d.(moves := []), source, group).moves + [Move(c.id, c.after)]
  {
    GroupMovesOfBoth(d.moves, [m], group);
    CustomMovesOfBoth(d.custom, [c], group);
    assert GroupMoves([m], group) == [Move(m.id, m.after)];
    assert CustomMoves([c], group) == [Move(c.id, c.after)];
    var own := CustomMoves(d.custom, group);
    assert own + (GroupMoves(d.moves, group) + [Move(m.id, m.after)])
        == (own + GroupMoves(d.moves, group)) + [Move(m.id, m.after)];
    assert GroupMoves([], group) == [];
  }

  // ---------------------------------------------------------------------------
  // The order of the sections that were never moved
  // ---------------------------------------------------------------------------

  lemma FoundAt(ids: seq<Id>, x: Id, k: nat)
    requires k < |ids| && ids[k] == x && x !in ids[..k]
    ensures IndexOf(ids, x) == k
  {
    assert forall j :: 0 <= j < k ==> ids[..k][j] == ids[j];
  }

  lemma FirstInSource(sections: seq<SourceSection>, group: Group, i: nat)
    requires i < |sections| && IsSource(sections[i], group, sections[i].id)
    requires forall j :: 0 <= j < i ==> !IsSource(sections[j], group, sections[i].id)
    ensures IndexOf(SourceIds(sections, group), sections[i].id) == |SourceIds(sections[..i], group)|
    ensures sections[i].id in SourceIds(sections, group)
  {
    var before, s, after := sections[..i], sections[i], sections[i + 1..];
    assert sections == before + ([s] + after);
    SourceIdsOfBoth(before, [s] + after, group);
    SourceIdsOfBoth([s], after, group);
    assert SourceIds([s], group) == [s.id];
    SourceIdsHas(before, group, s.id);
    FoundAt(SourceIds(sections, group), s.id, |SourceIds(before, group)|);
  }

  lemma EarlierKeepsIndex(ids: seq<Id>, x: Id)
    requires ids != [] && x in ids[..|ids| - 1]
    ensures IndexOf(ids, x) == IndexOf(ids[..|ids| - 1], x)
    ensures IndexOf(Deduplicated(ids), x) == IndexOf(Deduplicated(ids[..|ids| - 1]), x)
  {
    var before, last := ids[..|ids| - 1], ids[|ids| - 1];
    assert before + [last] == ids;
    IndexInFront(before, last, x);
    IndexInFront(Deduplicated(before), last, x);
  }

  lemma NewcomerIsLast(ids: seq<Id>)
    requires ids != [] && ids[|ids| - 1] !in ids[..|ids| - 1]
    ensures IndexOf(Deduplicated(ids), ids[|ids| - 1]) == |Deduplicated(ids[..|ids| - 1])|
  {
    IndexInFront(Deduplicated(ids[..|ids| - 1]), ids[|ids| - 1], ids[|ids| - 1]);
  }

  lemma LaterIsNotFirst(ids: seq<Id>, x: Id, y: Id)
    requires ids != [] && x in ids && y in ids && IndexOf(ids, x) < IndexOf(ids, y)
    ensures x in ids[..|ids| - 1] && (y in ids[..|ids| - 1] || y == ids[|ids| - 1])
  {
    var n := |ids| - 1;
    assert ids[..n][IndexOf(ids, x)] == x;
    if IndexOf(ids, y) < n { assert ids[..n][IndexOf(ids, y)] == y; }
  }

  lemma {:induction false} FirstStaysFirst(ids: seq<Id>, x: Id, y: Id)
    requires x in ids && y in ids && IndexOf(ids, x) < IndexOf(ids, y)
    ensures IndexOf(Deduplicated(ids), x) < IndexOf(Deduplicated(ids), y)
  {
    var before := ids[..|ids| - 1];
    LaterIsNotFirst(ids, x, y);
    EarlierKeepsIndex(ids, x);
    if y in before {
      EarlierKeepsIndex(ids, y);
      FirstStaysFirst(before, x, y);
    } else {
      NewcomerIsLast(ids);
      assert SameIds(before, Deduplicated(before));
    }
  }

  lemma {:induction false} IndexInFront(ids: seq<Id>, last: Id, x: Id)
    ensures IndexOf(ids + [last], x) == if x in ids then IndexOf(ids, x) else if x == last then |ids| else |ids| + 1
  {
    if ids == [] {
      assert ids + [last] == [last];
    } else {
      assert (ids + [last])[1..] == ids[1..] + [last];
      IndexInFront(ids[1..], last, x);
      assert ids == [ids[0]] + ids[1..];
    }
  }

  lemma {:induction false} IndexInFrontOf(ids: seq<Id>, more: seq<Id>, x: Id)
    ensures x in ids ==> IndexOf(ids + more, x) == IndexOf(ids, x)
    ensures x !in ids ==> IndexOf(ids + more, x) >= |ids|
  {
    if ids == [] {
      assert ids + more == more;
    } else {
      assert (ids + more)[1..] == ids[1..] + more;
      IndexInFrontOf(ids[1..], more, x);
      assert ids == [ids[0]] + ids[1..];
    }
  }

  /** Sections of the source that no move places are listed in the order the source has them, and
      before every added section that no move places. */
  lemma UnmovedKeepSourceOrder(
      d: Document, source: seq<SourceSection>, group: Group, ids: seq<Id>, i: nat, y: Id)
    requires Shows(SectionPage(d, source, group), ids)
    requires i < |source| && IsSource(source[i], group, source[i].id)
    requires forall j :: 0 <= j <= i ==> !IsSource(source[j], group, y)
    requires forall j :: 0 <= j < i ==> !IsSource(source[j], group, source[i].id)
    requires source[i].id !in Kept(SectionPage(d, source, group))
    requires y in ids && y !in Kept(SectionPage(d, source, group))
    ensures source[i].id in ids && IndexOf(ids, source[i].id) < IndexOf(ids, y)
  {
    ComesLaterInBase(d, source, group, i, y);
    UnmovedInBaseOrder(SectionPage(d, source, group), ids, source[i].id, y);
  }

  lemma ShownUnmovedPair(p: Page, ids: seq<Id>, k: nat, l: nat)
    requires Shows(p, ids) && k < l < |ids| && ids[k] !in Kept(p) && ids[l] !in Kept(p)
    ensures IndexOf(p.base, ids[k]) < IndexOf(p.base, ids[l])
  {
    assert FitsIn(p, ids, l) && ids[..l][k] == ids[k];
  }

  lemma UnmovedInBaseOrder(p: Page, ids: seq<Id>, x: Id, y: Id)
    requires Shows(p, ids) && x in p.base && y in p.base && x !in Kept(p) && y !in Kept(p)
    requires IndexOf(p.base, x) < IndexOf(p.base, y)
    ensures x in ids && y in ids && IndexOf(ids, x) < IndexOf(ids, y)
  {
    if IndexOf(ids, y) < IndexOf(ids, x) { ShownUnmovedPair(p, ids, IndexOf(ids, y), IndexOf(ids, x)); }
  }

  lemma ComesLaterInBase(d: Document, source: seq<SourceSection>, group: Group, i: nat, y: Id)
    requires i < |source| && IsSource(source[i], group, source[i].id)
    requires forall j :: 0 <= j <= i ==> !IsSource(source[j], group, y)
    requires forall j :: 0 <= j < i ==> !IsSource(source[j], group, source[i].id)
    requires y in SectionPage(d, source, group).base
    ensures var p := SectionPage(d, source, group);
      source[i].id in p.base && source[i].id != y && IndexOf(p.base, source[i].id) < IndexOf(p.base, y)
  {
    var x, sources, customs := source[i].id, SourceIds(source, group), CustomIds(d.custom, group);
    FirstInSource(source, group, i);
    assert x in sources + customs;
    IndexInFrontOf(sources, customs, x);
    IndexInFrontOf(sources, customs, y);
    assert SameIds(sources + customs, Deduplicated(sources + customs));
    if y in sources { LaterInSource(source, group, i, y); }
    FirstStaysFirst(sources + customs, x, y);
  }

  lemma LaterInSource(source: seq<SourceSection>, group: Group, i: nat, y: Id)
    requires i < |source| && IsSource(source[i], group, source[i].id)
    requires forall j :: 0 <= j <= i ==> !IsSource(source[j], group, y)
    requires y in SourceIds(source, group)
    ensures IndexOf(SourceIds(source, group), y) > |SourceIds(source[..i], group)|
  {
    var before, after := source[..i + 1], source[i + 1..];
    assert source == before + after && before == source[..i] + [source[i]];
    SourceIdsOfBoth(before, after, group);
    SourceIdsOfBoth(source[..i], [source[i]], group);
    SourceIdsHas(before, group, y);
    IndexInFrontOf(SourceIds(before, group), SourceIds(after, group), y);
  }
}
