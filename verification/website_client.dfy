/** The editor's operations on a page's sections: listing, moving, adding, duplicating, removing. */
module WebsiteClient {
  import opened Options
  import opened SectionOrder
  import opened SectionResolver

  type Group(==, !new, 0)
  type StoredValue(==, !new, 0)

  datatype Kind = TextBlock | Image | Video | Split | Features | Cta | Shape | Divider | Embed | Spacer

  /** A field's value: text, rich text of one paragraph, or anything else a document may hold. */
  datatype Value = Plain(text: string) | Prose(paragraph: string) | Stored(value: StoredValue)

  datatype SectionMove = SectionMove(id: Id, after: Option<Id>, group: Option<Group>)

  datatype CustomSection = CustomSection(id: Id, kind: Kind, group: Group, after: Option<Id>)

  datatype Document = Document(
    fields: map<string, Value>,
    styles: map<string, Value>,
    collections: map<string, Value>,
    hidden: seq<Id>,
    moves: seq<SectionMove>,
    custom: seq<CustomSection>)

  /** A section that the source ships with. */
  datatype SourceSection = SourceSection(id: Id, group: Group)

  // ---------------------------------------------------------------------------
  // The page a document describes
  // ---------------------------------------------------------------------------

  function SourceIds(sections: seq<SourceSection>, group: Group): seq<Id> {
    if sections == [] then []
    else
      (if sections[0].group == group && !("custom-" <= sections[0].id.text) then [sections[0].id] else [])
      + SourceIds(sections[1..], group)
  }

  function CustomIds(custom: seq<CustomSection>, group: Group): seq<Id> {
    if custom == [] then []
    else (if custom[0].group == group then [custom[0].id] else []) + CustomIds(custom[1..], group)
  }

  function CustomMoves(custom: seq<CustomSection>, group: Group): seq<Move> {
    if custom == [] then []
    else
      (if custom[0].group == group then [Move(custom[0].id, custom[0].after)] else [])
      + CustomMoves(custom[1..], group)
  }

  function GroupMoves(moves: seq<SectionMove>, group: Group): seq<Move> {
    if moves == [] then []
    else
      (if moves[0].group in {None, Some(group)} then [Move(moves[0].id, moves[0].after)] else [])
      + GroupMoves(moves[1..], group)
  }

  function SectionPage(d: Document, source: seq<SourceSection>, group: Group): Page {
    PageOf(SourceIds(source, group), CustomMoves(d.custom, group) + GroupMoves(d.moves, group),
      CustomIds(d.custom, group))
  }

  /** A section the source puts in a group, and not one that a document added. */
  predicate IsSource(s: SourceSection, group: Group, id: Id) {
    s.id == id && s.group == group && !("custom-" <= id.text)
  }

  /** A section is on a group's page when the source ships it there or the document added it there. */
  predicate IsListed(d: Document, source: seq<SourceSection>, group: Group, id: Id) {
    (exists s :: s in source && IsSource(s, group, id)) || (exists c :: c in d.custom && c.id == id && c.group == group)
  }

  lemma {:induction false} SourceIdsHas(sections: seq<SourceSection>, group: Group, id: Id)
    ensures id in SourceIds(sections, group) <==> exists s :: s in sections && IsSource(s, group, id)
  {
    if sections != [] {
      SourceIdsHas(sections[1..], group, id);
      assert sections[0] in sections;
      if s :| s in sections && IsSource(s, group, id) && s != sections[0] { assert s in sections[1..]; }
    }
  }

  lemma {:induction false} CustomIdsHas(custom: seq<CustomSection>, group: Group, id: Id)
    ensures id in CustomIds(custom, group) <==> exists c :: c in custom && c.id == id && c.group == group
  {
    if custom != [] {
      CustomIdsHas(custom[1..], group, id);
      assert custom[0] in custom;
      if c :| c in custom && c.id == id && c.group == group && c != custom[0] { assert c in custom[1..]; }
    }
  }

  lemma PageHas(d: Document, source: seq<SourceSection>, group: Group, id: Id)
    ensures id in SectionPage(d, source, group).base <==> IsListed(d, source, group, id)
  {
    SourceIdsHas(source, group, id);
    CustomIdsHas(d.custom, group, id);
    var ids := SourceIds(source, group) + CustomIds(d.custom, group);
    assert SameIds(ids, Deduplicated(ids));
  }

  /** The page's list: the one shown of its sections, each once, and of no others. */
  method PageSections(d: Document, source: seq<SourceSection>, group: Group) returns (ids: seq<Id>)
    ensures Shows(SectionPage(d, source, group), ids)
    ensures Distinct(ids) && forall id :: id in ids <==> IsListed(d, source, group, id)
  {
    ids := ResolveOrder(SourceIds(source, group), CustomMoves(d.custom, group) + GroupMoves(d.moves, group),
                        CustomIds(d.custom, group), []);
    FittingListIsDistinct(SectionPage(d, source, group), ids);
    forall id ensures id in ids <==> IsListed(d, source, group, id) { PageHas(d, source, group, id); }
  }

  // ---------------------------------------------------------------------------
  // Moving a section
  // ---------------------------------------------------------------------------

  predicate MovesSomething(ids: seq<Id>, id: Id, to: int) {
    id in ids && 0 <= to < |ids| && IndexOf(ids, id) != to
  }

  /** When a list has its element at `from` moved to `to`: where its new element at `k` was. */
  function Before(from: nat, to: nat, k: nat): nat {
    if k == to then from
    else if from <= k < to then k + 1
    else if to < k <= from then k - 1
    else k
  }

  /** The list with `id` moved to index `to`. */
  function Reordered(ids: seq<Id>, id: Id, to: int): (r: seq<Id>)
    ensures |r| == |ids|
  {
    if !MovesSomething(ids, id, to) then ids
    else
      var from := IndexOf(ids, id);
      seq(|ids|, k requires 0 <= k < |ids| => ids[Before(from, to, k)])
  }

  function Predecessor(ids: seq<Id>, i: int): Option<Id>
    requires 0 <= i <= |ids|
  {
    if i == 0 then None else Some(ids[i - 1])
  }

  /** The moved section, the one it leaves behind, and the one it comes to stand before. */
  function Disturbed(ids: seq<Id>, moved: seq<Id>, from: nat, to: nat, id: Id): (r: seq<Id>)
    requires |moved| == |ids|
    ensures id in r
    ensures from + 1 < |ids| ==> ids[from + 1] in r
    ensures to + 1 < |ids| ==> moved[to + 1] in r
    ensures forall x :: x in r ==> x == id || x in ids || x in moved
  {
    var left := if from + 1 < |ids| then [id, ids[from + 1]] else [id];
    if to + 1 < |ids| then left + [moved[to + 1]] else left
  }

  /** The sections whose predecessor the move changes. */
  function Affected(ids: seq<Id>, id: Id, to: int): seq<Id>
    requires MovesSomething(ids, id, to)
  {
    Deduplicated(Disturbed(ids, Reordered(ids, id, to), IndexOf(ids, id), to, id))
  }

  function WithoutMovesOf(moves: seq<SectionMove>, ids: seq<Id>): seq<SectionMove> {
    if moves == [] then []
    else (if moves[0].id in ids then [] else [moves[0]]) + WithoutMovesOf(moves[1..], ids)
  }

  /** One move for each of `which`, to where it stands in `ids`. */
  function Placements(which: seq<Id>, ids: seq<Id>, group: Group): seq<SectionMove> {
    if which == [] then []
    else
      Placements(which[..|which| - 1], ids, group)
      + (if which[|which| - 1] in ids
         then [SectionMove(which[|which| - 1], Predecessor(ids, IndexOf(ids, which[|which| - 1])), Some(group))]
         else [])
  }

  function Moved(d: Document, group: Group, ids: seq<Id>, id: Id, to: int): Document {
    if !MovesSomething(ids, id, to) then d
    else
      var which := Affected(ids, id, to);
      d.(moves := WithoutMovesOf(d.moves, which) + Placements(which, Reordered(ids, id, to), group))
  }

  method MoveSection(d: Document, group: Group, currentIds: seq<Id>, id: Id, to: int) returns (moved: Document)
    ensures moved == Moved(d, group, currentIds, id, to)
  {
    var from := IndexOf(currentIds, id);
    if from == |currentIds| || to < 0 || to >= |currentIds| || from == to {
      return d;
    }
    var ids := Splice(currentIds, from, to);
    assert ids == Reordered(currentIds, id, to);
    var affected := Unique(Disturbed(currentIds, ids, from, to, id));
    var kept := Filtered(d.moves, affected);
    var placed := Place(affected, ids, group);
    moved := d.(moves := kept + placed);
  }

  method Splice(currentIds: seq<Id>, from: nat, to: nat) returns (ids: seq<Id>)
    requires from < |currentIds| && to < |currentIds|
    ensures |ids| == |currentIds|
    ensures forall k :: 0 <= k < |ids| ==> ids[k] == currentIds[Before(from, to, k)]
  {
    ids := currentIds[..from] + currentIds[from + 1..];
    ids := ids[..to] + [currentIds[from]] + ids[to..];
  }

  method Place(which: seq<Id>, ids: seq<Id>, group: Group) returns (placed: seq<SectionMove>)
    ensures placed == Placements(which, ids, group)
  {
    placed := [];
    for i := 0 to |which|
      invariant placed == Placements(which[..i], ids, group)
    {
      assert which[..i + 1][..i] == which[..i];
      var index := IndexOf(ids, which[i]);
      if index < |ids| {
        placed := placed + [SectionMove(which[i], if index > 0 then Some(ids[index - 1]) else None, Some(group))];
      }
    }
    assert which[..|which|] == which;
  }

  method Filtered(moves: seq<SectionMove>, ids: seq<Id>) returns (kept: seq<SectionMove>)
    ensures kept == WithoutMovesOf(moves, ids)
  {
    kept := [];
    for i := 0 to |moves|
      invariant kept + WithoutMovesOf(moves[i..], ids) == WithoutMovesOf(moves, ids)
    {
      if moves[i].id !in ids {
        kept := kept + [moves[i]];
      }
    }
  }
}
