/** Duplicating and removing a custom section, with everything stored under its id. */
module CustomSections {
  import opened Options
  import opened SectionOrder
  import opened WebsiteClient

  // ---------------------------------------------------------------------------
  // Keys
  // ---------------------------------------------------------------------------

  /** Keys below a section: its id, a dot and a field name. */
  predicate Below(key: string, id: Id) {
    id.text + "." <= key
  }

  /** The section's own key, or one below it. */
  predicate Owned(key: string, id: Id) {
    key == id.text || Below(key, id)
  }

  /** The keys a duplicate copies: those below the section, and its own key when `own` says so. */
  predicate Copied(key: string, id: Id, own: bool) {
    Below(key, id) || (own && key == id.text)
  }

  function Renamed(key: string, id: Id, copyId: Id): string
    requires Owned(key, id)
  {
    copyId.text + key[|id.text|..]
  }

  lemma RenamedBack(key: string, id: Id, copyId: Id, own: bool)
    requires Owned(key, id)
    ensures Owned(Renamed(key, id, copyId), copyId)
    ensures Renamed(Renamed(key, id, copyId), copyId, id) == key
    ensures Copied(Renamed(key, id, copyId), copyId, own) == Copied(key, id, own)
  {
    var tail := key[|id.text|..];
    assert key == id.text + tail && (Below(key, id) <==> "." <= tail);
    var r := copyId.text + tail;
    assert r[|copyId.text|..] == tail && (Below(r, copyId) <==> "." <= tail);
  }

  /** Whether `key` is where the copy of one of the keys in `which` goes. */
  predicate IsCopy(key: string, which: set<string>, id: Id, copyId: Id, own: bool) {
    Copied(key, copyId, own) && Renamed(key, copyId, id) in which
  }

  function CopyKeys(which: set<string>, id: Id, copyId: Id, own: bool): (r: set<string>)
    ensures forall key :: key in r <==> IsCopy(key, which, id, copyId, own)
  {
    var r := set key | key in which && Copied(key, id, own) :: Renamed(key, id, copyId);
    assert forall key :: key in r <==> IsCopy(key, which, id, copyId, own) by {
      forall key ensures key in r <==> IsCopy(key, which, id, copyId, own) {
        if Owned(key, copyId) { RenamedBack(key, copyId, id, own); }
        if key in r {
          var was :| was in which && Copied(was, id, own) && Renamed(was, id, copyId) == key;
          RenamedBack(was, id, copyId, own);
        }
      }
    }
    r
  }

  /** The entries with copies of those in `which` that belong to the section. */
  function WithCopies(
      entries: map<string, Value>, which: set<string>, id: Id, copyId: Id, own: bool): map<string, Value>
    requires which <= entries.Keys
  {
    map key | key in entries.Keys + CopyKeys(which, id, copyId, own) ::
      if IsCopy(key, which, id, copyId, own) then entries[Renamed(key, copyId, id)] else entries[key]
  }

  function WithoutOwned(entries: map<string, Value>, id: Id): map<string, Value> {
    map key | key in entries && !Owned(key, id) :: entries[key]
  }

  method CopyEntries(entries: map<string, Value>, id: Id, copyId: Id, own: bool) returns (copied: map<string, Value>)
    ensures copied == WithCopies(entries, entries.Keys, id, copyId, own)
  {
    copied := entries;
    var left := entries.Keys;
    ghost var done := {};
    while left != {}
      invariant done + left == entries.Keys
      invariant copied == WithCopies(entries, done, id, copyId, own)
      decreases left
    {
      var key :| key in left;
      if Copied(key, id, own) {
        copied := copied[Renamed(key, id, copyId) := entries[key]];
      }
      OneMoreCopy(entries, done, key, id, copyId, own);
      left := left - {key};
      done := done + {key};
    }
    assert done == entries.Keys;
  }

  lemma OneMoreCopy(entries: map<string, Value>, which: set<string>, key: string, id: Id, copyId: Id, own: bool)
    requires which <= entries.Keys && key in entries
    ensures WithCopies(entries, which + {key}, id, copyId, own) ==
      var before := WithCopies(entries, which, id, copyId, own);
      if Copied(key, id, own) then before[Renamed(key, id, copyId) := entries[key]] else before
  {
    if Copied(key, id, own) { RenamedBack(key, id, copyId, own); }
    forall k ensures IsCopy(k, which + {key}, id, copyId, own)
      <==> IsCopy(k, which, id, copyId, own) || (Copied(key, id, own) && k == Renamed(key, id, copyId))
    {
      if Owned(k, copyId) { RenamedBack(k, copyId, id, own); }
    }
  }

  // ---------------------------------------------------------------------------
  // Documents
  // ---------------------------------------------------------------------------

  function FindCustom(custom: seq<CustomSection>, id: Id): (r: Option<CustomSection>)
    ensures r.Some? ==> r.value.id == id && r.value in custom
    ensures r.None? ==> forall s :: s in custom ==> s.id != id
  {
    if custom == [] then None
    else if custom[0].id == id then Some(custom[0])
    else FindCustom(custom[1..], id)
  }

  function Duplicated(d: Document, id: Id, copyId: Id): Document {
    match FindCustom(d.custom, id)
    case None => d
    case Some(source) =>
      d.(fields := WithCopies(d.fields, d.fields.Keys, id, copyId, false),
         styles := WithCopies(d.styles, d.styles.Keys, id, copyId, true),
         collections := WithCopies(d.collections, d.collections.Keys, id, copyId, true),
         custom := d.custom + [source.(id := copyId, after := Some(id))])
  }

  method DuplicateSection(d: Document, id: Id, copyId: Id) returns (copy: Document)
    ensures copy == Duplicated(d, id, copyId)
  {
    var source := FindCustom(d.custom, id);
    if source.None? {
      return d;
    }
    var fields := CopyEntries(d.fields, id, copyId, false);
    var styles := CopyEntries(d.styles, id, copyId, true);
    var collections := CopyEntries(d.collections, id, copyId, true);
    copy := d.(fields := fields, styles := styles, collections := collections,
               custom := d.custom + [source.value.(id := copyId, after := Some(id))]);
  }

  function WithoutCustom(custom: seq<CustomSection>, id: Id): seq<CustomSection> {
    if custom == [] then []
    else
      (if custom[0].id == id then []
       else [if custom[0].after == Some(id) then custom[0].(after := None) else custom[0]])
      + WithoutCustom(custom[1..], id)
  }

  function WithoutHidden(hidden: seq<Id>, id: Id): seq<Id> {
    if hidden == [] then [] else (if hidden[0] == id then [] else [hidden[0]]) + WithoutHidden(hidden[1..], id)
  }

  function WithoutMoves(moves: seq<SectionMove>, id: Id): seq<SectionMove> {
    if moves == [] then []
    else (if moves[0].id == id || moves[0].after == Some(id) then [] else [moves[0]]) + WithoutMoves(moves[1..], id)
  }

  function Removed(d: Document, id: Id): Document {
    Document(WithoutOwned(d.fields, id), WithoutOwned(d.styles, id), WithoutOwned(d.collections, id),
             WithoutHidden(d.hidden, id), WithoutMoves(d.moves, id), WithoutCustom(d.custom, id))
  }

  /** Whether anything in the document refers to the section. */
  predicate Mentions(d: Document, id: Id) {
    || (exists key :: key in d.fields && Owned(key, id))
    || (exists key :: key in d.styles && Owned(key, id))
    || (exists key :: key in d.collections && Owned(key, id))
    || id in d.hidden
    || (exists m :: m in d.moves && (m.id == id || m.after == Some(id)))
    || (exists s :: s in d.custom && (s.id == id || s.after == Some(id)))
  }

  lemma {:induction false} CustomWithout(custom: seq<CustomSection>, id: Id)
    ensures forall s :: s in WithoutCustom(custom, id) ==> s.id != id && s.after != Some(id)
    ensures (WithoutCustom(custom, id) == custom) <==> forall s :: s in custom ==> s.id != id && s.after != Some(id)
    ensures |WithoutCustom(custom, id)| <= |custom|
  {
    if custom != [] {
      CustomWithout(custom[1..], id);
      assert custom == [custom[0]] + custom[1..];
      if custom[0].id == id { assert |WithoutCustom(custom, id)| < |custom|; }
    }
  }

  lemma {:induction false} HiddenWithout(hidden: seq<Id>, id: Id)
    ensures id !in WithoutHidden(hidden, id)
    ensures WithoutHidden(hidden, id) == hidden <==> id !in hidden
    ensures |WithoutHidden(hidden, id)| <= |hidden|
  {
    if hidden != [] {
      HiddenWithout(hidden[1..], id);
      assert hidden == [hidden[0]] + hidden[1..];
    }
  }

  lemma {:induction false} MovesAreLeftOut(moves: seq<SectionMove>, id: Id)
    ensures forall m :: m in WithoutMoves(moves, id) ==> m.id != id && m.after != Some(id)
    ensures (WithoutMoves(moves, id) == moves) <==> forall m :: m in moves ==> m.id != id && m.after != Some(id)
    ensures |WithoutMoves(moves, id)| <= |moves|
  {
    if moves != [] {
      MovesAreLeftOut(moves[1..], id);
      assert moves == [moves[0]] + moves[1..];
    }
  }

  lemma EntriesWithout(entries: map<string, Value>, id: Id)
    ensures forall key :: key in WithoutOwned(entries, id) ==> !Owned(key, id)
    ensures (WithoutOwned(entries, id) == entries) <==> forall key :: key in entries ==> !Owned(key, id)
  {
  }

  /** After a removal nothing in the document refers to the section, and a removal changes nothing
      exactly when nothing did. */
  lemma RemovalLeavesNoTrace(d: Document, id: Id)
    ensures !Mentions(Removed(d, id), id)
    ensures Removed(d, id) == d <==> !Mentions(d, id)
  {
    EntriesWithout(d.fields, id);
    EntriesWithout(d.styles, id);
    EntriesWithout(d.collections, id);
    HiddenWithout(d.hidden, id);
    MovesAreLeftOut(d.moves, id);
    CustomWithout(d.custom, id);
  }

  lemma {:induction false} CustomWithoutLast(custom: seq<CustomSection>, last: CustomSection)
    ensures WithoutCustom(custom + [last], last.id) == WithoutCustom(custom, last.id)
  {
    if custom == [] {
      assert custom + [last] == [last];
    } else {
      assert (custom + [last])[1..] == custom[1..] + [last];
      CustomWithoutLast(custom[1..], last);
    }
  }

  lemma CopiesWithout(entries: map<string, Value>, id: Id, copyId: Id, own: bool)
    ensures WithoutOwned(WithCopies(entries, entries.Keys, id, copyId, own), copyId) == WithoutOwned(entries, copyId)
  {
  }

  /** Removing a duplicate gives the document back exactly when its id was new to the document. */
  lemma DuplicateThenRemove(d: Document, id: Id, copyId: Id)
    ensures Removed(Duplicated(d, id, copyId), copyId) == Removed(d, copyId)
    ensures Removed(Duplicated(d, id, copyId), copyId) == d <==> !Mentions(d, copyId)
  {
    RemovalLeavesNoTrace(d, copyId);
    if FindCustom(d.custom, id).Some? {
      CopiesWithout(d.fields, id, copyId, false);
      CopiesWithout(d.styles, id, copyId, true);
      CopiesWithout(d.collections, id, copyId, true);
      CustomWithoutLast(d.custom, FindCustom(d.custom, id).value.(id := copyId, after := Some(id)));
    }
  }
}
