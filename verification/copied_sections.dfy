/** What adding, duplicating and removing a section do to what is stored, key by key. */
module CopiedSections {
  import opened Options
  import opened SectionOrder
  import opened WebsiteClient
  import opened CustomSections
  import opened AddedSections

  lemma OwnerEndsAtTheDot(key: string, id: Id)
    requires '.' !in id.text && Owned(key, id)
    ensures |id.text| <= |key| && key[..|id.text|] == id.text
    ensures |id.text| < |key| ==> key[|id.text|] == '.'
    ensures forall i :: 0 <= i < |id.text| ==> key[i] != '.'
  {
    assert forall i :: 0 <= i < |id.text| ==> key[i] == id.text[i];
  }

  /** No key is stored under two sections, however their ids begin. */
  lemma KeysBelongToOneSection(key: string, a: Id, b: Id)
    requires '.' !in a.text && '.' !in b.text && Owned(key, a) && Owned(key, b)
    ensures a == b
  {
    OwnerEndsAtTheDot(key, a);
    OwnerEndsAtTheDot(key, b);
  }

  /** What a field of a section, or the section itself, has stored is stored for the copy too. */
  ghost predicate CopiesFields(was: map<string, Value>, now: map<string, Value>, id: Id, copyId: Id) {
    forall name: string :: CopiesField(was, now, id.text + "." + name, copyId.text + "." + name)
  }

  predicate CopiesField(was: map<string, Value>, now: map<string, Value>, key: string, copy: string) {
    key in was ==> copy in now && now[copy] == was[key]
  }

  /** Nothing is stored elsewhere than before, unless under `id` or its fields. */
  ghost predicate SameElsewhere(was: map<string, Value>, now: map<string, Value>, id: Id) {
    forall key :: key != id.text && !(id.text + "." <= key) ==> SameAt(was, now, key)
  }

  predicate SameAt(was: map<string, Value>, now: map<string, Value>, key: string) {
    (key in now <==> key in was) && (key in was ==> now[key] == was[key])
  }

  /** Where the section has nothing, the copy keeps what was there. */
  ghost predicate KeepsUncopied(was: map<string, Value>, now: map<string, Value>, id: Id, copyId: Id) {
    forall name: string :: id.text + "." + name !in was ==> SameAt(was, now, copyId.text + "." + name)
  }

  lemma CopyAt(entries: map<string, Value>, id: Id, copyId: Id, own: bool, tail: string)
    requires Copied(id.text + tail, id, own)
    ensures
      var now := WithCopies(entries, entries.Keys, id, copyId, own);
      if id.text + tail in entries
      then copyId.text + tail in now && now[copyId.text + tail] == entries[id.text + tail]
      else SameAt(entries, now, copyId.text + tail)
  {
    var key, copy := id.text + tail, copyId.text + tail;
    assert key[|id.text|..] == tail && Renamed(key, id, copyId) == copy;
    RenamedBack(key, id, copyId, own);
  }

  lemma WithCopiesCopies(entries: map<string, Value>, id: Id, copyId: Id, own: bool)
    ensures
      var now := WithCopies(entries, entries.Keys, id, copyId, own);
      && CopiesFields(entries, now, id, copyId) && SameElsewhere(entries, now, copyId)
      && KeepsUncopied(entries, now, id, copyId)
      && (if own then CopiesField(entries, now, id.text, copyId.text) else SameAt(entries, now, copyId.text))
  {
    var now := WithCopies(entries, entries.Keys, id, copyId, own);
    forall name: string
      ensures CopiesField(entries, now, id.text + "." + name, copyId.text + "." + name)
      ensures id.text + "." + name !in entries ==> SameAt(entries, now, copyId.text + "." + name)
    {
      assert id.text + ("." + name) == id.text + "." + name && copyId.text + ("." + name) == copyId.text + "." + name;
      CopyAt(entries, id, copyId, own, "." + name);
    }
    assert id.text + "" == id.text && copyId.text + "" == copyId.text;
    if own { CopyAt(entries, id, copyId, own, ""); }
    assert !(copyId.text + "." <= copyId.text);
  }

  /** A duplicate has the text, styles and collections of its source under its own id, with the same
      kind and group; it stands after its source, and nothing else in the document changes. */
  lemma DuplicateHasWhatItsSourceHas(d: Document, id: Id, copyId: Id)
    requires FindCustom(d.custom, id).Some?
    ensures
      var copy, source := Duplicated(d, id, copyId), FindCustom(d.custom, id).value;
      && CopiesFields(d.fields, copy.fields, id, copyId)
      && CopiesFields(d.styles, copy.styles, id, copyId) && CopiesField(d.styles, copy.styles, id.text, copyId.text)
      && CopiesFields(d.collections, copy.collections, id, copyId)
      && CopiesField(d.collections, copy.collections, id.text, copyId.text)
      && source.id == id && source in d.custom
      && copy.custom == d.custom + [CustomSection(copyId, source.kind, source.group, Some(id))]
      && copy.hidden == d.hidden && copy.moves == d.moves
  {
    WithCopiesCopies(d.fields, id, copyId, false);
    WithCopiesCopies(d.styles, id, copyId, true);
    WithCopiesCopies(d.collections, id, copyId, true);
  }

  /** A duplication leaves all that is not the copy's as it was, and is none without a source. */
  lemma DuplicateKeepsTheRest(d: Document, id: Id, copyId: Id)
    ensures
      var copy := Duplicated(d, id, copyId);
      && SameElsewhere(d.fields, copy.fields, copyId) && SameAt(d.fields, copy.fields, copyId.text)
      && SameElsewhere(d.styles, copy.styles, copyId) && SameElsewhere(d.collections, copy.collections, copyId)
      && KeepsUncopied(d.fields, copy.fields, id, copyId) && KeepsUncopied(d.styles, copy.styles, id, copyId)
      && KeepsUncopied(d.collections, copy.collections, id, copyId)
      && ((forall s :: s in d.custom ==> s.id != id) ==> copy == d)
  {
    if FindCustom(d.custom, id).Some? {
      WithCopiesCopies(d.fields, id, copyId, false);
      WithCopiesCopies(d.styles, id, copyId, true);
      WithCopiesCopies(d.collections, id, copyId, true);
    }
  }

  /** All that was stored under the section, and nothing else. */
  ghost predicate OnlyWithout(was: map<string, Value>, now: map<string, Value>, id: Id) {
    SameElsewhere(was, now, id) && forall key :: key in now ==> key != id.text && !(id.text + "." <= key)
  }

  lemma {:induction false} CustomLeft(custom: seq<CustomSection>, id: Id, c: CustomSection)
    ensures c in WithoutCustom(custom, id) <==>
      exists s :: s in custom && s.id != id && c == if s.after == Some(id) then s.(after := None) else s
  {
    if custom != [] {
      CustomLeft(custom[1..], id, c);
      assert custom[0] in custom;
      if s :|
        s in custom && s.id != id && c == (if s.after == Some(id) then s.(after := None) else s) && s != custom[0]
      {
        assert s in custom[1..];
      }
    }
  }

  lemma {:induction false} HiddenLeft(hidden: seq<Id>, id: Id, x: Id)
    ensures x in WithoutHidden(hidden, id) <==> x in hidden && x != id
  {
    if hidden != [] {
      HiddenLeft(hidden[1..], id, x);
      assert hidden == [hidden[0]] + hidden[1..];
    }
  }

  lemma {:induction false} MovesLeft(moves: seq<SectionMove>, id: Id, m: SectionMove)
    ensures m in WithoutMoves(moves, id) <==> m in moves && m.id != id && m.after != Some(id)
  {
    if moves != [] {
      MovesLeft(moves[1..], id, m);
      assert moves == [moves[0]] + moves[1..];
    }
  }

  /** A removal takes out what is stored under the section, the section, and the moves of it and to
      after it; what was put after it goes first; and nothing else changes. */
  lemma RemovalTakesOutOnly(d: Document, id: Id)
    ensures
      var left := Removed(d, id);
      && OnlyWithout(d.fields, left.fields, id) && OnlyWithout(d.styles, left.styles, id)
      && OnlyWithout(d.collections, left.collections, id)
      && (forall x :: x in left.hidden <==> x in d.hidden && x != id)
      && (forall m :: m in left.moves <==> m in d.moves && m.id != id && m.after != Some(id))
      && (forall c :: c in left.custom <==>
           exists s :: s in d.custom && s.id != id && c == if s.after == Some(id) then s.(after := None) else s)
  {
    forall x { HiddenLeft(d.hidden, id, x); }
    forall m { MovesLeft(d.moves, id, m); }
    forall c { CustomLeft(d.custom, id, c); }
  }

  /** A new section that carries text starts with a heading and a body, a call to action with a
      button too; no other field changes, and it is the last of the added sections. */
  lemma NewSectionStartsWith(d: Document, kind: Kind, group: Group, after: Option<Id>, id: Id)
    ensures
      var now := Added(d, kind, group, after, id);
      var told, cta := kind.TextBlock? || kind.Split? || kind.Features? || kind.Cta?, kind.Cta?;
      var heading := if cta then "See Antifailure in action." else "Your next change, tested.";
      var body := "Rehearse your change on an isolated production twin before you deploy.";
      && now == d.(fields := now.fields, custom := d.custom + [CustomSection(id, kind, group, after)])
      && StartsWith(d.fields, now.fields, id.text + ".heading", if told then Some(Plain(heading)) else None)
      && StartsWith(d.fields, now.fields, id.text + ".body", if told then Some(Prose(body)) else None)
      && StartsWith(d.fields, now.fields, id.text + ".buttonLabel", if cta then Some(Plain("Request a demo")) else None)
      && StartsWith(d.fields, now.fields, id.text + ".buttonHref", if cta then Some(Plain("/request-demo")) else None)
      && forall key ::
           key !in {id.text + ".heading", id.text + ".body", id.text + ".buttonLabel", id.text + ".buttonHref"}
           ==> SameAt(d.fields, now.fields, key)
  {
    var h, b := FieldKey(id, "heading"), FieldKey(id, "body");
    var l, r := FieldKey(id, "buttonLabel"), FieldKey(id, "buttonHref");
    var n := |id.text|;
    assert h == id.text + ".heading" && b == id.text + ".body";
    assert l == id.text + ".buttonLabel" && r == id.text + ".buttonHref";
    assert h[n + 1] == 'h' && b[n + 1..n + 3] == "bo" && l[n + 1..n + 3] == "bu" && r[n + 1..n + 3] == "bu";
    assert |l| != |r|;
  }

  predicate StartsWith(was: map<string, Value>, now: map<string, Value>, key: string, value: Option<Value>) {
    match value
    case Some(v) => key in now && now[key] == v
    case None => SameAt(was, now, key)
  }
}
