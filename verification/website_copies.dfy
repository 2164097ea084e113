/**
 What a refusal says about the save it refuses. The autosave queue takes a definitive refusal for
 proof that the save was never committed; here that is proved wherever it is so.
 */
module WebsiteCopies {
  import opened Options
  import opened EditorProtocol
  import opened WebsiteStore
  import opened WebsiteWorld

  // ---------------------------------------------------------------------------
  // The copies of one request
  // ---------------------------------------------------------------------------

  /** What a copy was answered is true of its request, and its sender heard nothing else. */
  ghost predicate CopyGood(s: Store, issued: map<RequestId, Request>, copy: Copy) {
    && copy.id in issued
    && (Granted in copy.answers ==> copy.id in s.receipts)
    && (Refused(true) in copy.answers ==> Superseded(s, issued, copy.id))
    && (copy.fate.Acknowledged? ==> Granted in copy.answers)
    && (copy.fate.Denied? ==> Refused(copy.fate.conflict) in copy.answers)
  }

  ghost predicate CopiesGood(s: Store, issued: map<RequestId, Request>, copies: seq<Copy>) {
    forall c {:trigger CopyGood(s, issued, copies[c])} :: 0 <= c < |copies| ==> CopyGood(s, issued, copies[c])
  }

  ghost predicate GrantedAt(copies: seq<Copy>, id: RequestId, c: nat) {
    c < |copies| && copies[c].id == id && Granted in copies[c].answers
  }

  /** What the store has recorded, it has granted to some copy. */
  ghost predicate Traced(receipts: map<RequestId, Receipt>, copies: seq<Copy>) {
    forall id :: id in receipts ==> exists c :: GrantedAt(copies, id, c)
  }

  predicate IsSave(issued: map<RequestId, Request>, id: RequestId) {
    id in issued && issued[id].op.Save?
  }

  /** `k` is a later copy of the same save as `c`. */
  ghost predicate Resent(issued: map<RequestId, Request>, copies: seq<Copy>, c: nat, k: nat) {
    c < k < |copies| && copies[c].id == copies[k].id && IsSave(issued, copies[c].id)
  }

  /** A save is sent again only after its last copy ended without a word. */
  ghost predicate RetriesGood(issued: map<RequestId, Request>, copies: seq<Copy>) {
    forall c: nat, k: nat :: Resent(issued, copies, c, k) ==> copies[c].fate.Unclear?
  }

  ghost predicate UnclearAt(copies: seq<Copy>, id: RequestId, c: nat) {
    c < |copies| && copies[c].id == id ==> copies[c].fate.Unclear?
  }

  /** All copies of an editor's attempt have ended without a word, but for the one in the air. */
  ghost predicate CarrierGood(copies: seq<Copy>, carries: map<EditorId, nat>, e: EditorId, ed: Editor) {
    && (ed.flight.InFlight? ==>
         && e in carries && carries[e] < |copies| && ed.attempt.Some?
         && copies[carries[e]].id == ed.attempt.value.id && copies[carries[e]].fate.InTheAir?)
    && (ed.attempt.Some? ==> forall c ::
         UnclearAt(copies, ed.attempt.value.id, c) || (ed.flight.InFlight? && c == carries[e]))
  }

  ghost predicate CarriersGood(copies: seq<Copy>, carries: map<EditorId, nat>, editors: map<EditorId, Editor>) {
    forall e {:trigger CarrierGood(copies, carries, e, editors[e])} ::
      e in editors ==> CarrierGood(copies, carries, e, editors[e])
  }

  ghost predicate Told(w: World) {
    && Good(w)
    && CopiesGood(w.store, w.issued, w.copies)
    && Traced(w.store.receipts, w.copies)
    && RetriesGood(w.issued, w.copies)
    && CarriersGood(w.copies, w.carries, w.editors)
  }

  // ---------------------------------------------------------------------------
  // Sending a copy
  // ---------------------------------------------------------------------------

  ghost predicate Extends(issued: map<RequestId, Request>, more: map<RequestId, Request>) {
    forall id :: id in issued ==> id in more && more[id] == issued[id]
  }

  lemma CopiesStayGood(s: Store, issued: map<RequestId, Request>, more: map<RequestId, Request>, copies: seq<Copy>)
    requires CopiesGood(s, issued, copies) && Extends(issued, more)
    ensures CopiesGood(s, more, copies)
  {
    forall c | 0 <= c < |copies| ensures CopyGood(s, more, copies[c]) {
      assert CopyGood(s, issued, copies[c]);
    }
  }

  lemma RetriesStayGood(s: Store, issued: map<RequestId, Request>, more: map<RequestId, Request>, copies: seq<Copy>)
    requires CopiesGood(s, issued, copies) && RetriesGood(issued, copies) && Extends(issued, more)
    ensures RetriesGood(more, copies)
  {
    forall c: nat, k: nat | Resent(more, copies, c, k) ensures copies[c].fate.Unclear? {
      assert CopyGood(s, issued, copies[c]);
      assert Resent(issued, copies, c, k);
    }
  }

  lemma MoreCopiesTrace(receipts: map<RequestId, Receipt>, copies: seq<Copy>, copy: Copy)
    requires Traced(receipts, copies)
    ensures Traced(receipts, copies + [copy])
  {
    forall id | id in receipts ensures exists c :: GrantedAt(copies + [copy], id, c) {
      var c :| GrantedAt(copies, id, c);
      assert GrantedAt(copies + [copy], id, c);
    }
  }

  lemma SentCopyIsGood(s: Store, issued: map<RequestId, Request>, copies: seq<Copy>, id: RequestId)
    requires CopiesGood(s, issued, copies) && RetriesGood(issued, copies) && id in issued
    requires issued[id].op.Save? ==> forall c :: UnclearAt(copies, id, c)
    ensures CopiesGood(s, issued, copies + [Copy(id, [], InTheAir)])
    ensures RetriesGood(issued, copies + [Copy(id, [], InTheAir)])
  {
    var more := copies + [Copy(id, [], InTheAir)];
    forall c | 0 <= c < |more| ensures CopyGood(s, issued, more[c]) {
      if c < |copies| { assert CopyGood(s, issued, copies[c]); }
    }
    forall c: nat, k: nat | Resent(issued, more, c, k) ensures more[c].fate.Unclear? {
      if k < |copies| { assert Resent(issued, copies, c, k); } else { assert UnclearAt(copies, id, c); }
    }
  }

  /** A new copy of another request is no business of this editor. */
  lemma CarrierIgnoresSending(
      copies: seq<Copy>, carries: map<EditorId, nat>, more: map<EditorId, nat>, e: EditorId, ed: Editor, copy: Copy)
    requires CarrierGood(copies, carries, e, ed)
    requires e in carries ==> e in more && more[e] == carries[e]
    requires ed.attempt.Some? ==> ed.attempt.value.id != copy.id
    ensures CarrierGood(copies + [copy], more, e, ed)
  {
    if ed.attempt.Some? {
      forall c ensures UnclearAt(copies + [copy], ed.attempt.value.id, c) || (ed.flight.InFlight? && c == more[e]) {
        assert UnclearAt(copies, ed.attempt.value.id, c) || (ed.flight.InFlight? && c == carries[e]);
      }
    }
  }

  // ---------------------------------------------------------------------------
  // Delivering a copy
  // ---------------------------------------------------------------------------

  /** A carrier looks at identifiers and fates only. */
  lemma CarrierIgnoresAnswers(
      copies: seq<Copy>, c: nat, verdict: Verdict, carries: map<EditorId, nat>, editors: map<EditorId, Editor>)
    requires CarriersGood(copies, carries, editors) && c < |copies|
    ensures CarriersGood(copies[c := Heard(copies[c], verdict)], carries, editors)
  {
    var heard := copies[c := Heard(copies[c], verdict)];
    forall e | e in editors ensures CarrierGood(heard, carries, e, editors[e]) {
      var ed := editors[e];
      assert CarrierGood(copies, carries, e, ed);
      if ed.attempt.Some? {
        forall k ensures UnclearAt(heard, ed.attempt.value.id, k) || (ed.flight.InFlight? && k == carries[e]) {
          assert UnclearAt(copies, ed.attempt.value.id, k) || (ed.flight.InFlight? && k == carries[e]);
        }
      }
    }
  }

  lemma RetriesIgnoreAnswers(issued: map<RequestId, Request>, copies: seq<Copy>, c: nat, verdict: Verdict)
    requires RetriesGood(issued, copies) && c < |copies|
    ensures RetriesGood(issued, copies[c := Heard(copies[c], verdict)])
  {
    var heard := copies[c := Heard(copies[c], verdict)];
    forall j: nat, k: nat | Resent(issued, heard, j, k) ensures heard[j].fate.Unclear? {
      assert Resent(issued, copies, j, k);
    }
  }

  /** A request that can no longer go through stays so, and a recorded one stays recorded. */
  lemma DeliveryKeepsCopy(s: Store, issued: map<RequestId, Request>, id: RequestId, acceptable: bool, copy: Copy)
    requires StoreGood(s, issued) && id in issued && CopyGood(s, issued, copy)
    ensures CopyGood(Process(s, id, issued[id], acceptable).0, issued, copy)
  {
    ProcessAdds(s, id, issued[id], acceptable);
  }

  lemma HeardCopyIsGood(s: Store, issued: map<RequestId, Request>, acceptable: bool, copy: Copy)
    requires StoreGood(s, issued) && CopyGood(s, issued, copy) && issued[copy.id].expected < |s.drafts|
    ensures
      var (s', reply) := Process(s, copy.id, issued[copy.id], acceptable);
      CopyGood(s', issued, Heard(copy, VerdictOf(reply)))
  {
    DeliveryKeepsCopy(s, issued, copy.id, acceptable, copy);
    GrantedIffRecorded(s, issued, copy.id, acceptable);
  }

  lemma DeliveryKeepsCopies(s: Store, issued: map<RequestId, Request>, copies: seq<Copy>, c: nat, acceptable: bool)
    requires StoreGood(s, issued) && CopiesGood(s, issued, copies)
    requires c < |copies| && copies[c].id in issued && issued[copies[c].id].expected < |s.drafts|
    ensures
      var (s', reply) := Process(s, copies[c].id, issued[copies[c].id], acceptable);
      CopiesGood(s', issued, copies[c := Heard(copies[c], VerdictOf(reply))])
  {
    var (s', reply) := Process(s, copies[c].id, issued[copies[c].id], acceptable);
    var heard := copies[c := Heard(copies[c], VerdictOf(reply))];
    forall k | 0 <= k < |heard| ensures CopyGood(s', issued, heard[k]) {
      assert CopyGood(s, issued, copies[k]);
      if k == c {
        HeardCopyIsGood(s, issued, acceptable, copies[c]);
      } else {
        DeliveryKeepsCopy(s, issued, copies[c].id, acceptable, copies[k]);
      }
    }
  }

  lemma HearingTraces(receipts: map<RequestId, Receipt>, copies: seq<Copy>, c: nat, verdict: Verdict)
    requires Traced(receipts, copies) && c < |copies|
    ensures Traced(receipts, copies[c := Heard(copies[c], verdict)])
  {
    var heard := copies[c := Heard(copies[c], verdict)];
    forall id | id in receipts ensures exists k :: GrantedAt(heard, id, k) {
      var k :| GrantedAt(copies, id, k);
      assert GrantedAt(heard, id, k);
    }
  }

  lemma DeliveryTraces(s: Store, issued: map<RequestId, Request>, copies: seq<Copy>, c: nat, acceptable: bool)
    requires StoreGood(s, issued) && Traced(s.receipts, copies) && c < |copies| && copies[c].id in issued
    ensures
      var (s', reply) := Process(s, copies[c].id, issued[copies[c].id], acceptable);
      Traced(s'.receipts, copies[c := Heard(copies[c], VerdictOf(reply))])
  {
    var id := copies[c].id;
    var (s', reply) := Process(s, id, issued[id], acceptable);
    var heard := copies[c := Heard(copies[c], VerdictOf(reply))];
    HearingTraces(s.receipts, copies, c, VerdictOf(reply));
    ProcessAdds(s, id, issued[id], acceptable);
    GrantedIffRecorded(s, issued, id, acceptable);
    forall i | i in s'.receipts ensures exists k :: GrantedAt(heard, i, k) {
      if i !in s.receipts { assert GrantedAt(heard, i, c); }
    }
  }

  lemma DeliveryIsTold(w: World, c: nat, acceptable: bool)
    requires Told(w) && Arrives(w, c)
    ensures Told(Next(w, Deliver(c, acceptable)))
  {
    GoodIsKept(w, Deliver(c, acceptable));
    var id := w.copies[c].id;
    var verdict := VerdictOf(Process(w.store, id, w.issued[id], acceptable).1);
    assert RequestGood(w.store.drafts, w.known, w.issued[id]);
    DeliveryKeepsCopies(w.store, w.issued, w.copies, c, acceptable);
    DeliveryTraces(w.store, w.issued, w.copies, c, acceptable);
    RetriesIgnoreAnswers(w.issued, w.copies, c, verdict);
    CarrierIgnoresAnswers(w.copies, c, verdict, w.carries, w.editors);
  }

  lemma TurningAwayIsTold(w: World, c: nat)
    requires Told(w) && c < |w.copies|
    ensures Told(Next(w, TurnAway(c)))
  {
    GoodIsKept(w, TurnAway(c));
    var verdict := Refused(false);
    var heard := w.copies[c := Heard(w.copies[c], verdict)];
    forall k | 0 <= k < |heard| ensures CopyGood(w.store, w.issued, heard[k]) {
      assert CopyGood(w.store, w.issued, w.copies[k]);
    }
    HearingTraces(w.store.receipts, w.copies, c, verdict);
    RetriesIgnoreAnswers(w.issued, w.copies, c, verdict);
    CarrierIgnoresAnswers(w.copies, c, verdict, w.carries, w.editors);
  }

  // ---------------------------------------------------------------------------
  // The steps of an editor
  // ---------------------------------------------------------------------------

  lemma AttemptsDiffer(w: World, e: EditorId, f: EditorId)
    requires Good(w) && e in w.editors && f in w.editors && e != f
    requires w.editors[e].attempt.Some? && w.editors[f].attempt.Some?
    ensures w.editors[e].attempt.value.id != w.editors[f].attempt.value.id
  {
    assert EditorGood(w.store.drafts, w.issued, w.known[e], e, w.editors[e]);
    assert EditorGood(w.store.drafts, w.issued, w.known[f], f, w.editors[f]);
  }

  /** A step that neither ends nor starts a save. */
  lemma QuietStepKeepsCarrier(copies: seq<Copy>, carries: map<EditorId, nat>, e: EditorId, ed: Editor, ev: EditorEvent)
    requires Inv(ed) && Enabled(ed, ev) && !ev.SaveSettled? && !Sends(ed, Step(ed, ev).0)
    requires CarrierGood(copies, carries, e, ed)
    ensures CarrierGood(copies, carries, e, Step(ed, ev).0)
  {
    if ed.flight.InFlight? { FlightIsKept(ed, ev); } else { FlightStarts(ed, ev); }
  }

  /** Nothing is known to have become of any earlier copy of what is sent now. */
  lemma NothingElseInTheAir(
      s: Store, issued: map<RequestId, Request>, copies: seq<Copy>, carries: map<EditorId, nat>,
      e: EditorId, ed: Editor, sent: Attempt)
    requires CopiesGood(s, issued, copies) && CarrierGood(copies, carries, e, ed) && !ed.flight.InFlight?
    requires if ed.attempt.Some? then ed.attempt.value == sent else sent.id !in issued
    ensures forall c :: UnclearAt(copies, sent.id, c)
  {
    forall c: nat ensures UnclearAt(copies, sent.id, c) {
      if c < |copies| { assert CopyGood(s, issued, copies[c]); }
    }
  }

  lemma SendingCarrier(copies: seq<Copy>, carries: map<EditorId, nat>, e: EditorId, ed: Editor)
    requires ed.flight.InFlight? && ed.attempt.Some?
    requires forall c :: UnclearAt(copies, ed.attempt.value.id, c)
    ensures CarrierGood(copies + [Copy(ed.attempt.value.id, [], InTheAir)], carries[e := |copies|], e, ed)
  {
    var more := copies + [Copy(ed.attempt.value.id, [], InTheAir)];
    forall c ensures UnclearAt(more, ed.attempt.value.id, c) || c == |copies| {
      assert UnclearAt(copies, ed.attempt.value.id, c);
    }
  }

  lemma SendingIsTold(w: World, e: EditorId, ev: EditorEvent)
    requires Told(w) && Possible(w, e, ev) && Sends(w.editors[e], Step(w.editors[e], ev).0)
    ensures Told(Next(w, Local(e, ev)))
  {
    var ed, r := w.editors[e], Step(w.editors[e], ev).0;
    var w' := Next(w, Local(e, ev));
    GoodIsKept(w, Local(e, ev));
    assert CarrierGood(w.copies, w.carries, e, ed);
    FlightStarts(ed, ev);
    NothingElseInTheAir(w.store, w.issued, w.copies, w.carries, e, ed, r.attempt.value);
    CopiesStayGood(w.store, w.issued, w'.issued, w.copies);
    RetriesStayGood(w.store, w.issued, w'.issued, w.copies);
    SentCopyIsGood(w.store, w'.issued, w.copies, r.attempt.value.id);
    var copy := Copy(r.attempt.value.id, [], InTheAir);
    MoreCopiesTrace(w.store.receipts, w.copies, copy);
    SendingCarrier(w.copies, w.carries, e, r);
    forall f | f in w'.editors ensures CarrierGood(w'.copies, w'.carries, f, w'.editors[f]) {
      if f != e {
        assert CarrierGood(w.copies, w.carries, f, w.editors[f]);
        if w.editors[f].attempt.Some? { AttemptsDiffer(w', e, f); }
        CarrierIgnoresSending(w.copies, w.carries, w'.carries, f, w.editors[f], copy);
      }
    }
  }

  lemma QuietStepIsTold(w: World, e: EditorId, ev: EditorEvent)
    requires Told(w) && Possible(w, e, ev) && !ev.SaveSettled? && !Sends(w.editors[e], Step(w.editors[e], ev).0)
    ensures Told(Next(w, Local(e, ev)))
  {
    var w' := Next(w, Local(e, ev));
    GoodIsKept(w, Local(e, ev));
    CopiesStayGood(w.store, w.issued, w'.issued, w.copies);
    RetriesStayGood(w.store, w.issued, w'.issued, w.copies);
    forall f | f in w'.editors ensures CarrierGood(w'.copies, w'.carries, f, w'.editors[f]) {
      assert CarrierGood(w.copies, w.carries, f, w.editors[f]);
      if f == e { QuietStepKeepsCarrier(w.copies, w.carries, e, w.editors[e], ev); }
    }
  }

  // ---------------------------------------------------------------------------
  // The end of a copy
  // ---------------------------------------------------------------------------

  lemma EndedCopyIsGood(w: World, e: EditorId, reply: Reply)
    requires Told(w) && Possible(w, e, SaveSettled(reply))
    ensures
      var c := w.carries[e];
      CopyGood(w.store, w.issued, w.copies[c].(fate := FateOf(w.editors[e].attempt.value, reply)))
  {
    assert CopyGood(w.store, w.issued, w.copies[w.carries[e]]);
  }

  lemma EndedCopiesAreGood(s: Store, issued: map<RequestId, Request>, copies: seq<Copy>, c: nat, fate: Fate)
    requires CopiesGood(s, issued, copies) && c < |copies| && CopyGood(s, issued, copies[c].(fate := fate))
    ensures CopiesGood(s, issued, copies[c := copies[c].(fate := fate)])
  {
    var ended := copies[c := copies[c].(fate := fate)];
    forall k | 0 <= k < |ended| ensures CopyGood(s, issued, ended[k]) {
      assert CopyGood(s, issued, copies[k]);
    }
  }

  lemma EndingTraces(receipts: map<RequestId, Receipt>, copies: seq<Copy>, c: nat, fate: Fate)
    requires Traced(receipts, copies) && c < |copies|
    ensures Traced(receipts, copies[c := copies[c].(fate := fate)])
  {
    var ended := copies[c := copies[c].(fate := fate)];
    forall id | id in receipts ensures exists k :: GrantedAt(ended, id, k) {
      var k :| GrantedAt(copies, id, k);
      assert GrantedAt(ended, id, k);
    }
  }

  /** The copy that ends is the last of its request. */
  lemma EndingKeepsRetries(issued: map<RequestId, Request>, copies: seq<Copy>, c: nat, fate: Fate)
    requires RetriesGood(issued, copies) && c < |copies| && copies[c].fate.InTheAir?
    ensures RetriesGood(issued, copies[c := copies[c].(fate := fate)])
  {
    var ended := copies[c := copies[c].(fate := fate)];
    forall j: nat, k: nat | Resent(issued, ended, j, k) ensures ended[j].fate.Unclear? {
      assert Resent(issued, copies, j, k);
    }
  }

  lemma EndingCarrier(copies: seq<Copy>, carries: map<EditorId, nat>, e: EditorId, ed: Editor, reply: Reply)
    requires Inv(ed) && ed.flight.InFlight? && CarrierGood(copies, carries, e, ed)
    ensures
      var c := carries[e];
      CarrierGood(copies[c := copies[c].(fate := FateOf(ed.attempt.value, reply))], carries, e,
        Step(ed, SaveSettled(reply)).0)
  {
    FlightEnds(ed, reply);
    var id, c := ed.attempt.value.id, carries[e];
    var ended := copies[c := copies[c].(fate := FateOf(ed.attempt.value, reply))];
    if Step(ed, SaveSettled(reply)).0.attempt.Some? {
      forall k ensures UnclearAt(ended, id, k) {
        assert UnclearAt(copies, id, k) || k == c;
      }
    }
  }

  /** The end of another request's copy is no business of this editor. */
  lemma CarrierIgnoresEnding(
      copies: seq<Copy>, c: nat, fate: Fate, carries: map<EditorId, nat>, e: EditorId, ed: Editor)
    requires CarrierGood(copies, carries, e, ed) && c < |copies|
    requires ed.attempt.Some? ==> ed.attempt.value.id != copies[c].id
    ensures CarrierGood(copies[c := copies[c].(fate := fate)], carries, e, ed)
  {
    var ended := copies[c := copies[c].(fate := fate)];
    if ed.attempt.Some? {
      forall k ensures UnclearAt(ended, ed.attempt.value.id, k) || (ed.flight.InFlight? && k == carries[e]) {
        assert UnclearAt(copies, ed.attempt.value.id, k) || (ed.flight.InFlight? && k == carries[e]);
      }
    }
  }

  lemma SettlingIsTold(w: World, e: EditorId, reply: Reply)
    requires Told(w) && Possible(w, e, SaveSettled(reply))
    ensures Told(Next(w, Local(e, SaveSettled(reply))))
  {
    var ed, c := w.editors[e], w.carries[e];
    var fate := FateOf(ed.attempt.value, reply);
    var w' := Next(w, Local(e, SaveSettled(reply)));
    GoodIsKept(w, Local(e, SaveSettled(reply)));
    assert CarrierGood(w.copies, w.carries, e, ed);
    EndedCopyIsGood(w, e, reply);
    EndedCopiesAreGood(w.store, w.issued, w.copies, c, fate);
    EndingTraces(w.store.receipts, w.copies, c, fate);
    EndingKeepsRetries(w.issued, w.copies, c, fate);
    CopiesStayGood(w.store, w.issued, w'.issued, w'.copies);
    RetriesStayGood(w.store, w.issued, w'.issued, w'.copies);
    forall f | f in w'.editors ensures CarrierGood(w'.copies, w'.carries, f, w'.editors[f]) {
      if f == e {
        EndingCarrier(w.copies, w.carries, e, ed, reply);
      } else {
        assert CarrierGood(w.copies, w.carries, f, w.editors[f]);
        if w.editors[f].attempt.Some? { AttemptsDiffer(w, e, f); }
        CarrierIgnoresEnding(w.copies, c, fate, w.carries, f, w.editors[f]);
      }
    }
  }

  // ---------------------------------------------------------------------------
  // Every run
  // ---------------------------------------------------------------------------

  lemma StartIsTold(first: Document)
    ensures Told(Start(first))
  {
    StartIsGood(first);
  }

  lemma OpeningIsTold(w: World, e: EditorId, k: nat)
    requires Told(w)
    ensures Told(Next(w, OpenEditor(e, k)))
  {
    GoodIsKept(w, OpenEditor(e, k));
    var w' := Next(w, OpenEditor(e, k));
    forall f | f in w'.editors ensures CarrierGood(w'.copies, w'.carries, f, w'.editors[f]) {
      if f in w.editors { assert CarrierGood(w.copies, w.carries, f, w.editors[f]); }
    }
  }

  /** The copy of a publication or a restoration. */
  lemma SubmissionIsTold(w: World, w': World, id: RequestId)
    requires Told(w) && Good(w') && id in w'.issued && !w'.issued[id].op.Save?
    requires Extends(w.issued, w'.issued)
    requires w' == w.(issued := w'.issued, copies := w.copies + [Copy(id, [], InTheAir)])
    ensures Told(w')
  {
    CopiesStayGood(w.store, w.issued, w'.issued, w.copies);
    RetriesStayGood(w.store, w.issued, w'.issued, w.copies);
    SentCopyIsGood(w.store, w'.issued, w.copies, id);
    MoreCopiesTrace(w.store.receipts, w.copies, Copy(id, [], InTheAir));
    forall f | f in w'.editors ensures CarrierGood(w'.copies, w'.carries, f, w'.editors[f]) {
      assert CarrierGood(w.copies, w.carries, f, w.editors[f]);
      assert EditorGood(w'.store.drafts, w'.issued, w'.known[f], f, w'.editors[f]);
      CarrierIgnoresSending(w.copies, w.carries, w'.carries, f, w.editors[f], Copy(id, [], InTheAir));
    }
  }

  lemma ToldIsKept(w: World, event: Event)
    requires Told(w)
    ensures Told(Next(w, event))
  {
    GoodIsKept(w, event);
    match event
    case OpenEditor(e, k) => OpeningIsTold(w, e, k);
    case Local(e, ev) => if Possible(w, e, ev) { EditorStepIsTold(w, e, ev); }
    case SubmitPublish(e, id) => if MaySubmit(w, e, id) { SubmissionIsTold(w, Next(w, event), id); }
    case SubmitRestore(e, id, _) => if MaySubmit(w, e, id) { SubmissionIsTold(w, Next(w, event), id); }
    case Resubmit(id) => if id in w.issued && !w.issued[id].op.Save? { SubmissionIsTold(w, Next(w, event), id); }
    case Deliver(c, acceptable) => if Arrives(w, c) { DeliveryIsTold(w, c, acceptable); }
    case TurnAway(c) => if c < |w.copies| { TurningAwayIsTold(w, c); }
  }

  lemma EditorStepIsTold(w: World, e: EditorId, ev: EditorEvent)
    requires Told(w) && Possible(w, e, ev)
    ensures Told(Next(w, Local(e, ev)))
  {
    if ev.SaveSettled? {
      SettlingIsTold(w, e, ev.reply);
    } else if Sends(w.editors[e], Step(w.editors[e], ev).0) {
      SendingIsTold(w, e, ev);
    } else {
      QuietStepIsTold(w, e, ev);
    }
  }

  lemma {:induction false} RunIsTold(w: World, events: seq<Event>)
    requires Told(w)
    ensures Told(Run(w, events))
    decreases |events|
  {
    if events != [] {
      ToldIsKept(w, events[0]);
      RunIsTold(Next(w, events[0]), events[1..]);
    }
  }

  lemma AfterIsTold(first: Document, events: seq<Event>)
    ensures Told(After(first, events))
  {
    StartIsTold(first);
    RunIsTold(Start(first), events);
  }

  // ---------------------------------------------------------------------------
  // What a refusal means
  // ---------------------------------------------------------------------------

  /** An earlier copy of the same request that ended without a word though the store granted it. */
  ghost predicate SilentlyGranted(copies: seq<Copy>, c: nat, j: nat) {
    && j < c < |copies| && copies[j].id == copies[c].id
    && copies[j].fate.Unclear? && Granted in copies[j].answers
  }

  /** A save that was refused for certain is in the store exactly when an earlier copy of it was
      granted and ended without a word, or the refused copy itself was also granted, which takes a
      network that delivers it twice. */
  lemma RefusedSaveIsCommittedExactlyWhen(first: Document, events: seq<Event>, c: nat)
    requires c < |After(first, events).copies| && After(first, events).copies[c].fate.Denied?
    requires IsSave(After(first, events).issued, After(first, events).copies[c].id)
    ensures
      var w := After(first, events);
      && (w.copies[c].id in w.store.receipts <==>
           Granted in w.copies[c].answers || exists j: nat :: SilentlyGranted(w.copies, c, j))
      && (Granted in w.copies[c].answers ==> |w.copies[c].answers| >= 2)
  {
    AfterIsTold(first, events);
    RefusedCopyFollows(After(first, events), c);
  }

  lemma RefusedCopyFollows(w: World, c: nat)
    requires Told(w) && c < |w.copies| && w.copies[c].fate.Denied?
    requires IsSave(w.issued, w.copies[c].id)
    ensures w.copies[c].id in w.store.receipts <==>
      Granted in w.copies[c].answers || exists j: nat :: SilentlyGranted(w.copies, c, j)
    ensures Granted in w.copies[c].answers ==> |w.copies[c].answers| >= 2
  {
    var id := w.copies[c].id;
    assert CopyGood(w.store, w.issued, w.copies[c]);
    if j: nat :| SilentlyGranted(w.copies, c, j) { assert CopyGood(w.store, w.issued, w.copies[j]); }
    if id in w.store.receipts {
      var j: nat :| GrantedAt(w.copies, id, j);
      if c < j { assert Resent(w.issued, w.copies, c, j); }
      if j < c { assert Resent(w.issued, w.copies, j, c) && SilentlyGranted(w.copies, c, j); }
    }
  }

  /** So the queue may trust the refusal of a save whose earlier copies, if any, were none that
      ended without a word, as long as the refused copy was delivered at most once. */
  lemma {:induction false} FirstRefusalIsTrue(first: Document, events: seq<Event>, c: nat)
    requires c < |After(first, events).copies| && After(first, events).copies[c].fate.Denied?
    requires IsSave(After(first, events).issued, After(first, events).copies[c].id)
    requires
      var copies := After(first, events).copies;
      && |copies[c].answers| < 2
      && forall j: nat :: j < c && copies[j].id == copies[c].id ==> !copies[j].fate.Unclear?
    ensures After(first, events).copies[c].id !in After(first, events).store.receipts
  {
    RefusedSaveIsCommittedExactlyWhen(first, events, c);
  }

  /** A save refused as a conflict never was and never will be committed, whatever became of its
      earlier copies and however often it was delivered. */
  lemma ConflictingSaveIsNeverCommitted(first: Document, events: seq<Event>, c: nat, later: seq<Event>)
    requires c < |After(first, events).copies| && After(first, events).copies[c].fate == Denied(true)
    ensures After(first, events).copies[c].id !in Run(After(first, events), later).store.receipts
  {
    AfterIsTold(first, events);
    var w := After(first, events);
    assert CopyGood(w.store, w.issued, w.copies[c]);
    SupersededForever(w, w.copies[c].id, later);
  }
}
