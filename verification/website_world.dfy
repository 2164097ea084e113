/**
 The website store, and any number of editors saving to it over a network that may lose,
 delay, duplicate and reorder every message and fail any request with any ambiguous failure.
 */
module WebsiteStore {
  import opened Options
  import opened EditorProtocol

  type EditorId = nat

  /** `approved` is what the editor had on screen when publishing; it is not part of the request. */
  datatype Operation = Save(document: Document) | Publish(approved: Document) | Restore(version: nat)

  datatype Request = Request(author: EditorId, op: Operation, expected: nat)

  /** A draft revision and the request that wrote it; the first one was there before any request. */
  datatype Commit = Commit(document: Document, origin: Option<RequestId>)

  /** A published version, and the draft revision it was made from. */
  datatype Version = Version(document: Document, draft: nat, origin: Option<RequestId>)

  /** The answer kept for a request that went through. */
  datatype Receipt = Receipt(request: Request, document: Document, draftRevision: nat, version: nat)

  datatype Store = Store(drafts: seq<Commit>, versions: seq<Version>, receipts: map<RequestId, Receipt>)

  datatype StoreReply = Committed(receipt: Receipt) | Conflict | NotFound | Invalid

  predicate SameChange(a: Request, b: Request) {
    && a.author == b.author && a.expected == b.expected
    && match (a.op, b.op)
       case (Save(d), Save(d')) => d == d'
       case (Publish(_), Publish(_)) => true
       case (Restore(v), Restore(v')) => v == v'
       case _ => false
  }

  /** One request, inside the store's lock. A known id is answered with its original receipt
      before revisions are compared. `acceptable` is the validation this model does not look into. */
  function Process(s: Store, id: RequestId, r: Request, acceptable: bool): (Store, StoreReply)
    requires s.drafts != [] && s.versions != []
  {
    var latest := |s.drafts| - 1;
    if id in s.receipts then
      (s, if SameChange(s.receipts[id].request, r) then Committed(s.receipts[id]) else Conflict)
    else if r.expected != latest then (s, Conflict)
    else if r.op.Restore? && !(1 <= r.op.version < |s.versions|) then (s, NotFound)
    else if !acceptable then (s, Invalid)
    else
      var document := match r.op
        case Save(d) => d
        case Publish(_) => s.drafts[latest].document
        case Restore(v) => s.versions[v].document;
      var drafts := if r.op.Publish? then s.drafts else s.drafts + [Commit(document, Some(id))];
      var draft := |drafts| - 1;
      var versions := if r.op.Save? then s.versions else s.versions + [Version(document, draft, Some(id))];
      var receipt := Receipt(r, document, draft, |versions| - 1);
      (Store(drafts, versions, s.receipts[id := receipt]), Committed(receipt))
  }
}

module WebsiteWorld {
  import opened Options
  import opened EditorProtocol
  import opened WebsiteStore

  /** What the server answers to a copy it takes in. */
  datatype Verdict = Granted | Refused(conflict: bool)

  /** How a copy ended for the editor that sent it: not yet, acknowledged, failed without saying
      whether it was taken, or refused for certain. */
  datatype Fate = InTheAir | Acknowledged | Unclear | Denied(conflict: bool)

  /** One sending of a request, and what was answered each time the network delivered it. */
  datatype Copy = Copy(id: RequestId, answers: seq<Verdict>, fate: Fate)

  /** `issued` is every request ever made. `known` is, for each editor, every draft revision whose
      document it was joined with, had acknowledged, or was handed by a reload or a reapply.
      `copies` is every sending, and `carries` the one that an editor's save in the air waits for. */
  datatype World = World(
    store: Store,
    editors: map<EditorId, Editor>,
    issued: map<RequestId, Request>,
    known: map<EditorId, set<nat>>,
    copies: seq<Copy>,
    carries: map<EditorId, nat>)

  datatype Event =
    | OpenEditor(e: EditorId, fetched: nat)
    | Local(e: EditorId, ev: EditorEvent)
    | SubmitPublish(e: EditorId, id: RequestId)
    | SubmitRestore(e: EditorId, id: RequestId, version: nat)
    | Resubmit(id: RequestId)
    | Deliver(c: nat, acceptable: bool)
    | TurnAway(c: nat)

  function Start(document: Document): World {
    World(Store([Commit(document, None)], [Version(document, 0, None)], map[]), map[], map[], map[], [], map[])
  }

  /** A save is answered successfully only if the store has granted its copy, and then with what it
      recorded; it is refused for certain only if the server has refused its copy, in that way; any
      ambiguous failure may be reported at any time. */
  predicate Answers(w: World, e: EditorId, reply: Reply)
    requires e in w.editors && w.editors[e].attempt.Some? && e in w.carries && w.carries[e] < |w.copies|
  {
    var answers, id := w.copies[w.carries[e]].answers, w.editors[e].attempt.value.id;
    match reply
    case Answer(_, _) =>
      && Granted in answers && id in w.store.receipts
      && reply == Answer(Some(w.store.receipts[id].document), w.store.receipts[id].draftRevision)
    case Failure(cause) => !Ambiguous(cause) ==> Refused(Classify(cause).conflict) in answers
  }

  /** Request identifiers are never reused, and a fetched version is one the store has had, however
      stale. */
  predicate Possible(w: World, e: EditorId, ev: EditorEvent) {
    && e in w.editors
    && Enabled(w.editors[e], ev)
    && match ev
       case TimerFired(id) => id !in w.issued
       case FlushCalled(_, id) => id !in w.issued
       case FlushResumed(_, id) => id !in w.issued
       case RetryCalled(_, id) => id !in w.issued
       case SaveSettled(reply) =>
         w.editors[e].attempt.Some? && e in w.carries && w.carries[e] < |w.copies| && Answers(w, e, reply)
       case Accepted(document, revision, _) =>
         0 <= revision < |w.store.drafts| && document == Some(w.store.drafts[revision].document)
       case _ => true
  }

  /** The requests with the one that an editor has outstanding. */
  function Issuing(issued: map<RequestId, Request>, e: EditorId, ed: Editor): (r: map<RequestId, Request>)
    ensures forall id :: id in issued ==> id in r && r[id] == issued[id]
  {
    if ed.attempt.Some? && ed.attempt.value.id !in issued
    then issued[ed.attempt.value.id := Request(e, Save(ed.attempt.value.document), ed.attempt.value.expected)]
    else issued
  }

  function WithEditor(w: World, e: EditorId, ed: Editor): World
    requires e in w.known
  {
    w.(editors := w.editors[e := ed],
       known := w.known[e := w.known[e] + {ed.revision}],
       issued := Issuing(w.issued, e, ed))
  }

  function FateOf(sent: Attempt, reply: Reply): Fate {
    match Problem(sent, reply)
    case None => Acknowledged
    case Some(cause) => if Ambiguous(cause) then Unclear else Denied(Classify(cause).conflict)
  }

  predicate Sends(before: Editor, after: Editor) {
    !before.flight.InFlight? && after.flight.InFlight? && after.attempt.Some?
  }

  /** The copies after a step that took an editor to `ed`: the one in the air has ended, or one is
      sent, or neither. */
  function CopiesAfter(w: World, e: EditorId, ev: EditorEvent, ed: Editor): seq<Copy>
    requires Possible(w, e, ev)
  {
    if ev.SaveSettled? then
      var c := w.carries[e];
      w.copies[c := w.copies[c].(fate := FateOf(w.editors[e].attempt.value, ev.reply))]
    else if Sends(w.editors[e], ed) then w.copies + [Copy(ed.attempt.value.id, [], InTheAir)]
    else w.copies
  }

  function CarriesAfter(w: World, e: EditorId, ed: Editor): map<EditorId, nat>
    requires e in w.editors
  {
    if Sends(w.editors[e], ed) then w.carries[e := |w.copies|] else w.carries
  }

  /** What the server makes of a copy. */
  function VerdictOf(reply: StoreReply): Verdict {
    match reply
    case Committed(_) => Granted
    case Conflict => Refused(true)
    case NotFound => Refused(false)
    case Invalid => Refused(false)
  }

  function Heard(copy: Copy, verdict: Verdict): Copy {
    copy.(answers := copy.answers + [verdict])
  }

  /** A publication is submitted from a suspended editor whose flush has resolved. */
  predicate MaySubmit(w: World, e: EditorId, id: RequestId) {
    e in w.editors && id !in w.issued && w.editors[e].suspended && Clean(w.editors[e])
  }

  ghost predicate WellFormed(w: World) {
    && w.store.drafts != [] && w.store.versions != []
    && w.known.Keys == w.editors.Keys
    && forall e :: e in w.editors ==> Inv(w.editors[e])
  }

  /** The world after an event; an event that cannot happen changes nothing. */
  ghost function Next(w: World, event: Event): (r: World)
    requires WellFormed(w)
    ensures WellFormed(r)
  {
    match event
    case OpenEditor(e, k) =>
      if e in w.editors || k >= |w.store.drafts| then w
      else w.(editors := w.editors[e := Open(w.store.drafts[k].document, k)], known := w.known[e := {k}])
    case Local(e, ev) =>
      if Possible(w, e, ev) then
        var ed := Step(w.editors[e], ev).0;
        WithEditor(w, e, ed).(copies := CopiesAfter(w, e, ev, ed), carries := CarriesAfter(w, e, ed))
      else w
    case SubmitPublish(e, id) =>
      if MaySubmit(w, e, id) then
        w.(issued := w.issued[id := Request(e, Publish(w.editors[e].document), w.editors[e].revision)],
           copies := w.copies + [Copy(id, [], InTheAir)])
      else w
    case SubmitRestore(e, id, version) =>
      if MaySubmit(w, e, id) then
        w.(issued := w.issued[id := Request(e, Restore(version), w.editors[e].revision)],
           copies := w.copies + [Copy(id, [], InTheAir)])
      else w
    case Resubmit(id) =>
      if id in w.issued && !w.issued[id].op.Save? then w.(copies := w.copies + [Copy(id, [], InTheAir)]) else w
    case Deliver(c, acceptable) =>
      if Arrives(w, c) then
        var (store, reply) := Process(w.store, w.copies[c].id, w.issued[w.copies[c].id], acceptable);
        w.(store := store, copies := w.copies[c := Heard(w.copies[c], VerdictOf(reply))])
      else w
    case TurnAway(c) =>
      // Refused before it reaches the store, for instance for being signed out.
      if c < |w.copies| then w.(copies := w.copies[c := Heard(w.copies[c], Refused(false))]) else w
  }

  predicate Arrives(w: World, c: nat) {
    c < |w.copies| && w.copies[c].id in w.issued
  }

  ghost function Run(w: World, events: seq<Event>): (r: World)
    requires WellFormed(w)
    ensures WellFormed(r)
    decreases |events|
  {
    if events == [] then w else Run(Next(w, events[0]), events[1..])
  }

  // ---------------------------------------------------------------------------
  // The invariant
  // ---------------------------------------------------------------------------

  ghost predicate EditorGood(
      drafts: seq<Commit>, issued: map<RequestId, Request>, known: set<nat>, e: EditorId, ed: Editor)
  {
    && Inv(ed)
    && ed.revision in known
    && ed.revision < |drafts| && ed.saved == drafts[ed.revision].document
    && (ed.attempt.Some? ==>
         var a := ed.attempt.value;
         a.id in issued && issued[a.id] == Request(e, Save(a.document), a.expected))
  }

  ghost predicate RequestGood(drafts: seq<Commit>, known: map<EditorId, set<nat>>, r: Request) {
    && r.author in known && r.expected in known[r.author]
    && r.expected < |drafts|
    && (r.op.Publish? ==> r.op.approved == drafts[r.expected].document)
  }

  ghost predicate ReceiptGood(s: Store, id: RequestId, c: Receipt) {
    && c.draftRevision == c.request.expected + (if c.request.op.Publish? then 0 else 1)
    && c.draftRevision < |s.drafts|
    && c.document == s.drafts[c.draftRevision].document
    && (!c.request.op.Publish? ==> s.drafts[c.draftRevision].origin == Some(id))
    && (c.request.op.Save? ==> c.document == c.request.op.document)
    && c.version < |s.versions|
    && (!c.request.op.Save? ==> s.versions[c.version].origin == Some(id))
    && (c.request.op.Restore? ==>
         var v := c.request.op.version; 1 <= v < c.version && c.document == s.versions[v].document)
  }

  ghost predicate CommitGood(s: Store, k: nat, c: Commit) {
    && c.origin.Some? && c.origin.value in s.receipts
    && s.receipts[c.origin.value].draftRevision == k
    && !s.receipts[c.origin.value].request.op.Publish?
  }

  ghost predicate VersionGood(s: Store, k: nat, v: Version) {
    && v.origin.Some? && v.origin.value in s.receipts
    && var c := s.receipts[v.origin.value];
       c.version == k && c.draftRevision == v.draft && c.document == v.document && !c.request.op.Save?
  }

  ghost predicate StoreGood(s: Store, issued: map<RequestId, Request>) {
    && s.drafts != [] && s.versions != []
    && (forall id {:trigger ReceiptGood(s, id, s.receipts[id])} :: id in s.receipts ==>
         id in issued && s.receipts[id].request == issued[id] && ReceiptGood(s, id, s.receipts[id]))
    && (forall k {:trigger CommitGood(s, k, s.drafts[k])} :: 1 <= k < |s.drafts| ==> CommitGood(s, k, s.drafts[k]))
    && (forall k {:trigger VersionGood(s, k, s.versions[k])} :: 1 <= k < |s.versions| ==>
         VersionGood(s, k, s.versions[k]))
  }

  ghost predicate EditorsGood(
      drafts: seq<Commit>, issued: map<RequestId, Request>, known: map<EditorId, set<nat>>,
      editors: map<EditorId, Editor>)
    requires known.Keys == editors.Keys
  {
    forall e {:trigger EditorGood(drafts, issued, known[e], e, editors[e])} ::
      e in editors ==> EditorGood(drafts, issued, known[e], e, editors[e])
  }

  ghost predicate RequestsGood(drafts: seq<Commit>, known: map<EditorId, set<nat>>, issued: map<RequestId, Request>) {
    forall id {:trigger RequestGood(drafts, known, issued[id])} :: id in issued ==>
      RequestGood(drafts, known, issued[id])
  }

  ghost predicate Good(w: World) {
    && WellFormed(w)
    && StoreGood(w.store, w.issued)
    && EditorsGood(w.store.drafts, w.issued, w.known, w.editors)
    && RequestsGood(w.store.drafts, w.known, w.issued)
  }

  lemma StartIsGood(document: Document)
    ensures Good(Start(document))
  {
  }

  lemma GoodIsKept(w: World, event: Event)
    requires Good(w)
    ensures Good(Next(w, event))
  {
    match event
    case Local(e, ev) => if Possible(w, e, ev) { EditorStepIsGood(w, e, ev); }
    case Deliver(c, acceptable) => if Arrives(w, c) { DeliveryIsGood(w, w.copies[c].id, acceptable); }
    case Resubmit(_) =>
    case TurnAway(_) =>
    case OpenEditor(e, k) => if e !in w.editors && k < |w.store.drafts| { OpeningIsGood(w, e, k); }
    case SubmitPublish(e, id) => if MaySubmit(w, e, id) {
      SubmissionIsGood(w, id, Request(e, Publish(w.editors[e].document), w.editors[e].revision));
    }
    case SubmitRestore(e, id, version) => if MaySubmit(w, e, id) {
      SubmissionIsGood(w, id, Request(e, Restore(version), w.editors[e].revision));
    }
  }

  lemma OpeningIsGood(w: World, e: EditorId, k: nat)
    requires Good(w) && e !in w.editors && k < |w.store.drafts|
    ensures Good(w.(editors := w.editors[e := Open(w.store.drafts[k].document, k)], known := w.known[e := {k}]))
  {
    var known := w.known[e := {k}];
    forall f | f in w.editors ensures EditorGood(w.store.drafts, w.issued, w.known[f], f, w.editors[f]) {}
    forall id | id in w.issued ensures RequestGood(w.store.drafts, known, w.issued[id]) {
      assert RequestGood(w.store.drafts, w.known, w.issued[id]);
    }
  }

  lemma SubmissionIsGood(w: World, id: RequestId, r: Request)
    requires Good(w) && MaySubmit(w, r.author, id) && !r.op.Save?
    requires r.expected == w.editors[r.author].revision
    requires r.op.Publish? ==> r.op.approved == w.editors[r.author].document
    ensures Good(w.(issued := w.issued[id := r]))
  {
    assert EditorGood(w.store.drafts, w.issued, w.known[r.author], r.author, w.editors[r.author]);
    var issued := w.issued[id := r];
    StoreStaysGood(w.store, w.issued, issued);
    forall e | e in w.editors ensures EditorGood(w.store.drafts, issued, w.known[e], e, w.editors[e]) {
      assert EditorGood(w.store.drafts, w.issued, w.known[e], e, w.editors[e]);
    }
    forall i | i in issued ensures RequestGood(w.store.drafts, w.known, issued[i]) {
      if i != id { assert RequestGood(w.store.drafts, w.known, w.issued[i]); }
    }
  }

  lemma EditorStepIsGood(w: World, e: EditorId, ev: EditorEvent)
    requires Good(w) && Possible(w, e, ev)
    ensures Good(WithEditor(w, e, Step(w.editors[e], ev).0))
  {
    var ed := w.editors[e];
    assert EditorGood(w.store.drafts, w.issued, w.known[e], e, ed);
    StepEffect(ed, ev);
    if ev.SaveSettled? && ev.reply.Answer? {
      assert ReceiptGood(w.store, ed.attempt.value.id, w.store.receipts[ed.attempt.value.id]);
    }
    ReplacedEditorIsGood(w, e, Step(ed, ev).0);
  }

  lemma ReplacedEditorIsGood(w: World, e: EditorId, ed: Editor)
    requires Good(w) && e in w.editors && Inv(ed)
    requires ed.revision < |w.store.drafts| && ed.saved == w.store.drafts[ed.revision].document
    requires ed.attempt.Some? && ed.attempt != w.editors[e].attempt ==> ed.attempt.value.id !in w.issued
    ensures Good(WithEditor(w, e, ed))
  {
    var issued, known := Issuing(w.issued, e, ed), w.known[e := w.known[e] + {ed.revision}];
    assert EditorGood(w.store.drafts, w.issued, w.known[e], e, w.editors[e]);
    OtherEditorsStayGood(w.store.drafts, w.issued, issued, w.known, w.editors, e, ed);
    StoreStaysGood(w.store, w.issued, issued);
    RequestsStayGood(w.store.drafts, w.known, known, w.issued, e, ed);
  }

  lemma OtherEditorsStayGood(
      drafts: seq<Commit>, issued: map<RequestId, Request>, more: map<RequestId, Request>,
      known: map<EditorId, set<nat>>, editors: map<EditorId, Editor>, e: EditorId, ed: Editor)
    requires known.Keys == editors.Keys && EditorsGood(drafts, issued, known, editors) && e in editors
    requires forall id :: id in issued ==> id in more && more[id] == issued[id]
    requires EditorGood(drafts, more, known[e] + {ed.revision}, e, ed)
    ensures EditorsGood(drafts, more, known[e := known[e] + {ed.revision}], editors[e := ed])
  {
    forall f | f in editors && f != e ensures EditorGood(drafts, more, known[f], f, editors[f]) {
      assert EditorGood(drafts, issued, known[f], f, editors[f]);
    }
  }

  lemma StoreStaysGood(s: Store, issued: map<RequestId, Request>, more: map<RequestId, Request>)
    requires StoreGood(s, issued)
    requires forall id :: id in issued ==> id in more && more[id] == issued[id]
    ensures StoreGood(s, more)
  {
    forall id | id in s.receipts
      ensures id in more && s.receipts[id].request == more[id] && ReceiptGood(s, id, s.receipts[id])
    {
      assert ReceiptGood(s, id, s.receipts[id]);
    }
  }

  lemma RequestsStayGood(
      drafts: seq<Commit>, known: map<EditorId, set<nat>>, more: map<EditorId, set<nat>>,
      issued: map<RequestId, Request>, e: EditorId, ed: Editor)
    requires RequestsGood(drafts, known, issued) && Inv(ed) && ed.revision < |drafts|
    requires (forall f :: f in known ==> f in more && known[f] <= more[f]) && e in more && ed.revision in more[e]
    ensures RequestsGood(drafts, more, Issuing(issued, e, ed))
  {
    forall id | id in Issuing(issued, e, ed) ensures RequestGood(drafts, more, Issuing(issued, e, ed)[id]) {
      if id in issued { assert RequestGood(drafts, known, issued[id]); }
    }
  }

  lemma MoreDraftsStayGood(w: World, drafts: seq<Commit>)
    requires Good(w) && w.store.drafts <= drafts
    ensures EditorsGood(drafts, w.issued, w.known, w.editors) && RequestsGood(drafts, w.known, w.issued)
  {
    forall e | e in w.editors ensures EditorGood(drafts, w.issued, w.known[e], e, w.editors[e]) {
      assert EditorGood(w.store.drafts, w.issued, w.known[e], e, w.editors[e]);
    }
    forall id | id in w.issued ensures RequestGood(drafts, w.known, w.issued[id]) {
      assert RequestGood(w.store.drafts, w.known, w.issued[id]);
    }
  }

  lemma DeliveryIsGood(w: World, id: RequestId, acceptable: bool)
    requires Good(w) && id in w.issued
    ensures Good(w.(store := Process(w.store, id, w.issued[id], acceptable).0))
  {
    assert RequestGood(w.store.drafts, w.known, w.issued[id]);
    DeliveryKeepsStore(w.store, w.issued, id, acceptable);
    ProcessAdds(w.store, id, w.issued[id], acceptable);
    MoreDraftsStayGood(w, Process(w.store, id, w.issued[id], acceptable).0.drafts);
  }

  lemma DeliveryKeepsStore(s: Store, issued: map<RequestId, Request>, id: RequestId, acceptable: bool)
    requires StoreGood(s, issued) && id in issued
    requires issued[id].op.Publish? ==> issued[id].expected < |s.drafts|
    ensures StoreGood(Process(s, id, issued[id], acceptable).0, issued)
  {
    var s' := Process(s, id, issued[id], acceptable).0;
    if s' != s {
      forall k | 1 <= k < |s'.drafts| ensures CommitGood(s', k, s'.drafts[k]) {
        if k < |s.drafts| { assert CommitGood(s, k, s.drafts[k]); }
      }
      forall k | 1 <= k < |s'.versions| ensures VersionGood(s', k, s'.versions[k]) {
        if k < |s.versions| { assert VersionGood(s, k, s.versions[k]); }
      }
      forall i | i in s'.receipts
        ensures i in issued && s'.receipts[i].request == issued[i] && ReceiptGood(s', i, s'.receipts[i])
      {
        if i != id { assert ReceiptGood(s, i, s.receipts[i]); }
      }
    }
  }

  // ---------------------------------------------------------------------------
  // What every run keeps
  // ---------------------------------------------------------------------------

  /** The world after any events at all, from a first draft. */
  ghost function After(first: Document, events: seq<Event>): (w: World)
    ensures WellFormed(w)
  {
    Run(Start(first), events)
  }

  lemma {:induction false} RunIsGood(w: World, events: seq<Event>)
    requires Good(w)
    ensures Good(Run(w, events))
    decreases |events|
  {
    if events != [] {
      GoodIsKept(w, events[0]);
      RunIsGood(Next(w, events[0]), events[1..]);
    }
  }

  lemma AfterIsGood(first: Document, events: seq<Event>)
    ensures Good(After(first, events))
  {
    StartIsGood(first);
    RunIsGood(Start(first), events);
  }

  /** A draft is written only by the delivery of a request, on top of the latest draft, by an
      editor that already had that draft; what it writes is what was asked for. */
  lemma NoLostUpdate(first: Document, events: seq<Event>, event: Event)
    requires Next(After(first, events), event).store.drafts != After(first, events).store.drafts
    ensures
      var w := After(first, events);
      var w' := Next(w, event);
      var latest := |w.store.drafts| - 1;
      && event.Deliver? && Arrives(w, event.c)
      && var id := w.copies[event.c].id;
         var request := w.issued[id];
         && id !in w.store.receipts
         && w'.store.drafts == w.store.drafts + [Commit(w'.store.drafts[latest + 1].document, Some(id))]
         && request.expected == latest && request.author in w.known && latest in w.known[request.author]
         && (request.op.Save? ==> w'.store.drafts[latest + 1].document == request.op.document)
  {
    AfterIsGood(first, events);
    if !event.Deliver? { OnlyDeliveryWrites(After(first, events), event); }
    DeliveryWritesOnTop(After(first, events), event.c, event.acceptable);
  }

  lemma DeliveryWritesOnTop(w: World, c: nat, acceptable: bool)
    requires Good(w) && Next(w, Deliver(c, acceptable)).store.drafts != w.store.drafts
    ensures Arrives(w, c)
    ensures
      var id, w' := w.copies[c].id, Next(w, Deliver(c, acceptable));
      var request, latest := w.issued[id], |w.store.drafts| - 1;
      && id !in w.store.receipts && |w'.store.drafts| == latest + 2
      && w'.store.drafts == w.store.drafts + [Commit(w'.store.drafts[latest + 1].document, Some(id))]
      && request.expected == latest && request.author in w.known && latest in w.known[request.author]
      && (request.op.Save? ==> w'.store.drafts[latest + 1].document == request.op.document)
  {
    var id := w.copies[c].id;
    ProcessWritesOnTop(w.store, id, w.issued[id], acceptable);
    assert RequestGood(w.store.drafts, w.known, w.issued[id]);
  }

  lemma ProcessWritesOnTop(s: Store, id: RequestId, r: Request, acceptable: bool)
    requires s.drafts != [] && s.versions != [] && Process(s, id, r, acceptable).0.drafts != s.drafts
    ensures
      var s', latest := Process(s, id, r, acceptable).0, |s.drafts| - 1;
      && id !in s.receipts && r.expected == latest && |s'.drafts| == latest + 2
      && s'.drafts == s.drafts + [Commit(s'.drafts[latest + 1].document, Some(id))]
      && (r.op.Save? ==> s'.drafts[latest + 1].document == r.op.document)
  {
  }

  /** However often requests are delivered and resent, each writes at most one draft and makes at
      most one version. */
  lemma EachRequestCommitsOnce(first: Document, events: seq<Event>, j: nat, k: nat)
    ensures
      var s := After(first, events).store;
      && (1 <= j < k < |s.drafts| ==> s.drafts[j].origin != s.drafts[k].origin)
      && (1 <= j < k < |s.versions| ==> s.versions[j].origin != s.versions[k].origin)
  {
    AfterIsGood(first, events);
    var s := After(first, events).store;
    if 1 <= j < k < |s.drafts| { assert CommitGood(s, j, s.drafts[j]) && CommitGood(s, k, s.drafts[k]); }
    if 1 <= j < k < |s.versions| { assert VersionGood(s, j, s.versions[j]) && VersionGood(s, k, s.versions[k]); }
  }

  /** What an editor believes is saved is the store's draft at the editor's revision, always. */
  lemma SavedIsTheStoredDraft(first: Document, events: seq<Event>, e: EditorId)
    requires e in After(first, events).editors
    ensures
      var w := After(first, events);
      var ed := w.editors[e];
      && ed.revision < |w.store.drafts| && ed.saved == w.store.drafts[ed.revision].document
      && (ed.attempt.Some? ==>
           var a := ed.attempt.value;
           a.expected == ed.revision && a.id in w.issued
           && w.issued[a.id] == Request(e, Save(a.document), ed.revision))
  {
    AfterIsGood(first, events);
    var w := After(first, events);
    assert EditorGood(w.store.drafts, w.issued, w.known[e], e, w.editors[e]);
  }

  /** An acknowledged save is a draft of its own: the one right after the draft it was based on. */
  lemma AcknowledgedSaveIsCommitted(first: Document, events: seq<Event>, e: EditorId, reply: Reply)
    requires Possible(After(first, events), e, SaveSettled(reply))
    requires reply.Answer? && SafeRevision(reply.draftRevision)
    ensures
      var w := After(first, events);
      var sent := w.editors[e].attempt.value;
      var ed := Next(w, Local(e, SaveSettled(reply))).editors[e];
      && ed.attempt.None? && ed.error.None?
      && ed.revision == sent.expected + 1 && ed.revision < |w.store.drafts|
      && w.store.drafts[ed.revision] == Commit(sent.document, Some(sent.id))
      && ed.saved == sent.document
  {
    AfterIsGood(first, events);
    var w := After(first, events);
    var sent := w.editors[e].attempt.value;
    assert EditorGood(w.store.drafts, w.issued, w.known[e], e, w.editors[e]);
    assert ReceiptGood(w.store, sent.id, w.store.receipts[sent.id]);
    assert Problem(sent, reply).None?;
  }

  /** When a flush resolves, what it returns is exactly what the store holds at that revision. */
  lemma FlushMeansStored(first: Document, events: seq<Event>, e: EditorId, ev: EditorEvent)
    requires Possible(After(first, events), e, ev)
    requires Step(After(first, events).editors[e], ev).1.Resolved?
    ensures
      var w := Next(After(first, events), Local(e, ev));
      var shown := Step(After(first, events).editors[e], ev).1.snapshot;
      && shown == Snapshot(w.editors[e]) && !shown.unsaved && !shown.inFlight && shown.error.None?
      && shown.revision < |w.store.drafts|
      && shown.document == w.store.drafts[shown.revision].document
  {
    AfterIsGood(first, events);
    GoodIsKept(After(first, events), Local(e, ev));
    var w := Next(After(first, events), Local(e, ev));
    assert EditorGood(w.store.drafts, w.issued, w.known[e], e, w.editors[e]);
  }

  /** What goes live is what its editor had on screen and flushed, or an earlier live version. */
  lemma PublishedIsApproved(first: Document, events: seq<Event>, k: nat)
    requires 1 <= k < |After(first, events).store.versions|
    ensures
      var w := After(first, events);
      var v := w.store.versions[k];
      && v.origin.Some? && v.origin.value in w.issued
      && match w.issued[v.origin.value].op
         case Publish(approved) => v.document == approved
         case Restore(n) => 1 <= n < k && v.document == w.store.versions[n].document
         case Save(_) => false
  {
    AfterIsGood(first, events);
    VersionIsApproved(After(first, events), k);
  }

  lemma VersionIsApproved(w: World, k: nat)
    requires Good(w) && 1 <= k < |w.store.versions|
    ensures
      var v := w.store.versions[k];
      && v.origin.Some? && v.origin.value in w.issued
      && match w.issued[v.origin.value].op
         case Publish(approved) => v.document == approved
         case Restore(n) => 1 <= n < k && v.document == w.store.versions[n].document
         case Save(_) => false
  {
    var v := w.store.versions[k];
    assert VersionGood(w.store, k, v);
    var id := v.origin.value;
    assert ReceiptGood(w.store, id, w.store.receipts[id]);
    assert RequestGood(w.store.drafts, w.known, w.issued[id]);
  }

  // ---------------------------------------------------------------------------
  // Refusals
  // ---------------------------------------------------------------------------

  /** A refusal by the store says exactly that the request has not gone through. */
  lemma StoreRefusalIsExact(first: Document, events: seq<Event>, id: RequestId, acceptable: bool)
    requires id in After(first, events).issued
    ensures
      var w := After(first, events);
      var (s, reply) := Process(w.store, id, w.issued[id], acceptable);
      reply.Committed? <==> id in s.receipts
  {
    AfterIsGood(first, events);
    GrantedIffRecorded(After(first, events).store, After(first, events).issued, id, acceptable);
  }

  lemma GrantedIffRecorded(s: Store, issued: map<RequestId, Request>, id: RequestId, acceptable: bool)
    requires StoreGood(s, issued) && id in issued
    ensures var (s', reply) := Process(s, id, issued[id], acceptable); reply.Committed? <==> id in s'.receipts
  {
    if id in s.receipts { assert ReceiptGood(s, id, s.receipts[id]); }
  }

  /** A request based on a draft that is no longer the latest. */
  ghost predicate Superseded(s: Store, issued: map<RequestId, Request>, id: RequestId) {
    id in issued && id !in s.receipts && issued[id].expected + 1 < |s.drafts|
  }

  /** A conflict reported by the store is final: no copy of that request goes through later. */
  lemma {:induction false} ConflictIsFinal(
      first: Document, events: seq<Event>, id: RequestId, acceptable: bool, later: seq<Event>)
    requires id in After(first, events).issued
    requires Process(After(first, events).store, id, After(first, events).issued[id], acceptable).1.Conflict?
    ensures id !in Run(After(first, events), later).store.receipts
  {
    AfterIsGood(first, events);
    ConflictMeansSuperseded(After(first, events), id, acceptable);
    SupersededForever(After(first, events), id, later);
  }

  lemma ConflictMeansSuperseded(w: World, id: RequestId, acceptable: bool)
    requires Good(w) && id in w.issued && Process(w.store, id, w.issued[id], acceptable).1.Conflict?
    ensures Superseded(w.store, w.issued, id)
  {
    GrantedIffRecorded(w.store, w.issued, id, acceptable);
    assert RequestGood(w.store.drafts, w.known, w.issued[id]);
  }

  lemma {:induction false} SupersededForever(w: World, id: RequestId, later: seq<Event>)
    requires WellFormed(w) && Superseded(w.store, w.issued, id)
    ensures Superseded(Run(w, later).store, Run(w, later).issued, id)
    decreases |later|
  {
    if later != [] {
      SupersededStays(w, id, later[0]);
      SupersededForever(Next(w, later[0]), id, later[1..]);
    }
  }

  lemma SupersededStays(w: World, id: RequestId, event: Event)
    requires WellFormed(w) && Superseded(w.store, w.issued, id)
    ensures Superseded(Next(w, event).store, Next(w, event).issued, id)
  {
    if event.Deliver? {
      if Arrives(w, event.c) {
        ProcessAdds(w.store, w.copies[event.c].id, w.issued[w.copies[event.c].id], event.acceptable);
      }
    } else {
      OnlyDeliveryWrites(w, event);
      RequestsStay(w, event, id);
    }
  }

  lemma OnlyDeliveryWrites(w: World, event: Event)
    requires WellFormed(w) && !event.Deliver?
    ensures Next(w, event).store == w.store
  {
  }

  lemma RequestsStay(w: World, event: Event, id: RequestId)
    requires WellFormed(w) && id in w.issued
    ensures id in Next(w, event).issued && Next(w, event).issued[id] == w.issued[id]
  {
  }

  lemma ProcessAdds(s: Store, id: RequestId, r: Request, acceptable: bool)
    requires s.drafts != [] && s.versions != []
    ensures var s' := Process(s, id, r, acceptable).0;
      && s.drafts <= s'.drafts && s.versions <= s'.versions
      && (s' != s ==> r.expected == |s.drafts| - 1 && s'.receipts.Keys == s.receipts.Keys + {id})
  {
  }

  /** Whether a request has gone through is decided by the draft after the one it is based on. */
  ghost predicate DecidedByNextDraft(s: Store, id: RequestId, expected: nat) {
    id in s.receipts <==> expected + 1 < |s.drafts| && s.drafts[expected + 1].origin == Some(id)
  }

  /** A request that writes a draft has gone through exactly when the draft after its own is its. */
  lemma CommittedIffNextDraft(s: Store, issued: map<RequestId, Request>, id: RequestId)
    requires StoreGood(s, issued) && id in issued && !issued[id].op.Publish?
    ensures DecidedByNextDraft(s, id, issued[id].expected)
  {
    var next := issued[id].expected + 1;
    if id in s.receipts { assert ReceiptGood(s, id, s.receipts[id]); }
    if next < |s.drafts| { assert CommitGood(s, next, s.drafts[next]); }
  }

  /** Whether an outstanding save has been committed is decided by one draft: the one right after
      the editor's own. An editor at the latest draft has nothing committed unseen, and a next draft
      with another document was not written by the outstanding save. */
  lemma OutstandingSaveIsCommittedIffNextDraftIsIts(first: Document, events: seq<Event>, e: EditorId)
    requires e in After(first, events).editors && After(first, events).editors[e].attempt.Some?
    ensures
      var s, ed := After(first, events).store, After(first, events).editors[e];
      var next := ed.revision + 1;
      && DecidedByNextDraft(s, ed.attempt.value.id, ed.revision)
      && (next == |s.drafts| ==> ed.attempt.value.id !in s.receipts)
      && (next < |s.drafts| && s.drafts[next].document != ed.attempt.value.document ==>
           ed.attempt.value.id !in s.receipts)
  {
    var w := After(first, events);
    SavedIsTheStoredDraft(first, events, e);
    AfterIsGood(first, events);
    var id := w.editors[e].attempt.value.id;
    CommittedIffNextDraft(w.store, w.issued, id);
    if id in w.store.receipts { assert ReceiptGood(w.store, id, w.store.receipts[id]); }
  }
}
