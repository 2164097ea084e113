/**
 The autosave protocol of one website editor, as a pure transition system.

 A document stands for its canonical JSON text, so comparing documents is comparing canonical
 forms. Two things the running queue keeps are deliberately absent from this state because
 they are functions of it: the save timer (`WantsTimer`) and the published snapshot
 (`Snapshot`). `AutosaveQueue` keeps both by hand and proves that it keeps them right.
 */
module EditorProtocol {
  import opened Options

  type Document(==, !new, 0)
  type RequestId = nat
  type FlushId = nat

  const MAX_SAFE_INTEGER := 9007199254740991

  /** One save request: its idempotency key, payload and the revision it was written against. */
  datatype Attempt = Attempt(id: RequestId, document: Document, expected: nat)

  /** Why a save failed, as far as the transport says. The queue's own checks carry neither field. */
  datatype Cause = Cause(status: Option<int>, code: string)
  const LOCAL_FAILURE := Cause(None, "")

  datatype Refusal = Refusal(conflict: bool, definitive: bool)

  function Classify(cause: Cause): Refusal {
    Refusal(
      cause.status == Some(409) || cause.code == "CONFLICT",
      cause.status.Some? && 400 <= cause.status.value < 500 && cause.status.value != 408 && cause.status.value != 429)
  }

  /** A failure after which the write may still have been committed. */
  predicate Ambiguous(cause: Cause) {
    !Classify(cause).conflict && !Classify(cause).definitive
  }

  /** The single save in the air. `Settled` is the moment between the response handler and its
      final step, in which other code may run while the save still counts as active. */
  datatype Flight = Idle | InFlight | Settled(failure: Option<Cause>)

  /** A flush that has been called and has not yet returned. */
  datatype Stage = Waiting | Woken(failure: Option<Cause>)

  /** A document of `None` is one the validator refuses. */
  datatype Reply = Answer(document: Option<Document>, draftRevision: int) | Failure(cause: Cause)

  datatype Editor = Editor(
    document: Document,
    saved: Document,
    revision: nat,
    error: Option<Cause>,
    conflict: bool,
    suspended: bool,
    disposed: bool,
    flight: Flight,
    attempt: Option<Attempt>,
    flushing: nat,
    flushes: map<FlushId, Stage>)

  datatype Status = Saved | HasEdits | Saving | Failed | Conflicted | Suspended | Closed

  datatype SnapshotView = SnapshotView(
    document: Document, revision: nat, error: Option<Cause>, unsaved: bool, inFlight: bool,
    suspended: bool, status: Status)

  datatype Reason = ClosedEditor | ChangedElsewhere | SaveFailed(cause: Cause)
  datatype FlushOutcome = Pending | Resolved(snapshot: SnapshotView) | Rejected(reason: Reason)

  datatype Outcome = Done | RefusedClosed | RefusedSuspended | RefusedBusy | RefusedRevision
                   | RefusedStale | RefusedInvalid

  predicate SafeRevision(revision: int) {
    0 <= revision <= MAX_SAFE_INTEGER
  }

  predicate Dirty(e: Editor) {
    e.document != e.saved || e.attempt.Some?
  }

  predicate WantsTimer(e: Editor) {
    && !e.disposed && !e.suspended && !e.conflict && e.error.None?
    && e.flight.Idle? && e.flushing == 0 && Dirty(e)
  }

  function StatusOf(e: Editor): Status {
    if e.disposed then Closed
    else if e.conflict then Conflicted
    else if e.error.Some? then Failed
    else if !e.flight.Idle? then Saving
    else if e.suspended then Suspended
    else if Dirty(e) then HasEdits
    else Saved
  }

  function Snapshot(e: Editor): SnapshotView {
    SnapshotView(e.document, e.revision, e.error, Dirty(e), !e.flight.Idle?, e.suspended, StatusOf(e))
  }

  /** Everything displayed is acknowledged and nothing is outstanding. */
  predicate Clean(e: Editor) {
    e.flight.Idle? && e.attempt.None? && e.error.None? && !e.conflict && e.document == e.saved
  }

  ghost predicate NobodyWaits(flushes: map<FlushId, Stage>) {
    forall f :: f in flushes ==> flushes[f].Woken?
  }

  ghost predicate Inv(e: Editor) {
    && (e.attempt.Some? ==> e.attempt.value.expected == e.revision)
    && (e.flight.InFlight? ==> e.attempt.Some? && e.error.None? && !e.conflict)
    && (e.flight == Settled(None) ==> e.attempt.None? && e.error.None? && !e.conflict)
    && (e.conflict ==> e.error.Some? && e.attempt.None?)
    && (e.error.Some? ==> e.conflict == Classify(e.error.value).conflict)
    && (e.error.Some? && Ambiguous(e.error.value) ==> e.attempt.Some?)
    && (e.flight.Idle? ==> NobodyWaits(e.flushes))
    && e.flushing == |e.flushes|
  }

  // ---------------------------------------------------------------------------
  // Steps
  // ---------------------------------------------------------------------------

  function Open(document: Document, revision: nat): (r: Editor)
    ensures Inv(r) && Clean(r) && !WantsTimer(r)
  {
    Editor(document, document, revision, None, false, false, false, Idle, None, 0, map[])
  }

  function EditOutcome(e: Editor, next: Option<Document>): Outcome {
    if e.disposed then RefusedClosed
    else if e.suspended then RefusedSuspended
    else if next.None? then RefusedInvalid
    else Done
  }

  function Edit(e: Editor, next: Option<Document>): (r: Editor)
    requires Inv(e)
    ensures Inv(r)
    ensures r.attempt == e.attempt && r.saved == e.saved && r.revision == e.revision
  {
    if !EditOutcome(e, next).Done? || next.value == e.document then e
    else e.(document := next.value, error := if e.attempt.None? && !e.conflict then None else e.error)
  }

  /** Nothing displayed or acknowledged changes, and a request is at most started. */
  predicate OnlyStarts(e: Editor, r: Editor, id: RequestId) {
    && r.document == e.document && r.saved == e.saved && r.revision == e.revision
    && (r.attempt == e.attempt
        || (e.attempt.None? && r.attempt == Some(Attempt(id, e.document, e.revision)) && r.flight.InFlight?))
  }

  /** Starts the save, reusing an unresolved attempt unchanged. */
  function Send(e: Editor, id: RequestId): (r: Editor)
    requires Inv(e) && e.flight.Idle? && e.error.None? && !e.conflict && Dirty(e)
    ensures Inv(r) && r.flight.InFlight? && r.attempt.Some? && OnlyStarts(e, r, id)
  {
    e.(flight := InFlight,
       attempt := if e.attempt.Some? then e.attempt else Some(Attempt(id, e.document, e.revision)))
  }

  /** What the queue itself finds wrong with a response, or the failure it was given. */
  function Problem(sent: Attempt, reply: Reply): Option<Cause> {
    match reply
    case Failure(cause) => Some(cause)
    case Answer(document, draftRevision) =>
      if SafeRevision(draftRevision) && sent.expected <= draftRevision && document.Some? then None
      else Some(LOCAL_FAILURE)
  }

  function Acknowledge(e: Editor, document: Document, revision: nat): (r: Editor)
    requires Inv(e) && e.flight.InFlight? && e.revision <= revision
    ensures Inv(r) && r.flight == Settled(None)
    // A newer edit survives the acknowledgement of an older one.
    ensures e.document != e.attempt.value.document ==> r.document == e.document
  {
    e.(revision := revision, saved := document,
       document := if e.document == e.attempt.value.document then document else e.document,
       attempt := None, error := None, flight := Settled(None))
  }

  function Fail(e: Editor, cause: Cause): (r: Editor)
    requires Inv(e) && e.flight.InFlight?
    ensures Inv(r) && r.flight == Settled(Some(cause))
    // A write that may have committed keeps its key and payload.
    ensures r.attempt.Some? <==> Ambiguous(cause)
    ensures r.attempt.Some? ==> r.attempt == e.attempt
  {
    e.(error := Some(cause), conflict := Classify(cause).conflict,
       attempt := if Ambiguous(cause) then e.attempt else None, flight := Settled(Some(cause)))
  }

  function Settle(e: Editor, reply: Reply): (r: Editor)
    requires Inv(e) && e.flight.InFlight?
    ensures Inv(r) && r.flight.Settled? && e.revision <= r.revision
  {
    match Problem(e.attempt.value, reply)
    case None => Acknowledge(e, reply.document.value, reply.draftRevision)
    case Some(cause) => Fail(e, cause)
  }

  function WakeAll(flushes: map<FlushId, Stage>, failure: Option<Cause>): (r: map<FlushId, Stage>)
    ensures |r| == |flushes| && NobodyWaits(r)
  {
    SameSize(flushes, map f | f in flushes :: if flushes[f].Waiting? then Woken(failure) else flushes[f]);
    map f | f in flushes :: if flushes[f].Waiting? then Woken(failure) else flushes[f]
  }

  /** The last step of a save: the slot is free and every flush waiting on it may continue. */
  function Finish(e: Editor): (r: Editor)
    requires Inv(e) && e.flight.Settled?
    ensures Inv(r) && r.flight.Idle?
  {
    e.(flight := Idle, flushes := WakeAll(e.flushes, e.flight.failure))
  }

  /** A flush that starts holds the timer back; one that returns no longer does. */
  function Enter(e: Editor, f: FlushId): (r: Editor)
    requires Inv(e) && f !in e.flushes
    ensures Inv(r) && f in r.flushes && Leave(r, f) == e
  {
    assert e.flushes[f := Woken(None)] - {f} == e.flushes;
    e.(flushing := e.flushing + 1, flushes := e.flushes[f := Woken(None)])
  }

  function Leave(e: Editor, f: FlushId): (r: Editor)
    requires Inv(e) && f in e.flushes
    ensures Inv(r)
  {
    assert (e.flushes - {f}).Keys == e.flushes.Keys - {f};
    assert |(e.flushes - {f}).Keys| == |e.flushes - {f}|;
    e.(flushing := e.flushing - 1, flushes := e.flushes - {f})
  }

  function Wait(e: Editor, f: FlushId): (r: Editor)
    requires Inv(e) && f in e.flushes && !e.flight.Idle?
    ensures Inv(r)
  {
    SameSize(e.flushes, e.flushes[f := Waiting]);
    e.(flushes := e.flushes[f := Waiting])
  }

  lemma SameSize<K, V>(a: map<K, V>, b: map<K, V>)
    requires a.Keys == b.Keys
    ensures |a| == |b|
  {
    assert |a.Keys| == |a| && |b.Keys| == |b|;
  }

  function Stop(e: Editor): Reason {
    if e.error.Some? then SaveFailed(e.error.value) else ChangedElsewhere
  }

  /** One pass of the flush loop, from its guard to the next wait or to its return. */
  function FlushPass(e: Editor, f: FlushId, id: RequestId): (r: (Editor, FlushOutcome))
    requires Inv(e) && f in e.flushes
    ensures Inv(r.0)
    ensures OnlyStarts(e, r.0, id)
    ensures r.1.Pending? ==> !r.0.flight.Idle?
    ensures !r.1.Pending? ==> r.0 == Leave(e, f)
    ensures r.1.Resolved? ==> Clean(r.0) && !r.0.disposed && r.1.snapshot == Snapshot(r.0)
  {
    if e.disposed then (Leave(e, f), Rejected(ClosedEditor))
    else if e.conflict || e.error.Some? then (Leave(e, f), Rejected(Stop(e)))
    else if !e.flight.Idle? then (Wait(e, f), Pending)
    else if Dirty(e) then (Wait(Send(e, id), f), Pending)
    else (Leave(e, f), Resolved(Snapshot(Leave(e, f))))
  }

  function FlushCall(e: Editor, f: FlushId, id: RequestId): (r: (Editor, FlushOutcome))
    requires Inv(e) && f !in e.flushes
    ensures Inv(r.0)
    ensures OnlyStarts(e, r.0, id)
    ensures r.1.Resolved? ==> Clean(r.0) && !r.0.disposed && r.1.snapshot == Snapshot(r.0)
    ensures !r.1.Pending? ==> r.0 == e
  {
    if e.disposed then (e, Rejected(ClosedEditor)) else FlushPass(Enter(e, f), f, id)
  }

  function FlushResume(e: Editor, f: FlushId, id: RequestId): (r: (Editor, FlushOutcome))
    requires Inv(e) && f in e.flushes && e.flushes[f].Woken?
    ensures Inv(r.0)
    ensures OnlyStarts(e, r.0, id)
    ensures r.1.Resolved? ==> Clean(r.0) && !r.0.disposed && r.1.snapshot == Snapshot(r.0)
  {
    match e.flushes[f].failure
    case Some(cause) => (Leave(e, f), Rejected(SaveFailed(cause)))
    case None => FlushPass(e, f, id)
  }

  function Retry(e: Editor, f: FlushId, id: RequestId): (r: (Editor, FlushOutcome))
    requires Inv(e) && f !in e.flushes
    ensures Inv(r.0)
    ensures OnlyStarts(e, r.0, id)
    ensures r.1.Resolved? ==> Clean(r.0) && !r.0.disposed && r.1.snapshot == Snapshot(r.0)
  {
    if e.disposed then (e, Rejected(ClosedEditor))
    else if e.conflict then (e, Rejected(Stop(e)))
    else FlushCall(e.(error := None), f, id)
  }

  function AcceptOutcome(e: Editor, document: Option<Document>, revision: int): Outcome {
    if e.disposed then RefusedClosed
    else if !e.flight.Idle? then RefusedBusy
    else if !SafeRevision(revision) then RefusedRevision
    else if revision < e.revision then RefusedStale
    else if document.None? then RefusedInvalid
    else Done
  }

  /** Adopts a version fetched from the server, discarding or keeping the local document. */
  function Adopt(e: Editor, document: Document, revision: nat, keepLocal: bool): (r: Editor)
    requires Inv(e) && e.flight.Idle? && e.revision <= revision
    ensures Inv(r)
    ensures !keepLocal ==> Clean(r)
  {
    e.(saved := document, revision := revision, document := if keepLocal then e.document else document,
       attempt := None, error := None, conflict := false)
  }

  function Accept(e: Editor, document: Option<Document>, revision: int, keepLocal: bool): (r: Editor)
    requires Inv(e)
    ensures Inv(r) && e.revision <= r.revision
  {
    if AcceptOutcome(e, document, revision).Done? then Adopt(e, document.value, revision, keepLocal) else e
  }

  function SetSuspended(e: Editor, on: bool): Editor {
    if e.disposed then e else e.(suspended := on)
  }

  // ---------------------------------------------------------------------------
  // Any step
  // ---------------------------------------------------------------------------

  datatype EditorEvent =
    | Edited(next: Option<Document>)
    | TimerFired(id: RequestId)
    | SaveSettled(reply: Reply)
    | SaveFinished
    | FlushCalled(f: FlushId, id: RequestId)
    | FlushResumed(f: FlushId, id: RequestId)
    | RetryCalled(f: FlushId, id: RequestId)
    | Accepted(document: Option<Document>, revision: int, keepLocal: bool)
    | SuspendCalled
    | ResumeCalled
    | DisposeCalled

  /** Whether the event can happen now: a timer fires only when armed, a save settles only when sent. */
  predicate Enabled(e: Editor, ev: EditorEvent) {
    match ev
    case TimerFired(_) => WantsTimer(e)
    case SaveSettled(_) => e.flight.InFlight?
    case SaveFinished => e.flight.Settled?
    case FlushCalled(f, _) => f !in e.flushes
    case FlushResumed(f, _) => f in e.flushes && e.flushes[f].Woken?
    case RetryCalled(f, _) => f !in e.flushes
    case _ => true
  }

  /** The state after an event, and what a flush that ran in it returned. */
  function Step(e: Editor, ev: EditorEvent): (r: (Editor, FlushOutcome))
    requires Inv(e) && Enabled(e, ev)
    ensures Inv(r.0)
    // The acknowledged revision never goes back.
    ensures e.revision <= r.0.revision
    // Whichever call it was, a flush that resolves leaves nothing outstanding.
    ensures r.1.Resolved? ==> Clean(r.0) && !r.0.disposed && r.1.snapshot == Snapshot(r.0)
  {
    match ev
    case Edited(next) => (Edit(e, next), Pending)
    case TimerFired(id) => (Send(e, id), Pending)
    case SaveSettled(reply) => (Settle(e, reply), Pending)
    case SaveFinished => (Finish(e), Pending)
    case FlushCalled(f, id) => FlushCall(e, f, id)
    case FlushResumed(f, id) => FlushResume(e, f, id)
    case RetryCalled(f, id) => Retry(e, f, id)
    case Accepted(document, revision, keepLocal) => (Accept(e, document, revision, keepLocal), Pending)
    case SuspendCalled => (SetSuspended(e, true), Pending)
    case ResumeCalled => (SetSuspended(e, false), Pending)
    case DisposeCalled => (e.(disposed := true), Pending)
  }

  /** The key a step would use if it had to start a new request. */
  function FreshId(ev: EditorEvent): RequestId {
    match ev
    case TimerFired(id) => id
    case FlushCalled(_, id) => id
    case FlushResumed(_, id) => id
    case RetryCalled(_, id) => id
    case _ => 0
  }

  predicate Loads(e: Editor, ev: EditorEvent) {
    || (ev.Accepted? && AcceptOutcome(e, ev.document, ev.revision).Done?)
    || (ev.SaveSettled? && ev.reply.Answer? && e.attempt.Some? && Problem(e.attempt.value, ev.reply).None?)
  }

  /** Only an answer or an accepted version changes the acknowledged revision and document. Any
      other step keeps the outstanding request, drops it, or starts one against that revision. */
  lemma StepEffect(e: Editor, ev: EditorEvent)
    requires Inv(e) && Enabled(e, ev)
    ensures var r := Step(e, ev).0;
      if Loads(e, ev) then
        && r.attempt.None?
        && (ev.Accepted? ==> r.revision == ev.revision && Some(r.saved) == ev.document)
        && (ev.SaveSettled? ==> r.revision == ev.reply.draftRevision && Some(r.saved) == ev.reply.document)
      else
        && r.revision == e.revision && r.saved == e.saved
        && (r.attempt in {e.attempt, None}
            || (e.attempt.None? && r.attempt == Some(Attempt(FreshId(ev), e.document, e.revision)) && r.flight.InFlight?
                && (ev.TimerFired? || ev.FlushCalled? || ev.FlushResumed? || ev.RetryCalled?)))
  {
    match ev case _ =>
  }

  /** Only an answer or a failure ends a save in the air. */
  lemma FlightIsKept(e: Editor, ev: EditorEvent)
    requires Inv(e) && Enabled(e, ev) && e.flight.InFlight? && !ev.SaveSettled?
    ensures var r := Step(e, ev).0; r.flight.InFlight? && r.attempt == e.attempt
  {
    match ev case _ =>
  }

  /** Of the attempt whose save has ended, only an ambiguous failure leaves anything. */
  lemma FlightEnds(e: Editor, reply: Reply)
    requires Inv(e) && e.flight.InFlight?
    ensures var r, problem := Step(e, SaveSettled(reply)).0, Problem(e.attempt.value, reply);
      r.flight.Settled? && r.attempt == if problem.Some? && Ambiguous(problem.value) then e.attempt else None
  {
  }

  /** With no save in the air, one is at most started, for the attempt there is or for a new one. */
  lemma FlightStarts(e: Editor, ev: EditorEvent)
    requires Inv(e) && Enabled(e, ev) && !e.flight.InFlight?
    ensures var r := Step(e, ev).0;
      if !r.flight.InFlight? then r.attempt in {e.attempt, None}
      else
        && r.attempt.Some?
        && if e.attempt.Some? then r.attempt == e.attempt
           else
             && r.attempt.value.id == FreshId(ev)
             && (ev.TimerFired? || ev.FlushCalled? || ev.FlushResumed? || ev.RetryCalled?)
  {
    StepEffect(e, ev);
  }

  /** What is displayed changes only by an edit, by the acknowledgement of exactly what is
      displayed, or by an explicit reload. */
  lemma DisplayedDocumentIsKept(e: Editor, ev: EditorEvent)
    requires Inv(e) && Enabled(e, ev)
    requires Step(e, ev).0.document != e.document
    ensures
      || (ev.Edited? && !e.suspended && !e.disposed && ev.next == Some(Step(e, ev).0.document))
      || (ev.SaveSettled? && Problem(e.attempt.value, ev.reply).None? && e.attempt.value.document == e.document)
      || (ev.Accepted? && !ev.keepLocal && ev.document == Some(Step(e, ev).0.document))
  {
    match ev case _ =>
  }

  /** An acknowledgement of an older edit leaves the newer one displayed, and it counts as
      unsaved exactly when the acknowledged document is not the displayed one. */
  lemma OlderAcknowledgementKeepsNewerEdit(e: Editor, reply: Reply)
    requires Inv(e) && e.flight.InFlight? && Problem(e.attempt.value, reply).None?
    requires e.document != e.attempt.value.document
    ensures var r := Step(e, SaveSettled(reply)).0;
      && r.document == e.document && r.saved == reply.document.value
      && (Dirty(r) <==> e.document != reply.document.value)
  {
    assert Settle(e, reply).attempt.None?;
  }

  /** An outstanding attempt ends only by being answered, refused for certain, or superseded by
      an explicit reload; every other step keeps its key, payload and expected revision. */
  lemma AttemptSurvives(e: Editor, ev: EditorEvent)
    requires Inv(e) && Enabled(e, ev) && e.attempt.Some?
    ensures
      || Step(e, ev).0.attempt == e.attempt
      || (Step(e, ev).0.attempt.None? &&
           ((ev.Accepted? && AcceptOutcome(e, ev.document, ev.revision).Done?)
            || (ev.SaveSettled? && (Problem(e.attempt.value, ev.reply).None?
                                   || !Ambiguous(Problem(e.attempt.value, ev.reply).value)))))
  {
    match ev case _ =>
  }

  /** Every unsaved edit has a next step or a stated reason for having none. */
  lemma UnsavedEditHasANextStep(e: Editor)
    requires Inv(e) && Dirty(e)
    ensures
      || WantsTimer(e)
      || !e.flight.Idle?
      || (exists f :: f in e.flushes && e.flushes[f].Woken?)
      || StatusOf(e) in {Closed, Conflicted, Failed, Suspended}
  {
    if e.flushing != 0 {
      assert |e.flushes.Keys| == |e.flushes|;
      var f :| f in e.flushes.Keys;
      assert e.flushes[f].Waiting? || e.flushes[f].Woken?;
    }
  }
}
