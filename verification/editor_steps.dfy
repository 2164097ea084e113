/** What each step of an editor does, said of the editor before it and of nothing else. */
module EditorSteps {
  import opened Options
  import opened EditorProtocol

  // ---------------------------------------------------------------------------
  // Edits
  // ---------------------------------------------------------------------------

  /** An edit of an open editor is displayed at once, whatever save is in the air. It clears an
      error exactly when there is no attempt to resolve and no conflict, and touches nothing else. */
  lemma EditIsAdopted(e: Editor, d: Document)
    requires Inv(e) && !e.disposed && !e.suspended
    ensures EditOutcome(e, Some(d)) == Done
    ensures
      var r := Step(e, Edited(Some(d))).0;
      && r.document == d && r == e.(document := d, error := r.error)
      && (d == e.document ==> r.error == e.error)
      && (d != e.document && e.error.Some? ==> (r.error.None? <==> e.attempt.None? && !e.conflict))
      && (r.error.Some? ==> r.error == e.error)
  {
  }

  /** An edit is refused exactly by an editor that is closed or suspended, or for not being valid. */
  lemma EditIsRefusedExactlyWhen(e: Editor, next: Option<Document>)
    requires Inv(e)
    ensures EditOutcome(e, next) != Done <==> e.disposed || e.suspended || next.None?
    ensures EditOutcome(e, next) != Done ==> Step(e, Edited(next)).0 == e
  {
  }

  /** The editor after some steps; a step that cannot be made changes nothing. */
  ghost function After(e: Editor, events: seq<EditorEvent>): (r: Editor)
    requires Inv(e)
    ensures Inv(r)
    decreases |events|
  {
    if events == [] then e
    else After(if Enabled(e, events[0]) then Step(e, events[0]).0 else e, events[1..])
  }

  /** `d` is displayed, or all that is displayed is acknowledged. */
  predicate ShownOrAcknowledged(e: Editor, d: Document) {
    e.document == d || (e.document == e.saved && e.attempt.None?)
  }

  lemma StepKeepsShown(e: Editor, d: Document, ev: EditorEvent)
    requires Inv(e) && Enabled(e, ev) && !ev.Edited? && !ev.Accepted? && ShownOrAcknowledged(e, d)
    ensures ShownOrAcknowledged(Step(e, ev).0, d)
  {
    match ev case _ =>
  }

  lemma {:induction false} StepsKeepShown(e: Editor, d: Document, events: seq<EditorEvent>)
    requires Inv(e) && ShownOrAcknowledged(e, d)
    requires forall ev :: ev in events ==> !ev.Edited? && !ev.Accepted?
    ensures ShownOrAcknowledged(After(e, events), d)
    decreases |events|
  {
    if events != [] {
      assert events[0] in events;
      if Enabled(e, events[0]) { StepKeepsShown(e, d, events[0]); }
      StepsKeepShown(if Enabled(e, events[0]) then Step(e, events[0]).0 else e, d, events[1..]);
    }
  }

  /** No edit is lost: through any saves, failures, flushes and suspensions it stays displayed until
      everything displayed is acknowledged, or until the next edit or loaded version. */
  lemma EditStaysUntilAcknowledged(e: Editor, d: Document, events: seq<EditorEvent>)
    requires Inv(e) && !e.disposed && !e.suspended
    requires forall ev :: ev in events ==> !ev.Edited? && !ev.Accepted?
    ensures
      var r := After(Step(e, Edited(Some(d))).0, events);
      r.document == d || (r.document == r.saved && r.attempt.None?)
  {
    EditIsAdopted(e, d);
    StepsKeepShown(Step(e, Edited(Some(d))).0, d, events);
  }

  // ---------------------------------------------------------------------------
  // The end of a save
  // ---------------------------------------------------------------------------

  /** Which failures leave open whether the save was taken: those without a status, those of the
      server, a timeout and a rate limit, unless they say there is a conflict. */
  lemma AmbiguousExactlyWhen(cause: Cause)
    ensures Ambiguous(cause) <==>
      cause.code != "CONFLICT" && match cause.status
        case None => true
        case Some(n) => n < 400 || n > 499 || n == 408 || n == 429
    ensures Classify(cause).conflict <==> cause.status == Some(409) || cause.code == "CONFLICT"
  {
  }

  /** What an editor takes for an acknowledgement. */
  predicate Acknowledges(e: Editor, reply: Reply) {
    && reply.Answer? && reply.document.Some?
    && 0 <= reply.draftRevision <= 9007199254740991 && e.revision <= reply.draftRevision
  }

  /** A save ends without an error exactly on a valid answer that is no older than the editor. What is
      displayed becomes the server's version of it if it is what was sent, and stays otherwise. */
  lemma SaveEndsWell(e: Editor, reply: Reply)
    requires Inv(e) && e.flight.InFlight?
    ensures
      var r := Step(e, SaveSettled(reply)).0;
      && (r.error.None? <==> Acknowledges(e, reply))
      && (Acknowledges(e, reply) ==>
           var shown := if e.document == e.attempt.value.document then reply.document.value else e.document;
           r == e.(document := shown, saved := reply.document.value, revision := reply.draftRevision,
                   attempt := None, flight := Settled(None)))
  {
  }

  /** Otherwise it is reported, nothing displayed or acknowledged changes, and the attempt is kept
      exactly when it may have been taken. */
  lemma SaveEndsBadly(e: Editor, reply: Reply)
    requires Inv(e) && e.flight.InFlight? && !Acknowledges(e, reply)
    ensures
      var r := Step(e, SaveSettled(reply)).0;
      var cause := if reply.Failure? then reply.cause else Cause(None, "");
      && r == e.(error := Some(cause), conflict := r.conflict, attempt := r.attempt, flight := Settled(Some(cause)))
      && (r.conflict <==> cause.status == Some(409) || cause.code == "CONFLICT")
      && r.attempt == (if Ambiguous(cause) then e.attempt else None)
  {
  }

  /** The last step of a save frees the editor for the next and wakes exactly the flushes that wait. */
  lemma SaveIsOver(e: Editor)
    requires Inv(e) && e.flight.Settled?
    ensures
      var r := Step(e, SaveFinished).0;
      && r == e.(flight := Idle, flushes := r.flushes) && r.flushes.Keys == e.flushes.Keys
      && forall f :: f in e.flushes ==>
           r.flushes[f] == if e.flushes[f].Waiting? then Woken(e.flight.failure) else e.flushes[f]
  {
  }

  // ---------------------------------------------------------------------------
  // Flushes and retries
  // ---------------------------------------------------------------------------

  /** What an editor lets a flush do that finds it so. */
  function FlushVerdict(e: Editor): FlushOutcome {
    if e.disposed then Rejected(ClosedEditor)
    else if e.error.Some? then Rejected(SaveFailed(e.error.value))
    else if Clean(e) then Resolved(Snapshot(e))
    else Pending
  }

  /** A save is in the air or just over, and `f` waits for it; a new one carries the attempt there
      was, or what is displayed. */
  predicate WaitsForSave(e: Editor, r: Editor, f: FlushId, id: RequestId) {
    && f in r.flushes && r.flushes[f] == Waiting && !r.flight.Idle?
    && (!e.flight.Idle? ==> r.flight == e.flight && r.attempt == e.attempt)
    && (e.flight.Idle? ==>
         && r.flight.InFlight?
         && r.attempt == if e.attempt.Some? then e.attempt else Some(Attempt(id, e.document, e.revision)))
    && r == e.(flight := r.flight, attempt := r.attempt, flushing := e.flushing + 1, flushes := e.flushes[f := Waiting])
  }

  /** A flush returns at once exactly when the editor is closed, has failed or has nothing to save. */
  lemma FlushDecides(e: Editor, f: FlushId, id: RequestId)
    requires Inv(e) && f !in e.flushes
    ensures
      var (r, outcome) := Step(e, FlushCalled(f, id));
      && outcome == FlushVerdict(e)
      && (if outcome.Pending? then WaitsForSave(e, r, f, id) else r == e)
  {
    if !e.disposed { assert Leave(Enter(e, f), f) == e; }
  }

  /** A woken flush passes on the failure that woke it, and otherwise decides anew. */
  lemma WokenFlushDecides(e: Editor, f: FlushId, id: RequestId)
    requires Inv(e) && f in e.flushes && e.flushes[f].Woken?
    ensures
      var (r, outcome) := Step(e, FlushResumed(f, id));
      var left := Leave(e, f);
      && outcome == (match e.flushes[f].failure
           case Some(cause) => Rejected(SaveFailed(cause))
           case None => FlushVerdict(left))
      && (if outcome.Pending? then WaitsForSave(left, r, f, id) else r == left)
  {
    assert Leave(e, f).flushes[f := Waiting] == e.flushes[f := Waiting];
  }

  /** A retry of an editor in conflict is refused; any other forgets the error and flushes, so that an
      attempt there was is sent again as it was. */
  lemma RetryDecides(e: Editor, f: FlushId, id: RequestId)
    requires Inv(e) && f !in e.flushes
    ensures
      var (r, outcome) := Step(e, RetryCalled(f, id));
      if e.disposed || e.conflict then
        && outcome == Rejected(if e.disposed then ClosedEditor else SaveFailed(e.error.value))
        && r == e
      else
        && outcome == FlushVerdict(e.(error := None))
        && (if outcome.Pending? then WaitsForSave(e.(error := None), r, f, id) else r == e.(error := None))
  {
    if !e.disposed && !e.conflict { FlushDecides(e.(error := None), f, id); }
  }

  // ---------------------------------------------------------------------------
  // Loading, suspending, closing
  // ---------------------------------------------------------------------------

  /** A version is taken in exactly by an open, idle editor that is no newer, and then the error, the
      conflict and the attempt are gone; a reload displays it, a reapply keeps what is displayed. */
  lemma VersionIsTakenExactlyWhen(e: Editor, document: Option<Document>, revision: int, keepLocal: bool)
    requires Inv(e)
    ensures
      var r := Step(e, Accepted(document, revision, keepLocal)).0;
      var taken := !e.disposed && e.flight.Idle? && document.Some? && e.revision <= revision <= 9007199254740991;
      && (AcceptOutcome(e, document, revision) == Done <==> taken)
      && (!taken ==> r == e)
      && (taken ==>
           r == e.(document := if keepLocal then e.document else document.value, saved := document.value,
                   revision := revision, error := None, conflict := false, attempt := None))
  {
  }

  /** Suspending changes nothing else and is undone by resuming; a closed editor does neither. */
  lemma ResumeUndoesSuspend(e: Editor)
    requires Inv(e)
    ensures
      var suspended := Step(e, SuspendCalled).0;
      && suspended == (if e.disposed then e else e.(suspended := true))
      && Step(suspended, ResumeCalled).0 == (if e.disposed then e else e.(suspended := false))
      && !WantsTimer(e.(suspended := true))
  {
  }

  /** Closing changes nothing else, and a closed editor refuses every call for good. */
  lemma {:induction false} ClosedForGood(e: Editor, events: seq<EditorEvent>)
    requires Inv(e) && e.disposed
    ensures
      var r := After(e, events);
      && r.disposed && StatusOf(r) == Closed && !WantsTimer(r)
      && forall next :: EditOutcome(r, next) == RefusedClosed
    decreases |events|
  {
    if events != [] {
      if Enabled(e, events[0]) { ClosedStaysClosed(e, events[0]); }
      ClosedForGood(if Enabled(e, events[0]) then Step(e, events[0]).0 else e, events[1..]);
    }
  }

  lemma ClosedStaysClosed(e: Editor, ev: EditorEvent)
    requires Inv(e) && Enabled(e, ev)
    ensures e.disposed ==> Step(e, ev).0.disposed
    ensures ev.DisposeCalled? ==> Step(e, ev).0 == e.(disposed := true)
  {
    match ev case _ =>
  }

  // ---------------------------------------------------------------------------
  // What is published
  // ---------------------------------------------------------------------------

  /** Each status says what it means for the reader, and the timer is set exactly for edits that
      nothing else is about to save. */
  lemma StatusMeans(e: Editor)
    requires Inv(e)
    ensures
      && (StatusOf(e) == Saved <==> Clean(e) && !e.disposed && !e.suspended)
      && (StatusOf(e) == Conflicted <==> !e.disposed && e.error.Some? && Classify(e.error.value).conflict)
      && (StatusOf(e) == Failed <==> !e.disposed && e.error.Some? && !Classify(e.error.value).conflict)
      && (StatusOf(e) == Saving <==> !e.disposed && e.error.None? && !e.flight.Idle?)
      && (StatusOf(e) == Suspended <==> !e.disposed && e.error.None? && e.flight.Idle? && e.suspended)
      && (StatusOf(e) == Closed <==> e.disposed)
      && (WantsTimer(e) <==> StatusOf(e) == HasEdits && e.flushes == map[])
  {
    assert e.flushes == map[] || exists f :: f in e.flushes.Keys;
    assert |e.flushes.Keys| == |e.flushes|;
  }

  /** A snapshot shows the editor as it is, and as unsaved exactly when something displayed is not
      acknowledged or an attempt is outstanding. */
  lemma SnapshotShows(e: Editor)
    ensures
      var s := Snapshot(e);
      && s.document == e.document && s.revision == e.revision && s.error == e.error && s.suspended == e.suspended
      && (s.inFlight <==> !e.flight.Idle?) && s.status == StatusOf(e)
      && (s.unsaved <==> e.document != e.saved || e.attempt.Some?)
  {
  }
}
