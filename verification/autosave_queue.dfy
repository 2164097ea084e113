/** The autosave queue itself: fields updated step by step, one method for each atomic step. */
module AutosaveQueue {
  import opened Options
  import opened EditorProtocol

  type TimerHandle = nat

  class Queue {
    var document: Document
    var savedJSON: Document
    var localJSON: Document
    var revision: nat
    var error: Option<Cause>
    var conflict: bool
    var suspended: bool
    var disposed: bool
    var timer: Option<TimerHandle>
    var active: Flight
    var flushing: nat
    var attempt: Option<Attempt>
    var current: SnapshotView

    /** The continuations of flushes that have not returned. */
    var flushes: map<FlushId, Stage>
    /** The scheduler's live timers, and the handle it gives out next. */
    var jobs: set<TimerHandle>
    var nextHandle: TimerHandle

    /** The protocol state these fields stand for. */
    ghost function Core(): Editor
      reads `document, `savedJSON, `revision, `error, `conflict, `suspended, `disposed, `active, `attempt, `flushing,
        `flushes
    {
      Editor(document, savedJSON, revision, error, conflict, suspended, disposed, active, attempt, flushing, flushes)
    }

    /** The scheduler holds this queue's one timer and no other. */
    ghost predicate OneTimer()
      reads `timer, `jobs, `nextHandle
    {
      && (timer.None? ==> jobs == {})
      && (timer.Some? ==> jobs == {timer.value} && timer.value < nextHandle)
    }

    ghost predicate Consistent()
      reads this
    {
      Inv(Core()) && localJSON == document && OneTimer()
    }

    /** What holds between steps. A timer is armed exactly when the protocol wants one, and the
        published snapshot is that of the present state unless a save is about to finish. */
    ghost predicate Valid()
      reads this
    {
      && Consistent()
      && (timer.Some? <==> WantsTimer(Core()))
      && (!active.Settled? ==> current == Snapshot(Core()))
    }

    constructor (initialDocument: Document, initialRevision: nat)
      ensures Valid() && Core() == Open(initialDocument, initialRevision)
    {
      document, savedJSON, localJSON := initialDocument, initialDocument, initialDocument;
      revision, error, conflict, suspended, disposed := initialRevision, None, false, false, false;
      timer, active, flushing, attempt := None, Idle, 0, None;
      flushes, jobs, nextHandle := map[], {}, 0;
      current := Snapshot(Open(initialDocument, initialRevision));
    }

    predicate IsDirty()
      reads this
      ensures localJSON == document ==> (IsDirty() <==> Dirty(Core()))
    {
      localJSON != savedJSON || attempt.Some?
    }

    method Emit()
      requires Consistent()
      modifies `current
      ensures current == Snapshot(Core())
    {
      var status :=
        if disposed then Closed else if conflict then Conflicted else if error.Some? then Failed
        else if !active.Idle? then Saving else if suspended then Suspended
        else if IsDirty() then HasEdits else Saved;
      current := SnapshotView(document, revision, error, IsDirty(), !active.Idle?, suspended, status);
    }

    method CancelTimer()
      requires OneTimer()
      modifies `timer, `jobs
      ensures OneTimer() && timer.None?
    {
      if timer.Some? {
        jobs := jobs - {timer.value};
      }
      timer := None;
    }

    method Schedule()
      requires Consistent()
      modifies `timer, `jobs, `nextHandle
      ensures Consistent() && (timer.Some? <==> WantsTimer(Core()))
    {
      CancelTimer();
      if disposed || suspended || conflict || error.Some? || !active.Idle? || flushing > 0 || !IsDirty() {
        return;
      }
      timer := Some(nextHandle);
      jobs := jobs + {nextHandle};
      nextHandle := nextHandle + 1;
    }

    method Announce()
      requires Consistent()
      modifies `current, `timer, `jobs, `nextHandle
      ensures Valid() && Core() == old(Core())
    {
      Emit();
      Schedule();
    }

    /** Starts a save unless one is active or there is nothing to save. `requestId` is the fresh
        key that a new attempt would use. */
    method StartSave(requestId: RequestId)
      requires Consistent() && timer.None?
      requires active.Idle? ==> error.None? && !conflict
      modifies `attempt, `active, `current
      ensures Consistent()
      ensures Core() == if old(active).Idle? && Dirty(old(Core())) then Send(old(Core()), requestId) else old(Core())
      ensures old(active).Idle? && Dirty(old(Core())) ==> current == Snapshot(Core())
      ensures !(old(active).Idle? && Dirty(old(Core()))) ==> current == old(current)
    {
      if !active.Idle? || !IsDirty() {
        return;
      }
      if attempt.None? {
        attempt := Some(Attempt(requestId, document, revision));
      }
      active := InFlight;
      Emit();
    }

    method TimerFires(handle: TimerHandle, requestId: RequestId)
      requires Valid() && handle in jobs
      modifies this
      ensures Valid() && old(WantsTimer(Core()))
      ensures Core() == Send(old(Core()), requestId)
    {
      jobs := jobs - {handle};
      timer := None;
      StartSave(requestId);
    }

    /** The response handler, up to the point where the save stops being active. */
    method SaveSettles(reply: Reply)
      requires Valid() && active.InFlight?
      modifies this
      ensures Valid() && Core() == Settle(old(Core()), reply)
    {
      var sent := attempt.value;
      if reply.Failure? {
        SaveFails(reply.cause);
      } else if !SafeRevision(reply.draftRevision) || reply.draftRevision < sent.expected || reply.document.None? {
        SaveFails(LOCAL_FAILURE);
      } else {
        SaveIsAcknowledged(reply.document.value, reply.draftRevision);
      }
    }

    method SaveIsAcknowledged(acknowledged: Document, draftRevision: nat)
      requires Valid() && active.InFlight? && revision <= draftRevision
      modifies `document, `savedJSON, `localJSON, `revision, `error, `attempt, `active
      ensures Valid() && Core() == Acknowledge(old(Core()), acknowledged, draftRevision)
    {
      var sent := attempt.value;
      revision := draftRevision;
      savedJSON := acknowledged;
      if localJSON == sent.document {
        document := acknowledged;
        localJSON := acknowledged;
      }
      attempt := None;
      error := None;
      active := Settled(None);
      assert Core() == Acknowledge(old(Core()), acknowledged, draftRevision);
    }

    /** The rejection handler. */
    method SaveFails(cause: Cause)
      requires Valid() && active.InFlight?
      modifies `error, `conflict, `attempt, `active
      ensures Valid() && Core() == Fail(old(Core()), cause)
    {
      var kind := Classify(cause);
      error := Some(cause);
      conflict := kind.conflict;
      if kind.conflict || kind.definitive {
        attempt := None;
      }
      active := Settled(Some(cause));
      assert Core() == Fail(old(Core()), cause);
    }

    /** The save's final step, which runs whether it succeeded or not. */
    method SaveFinishes()
      requires Valid() && active.Settled?
      modifies this
      ensures Valid() && Core() == Finish(old(Core()))
    {
      flushes := WakeAll(flushes, active.failure);
      active := Idle;
      assert Core() == Finish(old(Core()));
      Announce();
    }

    /** One pass of the flush loop for `f`, which is on the list of running flushes. */
    method RunFlush(f: FlushId, requestId: RequestId) returns (outcome: FlushOutcome)
      requires Consistent() && f in flushes && timer.None?
      requires !active.Settled? ==> current == Snapshot(Core())
      modifies this
      ensures Valid()
      ensures (Core(), outcome) == FlushPass(old(Core()), f, requestId)
    {
      if !active.Idle? || IsDirty() {
        if disposed {
          outcome := Rejected(ClosedEditor);
        } else if conflict || error.Some? {
          outcome := Rejected(if error.Some? then SaveFailed(error.value) else ChangedElsewhere);
        } else {
          StartSave(requestId);
          AwaitSave(f);
          return Pending;
        }
      } else if disposed {
        outcome := Rejected(ClosedEditor);
      } else if conflict || error.Some? {
        outcome := Rejected(if error.Some? then SaveFailed(error.value) else ChangedElsewhere);
      } else {
        outcome := Resolved(current);
      }
      LeaveFlush(f);
    }

    method AwaitSave(f: FlushId)
      requires Consistent() && f in flushes && !active.Idle?
      modifies `flushes
      ensures Consistent() && Core() == Wait(old(Core()), f)
    {
      flushes := flushes[f := Waiting];
      assert Core() == Wait(old(Core()), f);
    }

    /** The end of a flush. */
    method LeaveFlush(f: FlushId)
      requires Consistent() && f in flushes
      requires !active.Settled? ==> current == Snapshot(Core())
      modifies `flushing, `flushes, `timer, `jobs, `nextHandle
      ensures Valid() && Core() == Leave(old(Core()), f)
    {
      DropFlush(f);
      Schedule();
    }

    method DropFlush(f: FlushId)
      requires Consistent() && f in flushes
      modifies `flushing, `flushes
      ensures Consistent() && Core() == Leave(old(Core()), f)
    {
      flushing := flushing - 1;
      flushes := flushes - {f};
      assert Core() == Leave(old(Core()), f);
    }

    method Flush(f: FlushId, requestId: RequestId) returns (outcome: FlushOutcome)
      requires Valid() && f !in flushes
      modifies this
      ensures Valid()
      ensures (Core(), outcome) == FlushCall(old(Core()), f, requestId)
    {
      if disposed {
        return Rejected(ClosedEditor);
      }
      outcome := StartFlush(f, requestId);
    }

    method StartFlush(f: FlushId, requestId: RequestId) returns (outcome: FlushOutcome)
      requires Consistent() && f !in flushes && !disposed
      requires !active.Settled? ==> current == Snapshot(Core())
      modifies this
      ensures Valid()
      ensures (Core(), outcome) == FlushCall(old(Core()), f, requestId)
    {
      CancelTimer();
      flushing := flushing + 1;
      flushes := flushes[f := Woken(None)];
      assert Core() == Enter(old(Core()), f);
      outcome := RunFlush(f, requestId);
    }

    /** The continuation of a flush whose awaited save is over. */
    method FlushContinues(f: FlushId, requestId: RequestId) returns (outcome: FlushOutcome)
      requires Valid() && f in flushes && flushes[f].Woken?
      modifies this
      ensures Valid()
      ensures (Core(), outcome) == FlushResume(old(Core()), f, requestId)
    {
      if flushes[f].failure.Some? {
        outcome := Rejected(SaveFailed(flushes[f].failure.value));
        LeaveFlush(f);
      } else {
        outcome := RunFlush(f, requestId);
      }
    }

    method Retry(f: FlushId, requestId: RequestId) returns (outcome: FlushOutcome)
      requires Valid() && f !in flushes
      modifies this
      ensures Valid()
      ensures (Core(), outcome) == EditorProtocol.Retry(old(Core()), f, requestId)
    {
      if disposed {
        return Rejected(ClosedEditor);
      }
      if conflict {
        return Rejected(if error.Some? then SaveFailed(error.value) else ChangedElsewhere);
      }
      ForgetError();
      outcome := StartFlush(f, requestId);
    }

    method ForgetError()
      requires Valid() && !conflict
      modifies `error, `current
      ensures Consistent() && Core() == old(Core()).(error := None)
      ensures current == Snapshot(Core())
    {
      error := None;
      Emit();
    }

    method Edit(next: Option<Document>) returns (outcome: Outcome)
      requires Valid()
      modifies this
      ensures Valid() && outcome == EditOutcome(old(Core()), next)
      ensures Core() == EditorProtocol.Edit(old(Core()), next)
    {
      if disposed {
        return RefusedClosed;
      }
      if suspended {
        return RefusedSuspended;
      }
      if next.None? {
        return RefusedInvalid;
      }
      if next.value == localJSON {
        return Done;
      }
      document := next.value;
      localJSON := next.value;
      if attempt.None? && !conflict {
        error := None;
      }
      assert Core() == EditorProtocol.Edit(old(Core()), next);
      Announce();
      return Done;
    }

    method AcceptServer(
        serverDocument: Option<Document>, serverRevision: int, keepLocal: bool) returns (outcome: Outcome)
      requires Valid()
      modifies this
      ensures Valid() && outcome == AcceptOutcome(old(Core()), serverDocument, serverRevision)
      ensures Core() == Accept(old(Core()), serverDocument, serverRevision, keepLocal)
    {
      if disposed {
        return RefusedClosed;
      }
      if !active.Idle? {
        return RefusedBusy;
      }
      if !SafeRevision(serverRevision) {
        return RefusedRevision;
      }
      if serverRevision < revision {
        return RefusedStale;
      }
      if serverDocument.None? {
        return RefusedInvalid;
      }
      CancelTimer();
      LoadVersion(serverDocument.value, serverRevision, keepLocal);
      Announce();
      return Done;
    }

    method LoadVersion(accepted: Document, serverRevision: nat, keepLocal: bool)
      requires Consistent() && active.Idle? && revision <= serverRevision
      modifies `document, `localJSON, `savedJSON, `revision, `attempt, `error, `conflict
      ensures Consistent() && Core() == Adopt(old(Core()), accepted, serverRevision, keepLocal)
    {
      ghost var adopted := Adopt(Core(), accepted, serverRevision, keepLocal);
      savedJSON := accepted;
      revision := serverRevision;
      if !keepLocal {
        document := accepted;
        localJSON := savedJSON;
      }
      assert document == adopted.document && localJSON == document;
      attempt, error, conflict := None, None, false;
      assert Core() == adopted;
    }

    method Suspend() returns (outcome: Outcome)
      requires Valid()
      modifies this
      ensures Valid() && outcome == (if old(disposed) then RefusedClosed else Done)
      ensures Core() == SetSuspended(old(Core()), true)
    {
      if disposed {
        return RefusedClosed;
      }
      suspended := true;
      CancelTimer();
      Emit();
      return Done;
    }

    method Resume() returns (outcome: Outcome)
      requires Valid()
      modifies this
      ensures Valid() && outcome == (if old(disposed) then RefusedClosed else Done)
      ensures Core() == SetSuspended(old(Core()), false)
    {
      if disposed {
        return RefusedClosed;
      }
      suspended := false;
      Announce();
      return Done;
    }

    method Dispose() returns (last: SnapshotView)
      requires Valid()
      modifies this
      ensures Valid() && Core() == old(Core()).(disposed := true)
      ensures timer.None? && last == Snapshot(Core())
    {
      disposed := true;
      CancelTimer();
      Emit();
      return current;
    }
  }
}
