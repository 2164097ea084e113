/**
 After silence a refusal is no proof. However many copies of a save have ended without a word, the
 editor sees the same whether or not the first of them was taken.
 */
module SilentCopies {
  import opened Options
  import opened EditorProtocol
  import opened WebsiteStore
  import opened WebsiteWorld
  import opened WebsiteCopies

  // ---------------------------------------------------------------------------
  // A run for every number of silent copies
  // ---------------------------------------------------------------------------

  const SIGNED_OUT := Cause(Some(401), "")

  function OneEdit(edit: Document): seq<Event> {
    [OpenEditor(0, 0)] + ([Local(0, Edited(Some(edit)))] + [Local(0, TimerFired(1))])
  }

  function Silence(): seq<Event> {
    [Local(0, SaveSettled(Failure(LOCAL_FAILURE)))] + [Local(0, SaveFinished)]
  }

  function SilentRetry(): seq<Event> {
    [Local(0, RetryCalled(0, 2))] + (Silence() + [Local(0, FlushResumed(0, 2))])
  }

  function SilentRetries(n: nat): seq<Event> {
    if n == 0 then [] else SilentRetries(n - 1) + SilentRetry()
  }

  function RefusedRetry(c: nat): seq<Event> {
    [Local(0, RetryCalled(0, 2))] + ([TurnAway(c)] + [Local(0, SaveSettled(Failure(SIGNED_OUT)))])
  }

  /** One edit is sent `n` times, and no answer comes back, whether or not the store has taken the
      first copy. The editor is signed out meanwhile, so the next retry is refused. */
  function LostThenSignedOut(edit: Document, taken: bool, n: nat): seq<Event>
    requires n > 0
  {
    var taking := if taken then [Deliver(0, true)] else [];
    OneEdit(edit) + (taking + (Silence() + (SilentRetries(n - 1) + RefusedRetry(n))))
  }

  /** The copies of the save that ended without a word. */
  function SilentOnes(n: nat, answers: seq<Verdict>): (copies: seq<Copy>)
    requires n > 0
    ensures |copies| == n
  {
    if n == 1 then [Copy(1, answers, Unclear)] else SilentOnes(n - 1, answers) + [Copy(1, [], Unclear)]
  }

  /** The events take `w` to `end`, whatever comes after. */
  ghost predicate Leads(w: World, events: seq<Event>, end: World) {
    WellFormed(w) && WellFormed(end) && forall more: seq<Event> :: LeadsBefore(w, events, end, more)
  }

  ghost predicate LeadsBefore(w: World, events: seq<Event>, end: World, more: seq<Event>)
    requires WellFormed(w) && WellFormed(end)
  {
    Run(w, events + more) == Run(end, more)
  }

  lemma OneEventLeads(w: World, event: Event, end: World)
    requires WellFormed(w) && Next(w, event) == end
    ensures Leads(w, [event], end)
  {
    forall more: seq<Event> ensures LeadsBefore(w, [event], end, more) {
      assert ([event] + more)[0] == event && ([event] + more)[1..] == more;
    }
  }

  lemma LeadsOn(w: World, a: seq<Event>, v: World, b: seq<Event>, end: World)
    requires Leads(w, a, v) && Leads(v, b, end)
    ensures Leads(w, a + b, end)
  {
    forall more: seq<Event> ensures LeadsBefore(w, a + b, end, more) {
      assert (a + b) + more == a + (b + more);
      assert LeadsBefore(w, a, v, b + more) && LeadsBefore(v, b, end, more);
    }
  }

  lemma RunLeads(w: World, events: seq<Event>, end: World)
    requires Leads(w, events, end)
    ensures Run(w, events) == end
  {
    assert LeadsBefore(w, events, end, []);
    assert events + [] == events;
  }

  // ---------------------------------------------------------------------------
  // The editor
  // ---------------------------------------------------------------------------

  /** The editor when it sends, when that failed, when it retries, and once it has been refused. */
  function Sent(first: Document, edit: Document): Editor {
    Editor(edit, first, 0, None, false, false, false, InFlight, Some(Attempt(1, edit, 0)), 0, map[])
  }

  function Failed(first: Document, edit: Document, flight: Flight): Editor {
    Sent(first, edit).(error := Some(LOCAL_FAILURE), flight := flight)
  }

  function Again(first: Document, edit: Document): Editor {
    Sent(first, edit).(flushing := 1, flushes := map[0 := Waiting])
  }

  function Refusal(first: Document, edit: Document): Editor {
    Again(first, edit).(error := Some(SIGNED_OUT), flight := Settled(Some(SIGNED_OUT)), attempt := None)
  }

  lemma EditorSends(first: Document, edit: Document)
    requires first != edit
    ensures
      var edited := Open(first, 0).(document := edit);
      && Step(Open(first, 0), Edited(Some(edit))).0 == edited
      && Inv(edited) && Enabled(edited, TimerFired(1)) && Step(edited, TimerFired(1)).0 == Sent(first, edit)
  {
  }

  lemma EditorGoesIdle(first: Document, edit: Document)
    requires first != edit
    ensures
      var settled, idle := Failed(first, edit, Settled(Some(LOCAL_FAILURE))), Failed(first, edit, Idle);
      && Inv(Sent(first, edit)) && Inv(settled) && Inv(idle)
      && Step(Sent(first, edit), SaveSettled(Failure(LOCAL_FAILURE))).0 == settled
      && Step(settled, SaveFinished).0 == idle
  {
    assert Finish(Failed(first, edit, Settled(Some(LOCAL_FAILURE)))).flushes == map[];
  }

  lemma EditorSendsAgain(first: Document, edit: Document)
    ensures
      var idle := Failed(first, edit, Idle);
      && Inv(idle) && Enabled(idle, RetryCalled(0, 2)) && Step(idle, RetryCalled(0, 2)).0 == Again(first, edit)
  {
  }

  lemma EditorGivesUpAgain(first: Document, edit: Document)
    ensures
      var silent := Again(first, edit).(error := Some(LOCAL_FAILURE), flight := Settled(Some(LOCAL_FAILURE)));
      var woken := Failed(first, edit, Idle).(flushing := 1, flushes := map[0 := Woken(Some(LOCAL_FAILURE))]);
      && Inv(Again(first, edit)) && Inv(silent) && Inv(woken)
      && Step(Again(first, edit), SaveSettled(Failure(LOCAL_FAILURE))).0 == silent
      && Step(silent, SaveFinished).0 == woken
      && Enabled(woken, FlushResumed(0, 2)) && Step(woken, FlushResumed(0, 2)).0 == Failed(first, edit, Idle)
  {
    var silent := Again(first, edit).(error := Some(LOCAL_FAILURE), flight := Settled(Some(LOCAL_FAILURE)));
    var stage: map<FlushId, Stage> := map[0 := Woken(Some(LOCAL_FAILURE))];
    assert Finish(silent).flushes == stage;
    assert stage - {0} == map[];
  }

  lemma EditorIsRefused(first: Document, edit: Document)
    ensures Inv(Again(first, edit))
      && Step(Again(first, edit), SaveSettled(Failure(SIGNED_OUT))).0 == Refusal(first, edit)
  {
  }

  // ---------------------------------------------------------------------------
  // The world of one editor and its one save
  // ---------------------------------------------------------------------------

  function OneSave(store: Store, edit: Document, ed: Editor, copies: seq<Copy>, carried: nat): World {
    World(store, map[0 := ed], map[1 := Request(0, Save(edit), 0)], map[0 := {0}], copies, map[0 := carried])
  }

  lemma OneSaveWithEditor(store: Store, edit: Document, ed: Editor, copies: seq<Copy>, carried: nat, r: Editor)
    requires r.revision == 0 && (r.attempt.Some? ==> r.attempt.value.id == 1)
    ensures WithEditor(OneSave(store, edit, ed, copies, carried), 0, r) == OneSave(store, edit, r, copies, carried)
  {
    assert map[0 := ed][0 := r] == map[0 := r];
    assert {0} + {r.revision} == {0};
    assert map[0 := {0}][0 := {0}] == map[0 := {0}];
  }

  lemma OneSaveCarries(store: Store, edit: Document, ed: Editor, copies: seq<Copy>, carried: nat, r: Editor)
    ensures CarriesAfter(OneSave(store, edit, ed, copies, carried), 0, r)
      == map[0 := if Sends(ed, r) then |copies| else carried]
  {
    assert map[0 := carried][0 := |copies|] == map[0 := |copies|];
  }

  lemma OneSaveIsWellFormed(store: Store, edit: Document, ed: Editor, copies: seq<Copy>, carried: nat)
    requires store.drafts != [] && store.versions != [] && Inv(ed)
    ensures WellFormed(OneSave(store, edit, ed, copies, carried))
  {
  }

  lemma OneSaveStep(
      store: Store, edit: Document, ed: Editor, copies: seq<Copy>, carried: nat, ev: EditorEvent, r: Editor)
    requires store.drafts != [] && store.versions != [] && Inv(ed)
    requires Possible(OneSave(store, edit, ed, copies, carried), 0, ev) && Step(ed, ev).0 == r
    requires r.revision == 0 && (r.attempt.Some? ==> r.attempt.value.id == 1)
    ensures
      var w := OneSave(store, edit, ed, copies, carried);
      && WellFormed(w)
      && Next(w, Local(0, ev))
         == OneSave(store, edit, r, CopiesAfter(w, 0, ev, r), if Sends(ed, r) then |copies| else carried)
  {
    OneSaveIsWellFormed(store, edit, ed, copies, carried);
    OneSaveWithEditor(store, edit, ed, copies, carried, r);
    OneSaveCarries(store, edit, ed, copies, carried, r);
  }

  /** A step that neither ends nor starts a save keeps the copies. */
  lemma OneSaveGoesOn(
      store: Store, edit: Document, ed: Editor, copies: seq<Copy>, carried: nat, ev: EditorEvent, r: Editor)
    requires store.drafts != [] && store.versions != [] && Inv(ed) && !ev.SaveSettled? && !Sends(ed, r)
    requires Possible(OneSave(store, edit, ed, copies, carried), 0, ev) && Step(ed, ev).0 == r
    requires r.revision == 0 && (r.attempt.Some? ==> r.attempt.value.id == 1)
    ensures Leads(OneSave(store, edit, ed, copies, carried), [Local(0, ev)], OneSave(store, edit, r, copies, carried))
  {
    OneSaveStep(store, edit, ed, copies, carried, ev, r);
    OneEventLeads(OneSave(store, edit, ed, copies, carried), Local(0, ev), OneSave(store, edit, r, copies, carried));
  }

  function FateOfFailure(cause: Cause): Fate {
    if Ambiguous(cause) then Unclear else Denied(Classify(cause).conflict)
  }

  /** The save in the air, carried by the last copy, fails. */
  lemma OneSaveFails(
      store: Store, edit: Document, ed: Editor, copies: seq<Copy>, answers: seq<Verdict>, cause: Cause, r: Editor)
    requires store.drafts != [] && store.versions != [] && Inv(ed) && ed.flight.InFlight?
    requires !Ambiguous(cause) ==> Refused(Classify(cause).conflict) in answers
    requires Step(ed, SaveSettled(Failure(cause))).0 == r && r.revision == 0
      && (r.attempt.Some? ==> r.attempt.value.id == 1)
    ensures Leads(OneSave(store, edit, ed, copies + [Copy(1, answers, InTheAir)], |copies|),
                  [Local(0, SaveSettled(Failure(cause)))],
                  OneSave(store, edit, r, copies + [Copy(1, answers, FateOfFailure(cause))], |copies|))
  {
    var copy, ended := Copy(1, answers, InTheAir), Copy(1, answers, FateOfFailure(cause));
    FlightEnds(ed, Failure(cause));
    OneSaveStep(store, edit, ed, copies + [copy], |copies|, SaveSettled(Failure(cause)), r);
    assert (copies + [copy])[|copies| := ended] == copies + [ended];
    OneEventLeads(OneSave(store, edit, ed, copies + [copy], |copies|), Local(0, SaveSettled(Failure(cause))),
                  OneSave(store, edit, r, copies + [ended], |copies|));
  }

  lemma OneSaveIsRetried(first: Document, edit: Document, store: Store, copies: seq<Copy>, carried: nat)
    requires first != edit && store.drafts != [] && store.versions != []
    ensures Leads(OneSave(store, edit, Failed(first, edit, Idle), copies, carried), [Local(0, RetryCalled(0, 2))],
                  OneSave(store, edit, Again(first, edit), copies + [Copy(1, [], InTheAir)], |copies|))
  {
    EditorSendsAgain(first, edit);
    OneSaveStep(store, edit, Failed(first, edit, Idle), copies, carried, RetryCalled(0, 2), Again(first, edit));
    OneEventLeads(OneSave(store, edit, Failed(first, edit, Idle), copies, carried), Local(0, RetryCalled(0, 2)),
                  OneSave(store, edit, Again(first, edit), copies + [Copy(1, [], InTheAir)], |copies|));
  }

  lemma OneSaveIsTurnedAway(store: Store, edit: Document, ed: Editor, copies: seq<Copy>)
    requires store.drafts != [] && store.versions != [] && Inv(ed)
    ensures Leads(OneSave(store, edit, ed, copies + [Copy(1, [], InTheAir)], |copies|), [TurnAway(|copies|)],
                  OneSave(store, edit, ed, copies + [Copy(1, [Refused(false)], InTheAir)], |copies|))
  {
    var sent, heard := Copy(1, [], InTheAir), Copy(1, [Refused(false)], InTheAir);
    assert Heard(sent, Refused(false)).answers == [Refused(false)];
    assert (copies + [sent])[|copies| := heard] == copies + [heard];
    OneEventLeads(OneSave(store, edit, ed, copies + [sent], |copies|), TurnAway(|copies|),
                  OneSave(store, edit, ed, copies + [heard], |copies|));
  }

  lemma OneSaveFailsSilently(first: Document, edit: Document, store: Store, answers: seq<Verdict>)
    requires first != edit && store.drafts != [] && store.versions != []
    ensures Leads(OneSave(store, edit, Sent(first, edit), [Copy(1, answers, InTheAir)], 0), Silence(),
                  OneSave(store, edit, Failed(first, edit, Idle), SilentOnes(1, answers), 0))
  {
    EditorGoesIdle(first, edit);
    var settled, idle := Failed(first, edit, Settled(Some(LOCAL_FAILURE))), Failed(first, edit, Idle);
    var sent, silent := [Copy(1, answers, InTheAir)], SilentOnes(1, answers);
    assert [] + sent == sent && [] + silent == silent;
    OneSaveFails(store, edit, Sent(first, edit), [], answers, LOCAL_FAILURE, settled);
    OneSaveGoesOn(store, edit, settled, silent, 0, SaveFinished, idle);
    LeadsOn(OneSave(store, edit, Sent(first, edit), sent, 0), [Local(0, SaveSettled(Failure(LOCAL_FAILURE)))],
            OneSave(store, edit, settled, silent, 0), [Local(0, SaveFinished)], OneSave(store, edit, idle, silent, 0));
  }

  lemma RetryGivesUp(first: Document, edit: Document, store: Store, copies: seq<Copy>)
    requires first != edit && store.drafts != [] && store.versions != []
    ensures Leads(OneSave(store, edit, Again(first, edit), copies + [Copy(1, [], InTheAir)], |copies|),
                  Silence() + [Local(0, FlushResumed(0, 2))],
                  OneSave(store, edit, Failed(first, edit, Idle), copies + [Copy(1, [], Unclear)], |copies|))
  {
    var idle, again := Failed(first, edit, Idle), Again(first, edit);
    var settled := again.(error := Some(LOCAL_FAILURE), flight := Settled(Some(LOCAL_FAILURE)));
    var woken := idle.(flushing := 1, flushes := map[0 := Woken(Some(LOCAL_FAILURE))]);
    var c, sent, silent := |copies|, copies + [Copy(1, [], InTheAir)], copies + [Copy(1, [], Unclear)];
    EditorGivesUpAgain(first, edit);
    OneSaveFails(store, edit, again, copies, [], LOCAL_FAILURE, settled);
    OneSaveGoesOn(store, edit, settled, silent, c, SaveFinished, woken);
    OneSaveGoesOn(store, edit, woken, silent, c, FlushResumed(0, 2), idle);
    LeadsOn(OneSave(store, edit, again, sent, c), [Local(0, SaveSettled(Failure(LOCAL_FAILURE)))],
            OneSave(store, edit, settled, silent, c), [Local(0, SaveFinished)], OneSave(store, edit, woken, silent, c));
    LeadsOn(OneSave(store, edit, again, sent, c), Silence(),
            OneSave(store, edit, woken, silent, c), [Local(0, FlushResumed(0, 2))],
            OneSave(store, edit, idle, silent, c));
  }

  /** A retry that fails like the one before leaves the editor as it was. */
  lemma RetryFailsSilently(first: Document, edit: Document, store: Store, copies: seq<Copy>, carried: nat)
    requires first != edit && store.drafts != [] && store.versions != []
    ensures Leads(OneSave(store, edit, Failed(first, edit, Idle), copies, carried), SilentRetry(),
                  OneSave(store, edit, Failed(first, edit, Idle), copies + [Copy(1, [], Unclear)], |copies|))
  {
    var idle := Failed(first, edit, Idle);
    OneSaveIsRetried(first, edit, store, copies, carried);
    RetryGivesUp(first, edit, store, copies);
    LeadsOn(OneSave(store, edit, idle, copies, carried), [Local(0, RetryCalled(0, 2))],
            OneSave(store, edit, Again(first, edit), copies + [Copy(1, [], InTheAir)], |copies|),
            Silence() + [Local(0, FlushResumed(0, 2))],
            OneSave(store, edit, idle, copies + [Copy(1, [], Unclear)], |copies|));
  }

  lemma NothingLeads(w: World)
    requires WellFormed(w)
    ensures Leads(w, [], w)
  {
    forall more: seq<Event> ensures LeadsBefore(w, [], w, more) { assert [] + more == more; }
  }

  /** The world after `n` copies without a word. */
  function SilentFor(first: Document, edit: Document, store: Store, answers: seq<Verdict>, n: nat): World
    requires n > 0
  {
    OneSave(store, edit, Failed(first, edit, Idle), SilentOnes(n, answers), n - 1)
  }

  lemma SilentOnesGrow(n: nat, answers: seq<Verdict>)
    requires n > 0
    ensures SilentOnes(n + 1, answers) == SilentOnes(n, answers) + [Copy(1, [], Unclear)]
  {
  }

  lemma SilentForOneMore(first: Document, edit: Document, store: Store, answers: seq<Verdict>, n: nat)
    requires n > 0
    ensures
      var idle, copies := Failed(first, edit, Idle), SilentOnes(n, answers);
      && SilentFor(first, edit, store, answers, n) == OneSave(store, edit, idle, copies, n - 1)
      && SilentFor(first, edit, store, answers, n + 1)
         == OneSave(store, edit, idle, copies + [Copy(1, [], Unclear)], |copies|)
  {
    SilentOnesGrow(n, answers);
  }

  lemma SameLeads(w: World, events: seq<Event>, end: World, w': World, end': World)
    requires Leads(w, events, end) && w == w' && end == end'
    ensures Leads(w', events, end')
  {
  }

  lemma OneMoreSilence(first: Document, edit: Document, store: Store, answers: seq<Verdict>, n: nat)
    requires first != edit && store.drafts != [] && store.versions != [] && n > 0
    ensures Leads(SilentFor(first, edit, store, answers, n), SilentRetry(),
      SilentFor(first, edit, store, answers, n + 1))
  {
    var idle, copies := Failed(first, edit, Idle), SilentOnes(n, answers);
    var w, w' := SilentFor(first, edit, store, answers, n), SilentFor(first, edit, store, answers, n + 1);
    SilentForOneMore(first, edit, store, answers, n);
    RetryFailsSilently(first, edit, store, copies, n - 1);
    SameLeads(OneSave(store, edit, idle, copies, n - 1), SilentRetry(),
              OneSave(store, edit, idle, copies + [Copy(1, [], Unclear)], |copies|), w, w');
  }

  ghost predicate LeadsToNext(worlds: seq<World>, k: nat) {
    k + 1 < |worlds| ==> Leads(worlds[k], SilentRetry(), worlds[k + 1])
  }

  /** The same events over and over. */
  lemma {:induction false} RepeatsLead(worlds: seq<World>, n: nat)
    requires n < |worlds| && WellFormed(worlds[0])
    requires forall k: nat :: LeadsToNext(worlds, k)
    ensures Leads(worlds[0], SilentRetries(n), worlds[n])
  {
    if n == 0 {
      NothingLeads(worlds[0]);
    } else {
      RepeatsLead(worlds, n - 1);
      assert LeadsToNext(worlds, n - 1);
      LeadsOn(worlds[0], SilentRetries(n - 1), worlds[n - 1], SilentRetry(), worlds[n]);
    }
  }

  lemma SilentIsWellFormed(first: Document, edit: Document, store: Store, answers: seq<Verdict>, n: nat)
    requires first != edit && store.drafts != [] && store.versions != [] && n > 0
    ensures WellFormed(SilentFor(first, edit, store, answers, n))
  {
    EditorGoesIdle(first, edit);
  }

  /** `worlds` are those after one copy without a word, after two, and so on. */
  ghost predicate AreSilent(first: Document, edit: Document, store: Store, answers: seq<Verdict>, worlds: seq<World>) {
    forall k :: 0 <= k < |worlds| ==> worlds[k] == SilentFor(first, edit, store, answers, k + 1)
  }

  lemma SilentWorldsLead(
      first: Document, edit: Document, store: Store, answers: seq<Verdict>, worlds: seq<World>, k: nat)
    requires first != edit && store.drafts != [] && store.versions != []
    requires AreSilent(first, edit, store, answers, worlds)
    ensures LeadsToNext(worlds, k)
  {
    if k + 1 < |worlds| {
      OneMoreSilence(first, edit, store, answers, k + 1);
      SameLeads(SilentFor(first, edit, store, answers, k + 1), SilentRetry(),
                SilentFor(first, edit, store, answers, k + 2), worlds[k], worlds[k + 1]);
    }
  }

  lemma SilentWorldsRepeat(
      first: Document, edit: Document, store: Store, answers: seq<Verdict>, worlds: seq<World>, n: nat)
    requires first != edit && store.drafts != [] && store.versions != [] && n < |worlds|
    requires AreSilent(first, edit, store, answers, worlds)
    ensures Leads(worlds[0], SilentRetries(n), worlds[n])
  {
    SilentIsWellFormed(first, edit, store, answers, 1);
    forall k: nat ensures LeadsToNext(worlds, k) { SilentWorldsLead(first, edit, store, answers, worlds, k); }
    RepeatsLead(worlds, n);
  }

  lemma RetriesFailSilently(first: Document, edit: Document, store: Store, answers: seq<Verdict>, n: nat)
    requires first != edit && store.drafts != [] && store.versions != []
    ensures Leads(SilentFor(first, edit, store, answers, 1), SilentRetries(n),
      SilentFor(first, edit, store, answers, n + 1))
  {
    var worlds := seq(n + 1, k requires 0 <= k => SilentFor(first, edit, store, answers, k + 1));
    assert AreSilent(first, edit, store, answers, worlds);
    SilentWorldsRepeat(first, edit, store, answers, worlds, n);
    SameLeads(worlds[0], SilentRetries(n), worlds[n], SilentFor(first, edit, store, answers, 1),
              SilentFor(first, edit, store, answers, n + 1));
  }

  lemma OneSaveIsDropped(first: Document, edit: Document, store: Store, copies: seq<Copy>, carried: nat)
    requires first != edit && store.drafts != [] && store.versions != []
    ensures Leads(OneSave(store, edit, Failed(first, edit, Idle), copies, carried), RefusedRetry(|copies|),
                  OneSave(store, edit, Refusal(first, edit),
                          copies + [Copy(1, [Refused(false)], Denied(false))], |copies|))
  {
    var c, again := |copies|, Again(first, edit);
    var sent := OneSave(store, edit, again, copies + [Copy(1, [], InTheAir)], c);
    var heard := OneSave(store, edit, again, copies + [Copy(1, [Refused(false)], InTheAir)], c);
    var refused := OneSave(store, edit, Refusal(first, edit), copies + [Copy(1, [Refused(false)], Denied(false))], c);
    EditorIsRefused(first, edit);
    OneSaveIsRetried(first, edit, store, copies, carried);
    OneSaveIsTurnedAway(store, edit, again, copies);
    OneSaveFails(store, edit, again, copies, [Refused(false)], SIGNED_OUT, Refusal(first, edit));
    LeadsOn(sent, [TurnAway(c)], heard, [Local(0, SaveSettled(Failure(SIGNED_OUT)))], refused);
    LeadsOn(OneSave(store, edit, Failed(first, edit, Idle), copies, carried), [Local(0, RetryCalled(0, 2))], sent,
            [TurnAway(c)] + [Local(0, SaveSettled(Failure(SIGNED_OUT)))], refused);
  }

  // ---------------------------------------------------------------------------
  // The first copy
  // ---------------------------------------------------------------------------

  /** The world of one editor that has sent nothing. */
  function Editing(store: Store, ed: Editor): World {
    World(store, map[0 := ed], map[], map[0 := {0}], [], map[])
  }

  lemma EditorIsOpened(first: Document)
    ensures Leads(Start(first), [OpenEditor(0, 0)], Editing(Start(first).store, Open(first, 0)))
  {
    OneEventLeads(Start(first), OpenEditor(0, 0), Editing(Start(first).store, Open(first, 0)));
  }

  lemma EditIsMade(first: Document, edit: Document, store: Store)
    requires first != edit && store.drafts != [] && store.versions != []
    ensures Leads(Editing(store, Open(first, 0)), [Local(0, Edited(Some(edit)))],
                  Editing(store, Open(first, 0).(document := edit)))
  {
    EditorSends(first, edit);
    var edited := Open(first, 0).(document := edit);
    assert map[0 := Open(first, 0)][0 := edited] == map[0 := edited];
    assert {0} + {edited.revision} == {0};
    OneEventLeads(Editing(store, Open(first, 0)), Local(0, Edited(Some(edit))), Editing(store, edited));
  }

  lemma EditIsSent(first: Document, edit: Document, store: Store)
    requires first != edit && store.drafts != [] && store.versions != []
    ensures Leads(Editing(store, Open(first, 0).(document := edit)), [Local(0, TimerFired(1))],
                  OneSave(store, edit, Sent(first, edit), [Copy(1, [], InTheAir)], 0))
  {
    EditorSends(first, edit);
    var edited := Open(first, 0).(document := edit);
    assert map[0 := edited][0 := Sent(first, edit)] == map[0 := Sent(first, edit)];
    assert {0} + {Sent(first, edit).revision} == {0};
    OneEventLeads(Editing(store, edited), Local(0, TimerFired(1)),
                  OneSave(store, edit, Sent(first, edit), [Copy(1, [], InTheAir)], 0));
  }

  lemma OneEditIsSent(first: Document, edit: Document)
    requires first != edit
    ensures Leads(Start(first), OneEdit(edit),
      OneSave(Start(first).store, edit, Sent(first, edit), [Copy(1, [], InTheAir)], 0))
  {
    var store := Start(first).store;
    var edited, sent := Editing(store, Open(first, 0).(document := edit)),
      OneSave(store, edit, Sent(first, edit), [Copy(1, [], InTheAir)], 0);
    EditorIsOpened(first);
    EditIsMade(first, edit, store);
    EditIsSent(first, edit, store);
    LeadsOn(Editing(store, Open(first, 0)), [Local(0, Edited(Some(edit)))], edited, [Local(0, TimerFired(1))], sent);
    LeadsOn(Start(first), [OpenEditor(0, 0)], Editing(store, Open(first, 0)),
            [Local(0, Edited(Some(edit)))] + [Local(0, TimerFired(1))], sent);
  }

  lemma FirstSaveIsTaken(store: Store, edit: Document)
    requires |store.drafts| == 1 && store.versions != [] && 1 !in store.receipts
    ensures var (s, reply) := Process(store, 1, Request(0, Save(edit), 0), true);
      reply.Committed? && 1 in s.receipts && s.drafts != [] && s.versions != []
  {
  }

  lemma OneSaveIsTaken(store: Store, edit: Document, ed: Editor)
    requires |store.drafts| == 1 && store.versions != [] && 1 !in store.receipts && Inv(ed)
    ensures
      var s := Process(store, 1, Request(0, Save(edit), 0), true).0;
      && 1 in s.receipts && s.drafts != [] && s.versions != []
      && Leads(OneSave(store, edit, ed, [Copy(1, [], InTheAir)], 0), [Deliver(0, true)],
               OneSave(s, edit, ed, [Copy(1, [Granted], InTheAir)], 0))
  {
    var s := Process(store, 1, Request(0, Save(edit), 0), true).0;
    FirstSaveIsTaken(store, edit);
    assert Heard(Copy(1, [], InTheAir), Granted).answers == [Granted];
    assert [Copy(1, [], InTheAir)][0 := Copy(1, [Granted], InTheAir)] == [Copy(1, [Granted], InTheAir)];
    OneEventLeads(OneSave(store, edit, ed, [Copy(1, [], InTheAir)], 0), Deliver(0, true),
                  OneSave(s, edit, ed, [Copy(1, [Granted], InTheAir)], 0));
  }

  // ---------------------------------------------------------------------------
  // Silence leaves both possible
  // ---------------------------------------------------------------------------

  /** The world in the end, after `n` copies without a word. */
  function RefusedAfter(first: Document, edit: Document, store: Store, answers: seq<Verdict>, n: nat): World
    requires n > 0
  {
    OneSave(store, edit, Refusal(first, edit), SilentOnes(n, answers) + [Copy(1, [Refused(false)], Denied(false))], n)
  }

  lemma SilenceEnds(first: Document, edit: Document, store: Store, answers: seq<Verdict>, n: nat)
    requires first != edit && store.drafts != [] && store.versions != [] && n > 0
    ensures Leads(SilentFor(first, edit, store, answers, n), RefusedRetry(n),
      RefusedAfter(first, edit, store, answers, n))
  {
    OneSaveIsDropped(first, edit, store, SilentOnes(n, answers), n - 1);
  }

  lemma LateEvents(first: Document, edit: Document, store: Store, answers: seq<Verdict>, n: nat)
    requires first != edit && store.drafts != [] && store.versions != [] && n > 0
    ensures Leads(OneSave(store, edit, Sent(first, edit), [Copy(1, answers, InTheAir)], 0),
                  Silence() + (SilentRetries(n - 1) + RefusedRetry(n)), RefusedAfter(first, edit, store, answers, n))
  {
    var w := OneSave(store, edit, Sent(first, edit), [Copy(1, answers, InTheAir)], 0);
    var once, end := SilentFor(first, edit, store, answers, 1), RefusedAfter(first, edit, store, answers, n);
    OneSaveFailsSilently(first, edit, store, answers);
    RetriesFailSilently(first, edit, store, answers, n - 1);
    SilenceEnds(first, edit, store, answers, n);
    LeadsOn(once, SilentRetries(n - 1), SilentFor(first, edit, store, answers, n), RefusedRetry(n), end);
    LeadsOn(w, Silence(), once, SilentRetries(n - 1) + RefusedRetry(n), end);
  }

  lemma RefusedThoughTaken(first: Document, edit: Document, n: nat)
    requires first != edit && n > 0
    ensures
      var s := Process(Start(first).store, 1, Request(0, Save(edit), 0), true).0;
      && 1 in s.receipts
      && After(first, LostThenSignedOut(edit, true, n)) == RefusedAfter(first, edit, s, [Granted], n)
  {
    var store, s := Start(first).store, Process(Start(first).store, 1, Request(0, Save(edit), 0), true).0;
    var sent := OneSave(store, edit, Sent(first, edit), [Copy(1, [], InTheAir)], 0);
    var taken := OneSave(s, edit, Sent(first, edit), [Copy(1, [Granted], InTheAir)], 0);
    var rest, end := Silence() + (SilentRetries(n - 1) + RefusedRetry(n)), RefusedAfter(first, edit, s, [Granted], n);
    OneEditIsSent(first, edit);
    EditorGoesIdle(first, edit);
    OneSaveIsTaken(store, edit, Sent(first, edit));
    LateEvents(first, edit, s, [Granted], n);
    LeadsOn(sent, [Deliver(0, true)], taken, rest, end);
    LeadsOn(Start(first), OneEdit(edit), sent, [Deliver(0, true)] + rest, end);
    RunLeads(Start(first), LostThenSignedOut(edit, true, n), end);
  }

  lemma RefusedAndNotTaken(first: Document, edit: Document, n: nat)
    requires first != edit && n > 0
    ensures After(first, LostThenSignedOut(edit, false, n)) == RefusedAfter(first, edit, Start(first).store, [], n)
  {
    var store, rest := Start(first).store, Silence() + (SilentRetries(n - 1) + RefusedRetry(n));
    var sent, end := OneSave(store, edit, Sent(first, edit), [Copy(1, [], InTheAir)], 0),
      RefusedAfter(first, edit, store, [], n);
    OneEditIsSent(first, edit);
    LateEvents(first, edit, store, [], n);
    assert [] + rest == rest;
    LeadsOn(Start(first), OneEdit(edit), sent, rest, end);
    RunLeads(Start(first), LostThenSignedOut(edit, false, n), end);
  }

  /** After any number of silent copies a refusal tells nothing. In these two runs the editor sees the
      same, and in the end forgets its attempt as never committed; in one of them it is a draft. */
  lemma DefinitiveRefusalMayFollowCommit(first: Document, edit: Document, taken: bool, n: nat)
    requires first != edit && n > 0
    ensures
      var w := After(first, LostThenSignedOut(edit, taken, n));
      && Classify(SIGNED_OUT).definitive
      && w.editors == map[0 := Refusal(first, edit)] && w.editors[0].attempt.None? && w.editors[0].revision == 0
      && w.copies == SilentOnes(n, if taken then [Granted] else []) + [Copy(1, [Refused(false)], Denied(false))]
      && (1 in w.store.receipts <==> taken)
  {
    if taken { RefusedThoughTaken(first, edit, n); } else { RefusedAndNotTaken(first, edit, n); }
  }

  // ---------------------------------------------------------------------------
  // When a refusal is proof
  // ---------------------------------------------------------------------------

  function CopiesOf(copies: seq<Copy>, id: RequestId): nat {
    if copies == [] then 0
    else CopiesOf(copies[..|copies| - 1], id) + (if copies[|copies| - 1].id == id then 1 else 0)
  }

  ghost predicate DeliveredOnce(copies: seq<Copy>, id: RequestId) {
    forall c :: 0 <= c < |copies| && copies[c].id == id ==> |copies[c].answers| <= 1
  }

  /** In this run a save is refused for certain, without a conflict, at its copy `c` after `n` others,
      none of its copies is delivered more than once, and it is committed all the same. */
  ghost predicate Misleads(first: Document, events: seq<Event>, c: nat, n: nat) {
    var w := After(first, events);
    && c < |w.copies| && w.copies[c].fate == Denied(false) && IsSave(w.issued, w.copies[c].id)
    && DeliveredOnce(w.copies, w.copies[c].id) && CopiesOf(w.copies[..c], w.copies[c].id) == n
    && w.copies[c].id in w.store.receipts
  }

  lemma {:induction false} NoCopies(copies: seq<Copy>, id: RequestId)
    requires CopiesOf(copies, id) == 0
    ensures forall j :: 0 <= j < |copies| ==> copies[j].id != id
  {
    if copies != [] {
      var n := |copies| - 1;
      NoCopies(copies[..n], id);
      assert forall j :: 0 <= j < n ==> copies[..n][j] == copies[j];
    }
  }

  lemma OneMoreOf(copies: seq<Copy>, copy: Copy, id: RequestId)
    ensures CopiesOf(copies + [copy], id) == CopiesOf(copies, id) + (if copy.id == id then 1 else 0)
  {
    assert (copies + [copy])[..|copies|] == copies;
  }

  lemma {:induction false} SilentOnesAreCounted(n: nat, answers: seq<Verdict>)
    requires n > 0
    ensures CopiesOf(SilentOnes(n, answers), 1) == n
  {
    if n == 1 {
      OneMoreOf([], Copy(1, answers, Unclear), 1);
      assert [] + [Copy(1, answers, Unclear)] == [Copy(1, answers, Unclear)];
    } else {
      SilentOnesAreCounted(n - 1, answers);
      SilentOnesGrow(n - 1, answers);
      OneMoreOf(SilentOnes(n - 1, answers), Copy(1, [], Unclear), 1);
    }
  }

  lemma {:induction false} SilentOnesHeardOnce(n: nat, answers: seq<Verdict>, c: nat)
    requires c < n && |answers| <= 1
    ensures |SilentOnes(n, answers)[c].answers| <= 1
  {
    if n > 1 {
      SilentOnesGrow(n - 1, answers);
      if c < n - 1 { SilentOnesHeardOnce(n - 1, answers, c); }
    }
  }

  lemma FirstCopyDoesNotMislead(first: Document, events: seq<Event>, c: nat)
    ensures !Misleads(first, events, c, 0)
  {
    if Misleads(first, events, c, 0) {
      var copies := After(first, events).copies;
      NoCopies(copies[..c], copies[c].id);
      assert forall j :: 0 <= j < c ==> copies[..c][j] == copies[j];
      FirstRefusalIsTrue(first, events, c);
    }
  }

  lemma LaterCopyMayMislead(first: Document, edit: Document, n: nat)
    requires first != edit && n > 0
    ensures Misleads(first, LostThenSignedOut(edit, true, n), n, n)
  {
    RefusedThoughTaken(first, edit, n);
    SilentOnesAreCounted(n, [Granted]);
    var silent, copies := SilentOnes(n, [Granted]), After(first, LostThenSignedOut(edit, true, n)).copies;
    assert copies[..n] == silent;
    forall c | 0 <= c < |copies| ensures |copies[c].answers| <= 1 {
      if c < n {
        SilentOnesHeardOnce(n, [Granted], c);
        assert copies[c] == silent[c];
      }
    }
  }

  /** Where copies are delivered at most once, a definitive refusal of a save means in every run that
      it was never committed if and only if the copy refused is the save's first. */
  lemma RefusalIsProofExactlyForFirstCopies(first: Document, edit: Document, n: nat)
    requires first != edit
    ensures (forall events: seq<Event>, c: nat :: !Misleads(first, events, c, n)) <==> n == 0
  {
    if n == 0 {
      forall events: seq<Event>, c: nat ensures !Misleads(first, events, c, n) {
        FirstCopyDoesNotMislead(first, events, c);
      }
    } else {
      LaterCopyMayMislead(first, edit, n);
    }
  }
}
