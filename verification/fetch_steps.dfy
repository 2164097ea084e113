/** What each thing a reader does to the page comes to. */
module FetchSteps {
  import opened Options
  import opened FetchProtocol
  import opened FetchRuns

  /** No effect has seen a reload that was not pressed. */
  predicate NoncesAgree(w: World) {
    w.rendered.nonce <= w.hook.nonce && (w.hook.seen.Some? ==> w.hook.seen.value.nonce <= w.hook.nonce)
  }

  lemma StepKeepsNonces(w: World, e: Event)
    requires NoncesAgree(w) && Enabled(w, e)
    ensures NoncesAgree(Step(w, e))
  {
  }

  lemma {:induction false} RunKeepsNonces(events: seq<Event>)
    ensures NoncesAgree(After(events))
  {
    if events != [] {
      var w := Run(START, events[..|events| - 1]);
      RunKeepsNonces(events[..|events| - 1]);
      if Enabled(w, events[|events| - 1]) { StepKeepsNonces(w, events[|events| - 1]); }
    }
  }

  /** The page as it stands: mounted, and every effect run. */
  predicate Standing(w: World) {
    w.mounted && !w.due
  }

  lemma StandingHasAsked(events: seq<Event>)
    requires Standing(After(events))
    ensures var w := After(events); w.hook.seen == Some(w.rendered) && w.hook.alive && w.sent != []
  {
    RunKeepsInv(events);
  }

  function Ask(w: World, deps: seq<Dep>): World {
    Next(Next(w, Commit(deps)), RunEffect)
  }

  /** Pressing reload over data sends the same question again, keeps the data, and says so. */
  lemma PressedReloadAsksAgain(events: seq<Event>)
    requires Standing(After(events)) && After(events).hook.state.Ready?
    ensures
      var w := After(events);
      var after := Ask(Next(w, Pressed), w.rendered.deps);
      && after.sent == w.sent + [Request(w.rendered.deps, true, Pending)]
      && after.hook.state == w.hook.state && after.hook.refreshing && after.hook.refreshError == None
  {
    StandingHasAsked(events);
    RunKeepsNonces(events);
  }

  /** Pressing it over an error or a skeleton asks afresh. */
  lemma PressedOverNoDataAsksAfresh(events: seq<Event>)
    requires Standing(After(events)) && !After(events).hook.state.Ready?
    ensures
      var w := After(events);
      var after := Ask(Next(w, Pressed), w.rendered.deps);
      && after.sent == w.sent + [Request(w.rendered.deps, false, Pending)]
      && after.hook.state == Loading && after.hook.refreshError == None
  {
    StandingHasAsked(events);
    RunKeepsNonces(events);
  }

  /** Other dependencies take the data off the screen, whether or not a reload was pressed too. */
  lemma OtherDependenciesAskAfresh(events: seq<Event>, deps: seq<Dep>, pressed: bool)
    requires Standing(After(events)) && deps != After(events).rendered.deps
    ensures
      var w := After(events);
      var after := Ask(if pressed then Next(w, Pressed) else w, deps);
      && after.sent == w.sent + [Request(deps, false, Pending)]
      && after.hook.state == Loading && after.hook.refreshError == None
  {
    StandingHasAsked(events);
  }

  /** Rendering again asks nothing: not unless reload was pressed since, or the dependencies changed. */
  lemma RenderingAgainAsksNothing(events: seq<Event>, deps: seq<Dep>)
    requires Standing(After(events))
    ensures
      var w := After(events);
      Ask(w, deps).sent == w.sent <==> deps == w.rendered.deps && w.hook.nonce == w.rendered.nonce
  {
    StandingHasAsked(events);
  }

  /** A failure in time is told in the API's own words, or as a network that could not be reached. */
  lemma FailureSaysWhy(events: seq<Event>, k: nat, thrown: Thrown)
    requires Enabled(After(events), Answered(k, Bad(thrown))) && InTime(After(events), k)
    ensures
      var w := After(events);
      var h := Step(w, Answered(k, Bad(thrown))).hook;
      var error := match thrown
        case FromApi(own) => own
        case Foreign => ApiError("The control plane could not be reached.", 0, "NETWORK");
      && !h.refreshing
      && if w.sent[k].reloading then h.state == w.hook.state && h.refreshError == Some(error)
         else h.state == Failed(error) && h.refreshError == w.hook.refreshError
  {
    RunKeepsInv(events);
  }

  lemma SuccessShowsTheData(events: seq<Event>, k: nat, data: Data)
    requires Enabled(After(events), Answered(k, Good(data))) && InTime(After(events), k)
    ensures
      var w := After(events);
      var h := Step(w, Answered(k, Good(data))).hook;
      h.state == Ready(data) && !h.refreshing && h.refreshError == w.hook.refreshError
  {
    RunKeepsInv(events);
  }

  /** Nothing that arrives after an unmount reaches the hook, and nothing but a remount asks again. */
  lemma {:induction false} UnmountedHookIsDeaf(events: seq<Event>, more: seq<Event>)
    requires Standing(After(events)) && Remount !in more
    ensures
      var w := Next(After(events), Unmount);
      var after := Run(w, more);
      !after.mounted && !after.due && after.hook == w.hook && |after.sent| == |w.sent|
  {
    StandingHasAsked(events);
    if more != [] { UnmountedHookIsDeaf(events, more[..|more| - 1]); }
  }
}
