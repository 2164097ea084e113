/** The component around the hook, and what is on its screen over every run. */
module FetchRuns {
  import opened Options
  import opened FetchProtocol

  // ---------------------------------------------------------------------------
  // Renders, effects, replies, mounts
  // ---------------------------------------------------------------------------

  datatype Outcome = Pending | Landed(reply: Reply) | Ignored

  /** A request that went out, and what became of its promise. */
  datatype Request = Request(deps: seq<Dep>, reloading: bool, outcome: Outcome)

  /** The hook, the question of the last render, whether that render's effect is still to run,
      whether the component is mounted, whether it has been since the last effect, and every
      request so far. */
  datatype World = World(
    hook: Hook, rendered: Question, due: bool, mounted: bool, standing: bool, sent: seq<Request>)

  const START := World(FIRST, Question(0, []), false, false, false, [])

  datatype Event =
    | Commit(deps: seq<Dep>)
    | RunEffect
    | Answered(k: nat, reply: Reply)
    | Pressed
    | Unmount
    | Remount

  /** An effect runs before the next render and before an unmount. A promise settles once. A
      remount runs the effect again without a new render. */
  predicate Enabled(w: World, e: Event) {
    match e
    case Commit(_) => !w.due && (w.mounted || w.hook.seen.None?)
    case RunEffect => w.due
    case Answered(k, _) => k < |w.sent| && w.sent[k].outcome.Pending?
    case Pressed => w.mounted
    case Unmount => w.mounted && !w.due
    case Remount => !w.mounted && w.hook.seen.Some?
  }

  /** Whether request `k` is answered in time: while the component that sent it is mounted, and
      before any later request. */
  predicate InTime(w: World, k: nat) {
    w.standing && k == |w.sent| - 1
  }

  function Step(w: World, e: Event): World
    requires Enabled(w, e)
  {
    match e
    case Commit(deps) =>
      var q := Question(w.hook.nonce, deps);
      w.(hook := Render(w.hook), rendered := q, due := w.hook.seen != Some(q), mounted := true)
    case RunEffect =>
      // The effect before it is cleaned up first, unless an unmount already did that.
      w.(hook := Effect(Cleanup(w.hook), w.rendered), due := false, standing := true,
         sent := w.sent + [Request(w.rendered.deps, Reloading(w.hook, w.rendered), Pending)])
    case Answered(k, reply) =>
      w.(hook := Land(w.hook, k + 1, w.sent[k].reloading, reply),
         sent := w.sent[k := w.sent[k].(outcome := if InTime(w, k) then Landed(reply) else Ignored)])
    case Pressed => w.(hook := Reload(w.hook))
    case Unmount => w.(hook := Cleanup(w.hook), mounted := false, standing := false)
    case Remount => w.(due := true, mounted := true)
  }

  function Next(w: World, e: Event): World {
    if Enabled(w, e) then Step(w, e) else w
  }

  function Run(w: World, events: seq<Event>): World {
    if events == [] then w else Next(Run(w, events[..|events| - 1]), events[|events| - 1])
  }

  // ---------------------------------------------------------------------------
  // What the screen should show, read off the requests alone
  // ---------------------------------------------------------------------------

  predicate Succeeded(r: Request) {
    r.outcome.Landed? && r.outcome.reply.Good?
  }

  predicate Missed(r: Request) {
    r.outcome.Landed? && r.outcome.reply.Bad?
  }

  /** The newest success among the first `n` requests, since the question was last asked afresh. */
  function Newest(sent: seq<Request>, n: nat): (k: Option<nat>)
    requires n <= |sent|
    ensures k.Some? ==> k.value < n && Succeeded(sent[k.value])
  {
    if n == 0 then None
    else if Succeeded(sent[n - 1]) then Some(n - 1)
    else if sent[n - 1].reloading then Newest(sent, n - 1)
    else None
  }

  function ShownState(sent: seq<Request>): State {
    var n := |sent|;
    match Newest(sent, n)
    case Some(k) => Ready(sent[k].outcome.reply.data)
    case None => if n > 0 && Missed(sent[n - 1]) then Failed(AsApiError(sent[n - 1].outcome.reply.thrown)) else Loading
  }

  /** A reload went out after the last reply that landed. */
  predicate Awaited(sent: seq<Request>, n: nat)
    requires n <= |sent|
  {
    n > 0 && !sent[n - 1].outcome.Landed? && (sent[n - 1].reloading || Awaited(sent, n - 1))
  }

  function ShownRefreshError(sent: seq<Request>): Option<ApiError> {
    var n := |sent|;
    if n > 0 && sent[n - 1].reloading && Missed(sent[n - 1])
    then Some(AsApiError(sent[n - 1].outcome.reply.thrown))
    else None
  }

  /** The requests since the question was last asked afresh all ask `deps`. */
  predicate Asks(sent: seq<Request>, n: nat, deps: seq<Dep>)
    requires n <= |sent|
  {
    n > 0 && sent[n - 1].deps == deps && (sent[n - 1].reloading ==> Asks(sent, n - 1, deps))
  }

  // ---------------------------------------------------------------------------
  // The invariant
  // ---------------------------------------------------------------------------

  /** The screen is a function of the requests. */
  predicate ScreenIsHistory(w: World) {
    && w.hook.state == ShownState(w.sent)
    && w.hook.refreshing == Awaited(w.sent, |w.sent|)
    && w.hook.refreshError == ShownRefreshError(w.sent)
  }

  predicate Inv(w: World) {
    && ScreenIsHistory(w)
    && w.hook.seqNo == |w.sent|
    && (w.hook.seen.None? <==> w.sent == [])
    && (w.hook.seen.Some? ==> Asks(w.sent, |w.sent|, w.hook.seen.value.deps))
    && MountsAgree(w)
    && (w.due && Reloading(w.hook, w.rendered) ==> w.hook.state.Ready?)
    && (!w.due && w.hook.seen.Some? ==> w.hook.seen == Some(w.rendered))
    && (w.sent != [] && w.sent[|w.sent| - 1].reloading ==> w.hook.state.Ready?)
  }

  /** The guard's flag says whether the component has been mounted since the last effect. */
  predicate MountsAgree(w: World) {
    && (w.due ==> w.mounted)
    && (w.standing ==> w.mounted && w.sent != [] && !w.sent[|w.sent| - 1].outcome.Ignored?)
    && (w.hook.seen.Some? ==> w.hook.alive == w.standing)
    && (w.mounted && !w.due ==> w.standing)
  }

  /** Two requests the screen cannot tell apart: equal, or neither has landed. */
  predicate Alike(a: Request, b: Request) {
    a.deps == b.deps && a.reloading == b.reloading && (a == b || (!a.outcome.Landed? && !b.outcome.Landed?))
  }

  predicate AllAlike(a: seq<Request>, b: seq<Request>, n: nat)
    requires n <= |a| && n <= |b|
  {
    forall i :: 0 <= i < n ==> Alike(a[i], b[i])
  }

  lemma {:induction false} OnlyLandedCounts(a: seq<Request>, b: seq<Request>, n: nat)
    requires n <= |a| && n <= |b| && AllAlike(a, b, n)
    ensures Newest(a, n) == Newest(b, n)
    ensures Awaited(a, n) == Awaited(b, n)
    ensures forall deps :: Asks(a, n, deps) == Asks(b, n, deps)
  {
    if n > 0 {
      assert Alike(a[n - 1], b[n - 1]);
      OnlyLandedCounts(a, b, n - 1);
    }
  }

  lemma EffectKeepsInv(w: World)
    requires Inv(w) && w.due
    ensures Inv(Step(w, RunEffect))
  {
    OnlyLandedCounts(w.sent, Step(w, RunEffect).sent, |w.sent|);
  }

  lemma ReplyInTimeKeepsInv(w: World, k: nat, reply: Reply)
    requires Inv(w) && Enabled(w, Answered(k, reply)) && InTime(w, k)
    ensures Inv(Step(w, Answered(k, reply)))
  {
    OnlyLandedCounts(w.sent, Step(w, Answered(k, reply)).sent, k);
  }

  lemma LateReplyKeepsInv(w: World, k: nat, reply: Reply)
    requires Inv(w) && Enabled(w, Answered(k, reply)) && !InTime(w, k)
    ensures Inv(Step(w, Answered(k, reply)))
  {
    OnlyLandedCounts(w.sent, Step(w, Answered(k, reply)).sent, |w.sent|);
  }

  lemma StepKeepsInv(w: World, e: Event)
    requires Inv(w) && Enabled(w, e)
    ensures Inv(Step(w, e))
  {
    match e
    case RunEffect => EffectKeepsInv(w);
    case Answered(k, reply) => if InTime(w, k) {
      ReplyInTimeKeepsInv(w, k, reply);
    } else {
      LateReplyKeepsInv(w, k, reply);
    }
    case Commit(_) =>
    case Pressed =>
    case Unmount =>
    case Remount =>
  }

  lemma {:induction false} RunKeepsInv(events: seq<Event>)
    ensures Inv(Run(START, events))
  {
    if events != [] {
      var w := Run(START, events[..|events| - 1]);
      RunKeepsInv(events[..|events| - 1]);
      if Enabled(w, events[|events| - 1]) { StepKeepsInv(w, events[|events| - 1]); }
    }
  }

  /** The world after any events at all, from before the first render. */
  function After(events: seq<Event>): World {
    Run(START, events)
  }

  // ---------------------------------------------------------------------------
  // What every run keeps
  // ---------------------------------------------------------------------------

  /** The three things the hook returns are a function of the requests and their replies alone. */
  lemma ScreenShowsTheHistory(events: seq<Event>)
    ensures ScreenIsHistory(After(events))
  {
    RunKeepsInv(events);
  }

  /** Data on the screen answers the question last asked, by a request that asked exactly that;
      and no request sent later and asking it has answered in time. */
  lemma ReadyDataAnswersTheQuestion(events: seq<Event>)
    requires After(events).hook.state.Ready?
    ensures
      var w := After(events);
      var shown := Newest(w.sent, |w.sent|);
      && shown.Some? && w.hook.seen.Some?
      && w.sent[shown.value].deps == w.hook.seen.value.deps
      && w.sent[shown.value].outcome == Landed(Good(w.hook.state.data))
      && forall k :: shown.value < k < |w.sent| ==> !Succeeded(w.sent[k])
  {
    var w := After(events);
    RunKeepsInv(events);
    NewestAnswersTheQuestion(w.sent, |w.sent|, w.hook.seen.value.deps);
  }

  lemma {:induction false} NewestAnswersTheQuestion(sent: seq<Request>, n: nat, deps: seq<Dep>)
    requires n <= |sent| && Asks(sent, n, deps) && Newest(sent, n).Some?
    ensures var k := Newest(sent, n).value; sent[k].deps == deps && forall j :: k < j < n ==> !Succeeded(sent[j])
  {
    if !Succeeded(sent[n - 1]) { NewestAnswersTheQuestion(sent, n - 1, deps); }
  }

  /** So with no effect left to run, it answers the question just rendered. */
  lemma ReadyDataAnswersTheRender(events: seq<Event>)
    requires After(events).hook.state.Ready? && !After(events).due
    ensures
      var w := After(events);
      exists k :: 0 <= k < |w.sent| && w.sent[k].deps == w.rendered.deps
        && w.sent[k].outcome == Landed(Good(w.hook.state.data))
  {
    ReadyDataAnswersTheQuestion(events);
    RunKeepsInv(events);
  }

  /** The number of the request whose answer is on the screen, counting from one. */
  function Shown(w: World): nat {
    match Newest(w.sent, |w.sent|) case Some(k) => k + 1 case None => 0
  }

  /** The screen never goes back from the answer to one request to the answer to an earlier one,
      whatever happens in between. */
  lemma {:induction false} AnswersNeverGoBack(events: seq<Event>, more: seq<Event>)
    requires After(events).hook.state.Ready? && Run(After(events), more).hook.state.Ready?
    ensures 0 < Shown(After(events)) <= Shown(Run(After(events), more))
  {
    var w := After(events);
    RunKeepsInv(events);
    LaterRunsShowNothingOlder(w, more, Shown(w));
  }

  /** Every answer older than `k` is out of sight for good. */
  predicate NothingOlder(w: World, k: nat) {
    Inv(w) && k <= |w.sent| && (Shown(w) == 0 || k <= Shown(w)) && (w.hook.state.Ready? ==> Shown(w) > 0)
  }

  lemma {:induction false} LaterRunsShowNothingOlder(w: World, more: seq<Event>, k: nat)
    requires NothingOlder(w, k)
    ensures NothingOlder(Run(w, more), k)
  {
    if more != [] {
      var before, e := Run(w, more[..|more| - 1]), more[|more| - 1];
      LaterRunsShowNothingOlder(w, more[..|more| - 1], k);
      if Enabled(before, e) { StepShowsNothingOlder(before, e, k); }
    }
  }

  lemma StepShowsNothingOlder(w: World, e: Event, k: nat)
    requires NothingOlder(w, k) && Enabled(w, e)
    ensures NothingOlder(Step(w, e), k)
  {
    StepKeepsInv(w, e);
    if e.RunEffect? { OnlyLandedCounts(w.sent, Step(w, e).sent, |w.sent|); }
    if e.Answered? && !InTime(w, e.k) { OnlyLandedCounts(w.sent, Step(w, e).sent, |w.sent|); }
    if e.Answered? && InTime(w, e.k) { OnlyLandedCounts(w.sent, Step(w, e).sent, |w.sent| - 1); }
  }

  /** Once data is on the screen, an event takes it off exactly when it is the effect of a render
      that asks another question, of a remount, or of a reload pressed before the data was rendered. */
  lemma DataIsLostExactlyWhen(events: seq<Event>, e: Event)
    requires After(events).hook.state.Ready?
    ensures
      var w := After(events);
      w.hook.seen.Some? &&
      (!Next(w, e).hook.state.Ready? <==>
        && e.RunEffect? && w.due
        && (w.rendered.deps != w.hook.seen.value.deps || w.rendered.nonce == w.hook.seen.value.nonce
             || !w.hook.held.Ready?))
  {
    RunKeepsInv(events);
  }

  /** A failure never takes data off the screen: it is reported beside it. */
  lemma {:induction false} FailedReloadKeepsData(events: seq<Event>, k: nat, thrown: Thrown)
    requires var w := After(events); w.hook.state.Ready? && Enabled(w, Answered(k, Bad(thrown)))
    ensures
      var w := After(events);
      var w' := Step(w, Answered(k, Bad(thrown)));
      && w'.hook.state == w.hook.state
      && w'.hook.refreshError == if InTime(w, k) then Some(AsApiError(thrown)) else w.hook.refreshError
  {
    RunKeepsInv(events);
  }

  /** Over data and between effects, `refreshing` says exactly that the newest request is unanswered. */
  lemma {:induction false} RefreshingMeansUnanswered(events: seq<Event>)
    requires var w := After(events); w.hook.state.Ready? && w.mounted && !w.due
    ensures var w := After(events); w.sent != [] && (w.hook.refreshing <==> w.sent[|w.sent| - 1].outcome.Pending?)
  {
    RunKeepsInv(events);
  }

  /** A reply changes the hook only if it answers the newest request of a mounted component. */
  lemma {:induction false} LateReplyChangesNothing(events: seq<Event>, k: nat, reply: Reply)
    requires var w := After(events); Enabled(w, Answered(k, reply))
    ensures
      var w := After(events);
      Step(w, Answered(k, reply)).hook != w.hook ==> w.mounted && k == |w.sent| - 1
  {
    RunKeepsInv(events);
  }

  /** Without data, `refreshing` is set exactly when the newest request asked afresh and a reload
      went out before it, after the last reply that landed. */
  lemma RefreshingWithoutDataExactlyWhen(events: seq<Event>)
    ensures
      var w := After(events);
      w.hook.refreshing && !w.hook.state.Ready? <==>
      w.sent != [] && !w.sent[|w.sent| - 1].reloading && Awaited(w.sent, |w.sent|)
  {
    RunKeepsInv(events);
  }

  /** An effect that asks afresh shows the skeleton, and leaves `refreshing` over it exactly when it
      was set before: when a reload was out. */
  lemma {:induction false} FreshQuestionLeavesRefreshing(events: seq<Event>)
    requires var w := After(events); w.due && !Reloading(w.hook, w.rendered)
    ensures
      var w := After(events);
      var h := Step(w, RunEffect).hook;
      && h.state == Loading
      && (h.refreshing <==> w.hook.refreshing)
      && (h.refreshing <==> Awaited(w.sent, |w.sent|))
  {
    RunKeepsInv(events);
  }

  lemma OneMore(events: seq<Event>, e: Event, all: seq<Event>)
    requires all == events + [e]
    ensures After(all) == Next(After(events), e)
  {
    assert all[..|events|] == events;
  }

  lemma AnsweredWorld(deps: seq<Dep>, data: Data)
    ensures After([Commit(deps), RunEffect, Answered(0, Good(data))]) ==
      World(Hook(Ready(data), 0, false, None, true, Some(Question(0, deps)), Loading, 1),
            Question(0, deps), false, true, true, [Request(deps, false, Landed(Good(data)))])
  {
    OneMore([], Commit(deps), [Commit(deps)]);
    OneMore([Commit(deps)], RunEffect, [Commit(deps), RunEffect]);
    OneMore([Commit(deps), RunEffect], Answered(0, Good(data)), [Commit(deps), RunEffect, Answered(0, Good(data))]);
    assert After([Commit(deps), RunEffect]).sent == [Request(deps, false, Pending)];
  }

  lemma ReloadingWorld(deps: seq<Dep>, data: Data)
    ensures After([Commit(deps), RunEffect, Answered(0, Good(data)), Pressed, Commit(deps), RunEffect]) ==
      World(Hook(Ready(data), 1, true, None, true, Some(Question(1, deps)), Ready(data), 2),
            Question(1, deps), false, true, true,
            [Request(deps, false, Landed(Good(data))), Request(deps, true, Pending)])
  {
    var answered := [Commit(deps), RunEffect, Answered(0, Good(data))];
    AnsweredWorld(deps, data);
    OneMore(answered, Pressed, answered + [Pressed]);
    OneMore(answered + [Pressed], Commit(deps), answered + [Pressed, Commit(deps)]);
    OneMore(answered + [Pressed, Commit(deps)], RunEffect,
            [Commit(deps), RunEffect, Answered(0, Good(data)), Pressed, Commit(deps), RunEffect]);
  }

  /** `refreshing` outlives the reload it was set for: a question asked afresh leaves it standing. */
  lemma RefreshingMayStandOverASkeleton(deps: seq<Dep>, others: seq<Dep>, data: Data)
    requires deps != others
    ensures exists events :: var h := After(events).hook; h.state == Loading && h.refreshing
  {
    var events := [Commit(deps), RunEffect, Answered(0, Good(data)), Pressed, Commit(deps), RunEffect];
    ReloadingWorld(deps, data);
    OneMore(events, Commit(others), events + [Commit(others)]);
    OneMore(events + [Commit(others)], RunEffect, events + [Commit(others), RunEffect]);
    var h := After(events + [Commit(others), RunEffect]).hook;
    assert h.state == Loading && h.refreshing;
  }
}
