/** The live view's reducer, and the summary of the history that it amounts to. */
module LiveView {
  import opened Options

  type AgentId = string

  datatype Surface = Web | Terminal | Desktop | Ios

  datatype AgentState = Pending | Connecting | Live | Ended | Error

  /** One event off the wire. A field of `None` is missing or of the wrong type. */
  datatype Event =
    | Hello(run: Option<string>, protocol: Option<int>)
    | Agent(agent: Option<AgentId>, surface: Option<Surface>, state: Option<AgentState>,
            persona: Option<string>, workflow: Option<string>, verdict: Option<string>)
    | Step(agent: Option<AgentId>, seqNo: Option<int>, text: string, url: Option<string>, action: Option<string>,
      at: string)
    | Frame(agent: Option<AgentId>, seqNo: Option<int>, b64: Option<string>, w: int, h: int, at: string)
    | Done(counts: Option<Counts>)
    | Other

  datatype Counts = Counts(passed: int, failed: int, flaky: int, blocked: int, unverified: int)

  datatype StepView = StepView(seqNo: int, text: string, url: Option<string>, action: Option<string>, at: string)

  datatype FrameView = FrameView(b64: string, w: int, h: int, seqNo: int, at: string)

  datatype AgentView = AgentView(
    id: AgentId, persona: Option<string>, workflow: Option<string>, surface: Surface, state: AgentState,
    verdict: Option<string>, lastFrame: Option<FrameView>, steps: seq<StepView>, stepCount: nat, latestSeq: int)

  datatype LiveState = LiveState(
    run: Option<string>, protocol: Option<int>, agents: seq<AgentView>, counts: Option<Counts>)

  const STEP_CAP := 200

  const INITIAL := LiveState(None, None, [], None)

  function Max(a: int, b: int): int {
    if a < b then b else a
  }

  function OrElse<T>(given: Option<T>, otherwise: T): T {
    match given case Some(v) => v case None => otherwise
  }

  /** An optional text counts only when it is not empty. */
  function Truthy(text: Option<string>): Option<string> {
    if text == Some("") then None else text
  }

  function OrKeep(given: Option<string>, held: Option<string>): Option<string> {
    if Truthy(given).Some? then given else held
  }

  // ---------------------------------------------------------------------------
  // The reducer
  // ---------------------------------------------------------------------------

  function Blank(id: AgentId, surface: Option<Surface>): AgentView {
    AgentView(id, None, None, OrElse(surface, Web), Pending, None, None, [], 0, 0)
  }

  function FindAgent(agents: seq<AgentView>, id: AgentId): (i: int)
    ensures -1 <= i < |agents|
    ensures i >= 0 ==> agents[i].id == id && forall j :: 0 <= j < i ==> agents[j].id != id
    ensures i == -1 ==> forall j :: 0 <= j < |agents| ==> agents[j].id != id
  {
    if agents == [] then -1
    else if agents[0].id == id then 0
    else
      var rest := FindAgent(agents[1..], id);
      if rest == -1 then -1 else rest + 1
  }

  function WithAgent(s: LiveState, id: AgentId, surface: Option<Surface>, change: AgentView -> AgentView): LiveState {
    var i := FindAgent(s.agents, id);
    if i == -1 then s.(agents := s.agents + [change(Blank(id, surface))])
    else s.(agents := s.agents[i := change(s.agents[i])])
  }

  function AgentChange(e: Event, a: AgentView): AgentView
    requires e.Agent?
  {
    a.(surface := OrElse(e.surface, a.surface), state := OrElse(e.state, a.state),
       persona := OrKeep(e.persona, a.persona), workflow := OrKeep(e.workflow, a.workflow),
       verdict := OrKeep(e.verdict, a.verdict))
  }

  function StepOf(e: Event): StepView
    requires e.Step? && e.seqNo.Some?
  {
    StepView(e.seqNo.value, e.text, Truthy(e.url), Truthy(e.action), e.at)
  }

  function StepChange(e: Event, a: AgentView): AgentView
    requires e.Step? && e.seqNo.Some?
  {
    var steps := a.steps + [StepOf(e)];
    a.(steps := if |steps| > STEP_CAP then steps[|steps| - STEP_CAP..] else steps,
       stepCount := a.stepCount + 1, latestSeq := Max(a.latestSeq, e.seqNo.value))
  }

  function FrameOf(e: Event): FrameView
    requires e.Frame? && e.seqNo.Some? && e.b64.Some?
  {
    FrameView(e.b64.value, e.w, e.h, e.seqNo.value, e.at)
  }

  function FrameChange(e: Event, a: AgentView): AgentView
    requires e.Frame? && e.seqNo.Some? && e.b64.Some?
  {
    if a.lastFrame.Some? && e.seqNo.value <= a.lastFrame.value.seqNo then
      a.(latestSeq := Max(a.latestSeq, e.seqNo.value))
    else
      a.(lastFrame := Some(FrameOf(e)), latestSeq := Max(a.latestSeq, e.seqNo.value))
  }

  function Reduce(s: LiveState, e: Event): LiveState {
    match e
    case Hello(run, protocol) => if run.None? then s else s.(run := run, protocol := protocol)
    case Done(counts) => if counts.None? then s else s.(counts := counts)
    case Agent(agent, surface, _, _, _, _) =>
      if agent.None? then s else WithAgent(s, agent.value, surface, a => AgentChange(e, a))
    case Step(agent, seqNo, _, _, _, _) =>
      if agent.None? || seqNo.None? then s else WithAgent(s, agent.value, None, a => StepChange(e, a))
    case Frame(agent, seqNo, b64, _, _, _) =>
      if agent.None? || seqNo.None? || Truthy(b64).None? then s
      else WithAgent(s, agent.value, None, a => FrameChange(e, a))
    case Other => s
  }

  function ReduceAll(events: seq<Event>, start: LiveState): LiveState {
    if events == [] then start
    else Reduce(ReduceAll(events[..|events| - 1], start), events[|events| - 1])
  }

  // ---------------------------------------------------------------------------
  // The history
  // ---------------------------------------------------------------------------

  /** The agent that a well-formed event is about. */
  function About(e: Event): Option<AgentId> {
    match e
    case Agent(agent, _, _, _, _, _) => agent
    case Step(agent, seqNo, _, _, _, _) => if seqNo.Some? then agent else None
    case Frame(agent, seqNo, b64, _, _, _) => if seqNo.Some? && Truthy(b64).Some? then agent else None
    case _ => None
  }

  /** The events about one agent, in order. */
  function History(events: seq<Event>, id: AgentId): (r: seq<Event>)
    ensures forall e :: e in r ==> e in events && About(e) == Some(id)
  {
    if events == [] then []
    else
      var rest, last := History(events[..|events| - 1], id), events[|events| - 1];
      if About(last) == Some(id) then rest + [last] else rest
  }

  /** The agents in the order they were first heard of. */
  function FirstSeen(events: seq<Event>): (ids: seq<AgentId>)
    ensures forall i, j :: 0 <= i < j < |ids| ==> ids[i] != ids[j]
    ensures forall id :: id in ids <==> exists k :: 0 <= k < |events| && About(events[k]) == Some(id)
  {
    if events == [] then []
    else
      var n := |events| - 1;
      var ids := FirstSeen(events[..n]);
      match About(events[n])
      case Some(id) => if id in ids then ids else ids + [id]
      case None => ids
  }

  function Steps(history: seq<Event>): seq<StepView> {
    if history == [] then []
    else
      var rest, last := Steps(history[..|history| - 1]), history[|history| - 1];
      if last.Step? && last.seqNo.Some? then rest + [StepOf(last)] else rest
  }

  function Frames(history: seq<Event>): seq<FrameView> {
    if history == [] then []
    else
      var rest, last := Frames(history[..|history| - 1]), history[|history| - 1];
      if last.Frame? && last.seqNo.Some? && last.b64.Some? then rest + [FrameOf(last)] else rest
  }

  /** The agent events only. */
  function Notices(history: seq<Event>): (r: seq<Event>)
    ensures forall e :: e in r ==> e.Agent?
  {
    if history == [] then []
    else
      var rest, last := Notices(history[..|history| - 1]), history[|history| - 1];
      if last.Agent? then rest + [last] else rest
  }

  /** The last of the values given, or the first value held. */
  function LastGiven<T>(notices: seq<Event>, field: Event -> Option<T>, held: T): T {
    if notices == [] then held
    else OrElse(field(notices[|notices| - 1]), LastGiven(notices[..|notices| - 1], field, held))
  }

  function LastText(notices: seq<Event>, field: Event -> Option<string>): Option<string> {
    if notices == [] then None
    else OrKeep(field(notices[|notices| - 1]), LastText(notices[..|notices| - 1], field))
  }

  function LastN<T>(s: seq<T>, n: nat): seq<T> {
    if |s| > n then s[|s| - n..] else s
  }

  /** Frame `i` is newer than all that came before it, and none that came after it is newer. */
  predicate BeatsOthers(frames: seq<FrameView>, i: nat)
    requires i < |frames|
  {
    && (forall j :: 0 <= j < i ==> frames[j].seqNo < frames[i].seqNo)
    && (forall j :: i <= j < |frames| ==> frames[j].seqNo <= frames[i].seqNo)
  }

  /** `best` is the frame to show of all that came: one of the highest sequence number, and of
      those the first to come. */
  predicate IsShownFrame(frames: seq<FrameView>, best: Option<FrameView>) {
    if frames == [] then best.None?
    else
      && best.Some?
      && (exists i :: 0 <= i < |frames| && frames[i] == best.value && BeatsOthers(frames, i))
  }

  /** `top` is the largest of zero and every sequence number of steps and frames. */
  predicate IsLatest(steps: seq<StepView>, frames: seq<FrameView>, top: int) {
    && top >= 0
    && (forall i :: 0 <= i < |steps| ==> steps[i].seqNo <= top)
    && (forall i :: 0 <= i < |frames| ==> frames[i].seqNo <= top)
    && (top == 0 || (exists i :: 0 <= i < |steps| && steps[i].seqNo == top)
                 || (exists i :: 0 <= i < |frames| && frames[i].seqNo == top))
  }

  function SurfaceGiven(e: Event): Option<Surface> { if e.Agent? then e.surface else None }
  function StateGiven(e: Event): Option<AgentState> { if e.Agent? then e.state else None }
  function PersonaGiven(e: Event): Option<string> { if e.Agent? then e.persona else None }
  function WorkflowGiven(e: Event): Option<string> { if e.Agent? then e.workflow else None }
  function VerdictGiven(e: Event): Option<string> { if e.Agent? then e.verdict else None }

  /** `a` sums up the events about it. */
  predicate SumsUp(a: AgentView, id: AgentId, history: seq<Event>) {
    var steps, frames, notices := Steps(history), Frames(history), Notices(history);
    && a.id == id
    && a.steps == LastN(steps, STEP_CAP)
    && a.stepCount == |steps|
    && IsLatest(steps, frames, a.latestSeq)
    && IsShownFrame(frames, a.lastFrame)
    && a.surface == LastGiven(notices, SurfaceGiven, Web)
    && a.state == LastGiven(notices, StateGiven, Pending)
    && a.persona == LastText(notices, PersonaGiven)
    && a.workflow == LastText(notices, WorkflowGiven)
    && a.verdict == LastText(notices, VerdictGiven)
  }

  /** `s` sums up a history of events. */
  ghost predicate Summary(s: LiveState, events: seq<Event>) {
    && AgentsSumUp(s.agents, events)
    && s.run == LastRun(events).0 && s.protocol == LastRun(events).1
    && s.counts == LastCounts(events)
  }

  function LastRun(events: seq<Event>): (Option<string>, Option<int>) {
    if events == [] then (None, None)
    else
      var last := events[|events| - 1];
      if last.Hello? && last.run.Some? then (last.run, last.protocol) else LastRun(events[..|events| - 1])
  }

  function LastCounts(events: seq<Event>): Option<Counts> {
    if events == [] then None
    else
      var last := events[|events| - 1];
      if last.Done? && last.counts.Some? then last.counts else LastCounts(events[..|events| - 1])
  }

  // ---------------------------------------------------------------------------
  // The reducer keeps the summary
  // ---------------------------------------------------------------------------

  /** What one more event about an agent does to its view. */
  function Change(e: Event, a: AgentView): AgentView
    requires About(e).Some?
  {
    match e
    case Agent(_, _, _, _, _, _) => AgentChange(e, a)
    case Step(_, _, _, _, _, _) => StepChange(e, a)
    case Frame(_, _, _, _, _, _) => FrameChange(e, a)
  }

  lemma HistoryGrows(history: seq<Event>, e: Event)
    requires About(e).Some?
    ensures Steps(history + [e]) == if e.Step? then Steps(history) + [StepOf(e)] else Steps(history)
    ensures Frames(history + [e]) == if e.Frame? then Frames(history) + [FrameOf(e)] else Frames(history)
    ensures Notices(history + [e]) == if e.Agent? then Notices(history) + [e] else Notices(history)
  {
    assert (history + [e])[..|history|] == history;
  }

  lemma BlankSumsUpNothing(id: AgentId)
    ensures SumsUp(Blank(id, None), id, [])
  {
  }

  lemma ShownFrameGrows(frames: seq<FrameView>, best: Option<FrameView>, f: FrameView)
    requires IsShownFrame(frames, best)
    ensures IsShownFrame(frames + [f], if best.Some? && f.seqNo <= best.value.seqNo then best else Some(f))
  {
    var all := frames + [f];
    if best.Some? && f.seqNo <= best.value.seqNo {
      var i :| 0 <= i < |frames| && frames[i] == best.value && BeatsOthers(frames, i);
      assert all[i] == best.value && BeatsOthers(all, i);
    } else {
      if best.Some? {
        var i :| 0 <= i < |frames| && frames[i] == best.value && BeatsOthers(frames, i);
      }
      assert all[|frames|] == f && BeatsOthers(all, |frames|);
    }
  }

  lemma LatestGrows(steps: seq<StepView>, frames: seq<FrameView>, top: int, e: Event)
    requires IsLatest(steps, frames, top) && About(e).Some? && (e.Step? || e.Frame?)
    ensures IsLatest(if e.Step? then steps + [StepOf(e)] else steps, if e.Frame? then frames + [FrameOf(e)] else frames,
                     Max(top, e.seqNo.value))
  {
    var steps' := if e.Step? then steps + [StepOf(e)] else steps;
    var frames' := if e.Frame? then frames + [FrameOf(e)] else frames;
    assert forall i :: 0 <= i < |steps| ==> steps'[i] == steps[i];
    assert forall i :: 0 <= i < |frames| ==> frames'[i] == frames[i];
    if e.Step? {
      assert steps'[|steps|].seqNo == e.seqNo.value;
    } else {
      assert frames'[|frames|].seqNo == e.seqNo.value;
    }
  }

  lemma AgentKeepsSum(a: AgentView, id: AgentId, history: seq<Event>, e: Event)
    requires SumsUp(a, id, history) && About(e) == Some(id) && e.Agent?
    ensures SumsUp(AgentChange(e, a), id, history + [e])
  {
    HistoryGrows(history, e);
    var notices := Notices(history);
    assert (notices + [e])[..|notices|] == notices;
  }

  lemma StepKeepsSum(a: AgentView, id: AgentId, history: seq<Event>, e: Event)
    requires SumsUp(a, id, history) && About(e) == Some(id) && e.Step?
    ensures SumsUp(StepChange(e, a), id, history + [e])
  {
    HistoryGrows(history, e);
    LatestGrows(Steps(history), Frames(history), a.latestSeq, e);
    LastNGrows(Steps(history), StepOf(e), STEP_CAP);
  }

  lemma LastNGrows<T>(s: seq<T>, x: T, n: nat)
    requires n > 0
    ensures LastN(s + [x], n) == LastN(LastN(s, n) + [x], n)
  {
  }

  lemma FrameKeepsSum(a: AgentView, id: AgentId, history: seq<Event>, e: Event)
    requires SumsUp(a, id, history) && About(e) == Some(id) && e.Frame?
    ensures SumsUp(FrameChange(e, a), id, history + [e])
  {
    HistoryGrows(history, e);
    LatestGrows(Steps(history), Frames(history), a.latestSeq, e);
    ShownFrameGrows(Frames(history), a.lastFrame, FrameOf(e));
  }

  lemma ChangeKeepsSum(a: AgentView, id: AgentId, history: seq<Event>, e: Event)
    requires SumsUp(a, id, history) && About(e) == Some(id)
    ensures SumsUp(Change(e, a), id, history + [e])
  {
    match e
    case Agent(_, _, _, _, _, _) => AgentKeepsSum(a, id, history, e);
    case Step(_, _, _, _, _, _) => StepKeepsSum(a, id, history, e);
    case Frame(_, _, _, _, _, _) => FrameKeepsSum(a, id, history, e);
  }

  /** What the reducer does with an event about an agent, new or known. */
  lemma ReduceChangesOneAgent(s: LiveState, e: Event, id: AgentId)
    requires About(e) == Some(id)
    ensures
      var i := FindAgent(s.agents, id);
      Reduce(s, e) ==
        if i == -1 then s.(agents := s.agents + [Change(e, Blank(id, None))])
        else s.(agents := s.agents[i := Change(e, s.agents[i])])
  {
  }

  lemma SeenAgent(s: LiveState, events: seq<Event>, id: AgentId)
    requires Summary(s, events)
    ensures var i := FindAgent(s.agents, id);
      if i == -1 then id !in FirstSeen(events) else FirstSeen(events)[i] == id
  {
    var ids := FirstSeen(events);
    assert forall j :: 0 <= j < |ids| ==> s.agents[j].id == ids[j];
  }

  lemma {:induction false} NeverHeardOf(events: seq<Event>, id: AgentId)
    requires id !in FirstSeen(events)
    ensures History(events, id) == []
  {
    if events != [] {
      var n := |events| - 1;
      assert About(events[n]) != Some(id);
      NeverHeardOf(events[..n], id);
    }
  }

  ghost predicate AgentsSumUp(agents: seq<AgentView>, events: seq<Event>) {
    && |agents| == |FirstSeen(events)|
    && forall k :: 0 <= k < |agents| ==> SumsUp(agents[k], FirstSeen(events)[k], History(events, FirstSeen(events)[k]))
  }

  lemma OneMoreEvent(events: seq<Event>, e: Event, id: AgentId)
    ensures History(events + [e], id) == if About(e) == Some(id) then History(events, id) + [e] else History(events, id)
    ensures About(e) == Some(id) ==>
      FirstSeen(events + [e]) == if id in FirstSeen(events) then FirstSeen(events) else FirstSeen(events) + [id]
  {
    assert (events + [e])[..|events|] == events;
  }

  lemma KnownAgentChanges(agents: seq<AgentView>, events: seq<Event>, e: Event, i: nat)
    requires AgentsSumUp(agents, events) && i < |agents| && About(e) == Some(FirstSeen(events)[i])
    ensures AgentsSumUp(agents[i := Change(e, agents[i])], events + [e])
  {
    var ids, changed := FirstSeen(events), agents[i := Change(e, agents[i])];
    assert ids[i] in ids;
    OneMoreEvent(events, e, ids[i]);
    AboutOneIsSummedUp(agents, events, e, i);
    forall k | 0 <= k < |agents| && k != i ensures SumsUp(changed[k], ids[k], History(events + [e], ids[k])) {
      assert changed[k] == agents[k] && ids[k] != ids[i];
      OthersStaySummedUp(agents, events, e, k);
    }
  }

  lemma AboutOneIsSummedUp(agents: seq<AgentView>, events: seq<Event>, e: Event, i: nat)
    requires AgentsSumUp(agents, events) && i < |agents| && About(e) == Some(FirstSeen(events)[i])
    ensures SumsUp(Change(e, agents[i]), FirstSeen(events)[i], History(events + [e], FirstSeen(events)[i]))
  {
    var id := FirstSeen(events)[i];
    OneMoreEvent(events, e, id);
    ChangeKeepsSum(agents[i], id, History(events, id), e);
  }

  lemma OthersStaySummedUp(agents: seq<AgentView>, events: seq<Event>, e: Event, k: nat)
    requires AgentsSumUp(agents, events) && k < |agents| && About(e) != Some(FirstSeen(events)[k])
    ensures SumsUp(agents[k], FirstSeen(events)[k], History(events + [e], FirstSeen(events)[k]))
  {
    var id := FirstSeen(events)[k];
    OneMoreEvent(events, e, id);
  }

  lemma NewcomerIsSummedUp(events: seq<Event>, e: Event, id: AgentId)
    requires About(e) == Some(id) && id !in FirstSeen(events)
    ensures SumsUp(Change(e, Blank(id, None)), id, History(events + [e], id))
  {
    OneMoreEvent(events, e, id);
    NeverHeardOf(events, id);
    BlankSumsUpNothing(id);
    ChangeKeepsSum(Blank(id, None), id, [], e);
  }

  lemma NewAgentJoins(agents: seq<AgentView>, events: seq<Event>, e: Event, id: AgentId)
    requires AgentsSumUp(agents, events) && About(e) == Some(id) && id !in FirstSeen(events)
    ensures AgentsSumUp(agents + [Change(e, Blank(id, None))], events + [e])
  {
    var ids := FirstSeen(events);
    OneMoreEvent(events, e, id);
    NewcomerIsSummedUp(events, e, id);
    forall k | 0 <= k < |agents| ensures SumsUp(agents[k], ids[k], History(events + [e], ids[k])) {
      assert ids[k] in ids;
      OthersStaySummedUp(agents, events, e, k);
    }
    OneMoreSumsUp(agents, ids, Change(e, Blank(id, None)), id, events + [e]);
  }

  lemma OneMoreSumsUp(agents: seq<AgentView>, ids: seq<AgentId>, agent: AgentView, id: AgentId, events: seq<Event>)
    requires |agents| == |ids| && FirstSeen(events) == ids + [id]
    requires forall k :: 0 <= k < |agents| ==> SumsUp(agents[k], ids[k], History(events, ids[k]))
    requires SumsUp(agent, id, History(events, id))
    ensures AgentsSumUp(agents + [agent], events)
  {
  }

  lemma ReduceKeepsAgents(s: LiveState, events: seq<Event>, e: Event, id: AgentId)
    requires Summary(s, events) && About(e) == Some(id)
    ensures AgentsSumUp(Reduce(s, e).agents, events + [e])
  {
    var i := FindAgent(s.agents, id);
    ReduceChangesOneAgent(s, e, id);
    SeenAgent(s, events, id);
    if i == -1 { NewAgentJoins(s.agents, events, e, id); } else { KnownAgentChanges(s.agents, events, e, i); }
  }

  lemma ReduceKeepsSummary(s: LiveState, events: seq<Event>, e: Event)
    requires Summary(s, events)
    ensures Summary(Reduce(s, e), events + [e])
  {
    ReduceKeepsLasts(s, events, e);
    match About(e)
    case Some(id) => ReduceKeepsAgents(s, events, e, id);
    case None => OtherEventsKeepAgents(s, events, e);
  }

  lemma ReduceKeepsLasts(s: LiveState, events: seq<Event>, e: Event)
    requires s.run == LastRun(events).0 && s.protocol == LastRun(events).1 && s.counts == LastCounts(events)
    ensures var r, all := Reduce(s, e), events + [e];
      r.run == LastRun(all).0 && r.protocol == LastRun(all).1 && r.counts == LastCounts(all)
  {
    assert (events + [e])[..|events|] == events;
    if About(e).Some? { ReduceChangesOneAgent(s, e, About(e).value); }
  }

  lemma OtherEventsKeepAgents(s: LiveState, events: seq<Event>, e: Event)
    requires AgentsSumUp(s.agents, events) && About(e).None?
    ensures AgentsSumUp(Reduce(s, e).agents, events + [e])
  {
    var ids := FirstSeen(events);
    assert (events + [e])[..|events|] == events;
    forall k | 0 <= k < |s.agents| ensures SumsUp(s.agents[k], ids[k], History(events + [e], ids[k])) {
      OthersStaySummedUp(s.agents, events, e, k);
    }
  }

  /** Folding any sequence of events gives the summary of that sequence. */
  lemma {:induction false} FoldIsSummary(events: seq<Event>)
    ensures Summary(ReduceAll(events, INITIAL), events)
  {
    if events != [] {
      var n := |events| - 1;
      FoldIsSummary(events[..n]);
      ReduceKeepsSummary(ReduceAll(events[..n], INITIAL), events[..n], events[n]);
      assert events[..n] + [events[n]] == events;
    }
  }

  // ---------------------------------------------------------------------------
  // Frames out of order
  // ---------------------------------------------------------------------------

  predicate IsFrame(e: Event) {
    e.Frame? && About(e).Some?
  }

  function NotFrames(events: seq<Event>): seq<Event> {
    if events == [] then []
    else
      var rest, last := NotFrames(events[..|events| - 1]), events[|events| - 1];
      if IsFrame(last) then rest else rest + [last]
  }

  predicate DistinctSeqs(frames: seq<FrameView>) {
    forall i, j :: 0 <= i < j < |frames| ==> frames[i].seqNo != frames[j].seqNo
  }

  /** The same events, but for the order in which the frames of each agent come. */
  ghost predicate SameButForFrameOrder(events: seq<Event>, others: seq<Event>) {
    && NotFrames(events) == NotFrames(others)
    && FirstSeen(events) == FirstSeen(others)
    && forall id :: id in FirstSeen(events) ==>
         var f, g := Frames(History(events, id)), Frames(History(others, id));
         multiset(f) == multiset(g) && DistinctSeqs(f) && DistinctSeqs(g)
  }

  lemma OneMoreKept(events: seq<Event>, e: Event)
    ensures NotFrames(events + [e]) == if IsFrame(e) then NotFrames(events) else NotFrames(events) + [e]
  {
    assert (events + [e])[..|events|] == events;
  }

  /** Leaving out the frames and picking out one agent's events can be done in either order. */
  lemma {:induction false} HistoryWithoutFrames(events: seq<Event>, id: AgentId)
    ensures History(NotFrames(events), id) == NotFrames(History(events, id))
  {
    if events != [] {
      var before, last := events[..|events| - 1], events[|events| - 1];
      HistoryWithoutFrames(before, id);
      assert events == before + [last];
      OneMoreEvent(before, last, id);
      OneMoreKept(before, last);
      OneMoreEvent(NotFrames(before), last, id);
      if About(last) == Some(id) { OneMoreKept(History(before, id), last); }
    }
  }

  lemma {:induction false} FramesAreNotCounted(history: seq<Event>)
    requires forall e :: e in history ==> About(e).Some?
    ensures Steps(NotFrames(history)) == Steps(history) && Notices(NotFrames(history)) == Notices(history)
  {
    if history != [] {
      var before, last := history[..|history| - 1], history[|history| - 1];
      FramesAreNotCounted(before);
      assert history == before + [last] && last in history;
      OneMoreKept(before, last);
      HistoryGrows(before, last);
      if !IsFrame(last) { HistoryGrows(NotFrames(before), last); }
    }
  }

  lemma {:induction false} FramesDoNotMatterElsewhere(events: seq<Event>)
    ensures LastRun(NotFrames(events)) == LastRun(events) && LastCounts(NotFrames(events)) == LastCounts(events)
  {
    if events != [] {
      var n := |events| - 1;
      FramesDoNotMatterElsewhere(events[..n]);
      if IsFrame(events[n]) {
        assert NotFrames(events) == NotFrames(events[..n]);
      } else {
        assert NotFrames(events)[..|NotFrames(events)| - 1] == NotFrames(events[..n]);
      }
    }
  }

  lemma SameFrame(f: seq<FrameView>, g: seq<FrameView>, i: nat) returns (j: nat)
    requires multiset(f) == multiset(g) && i < |f|
    ensures j < |g| && g[j] == f[i]
  {
    assert f[i] in multiset(f);
    assert f[i] in g;
    j :| 0 <= j < |g| && g[j] == f[i];
  }

  lemma ShownFrameIsSame(f: seq<FrameView>, g: seq<FrameView>, a: Option<FrameView>, b: Option<FrameView>)
    requires multiset(f) == multiset(g) && DistinctSeqs(f) && DistinctSeqs(g)
    requires IsShownFrame(f, a) && IsShownFrame(g, b)
    ensures a == b
  {
    assert |f| == |multiset(f)| && |g| == |multiset(g)|;
    if f != [] {
      var i :| 0 <= i < |f| && f[i] == a.value && BeatsOthers(f, i);
      var j :| 0 <= j < |g| && g[j] == b.value && BeatsOthers(g, j);
      var i' := SameFrame(g, f, j);
      var j' := SameFrame(f, g, i);
      assert f[i'].seqNo <= f[i].seqNo && g[j'].seqNo <= g[j].seqNo;
    }
  }

  lemma LatestIsSame(steps: seq<StepView>, f: seq<FrameView>, g: seq<FrameView>, m: int, n: int)
    requires multiset(f) == multiset(g) && IsLatest(steps, f, m) && IsLatest(steps, g, n)
    ensures m <= n
  {
    if i :| 0 <= i < |f| && f[i].seqNo == m {
      var j := SameFrame(f, g, i);
    }
  }

  lemma SumIsSame(a: AgentView, b: AgentView, id: AgentId, history: seq<Event>, other: seq<Event>)
    requires SumsUp(a, id, history) && SumsUp(b, id, other)
    requires Steps(history) == Steps(other) && Notices(history) == Notices(other)
    requires multiset(Frames(history)) == multiset(Frames(other))
    requires DistinctSeqs(Frames(history)) && DistinctSeqs(Frames(other))
    ensures a == b
  {
    ShownFrameIsSame(Frames(history), Frames(other), a.lastFrame, b.lastFrame);
    LatestIsSame(Steps(history), Frames(history), Frames(other), a.latestSeq, b.latestSeq);
    LatestIsSame(Steps(history), Frames(other), Frames(history), b.latestSeq, a.latestSeq);
  }

  /** Frames of distinct sequence numbers may come in any order. */
  lemma FramesMayComeInAnyOrder(events: seq<Event>, others: seq<Event>)
    requires SameButForFrameOrder(events, others)
    ensures ReduceAll(events, INITIAL) == ReduceAll(others, INITIAL)
  {
    var s, t := ReduceAll(events, INITIAL), ReduceAll(others, INITIAL);
    FoldIsSummary(events);
    FoldIsSummary(others);
    FramesDoNotMatterElsewhere(events);
    FramesDoNotMatterElsewhere(others);
    forall k | 0 <= k < |s.agents| ensures s.agents[k] == t.agents[k] {
      var id := FirstSeen(events)[k];
      assert id in FirstSeen(events);
      HistoryWithoutFrames(events, id);
      HistoryWithoutFrames(others, id);
      FramesAreNotCounted(History(events, id));
      FramesAreNotCounted(History(others, id));
      SumIsSame(s.agents[k], t.agents[k], id, History(events, id), History(others, id));
    }
    assert s.agents == t.agents;
  }
}
