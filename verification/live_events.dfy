/** What each event of the live view changes, field by field, and which change nothing. */
module LiveEvents {
  import opened Options
  import opened LiveView

  /** The view of the agent, if it has been heard of. */
  function ViewOf(s: LiveState, id: AgentId): Option<AgentView> {
    var i := FindAgent(s.agents, id);
    if i == -1 then None else Some(s.agents[i])
  }

  /** An agent first heard of through a step or a frame, or without a surface, is on the web, pending,
      and has nothing to show. */
  function Held(s: LiveState, id: AgentId): AgentView {
    match ViewOf(s, id)
    case Some(a) => a
    case None => AgentView(id, None, None, Web, Pending, None, None, [], 0, 0)
  }

  lemma {:induction false} FoundWhereItIs(agents: seq<AgentView>, a: AgentView, id: AgentId)
    requires a.id == id
    ensures FindAgent(agents, id) == -1 ==> FindAgent(agents + [a], id) == |agents|
    ensures FindAgent(agents, id) >= 0 ==>
      FindAgent(agents[FindAgent(agents, id) := a], id) == FindAgent(agents, id)
  {
    var i := FindAgent(agents, id);
    if i == -1 {
      var all := agents + [a];
      assert all[|agents|].id == id && forall j :: 0 <= j < |agents| ==> all[j].id != id;
    } else {
      var all := agents[i := a];
      assert all[i].id == id && forall j :: 0 <= j < i ==> all[j].id != id;
    }
  }

  lemma {:induction false} OthersWhereTheyWere(agents: seq<AgentView>, a: AgentView, id: AgentId, other: AgentId)
    requires a.id == id && other != id
    ensures FindAgent(agents + [a], other) == FindAgent(agents, other)
    ensures FindAgent(agents, id) >= 0 ==>
      FindAgent(agents[FindAgent(agents, id) := a], other) == FindAgent(agents, other)
  {
    var i, k := FindAgent(agents, id), FindAgent(agents, other);
    var more := agents + [a];
    assert forall j :: 0 <= j < |agents| ==> more[j] == agents[j];
    if i >= 0 {
      var all := agents[i := a];
      assert forall j :: 0 <= j < |agents| && j != i ==> all[j] == agents[j];
    }
  }

  /** A change of one agent's view shows there and nowhere else. */
  lemma OneAgentChanges(s: LiveState, e: Event, id: AgentId, other: AgentId)
    requires About(e) == Some(id)
    ensures ViewOf(Reduce(s, e), id) == Some(Change(e, Held(s, id)))
    ensures other != id ==> ViewOf(Reduce(s, e), other) == ViewOf(s, other)
    ensures Reduce(s, e) == s.(agents := Reduce(s, e).agents)
  {
    ReduceChangesOneAgent(s, e, id);
    var a := Change(e, Held(s, id));
    FoundWhereItIs(s.agents, a, id);
    if other != id { OthersWhereTheyWere(s.agents, a, id, other); }
  }

  /** Text that is missing or empty. */
  predicate NoText(text: Option<string>) {
    text.None? || text.value == ""
  }

  function WithoutEmpty(text: Option<string>): Option<string> {
    if NoText(text) then None else text
  }

  /** A step is added to its agent as it came, an empty url or action left out; of more than 200 the
      last 200 are kept, and all are counted. */
  lemma StepIsShown(
      s: LiveState, id: AgentId, n: int, text: string, url: Option<string>, action: Option<string>, at: string)
    ensures
      var a := Held(s, id);
      var steps := a.steps + [StepView(n, text, WithoutEmpty(url), WithoutEmpty(action), at)];
      ViewOf(Reduce(s, Step(Some(id), Some(n), text, url, action, at)), id) == Some(a.(
        steps := if |steps| > 200 then steps[|steps| - 200..] else steps,
        stepCount := a.stepCount + 1, latestSeq := if n > a.latestSeq then n else a.latestSeq))
  {
    OneAgentChanges(s, Step(Some(id), Some(n), text, url, action, at), id, id);
  }

  /** A frame is shown as it came unless the one on show has its number or a higher one. */
  lemma FrameIsShown(s: LiveState, id: AgentId, n: int, b64: string, w: int, h: int, at: string)
    requires b64 != ""
    ensures
      var a := Held(s, id);
      var late := a.lastFrame.Some? && a.lastFrame.value.seqNo >= n;
      var shown := if late then a.lastFrame else Some(FrameView(b64, w, h, n, at));
      ViewOf(Reduce(s, Frame(Some(id), Some(n), Some(b64), w, h, at)), id)
      == Some(a.(lastFrame := shown, latestSeq := if n > a.latestSeq then n else a.latestSeq))
  {
    OneAgentChanges(s, Frame(Some(id), Some(n), Some(b64), w, h, at), id, id);
  }

  /** What an agent says of itself replaces what is held, field by field, and what it leaves out or
      leaves empty does not. */
  lemma NoticeIsHeld(
      s: LiveState, id: AgentId, surface: Option<Surface>, state: Option<AgentState>,
      persona: Option<string>, workflow: Option<string>, verdict: Option<string>)
    ensures
      var a := Held(s, id);
      ViewOf(Reduce(s, Agent(Some(id), surface, state, persona, workflow, verdict)), id) == Some(a.(
        surface := if surface.Some? then surface.value else a.surface,
        state := if state.Some? then state.value else a.state,
        persona := if NoText(persona) then a.persona else persona,
        workflow := if NoText(workflow) then a.workflow else workflow,
        verdict := if NoText(verdict) then a.verdict else verdict))
  {
    OneAgentChanges(s, Agent(Some(id), surface, state, persona, workflow, verdict), id, id);
  }

  /** A run is named by its greeting and summed up by its end, and those touch nothing else. */
  lemma RunIsNamedAndSummedUp(s: LiveState, run: string, protocol: Option<int>, counts: Counts)
    ensures Reduce(s, Hello(Some(run), protocol)) == s.(run := Some(run), protocol := protocol)
    ensures Reduce(s, Done(Some(counts))) == s.(counts := Some(counts))
  {
  }

  /** Whether an event lacks what its type needs. */
  predicate Malformed(e: Event) {
    match e
    case Hello(run, _) => run.None?
    case Agent(agent, _, _, _, _, _) => agent.None?
    case Step(agent, seqNo, _, _, _, _) => agent.None? || seqNo.None?
    case Frame(agent, seqNo, b64, _, _, _) => agent.None? || seqNo.None? || NoText(b64)
    case Done(counts) => counts.None?
    case Other => true
  }

  /** An event changes nothing if it lacks what its type needs, and is heard otherwise. */
  lemma MalformedEventsAreSkipped(s: LiveState, e: Event)
    ensures Malformed(e) ==> Reduce(s, e) == s
    ensures !Malformed(e) && (e.Agent? || e.Step? || e.Frame?) ==> About(e) == e.agent
  {
  }

  /** Before anything has come there is nothing to show. */
  lemma NothingAtFirst(start: LiveState)
    ensures ReduceAll([], start) == start
    ensures INITIAL == LiveState(None, None, [], None)
  {
  }
}
