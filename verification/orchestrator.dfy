/** The legacy supervisory state machine: it runs decomposition, retrieval,
    composition and parametrisation in order, pausing only where the
    decomposition asks for a human checkpoint, and assembles the final
    package. The four agents and the final report are parameters. */
module Orchestrator {
  import opened Wrappers
  import opened Assoc
  import opened BondGraph

  /** The state names the orchestrator sets. */
  datatype Phase =
    | Idle | Decomposing
    | Hitl1 | Hitl2 | Hitl3 | Hitl4
    | Retrieving | Composing | Parametrizing | Finalizing

  /** An agent's `AgentResult`: its payload is opaque JSON. */
  datatype AgentResult = AgentResult(success: bool, data: Option<Json>, report: string, needsHitl: bool)

  /** The orchestrator's context dictionary. */
  datatype Context = Context(
    userPrompt: string,
    spec: Option<Json>,
    components: Option<Json>,
    compositeModel: Option<Json>,
    finalPackage: Option<Json>,
    reports: Assoc<string, string>)

  /** The workers, and the final report (which reads the clock). */
  datatype Agents = Agents(
    decompose: string -> AgentResult,
    retrieve: Option<Json> -> AgentResult,
    compose: (Option<Json>, Option<Json>) -> AgentResult,
    parametrize: Option<Json> -> AgentResult,
    finalReport: Context -> string)

  datatype Orch = Orch(phase: Phase, ctx: Context)

  datatype Step = Step(orch: Orch, result: AgentResult)

  /** A fresh orchestrator: idle, with an empty context. */
  const Initial := Orch(Idle, Context("", None, None, None, None, []))

  /** The phases a step can stop in: a human checkpoint, the end, or the
      phase whose agent failed. */
  predicate IsStop(p: Phase) {
    p in {Idle, Decomposing, Hitl1, Retrieving, Composing, Finalizing}
  }

  /** Distance to the end of the pipeline; every automatic hand-over
      decreases it. */
  function Rank(p: Phase): nat {
    match p
    case Idle => 0
    case Finalizing => 0
    case Parametrizing => 1
    case Hitl4 => 1
    case Composing => 2
    case Hitl3 => 2
    case Retrieving => 3
    case Hitl2 => 3
    case Hitl1 => 4
    case Decomposing => 5
  }

  /** The phase a human checkpoint resumes at. */
  function AfterCheckpoint(p: Phase): Phase
    requires p in {Hitl1, Hitl2, Hitl3, Hitl4}
  {
    match p
    case Hitl1 => Retrieving
    case Hitl2 => Composing
    case Hitl3 => Parametrizing
    case Hitl4 => Finalizing
  }

  /** One phase's work: either the step stops with a result, or control
      passes automatically to a later phase. */
  datatype Move = Stop(orch: Orch, result: AgentResult) | Continue(next: Orch)

  /** The body of `run_step` for one phase: dispatch the phase's agent,
      record its report, and either stop or hand over. Feedback only
      matters in the decomposition phase. */
  function Dispatch(o: Orch, agents: Agents, feedback: Option<string>): (m: Move)
    ensures m.Continue? ==> Rank(m.next.phase) < Rank(o.phase) && m.next.ctx.userPrompt == o.ctx.userPrompt
    ensures m.Stop? ==> IsStop(m.orch.phase) && m.orch.ctx.userPrompt == o.ctx.userPrompt
    ensures m.Stop? ==> (m.result.success <==> m.orch.phase in {Hitl1, Finalizing})
    ensures m.Stop? ==> (m.orch.phase == Idle <==> o.phase == Idle)
  {
    var ctx := o.ctx;
    match o.phase
    case Decomposing =>
      var r := agents.decompose(ctx.userPrompt);
      var ctx := ctx.(reports := Put(ctx.reports, "decomposition", r.report));
      if !r.success then Stop(Orch(Decomposing, ctx), r)
      else
        var ctx := ctx.(spec := r.data);
        if r.needsHitl && !Truthy(feedback) then Stop(Orch(Hitl1, ctx), r)
        else Continue(Orch(Retrieving, ctx))
    case Hitl1 => Continue(Orch(AfterCheckpoint(o.phase), ctx))
    case Hitl2 => Continue(Orch(AfterCheckpoint(o.phase), ctx))
    case Hitl3 => Continue(Orch(AfterCheckpoint(o.phase), ctx))
    case Hitl4 => Continue(Orch(AfterCheckpoint(o.phase), ctx))
    case Retrieving =>
      var r := agents.retrieve(ctx.spec);
      var ctx := ctx.(reports := Put(ctx.reports, "retrieval", r.report));
      if r.success then Continue(Orch(Composing, ctx.(components := r.data)))
      else Stop(Orch(Retrieving, ctx), r)
    case Composing =>
      var r := agents.compose(ctx.components, ctx.spec);
      var ctx := ctx.(reports := Put(ctx.reports, "composition", r.report));
      if r.success then Continue(Orch(Parametrizing, ctx.(compositeModel := r.data)))
      else Stop(Orch(Composing, ctx), r)
    case Parametrizing =>
      var r := agents.parametrize(ctx.compositeModel);
      Continue(Orch(Finalizing, ctx.(reports := Put(ctx.reports, "parameters", r.report), finalPackage := r.data)))
    case Finalizing =>
      Stop(o, AgentResult(true, ctx.finalPackage, agents.finalReport(ctx), false))
    case Idle =>
      Stop(o, AgentResult(false, None, "Unknown State", false))
  }

  /** `run_step`: dispatch phase after phase until one stops; a phase
      reached automatically runs without feedback. */
  function RunStep(o: Orch, agents: Agents, feedback: Option<string>): (s: Step)
    ensures IsStop(s.orch.phase)
    ensures s.result.success <==> s.orch.phase in {Hitl1, Finalizing}
    ensures s.orch.ctx.userPrompt == o.ctx.userPrompt
    ensures s.orch.phase == Idle <==> o.phase == Idle
    ensures Rank(s.orch.phase) <= Rank(o.phase)
    decreases Rank(o.phase)
  {
    match Dispatch(o, agents, feedback)
    case Stop(o', r) => Step(o', r)
    case Continue(o') => RunStep(o', agents, None)
  }

  /** An automatic hand-over runs the next phase without feedback. */
  lemma HandOver(o: Orch, agents: Agents, feedback: Option<string>)
    requires Dispatch(o, agents, feedback).Continue?
    ensures RunStep(o, agents, feedback) == RunStep(Dispatch(o, agents, feedback).next, agents, None)
  {
  }

  /** `start_pipeline`: records the prompt and runs from decomposition. */
  function StartPipeline(o: Orch, agents: Agents, prompt: string): (s: Step)
    ensures s.orch.ctx.userPrompt == prompt
    ensures s.orch.phase in {Decomposing, Hitl1, Retrieving, Composing, Finalizing}
    ensures s.result.success <==> s.orch.phase in {Hitl1, Finalizing}
  {
    RunStep(Orch(Decomposing, o.ctx.(userPrompt := prompt)), agents, None)
  }

  /** A human checkpoint resumes at its successor phase and forgets the
      feedback it was given. */
  lemma CheckpointResumes(o: Orch, agents: Agents, feedback: Option<string>)
    requires o.phase in {Hitl1, Hitl2, Hitl3, Hitl4}
    ensures RunStep(o, agents, feedback) == RunStep(Orch(AfterCheckpoint(o.phase), o.ctx), agents, None)
  {
    assert Dispatch(o, agents, feedback) == Continue(Orch(AfterCheckpoint(o.phase), o.ctx));
  }

  /** A failing retrieval or composition agent stops the machine in its own
      phase, with its report recorded and the payload it would have set
      left as it was. */
  lemma FailureDoesNotAdvance(o: Orch, agents: Agents, feedback: Option<string>)
    requires o.phase in {Retrieving, Composing}
    requires o.phase == Retrieving ==> !agents.retrieve(o.ctx.spec).success
    requires o.phase == Composing ==> !agents.compose(o.ctx.components, o.ctx.spec).success
    ensures var s := RunStep(o, agents, feedback);
      && s.orch.phase == o.phase
      && !s.result.success
      && s.orch.ctx.components == o.ctx.components
      && s.orch.ctx.compositeModel == o.ctx.compositeModel
      && HasKey(s.orch.ctx.reports, if o.phase == Retrieving then "retrieval" else "composition")
  {
    var r := if o.phase == Retrieving then agents.retrieve(o.ctx.spec) else agents.compose(o.ctx.components, o.ctx.spec);
    PutHasKey(o.ctx.reports, if o.phase == Retrieving then "retrieval" else "composition", r.report);
  }

  /** A failing decomposition stops the machine in its own phase with the
      agent's result: its report is recorded and no spec is set. */
  lemma DecompositionFails(o: Orch, agents: Agents, feedback: Option<string>)
    requires o.phase == Decomposing && !agents.decompose(o.ctx.userPrompt).success
    ensures var s := RunStep(o, agents, feedback);
      && s.orch.phase == Decomposing
      && s.result == agents.decompose(o.ctx.userPrompt)
      && s.orch.ctx.spec == o.ctx.spec
      && HasKey(s.orch.ctx.reports, "decomposition")
      && (UniqueKeys(o.ctx.reports) ==> Get(s.orch.ctx.reports, "decomposition") == Some(agents.decompose(o.ctx.userPrompt).report))
  {
    PutHasKey(o.ctx.reports, "decomposition", agents.decompose(o.ctx.userPrompt).report);
  }

  /** Parametrisation never stops the machine: whatever the agent returns
      becomes the final package and the step finishes successfully. */
  lemma ParametrizingFinishes(o: Orch, agents: Agents, feedback: Option<string>)
    requires o.phase == Parametrizing
    ensures var s := RunStep(o, agents, feedback);
      && s.orch.phase == Finalizing
      && s.result.success
      && s.result.data == agents.parametrize(o.ctx.compositeModel).data
      && s.orch.ctx.finalPackage == s.result.data
      && s.orch.ctx.spec == o.ctx.spec && s.orch.ctx.components == o.ctx.components
      && s.orch.ctx.compositeModel == o.ctx.compositeModel
  {
  }

  /** A decomposition that asks for review pauses at the first checkpoint
      unless feedback is already at hand; with feedback it carries on. */
  lemma DecompositionCheckpoint(o: Orch, agents: Agents, feedback: Option<string>)
    requires o.phase == Decomposing
    requires agents.decompose(o.ctx.userPrompt).success && agents.decompose(o.ctx.userPrompt).needsHitl
    ensures var s := RunStep(o, agents, feedback);
      && (!Truthy(feedback) ==> s.orch.phase == Hitl1 && s.result == agents.decompose(o.ctx.userPrompt))
      && (Truthy(feedback) ==> s.orch.phase != Hitl1)
  {
  }

  /** A successful decomposition that asks for no review records the spec
      and hands over to retrieval. */
  lemma DecomposeHandsOver(o: Orch, agents: Agents, feedback: Option<string>)
    requires o.phase == Decomposing
    requires agents.decompose(o.ctx.userPrompt).success && !agents.decompose(o.ctx.userPrompt).needsHitl
    ensures var d := agents.decompose(o.ctx.userPrompt);
      Dispatch(o, agents, feedback) == Continue(Orch(Retrieving, o.ctx.(reports := Put(o.ctx.reports, "decomposition", d.report), spec := d.data)))
  {
  }

  /** A successful retrieval records the components and hands over to
      composition. */
  lemma RetrieveHandsOver(o: Orch, agents: Agents, feedback: Option<string>)
    requires o.phase == Retrieving && agents.retrieve(o.ctx.spec).success
    ensures var rt := agents.retrieve(o.ctx.spec);
      Dispatch(o, agents, feedback) == Continue(Orch(Composing, o.ctx.(reports := Put(o.ctx.reports, "retrieval", rt.report), components := rt.data)))
  {
  }

  /** A successful composition records the composite model and hands over
      to parametrisation. */
  lemma ComposeHandsOver(o: Orch, agents: Agents, feedback: Option<string>)
    requires o.phase == Composing && agents.compose(o.ctx.components, o.ctx.spec).success
    ensures var c := agents.compose(o.ctx.components, o.ctx.spec);
      Dispatch(o, agents, feedback) == Continue(Orch(Parametrizing, o.ctx.(reports := Put(o.ctx.reports, "composition", c.report), compositeModel := c.data)))
  {
  }

  /** When every agent succeeds and none asks for review, one call runs the
      whole pipeline, and the final package is the parametrisation of the
      composition of the retrieved components of the decomposed spec. */
  lemma HappyPath(o: Orch, agents: Agents, feedback: Option<string>)
    requires o.phase == Decomposing
    requires var d := agents.decompose(o.ctx.userPrompt);
      var rt := agents.retrieve(d.data);
      var c := agents.compose(rt.data, d.data);
      d.success && !d.needsHitl && rt.success && c.success
    ensures var d := agents.decompose(o.ctx.userPrompt);
      var rt := agents.retrieve(d.data);
      var c := agents.compose(rt.data, d.data);
      var s := RunStep(o, agents, feedback);
      && s.orch.phase == Finalizing
      && s.result.success
      && s.result.data == agents.parametrize(c.data).data
      && s.orch.ctx.spec == d.data && s.orch.ctx.components == rt.data && s.orch.ctx.compositeModel == c.data
  {
    var d := agents.decompose(o.ctx.userPrompt);
    var rt := agents.retrieve(d.data);
    var c := agents.compose(rt.data, d.data);
    var o2 := Orch(Retrieving, o.ctx.(reports := Put(o.ctx.reports, "decomposition", d.report), spec := d.data));
    DecomposeHandsOver(o, agents, feedback);
    HandOver(o, agents, feedback);
    var o3 := Orch(Composing, o2.ctx.(reports := Put(o2.ctx.reports, "retrieval", rt.report), components := rt.data));
    RetrieveHandsOver(o2, agents, None);
    HandOver(o2, agents, None);
    var o4 := Orch(Parametrizing, o3.ctx.(reports := Put(o3.ctx.reports, "composition", c.report), compositeModel := c.data));
    ComposeHandsOver(o3, agents, None);
    HandOver(o3, agents, None);
    ParametrizingFinishes(o4, agents, None);
  }

  /** An orchestrator that was never started answers with a failure and
      stays idle. */
  lemma IdleIsUnknownState(agents: Agents, feedback: Option<string>)
    ensures RunStep(Initial, agents, feedback) == Step(Initial, AgentResult(false, None, "Unknown State", false))
  {
  }
}
