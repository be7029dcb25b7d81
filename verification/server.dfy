/** The web server's pure rules: how `serialize_state` infers where the
    workflow stands and stamps the message history for the frontend, how a
    project is stripped of its API key before it is saved, and which state
    keys a client may overwrite. The endpoints themselves, the graph and
    the file store are not part of this model. */
module Server {
  import opened Wrappers
  import opened Strings
  import opened Assoc
  import opened BondGraph

  // ---------------------------------------------------------------------
  // Status inference
  // ---------------------------------------------------------------------

  /** What `serialize_state` reads from the agent state: the simulation
      status when it is a string (`None` when absent or not a string), the
      truthiness of each artifact, and the text of each message. */
  datatype StateView = StateView(
    simulationStatus: Option<string>,
    spec: bool,
    simulationReport: bool,
    curatorOutput: bool,
    compositeModel: bool,
    physicistOutput: bool,
    messages: seq<string>)

  /** The frontend's position: the current node and the run status. */
  datatype Position = Position(currentNode: string, status: string)

  /** The nodes a pending interrupt can name, in the order they are tried. */
  const InterruptNodes := ["retriever", "composer", "researcher", "analyst"]

  /** The first of the interrupt nodes that is pending, if any. */
  function PendingNode(nextNodes: seq<string>): (r: Option<string>)
    ensures r.Some? ==> r.value in InterruptNodes && r.value in nextNodes
    ensures r.None? <==> forall k :: 0 <= k < |InterruptNodes| ==> InterruptNodes[k] !in nextNodes
    ensures r.Some? ==> forall k :: 0 <= k < |InterruptNodes| && InterruptNodes[k] == r.value ==>
      forall j :: 0 <= j < k ==> InterruptNodes[j] !in nextNodes
  {
    if "retriever" in nextNodes then Some("retriever")
    else if "composer" in nextNodes then Some("composer")
    else if "researcher" in nextNodes then Some("researcher")
    else if "analyst" in nextNodes then Some("analyst")
    else None
  }

  /** The node an artifact-bearing state resumes at: the latest stage whose
      artifact exists. */
  function ArtifactNode(st: StateView): string {
    if st.simulationReport || st.curatorOutput then "analyst"
    else if st.compositeModel then "researcher"
    else if st.physicistOutput then "composer"
    else "retriever"
  }

  /** The status inference of `serialize_state`: an explicit simulation
      outcome first, then a pending interrupt (unless the planner is
      pending), then the artifacts of a loaded state; by default the
      planner is running. */
  function InferPosition(st: StateView, nextNodes: seq<string>): (p: Position)
    ensures st.simulationStatus == Some("success") ==> p == Position("complete", "success")
    ensures st.simulationStatus == Some("failure") ==> p == Position("analyst", "error")
  {
    if st.simulationStatus == Some("success") then Position("complete", "success")
    else if st.simulationStatus == Some("failure") then Position("analyst", "error")
    else if |nextNodes| > 0 && "planner" !in nextNodes then
      match PendingNode(nextNodes)
      case Some(n) => Position(n, "paused")
      case None => Position("planner", "running")
    else if st.spec then Position(ArtifactNode(st), "paused")
    else Position("planner", "running")
  }

  /** A pending interrupt decides the position whenever the simulation has
      no outcome, whatever artifacts the state holds. */
  lemma InterruptBeatsArtifacts(st: StateView, nextNodes: seq<string>)
    requires st.simulationStatus != Some("success") && st.simulationStatus != Some("failure")
    requires |nextNodes| > 0 && "planner" !in nextNodes
    ensures InferPosition(st, nextNodes) ==
      if PendingNode(nextNodes).Some? then Position(PendingNode(nextNodes).value, "paused") else Position("planner", "running")
  {
  }

  /** Without an outcome or an interrupt, a state with a spec is paused at
      the stage after its latest artifact. */
  lemma ArtifactsDecide(st: StateView, nextNodes: seq<string>)
    requires st.simulationStatus != Some("success") && st.simulationStatus != Some("failure")
    requires |nextNodes| == 0 || "planner" in nextNodes
    requires st.spec
    ensures InferPosition(st, nextNodes).status == "paused"
    ensures st.simulationReport ==> InferPosition(st, nextNodes).currentNode == "analyst"
    ensures !st.simulationReport && st.curatorOutput ==> InferPosition(st, nextNodes).currentNode == "analyst"
    ensures !st.simulationReport && !st.curatorOutput && st.compositeModel ==>
      InferPosition(st, nextNodes).currentNode == "researcher"
    ensures !st.simulationReport && !st.curatorOutput && !st.compositeModel && st.physicistOutput ==>
      InferPosition(st, nextNodes).currentNode == "composer"
    ensures !st.simulationReport && !st.curatorOutput && !st.compositeModel && !st.physicistOutput ==>
      InferPosition(st, nextNodes).currentNode == "retriever"
  {
  }

  /** Without an outcome, an interrupt or a spec, the default stands: the
      planner is running. */
  lemma NoSpecRunsPlanner(st: StateView, nextNodes: seq<string>)
    requires st.simulationStatus != Some("success") && st.simulationStatus != Some("failure")
    requires |nextNodes| == 0 || "planner" in nextNodes
    requires !st.spec
    ensures InferPosition(st, nextNodes) == Position("planner", "running")
  {
  }

  /** The status is "running" exactly when the planner is the current node:
      the planner is never reported paused, and no other node is reported
      running. */
  lemma RunningIffPlanner(st: StateView, nextNodes: seq<string>)
    ensures var p := InferPosition(st, nextNodes);
      (p.status == "running" <==> p.currentNode == "planner")
      && p.status in {"running", "paused", "success", "error"}
      && p.currentNode in {"planner", "retriever", "composer", "researcher", "analyst", "complete"}
  {
    var p := InferPosition(st, nextNodes);
    if PendingNode(nextNodes).Some? {
      assert PendingNode(nextNodes).value in InterruptNodes;
    }
    assert ArtifactNode(st) != "planner";
  }

  // ---------------------------------------------------------------------
  // Message timestamps
  // ---------------------------------------------------------------------

  datatype FrontendMessage = FrontendMessage(role: string, content: string, timestamp: int)

  /** `lastUpdated`: the file's modification time when the state was read
      from disk, otherwise the current time (both in milliseconds, already
      truncated to integers). */
  function LastUpdated(nowMs: int, fileMtimeMs: Option<int>): (t: int)
    ensures fileMtimeMs.Some? ==> t == fileMtimeMs.value
    ensures fileMtimeMs.None? ==> t == nowMs
  {
    fileMtimeMs.GetOr(nowMs)
  }

  /** The message list for the frontend: one agent message per raw message,
      in order, the last stamped `lastUpdated` and each earlier one a
      second before the next. */
  method FrontendMessages(raw: seq<string>, lastUpdated: int) returns (msgs: seq<FrontendMessage>)
    ensures |msgs| == |raw|
    ensures forall i :: 0 <= i < |raw| ==> msgs[i].role == "agent" && msgs[i].content == raw[i]
    ensures |raw| > 0 ==> msgs[|raw| - 1].timestamp == lastUpdated
    ensures forall i :: 0 <= i < |raw| - 1 ==> msgs[i + 1].timestamp - msgs[i].timestamp == 1000
    ensures forall i :: 0 <= i < |raw| ==> msgs[i].timestamp <= lastUpdated
  {
    msgs := [];
    for i := 0 to |raw|
      invariant |msgs| == i
      invariant forall j :: 0 <= j < i ==> msgs[j] == FrontendMessage("agent", raw[j], lastUpdated - (|raw| - 1 - j) * 1000)
    {
      msgs := msgs + [FrontendMessage("agent", raw[i], lastUpdated - (|raw| - 1 - i) * 1000)];
    }
  }

  /** The part of `serialize_state`'s result this model covers. */
  datatype UiState = UiState(currentNode: string, status: string, lastUpdated: int, messages: seq<FrontendMessage>)

  /** `serialize_state`, with the clock and the file's modification time
      as parameters. */
  method SerializeState(st: StateView, nextNodes: seq<string>, nowMs: int, fileMtimeMs: Option<int>) returns (ui: UiState)
    ensures ui.currentNode == InferPosition(st, nextNodes).currentNode && ui.status == InferPosition(st, nextNodes).status
    ensures ui.lastUpdated == LastUpdated(nowMs, fileMtimeMs)
    ensures |ui.messages| == |st.messages|
    ensures |st.messages| > 0 ==> ui.messages[|st.messages| - 1].timestamp == ui.lastUpdated
  {
    var p := InferPosition(st, nextNodes);
    var t := LastUpdated(nowMs, fileMtimeMs);
    var msgs := FrontendMessages(st.messages, t);
    ui := UiState(p.currentNode, p.status, t, msgs);
  }

  // ---------------------------------------------------------------------
  // Saving and updating a project
  // ---------------------------------------------------------------------

  /** The copy `save_project` writes: the state without its "api_key". */
  function SavedState(state: Assoc<string, Json>): (r: Assoc<string, Json>)
    ensures !HasKey(r, "api_key")
    ensures forall i :: 0 <= i < |r| ==> r[i] in state
    ensures forall i :: 0 <= i < |state| && state[i].0 != "api_key" ==> state[i] in r
  {
    Remove(state, "api_key")
  }

  /** Every key but "api_key" keeps its value in the saved copy. */
  lemma SavedKeepsOtherKeys(state: Assoc<string, Json>, k: string)
    requires UniqueKeys(state)
    ensures Get(SavedState(state), k) == if k == "api_key" then None else Get(state, k)
  {
    GetRemove(state, "api_key", k);
  }

  /** The keys `update_state_part` accepts; each maps to itself. */
  const EditableKeys := ["spec", "components", "generated_code", "project_notes", "physicist_output", "curator_output"]

  datatype Reply = Rejected(code: nat, detail: string) | Updated(state: Assoc<string, Json>)

  /** `update_state_part`: a key outside the whitelist is rejected with 400
      before the state is touched; an accepted key overwrites its value. */
  function UpdateStatePart(state: Assoc<string, Json>, key: string, value: Json): (r: Reply)
    ensures r.Rejected? <==> key !in EditableKeys
    ensures r.Rejected? ==> r.code == 400 && r.detail == "Invalid key"
    ensures r.Updated? && UniqueKeys(state) ==> UniqueKeys(r.state) && Get(r.state, key) == Some(value)
  {
    if key !in EditableKeys then Rejected(400, "Invalid key") else Updated(Put(state, key, value))
  }

  /** An accepted update leaves every other key as it was, so the API key
      and the workflow's own fields cannot be written through it. */
  lemma UpdateTouchesOnlyKey(state: Assoc<string, Json>, key: string, value: Json, other: string)
    requires UniqueKeys(state) && other != key
    ensures var r := UpdateStatePart(state, key, value);
      r.Updated? ==> Get(r.state, other) == Get(state, other)
  {
    if key in EditableKeys {
      GetPutOther(state, key, value, other);
    }
  }

  /** "api_key" is not editable. */
  lemma ApiKeyNotEditable(state: Assoc<string, Json>, value: Json)
    ensures UpdateStatePart(state, "api_key", value).Rejected?
  {
  }
}
