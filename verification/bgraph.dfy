/** The bond-graph data model: nodes keyed by id in insertion order, bonds
    as an ordered list, and the conversion of nodes, bonds and whole models
    to and from their dictionary form. A dictionary is modelled as a record
    of optional fields (`None` = key absent); the values themselves are
    already typed, as the JSON decoding of string-valued fields is not part
    of this model. */
module BondGraph {
  import opened Wrappers
  import opened Assoc
  import opened Seqs
  import opened MathML
  import CellML

  /** Opaque JSON payloads that the pipeline stores and copies but never
      inspects (a node's `variables`, `constitutive_laws`,
      `system_properties`). */
  datatype Json =
    | JNull
    | JBool(b: bool)
    | JNum(n: real)
    | JStr(s: string)
    | JArr(items: seq<Json>)
    | JObj(fields: seq<(string, Json)>)

  /** A node id: one given in a dictionary, or the k-th fresh id of an
      injected supply (standing for `uuid4()`); the two kinds never clash. */
  datatype NodeId = Given(s: string) | Fresh(k: nat)

  /** An ontology annotation; each field is `None` when the key is absent
      (an empty `semantics` dictionary is all `None`). */
  datatype Semantics = Semantics(
    physicsId: Option<string>,
    entityId: Option<string>,
    locationId: Option<string>,
    entityLabel: Option<string>,
    locationLabel: Option<string>)

  const NoSemantics := Semantics(None, None, None, None, None)

  /** The `flow` entry of a port: a dictionary (with an optional
      `variable`) or some other value. */
  datatype Flow = FlowObject(variable: Option<string>) | FlowOther

  /** A port definition: its semantics, its optional `flow` entry, and its
      optional legacy `variable` entry (present, possibly `null`). */
  datatype PortDef = PortDef(semantics: Semantics, flow: Option<Flow>, variable: Option<Option<string>>)

  /** A value of a node's `ports` map: a dictionary, or anything else. */
  datatype PortEntry = Port(def: PortDef) | NotAnObject

  /** A parameter value: the numeric parse of an initial value, or the raw
      text when it does not parse. */
  datatype Param = Number(x: real) | Raw(text: string)

  /** The node metadata the pipeline produces: none (`{}`), a CellML
      component's equations and variables, or a scaffold junction's domain. */
  datatype NodeMeta =
    | NoMeta
    | ComponentMeta(equations: seq<string>, structured: seq<Equation>, variables: Assoc<Option<string>, CellML.Variable>)
    | JunctionMeta(domain: string, semantics: Semantics)

  /** The bond metadata the pipeline produces: none (`{}`), the variable
      pairs of a CellML connection, or a scaffold link. */
  datatype BondMeta =
    | NoBondMeta
    | VariableMap(pairs: seq<(string, string)>)
    | ScaffoldLink(portName: string, componentVariable: Option<string>, scaffoldId: string, semantics: Semantics)

  datatype BGNode = BGNode(
    id: NodeId,
    name: string,
    kind: string,
    parameters: Assoc<Option<string>, Param>,
    metadata: NodeMeta,
    ports: Assoc<string, PortEntry>,
    variables: Assoc<string, Json>,
    constitutiveLaws: seq<Json>,
    systemProperties: Assoc<string, Json>)

  datatype BGBond = BGBond(source: NodeId, target: NodeId, causalStroke: Option<string>, metadata: BondMeta)

  datatype Model = Model(name: string, proteinId: string, nodes: Assoc<NodeId, BGNode>, bonds: seq<BGBond>)

  // ---------------------------------------------------------------------
  // Dictionary forms
  // ---------------------------------------------------------------------

  datatype NodeDict = NodeDict(
    id: Option<NodeId>,
    name: Option<string>,
    kind: Option<string>,
    ports: Option<Assoc<string, PortEntry>>,
    variables: Option<Assoc<string, Json>>,
    constitutiveLaws: Option<seq<Json>>,
    systemProperties: Option<Assoc<string, Json>>,
    parameters: Option<Assoc<Option<string>, Param>>,
    metadata: Option<NodeMeta>)

  datatype BondDict = BondDict(source: Option<NodeId>, target: Option<NodeId>, causalStroke: Option<string>, metadata: Option<BondMeta>)

  datatype ModelDict = ModelDict(name: Option<string>, proteinId: Option<string>, nodes: Option<seq<NodeDict>>, bonds: Option<seq<BondDict>>)

  /** `BGNode.from_dict`: `name` and `type` are required (a `KeyError`
      otherwise); a missing id takes the next fresh one; missing
      collections default to empty. Returns the node and the next unused
      fresh index. */
  function NodeFromDict(d: NodeDict, next: nat): (r: Outcome<(BGNode, nat)>)
    ensures r.Ok? <==> d.name.Some? && d.kind.Some?
    ensures r.Ok? ==> var (n, next') := r.value;
      && n.name == d.name.value && n.kind == d.kind.value
      && (d.id.Some? ==> n.id == d.id.value && next' == next)
      && (d.id.None? ==> n.id == Fresh(next) && next' == next + 1)
      && (d.ports.None? ==> n.ports == []) && (d.variables.None? ==> n.variables == [])
      && (d.constitutiveLaws.None? ==> n.constitutiveLaws == [])
      && (d.systemProperties.None? ==> n.systemProperties == [])
      && (d.parameters.None? ==> n.parameters == []) && (d.metadata.None? ==> n.metadata == NoMeta)
  {
    if d.name.None? || d.kind.None? then Raised
    else
      var id := if d.id.Some? then d.id.value else Fresh(next);
      Ok((BGNode(id, d.name.value, d.kind.value,
                 d.parameters.GetOr([]), d.metadata.GetOr(NoMeta),
                 d.ports.GetOr([]), d.variables.GetOr([]),
                 d.constitutiveLaws.GetOr([]), d.systemProperties.GetOr([])),
          if d.id.Some? then next else next + 1))
  }

  /** `BGNode.to_dict`: every field is written, so reading it back yields
      the same node and consumes no fresh id. */
  function NodeToDict(n: BGNode): (d: NodeDict)
    ensures forall next: nat :: NodeFromDict(d, next) == Ok((n, next))
  {
    NodeDict(Some(n.id), Some(n.name), Some(n.kind), Some(n.ports), Some(n.variables),
             Some(n.constitutiveLaws), Some(n.systemProperties), Some(n.parameters), Some(n.metadata))
  }

  /** `BGBond.from_dict`: the two endpoints are required; an absent
      causal stroke is `None`; absent metadata is `{}`. */
  function BondFromDict(d: BondDict): (r: Outcome<BGBond>)
    ensures r.Ok? <==> d.source.Some? && d.target.Some?
    ensures r.Ok? ==>
      && r.value.source == d.source.value && r.value.target == d.target.value
      && r.value.causalStroke == d.causalStroke
      && (d.metadata.None? ==> r.value.metadata == NoBondMeta)
  {
    if d.source.None? || d.target.None? then Raised
    else Ok(BGBond(d.source.value, d.target.value, d.causalStroke, d.metadata.GetOr(NoBondMeta)))
  }

  /** `BGBond.to_dict`, which `BondFromDict` undoes, an absent causal
      stroke included. */
  function BondToDict(b: BGBond): (d: BondDict)
    ensures BondFromDict(d) == Ok(b)
  {
    BondDict(Some(b.source), Some(b.target), b.causalStroke, Some(b.metadata))
  }

  // ---------------------------------------------------------------------
  // Building a model
  // ---------------------------------------------------------------------

  /** `add_node`: keyed by id, so re-adding an id replaces that entry in
      place and a new id is appended. */
  function AddNode(m: Model, n: BGNode): (r: Model)
    ensures r.name == m.name && r.proteinId == m.proteinId && r.bonds == m.bonds
    ensures UniqueKeys(m.nodes) ==> UniqueKeys(r.nodes) && Get(r.nodes, n.id) == Some(n)
    ensures HasKey(m.nodes, n.id) ==> |r.nodes| == |m.nodes|
    ensures !HasKey(m.nodes, n.id) ==> r.nodes == m.nodes + [(n.id, n)]
    ensures forall i :: 0 <= i < |m.nodes| && m.nodes[i].0 != n.id ==> r.nodes[i] == m.nodes[i]
  {
    m.(nodes := Put(m.nodes, n.id, n))
  }

  /** `add_bond`: exactly one bond is appended, between the two nodes'
      ids, with `{}` for absent metadata; endpoints are not checked. */
  function AddBond(m: Model, source: BGNode, target: BGNode, stroke: Option<string>, meta: Option<BondMeta>): (r: Model)
    ensures r.name == m.name && r.proteinId == m.proteinId && r.nodes == m.nodes
    ensures |r.bonds| == |m.bonds| + 1 && r.bonds[..|m.bonds|] == m.bonds
    ensures r.bonds[|m.bonds|].source == source.id && r.bonds[|m.bonds|].target == target.id
    ensures r.bonds[|m.bonds|].causalStroke == stroke
    ensures r.bonds[|m.bonds|].metadata == (if meta.Some? then meta.value else NoBondMeta)
  {
    m.(bonds := m.bonds + [BGBond(source.id, target.id, stroke, meta.GetOr(NoBondMeta))])
  }

  /** A model whose node map is keyed by each node's own id, as `add_node`
      keeps it. */
  predicate KeyedById(m: Model) {
    UniqueKeys(m.nodes) && forall i :: 0 <= i < |m.nodes| ==> m.nodes[i].0 == m.nodes[i].1.id
  }

  /** `add_node` for each node in turn. */
  function AddNodes(m: Model, ns: seq<BGNode>): (r: Model)
    ensures r.name == m.name && r.proteinId == m.proteinId && r.bonds == m.bonds
    ensures KeyedById(m) ==> KeyedById(r)
    decreases |ns|
  {
    if |ns| == 0 then m
    else
      var m1 := AddNode(m, ns[0]);
      assert KeyedById(m) ==> KeyedById(m1) by {
        if KeyedById(m) {
          forall i | 0 <= i < |m1.nodes| ensures m1.nodes[i].0 == m1.nodes[i].1.id {
            if i < |m.nodes| && m.nodes[i].0 == ns[0].id {
              assert Keys(m1.nodes)[i] == Keys(m.nodes)[i];
              GetAt(m1.nodes, i);
            }
          }
        }
      }
      AddNodes(m1, ns[1..])
  }

  /** The ids present after one `add_node`: the old ones and the new one. */
  lemma AddNodeHasKey(m: Model, n: BGNode, id: NodeId)
    ensures HasKey(AddNode(m, n).nodes, id) <==> HasKey(m.nodes, id) || id == n.id
  {
    var r := AddNode(m, n);
    if HasKey(m.nodes, n.id) {
      assert Keys(r.nodes) == Keys(m.nodes);
      if HasKey(r.nodes, id) {
        var j :| 0 <= j < |r.nodes| && r.nodes[j].0 == id;
        assert Keys(r.nodes)[j] == id;
      }
      if HasKey(m.nodes, id) {
        var j :| 0 <= j < |m.nodes| && m.nodes[j].0 == id;
        assert Keys(m.nodes)[j] == id;
      }
      if id == n.id {
        var j :| 0 <= j < |m.nodes| && m.nodes[j].0 == id;
        assert Keys(m.nodes)[j] == id;
      }
    } else {
      if HasKey(m.nodes, id) {
        var j :| 0 <= j < |m.nodes| && m.nodes[j].0 == id;
        assert r.nodes[j].0 == id;
      }
      assert r.nodes[|m.nodes|].0 == n.id;
    }
  }

  /** After adding a list of nodes, the ids present are the old ones and
      those of the list, each once: on an empty model the node count is
      the number of distinct ids. */
  lemma {:induction false} AddNodesIds(m: Model, ns: seq<BGNode>, id: NodeId)
    requires KeyedById(m)
    ensures HasKey(AddNodes(m, ns).nodes, id) <==> HasKey(m.nodes, id) || exists i :: 0 <= i < |ns| && ns[i].id == id
    decreases |ns|
  {
    if |ns| > 0 {
      var m1 := AddNode(m, ns[0]);
      AddNodeHasKey(m, ns[0], id);
      AddNodesIds(m1, ns[1..], id);
      SomeIdCons(ns, id);
    }
  }

  /** Some node of a non-empty list carries `id` exactly when the first one
      does or some later one does. */
  lemma SomeIdCons(ns: seq<BGNode>, id: NodeId)
    requires |ns| > 0
    ensures (exists i :: 0 <= i < |ns| && ns[i].id == id) <==> ns[0].id == id || exists i :: 0 <= i < |ns[1..]| && ns[1..][i].id == id
  {
    if exists i :: 0 <= i < |ns[1..]| && ns[1..][i].id == id {
      var i :| 0 <= i < |ns[1..]| && ns[1..][i].id == id;
      assert ns[i + 1].id == id;
    }
    if exists i :: 0 <= i < |ns| && ns[i].id == id {
      var i :| 0 <= i < |ns| && ns[i].id == id;
      if i > 0 {
        assert ns[1..][i - 1].id == id;
      }
    }
  }

  /** Re-adding an id replaces its entry: an id maps to the last node of
      the list that carries it. */
  lemma {:induction false} AddNodesLastWins(m: Model, ns: seq<BGNode>, i: nat)
    requires KeyedById(m) && i < |ns|
    requires forall j :: i < j < |ns| ==> ns[j].id != ns[i].id
    ensures Get(AddNodes(m, ns).nodes, ns[i].id) == Some(ns[i])
    decreases |ns|
  {
    var m1 := AddNode(m, ns[0]);
    if i == 0 {
      forall j | 0 <= j < |ns[1..]| ensures ns[1..][j].id != ns[0].id {
        assert ns[1..][j] == ns[j + 1];
      }
      KeptWhenNotAdded(m1, ns[1..], ns[0].id);
    } else {
      assert ns[1..][i - 1] == ns[i];
      forall j | i - 1 < j < |ns[1..]| ensures ns[1..][j].id != ns[1..][i - 1].id {
        assert ns[1..][j] == ns[j + 1];
      }
      AddNodesLastWins(m1, ns[1..], i - 1);
    }
  }

  /** An id none of the added nodes carries keeps its entry. */
  lemma {:induction false} KeptWhenNotAdded(m: Model, ns: seq<BGNode>, id: NodeId)
    requires KeyedById(m)
    requires forall j :: 0 <= j < |ns| ==> ns[j].id != id
    ensures Get(AddNodes(m, ns).nodes, id) == Get(m.nodes, id)
    decreases |ns|
  {
    if |ns| > 0 {
      GetPutOther(m.nodes, ns[0].id, ns[0], id);
      KeptWhenNotAdded(AddNode(m, ns[0]), ns[1..], id);
    }
  }

  /** `id` is one of the `count` fresh ids from `next` on. */
  predicate IdIn(id: NodeId, next: nat, count: nat) {
    id.Fresh? && next <= id.k < next + count
  }

  /** The (id, node) entries `add_node` gives a list of nodes. */
  function Entries(ns: seq<BGNode>): (es: Assoc<NodeId, BGNode>)
    ensures |es| == |ns| && forall i :: 0 <= i < |ns| ==> es[i] == (ns[i].id, ns[i])
  {
    seq(|ns|, i requires 0 <= i < |ns| => (ns[i].id, ns[i]))
  }

  /** Nodes with distinct ids that are all new are appended in order. */
  lemma {:induction false} AddNodesAppend(m: Model, ns: seq<BGNode>)
    requires forall i :: 0 <= i < |ns| ==> !HasKey(m.nodes, ns[i].id)
    requires forall i, j :: 0 <= i < j < |ns| ==> ns[i].id != ns[j].id
    ensures AddNodes(m, ns).nodes == m.nodes + Entries(ns)
    decreases |ns|
  {
    if |ns| == 0 {
      assert m.nodes + Entries(ns) == m.nodes;
    } else {
      var m1 := AddNode(m, ns[0]);
      forall i | 0 <= i < |ns[1..]| ensures !HasKey(m1.nodes, ns[1..][i].id) {
        assert ns[1..][i] == ns[i + 1];
        AddNodeHasKey(m, ns[0], ns[i + 1].id);
      }
      AddNodesAppend(m1, ns[1..]);
      assert m1.nodes + Entries(ns[1..]) == m.nodes + Entries(ns);
    }
  }

  /** The nodes of a model, in insertion order (`nodes.values()`). */
  function Values(nodes: Assoc<NodeId, BGNode>): (vs: seq<BGNode>)
    ensures |vs| == |nodes| && forall i :: 0 <= i < |nodes| ==> vs[i] == nodes[i].1
  {
    seq(|nodes|, i requires 0 <= i < |nodes| => nodes[i].1)
  }

  /** `BondGraphModel.to_dict`. */
  function ModelToDict(m: Model): (d: ModelDict)
    ensures d.name == Some(m.name) && d.proteinId == Some(m.proteinId)
    ensures d.nodes.Some? && |d.nodes.value| == |m.nodes|
    ensures forall i :: 0 <= i < |m.nodes| ==> NodeFromDict(d.nodes.value[i], 0) == Ok((m.nodes[i].1, 0))
    ensures d.bonds.Some? && |d.bonds.value| == |m.bonds|
    ensures forall i :: 0 <= i < |m.bonds| ==> BondFromDict(d.bonds.value[i]) == Ok(m.bonds[i])
  {
    ModelDict(Some(m.name), Some(m.proteinId),
      Some(seq(|m.nodes|, i requires 0 <= i < |m.nodes| => NodeToDict(m.nodes[i].1))),
      Some(seq(|m.bonds|, i requires 0 <= i < |m.bonds| => BondToDict(m.bonds[i]))))
  }

  /** Rehydrating nodes: each dictionary is read and `add_node`-ed in
      order; the first failure propagates. */
  function NodesFromDicts(m: Model, ds: seq<NodeDict>, next: nat): (r: Outcome<(Model, nat)>)
    ensures r.Ok? ==> r.value.0.name == m.name && r.value.0.proteinId == m.proteinId && r.value.0.bonds == m.bonds
    ensures r.Ok? <==> forall i :: 0 <= i < |ds| ==> ds[i].name.Some? && ds[i].kind.Some?
    decreases |ds|
  {
    if |ds| == 0 then Ok((m, next))
    else
      match NodeFromDict(ds[0], next)
      case Raised => Raised
      case Ok((n, next')) =>
        var r := NodesFromDicts(AddNode(m, n), ds[1..], next');
        assert forall i :: 1 <= i < |ds| ==> ds[i] == ds[1..][i - 1];
        r
  }

  /** Rehydrating bonds: appended as they are, without endpoint checks. */
  function BondsFromDicts(ds: seq<BondDict>): (r: Outcome<seq<BGBond>>)
    ensures r.Ok? <==> forall i :: 0 <= i < |ds| ==> ds[i].source.Some? && ds[i].target.Some?
    ensures r.Ok? ==> |r.value| == |ds| && forall i :: 0 <= i < |ds| ==> Ok(r.value[i]) == BondFromDict(ds[i])
  {
    MapAll(BondFromDict, ds)
  }

  /** `BondGraphModel.from_dict`: `name` and `protein_id` are required;
      missing node or bond lists are empty. */
  function ModelFromDict(d: ModelDict, next: nat): (r: Outcome<(Model, nat)>)
    ensures r.Ok? ==> d.name.Some? && d.proteinId.Some?
    ensures r.Ok? ==> r.value.0.name == d.name.value && r.value.0.proteinId == d.proteinId.value
    ensures r.Ok? <==>
      && d.name.Some? && d.proteinId.Some?
      && (forall i :: 0 <= i < |d.nodes.GetOr([])| ==> d.nodes.GetOr([])[i].name.Some? && d.nodes.GetOr([])[i].kind.Some?)
      && (forall i :: 0 <= i < |d.bonds.GetOr([])| ==> d.bonds.GetOr([])[i].source.Some? && d.bonds.GetOr([])[i].target.Some?)
    ensures r.Ok? ==> |r.value.0.bonds| == |d.bonds.GetOr([])|
    ensures r.Ok? ==> forall i :: 0 <= i < |d.bonds.GetOr([])| ==> Ok(r.value.0.bonds[i]) == BondFromDict(d.bonds.GetOr([])[i])
    ensures r.Ok? ==> var nodes := NodesFromDicts(Model(d.name.value, d.proteinId.value, [], []), d.nodes.GetOr([]), next);
      nodes.Ok? && r.value.0.nodes == nodes.value.0.nodes && r.value.1 == nodes.value.1
  {
    if d.name.None? || d.proteinId.None? then Raised
    else
      match NodesFromDicts(Model(d.name.value, d.proteinId.value, [], []), d.nodes.GetOr([]), next)
      case Raised => Raised
      case Ok((m, next')) =>
        match BondsFromDicts(d.bonds.GetOr([]))
        case Raised => Raised
        case Ok(bs) => Ok((m.(bonds := bs), next'))
  }

  /** Bonds are read without checking their endpoints: a dictionary with no
      nodes and one bond between two unknown ids reads back as a model
      whose bond dangles. */
  lemma DanglingBondAccepted(a: string, b: string)
    ensures var d := ModelDict(Some("m"), Some("p"), None, Some([BondDict(Some(Given(a)), Some(Given(b)), None, None)]));
      var r := ModelFromDict(d, 0);
      r.Ok? && r.value.0.nodes == [] && r.value.0.bonds == [BGBond(Given(a), Given(b), None, NoBondMeta)]
  {
  }

  /** The dictionaries of the nodes of `m` from position `i` on. */
  function DictsFrom(m: Model, i: nat): (ds: seq<NodeDict>)
    requires i <= |m.nodes|
    ensures |ds| == |m.nodes| - i && forall k :: 0 <= k < |ds| ==> ds[k] == NodeToDict(m.nodes[i + k].1)
  {
    seq(|m.nodes| - i, k requires 0 <= k < |m.nodes| - i => NodeToDict(m.nodes[i + k].1))
  }

  lemma DictsFromTail(m: Model, i: nat)
    requires i < |m.nodes|
    ensures DictsFrom(m, i)[0] == NodeToDict(m.nodes[i].1) && DictsFrom(m, i)[1..] == DictsFrom(m, i + 1)
  {
  }

  /** In a model keyed by id, adding the i-th node to the first i entries
      gives the first i + 1. */
  lemma RebuildStep(m: Model, i: nat)
    requires KeyedById(m) && i < |m.nodes|
    ensures AddNode(m.(nodes := m.nodes[..i]), m.nodes[i].1) == m.(nodes := m.nodes[..i + 1])
  {
    var pre := m.(nodes := m.nodes[..i]);
    var n := m.nodes[i].1;
    assert !HasKey(pre.nodes, n.id) by {
      forall j | 0 <= j < i ensures pre.nodes[j].0 != n.id {
        assert pre.nodes[j] == m.nodes[j];
      }
    }
    assert m.nodes[..i + 1] == m.nodes[..i] + [(n.id, n)];
  }

  /** Adding the remaining nodes of a model keyed by id to its own prefix
      rebuilds it. */
  lemma {:induction false} RebuildNodes(m: Model, i: nat, next: nat)
    requires KeyedById(m) && i <= |m.nodes|
    ensures NodesFromDicts(m.(nodes := m.nodes[..i]), DictsFrom(m, i), next) == Ok((m, next))
    decreases |m.nodes| - i
  {
    if i == |m.nodes| {
      assert m.nodes[..i] == m.nodes;
    } else {
      DictsFromTail(m, i);
      RebuildStep(m, i);
      RebuildNodes(m, i + 1, next);
    }
  }

  /** `from_dict(to_dict(m))` gives back `m` — name, protein id, nodes in
      order, bonds in order (dangling ones included) — whenever `m` is
      keyed by id, and consumes no fresh id. */
  lemma ModelRoundTrip(m: Model, next: nat)
    requires KeyedById(m)
    ensures ModelFromDict(ModelToDict(m), next) == Ok((m, next))
  {
    var d := ModelToDict(m);
    var m0 := m.(bonds := []);
    RebuildNodes(m0, 0, next);
    assert m0.nodes[..0] == [];
    assert d.nodes.value == DictsFrom(m0, 0);
    BondsRoundTrip(m);
  }

  /** The bond dictionaries of a model read back as its bonds. */
  lemma BondsRoundTrip(m: Model)
    ensures BondsFromDicts(ModelToDict(m).bonds.value) == Ok(m.bonds)
  {
    var bs := BondsFromDicts(ModelToDict(m).bonds.value);
    assert bs.Ok?;
    assert bs.value == m.bonds;
  }
}
